/** A request to the administrators to create or to edit a post: its
    declared choice lists, its default status, its text form and the check
    that ties the request type to the presence of a target post. */
module AdminRequests {
  import opened Wrappers

  /** One `(code, label)` entry of a `choices` list. */
  datatype Choice = Choice(code: string, caption: string)

  const RequestTypeChoices: seq<Choice> :=
    [Choice("CREATE", "게시글 생성 요청"), Choice("UPDATE", "게시글 수정 요청")]

  const StatusChoices: seq<Choice> :=
    [Choice("processing", "요청 처리중"), Choice("done", "요청 처리됨"), Choice("rejected", "거절됨")]

  /** The status of a request nobody has handled yet. */
  const DefaultStatus: string := "processing"

  /** The codes of a choice list, in order. */
  function Codes(choices: seq<Choice>): (r: seq<string>)
    ensures |r| == |choices|
    ensures forall i :: 0 <= i < |choices| ==> r[i] == choices[i].code
  {
    if choices == [] then [] else [choices[0].code] + Codes(choices[1..])
  }

  /** The request types are exactly CREATE and UPDATE; the statuses exactly
      processing, done and rejected, the default among them. */
  lemma DeclaredCodes()
    ensures Codes(RequestTypeChoices) == ["CREATE", "UPDATE"]
    ensures Codes(StatusChoices) == ["processing", "done", "rejected"]
    ensures DefaultStatus in Codes(StatusChoices)
  {
    assert Codes(StatusChoices)[0] == DefaultStatus;
  }

  /** A stored request. `targetPost`, `requester` and `reviewer` hold primary
      keys; the timestamps are ticks of an external clock. */
  datatype AdminRequest = AdminRequest(
    requester: nat,
    targetPost: Option<nat>,
    requestType: string,
    title: string,
    content: string,
    status: string,
    reviewer: Option<nat>,
    reviewComment: string,
    createdAt: int,
    updatedAt: int)

  /** A request as first saved: status at its default, no reviewer, no comment. */
  function NewRequest(requester: nat, targetPost: Option<nat>, requestType: string,
                      title: string, content: string, now: int): (r: AdminRequest)
    ensures r.status == DefaultStatus && r.status in Codes(StatusChoices)
    ensures r.reviewer.None? && r.reviewComment == ""
    ensures r.requester == requester && r.targetPost == targetPost && r.requestType == requestType
    ensures r.title == title && r.content == content
  {
    DeclaredCodes();
    AdminRequest(requester, targetPost, requestType, title, content, DefaultStatus, None, "", now, now)
  }

  /** `get_<field>_display`: the label declared for `value`, or `value`
      itself when no choice has that code. Django looks the code up in a
      dictionary built from the choices, where a repeated code keeps its
      last label; this takes the first, so it assumes distinct codes, as
      the two choice lists here have (`DisplayLabel`). */
  function Display(choices: seq<Choice>, value: string): (r: string)
    ensures value !in Codes(choices) ==> r == value
    ensures choices != [] && choices[0].code == value ==> r == choices[0].caption
  {
    if choices == [] then value
    else if choices[0].code == value then choices[0].caption
    else
      assert Codes(choices) == [choices[0].code] + Codes(choices[1..]);
      Display(choices[1..], value)
  }

  /** With distinct codes, the display of a declared code is the label
      declared with it. */
  lemma {:induction false} DisplayLabel(choices: seq<Choice>, i: nat)
    requires i < |choices|
    requires forall j, k :: 0 <= j < k < |choices| ==> choices[j].code != choices[k].code
    ensures Display(choices, choices[i].code) == choices[i].caption
  {
    if i > 0 {
      assert choices[1..][i - 1] == choices[i];
      DisplayLabel(choices[1..], i - 1);
    }
  }

  /** `__str__`: "<type label> - <title> (<status label>)". */
  function Str(r: AdminRequest): string
  {
    Display(RequestTypeChoices, r.requestType) + " - " + r.title + " (" + Display(StatusChoices, r.status) + ")"
  }

  /** A fresh creation request reads "게시글 생성 요청 - <title> (요청 처리중)";
      a request whose status is the undeclared "approved" shows the raw code. */
  lemma StrForms(requester: nat, title: string, content: string, now: int, r: AdminRequest)
    requires r.requestType == "UPDATE" && r.status == "approved"
    ensures Str(NewRequest(requester, None, "CREATE", title, content, now)) ==
              "게시글 생성 요청 - " + title + " (요청 처리중)"
    ensures Str(r) == "게시글 수정 요청 - " + r.title + " (approved)"
  {
    var n := NewRequest(requester, None, "CREATE", title, content, now);
    CreateProcessingDisplay();
    assert n.requestType == "CREATE" && n.status == "processing" && n.title == title;
    assert "게시글 생성 요청" + " - " == "게시글 생성 요청 - ";
    assert " (" + "요청 처리중" + ")" == " (요청 처리중)";
    assert Str(n) == ("게시글 생성 요청" + " - ") + title + (" (" + "요청 처리중" + ")");
    UpdateApprovedDisplay();
    assert "게시글 수정 요청" + " - " == "게시글 수정 요청 - ";
    assert " (" + "approved" + ")" == " (approved)";
    assert Str(r) == ("게시글 수정 요청" + " - ") + r.title + (" (" + "approved" + ")");
  }

  /** The labels a fresh creation request shows. */
  lemma CreateProcessingDisplay()
    ensures Display(RequestTypeChoices, "CREATE") == "게시글 생성 요청"
    ensures Display(StatusChoices, "processing") == "요청 처리중"
  {
  }

  /** The labels an approved edit request shows: the declared caption of
      UPDATE, and the raw code for the undeclared status. */
  lemma UpdateApprovedDisplay()
    ensures Display(RequestTypeChoices, "UPDATE") == "게시글 수정 요청"
    ensures Display(StatusChoices, "approved") == "approved"
  {
    DeclaredCodes();
    DisplayLabel(RequestTypeChoices, 1);
    assert "approved" !in Codes(StatusChoices);
  }

  /** A request whose type and status are declared codes reads
      "<type label> - <title> (<status label>)" with the labels declared
      for those codes. */
  lemma StrOfDeclared(r: AdminRequest, i: nat, j: nat)
    requires i < |RequestTypeChoices| && r.requestType == RequestTypeChoices[i].code
    requires j < |StatusChoices| && r.status == StatusChoices[j].code
    ensures Str(r) == RequestTypeChoices[i].caption + " - " + r.title + " (" + StatusChoices[j].caption + ")"
  {
    DisplayLabel(RequestTypeChoices, i);
    DisplayLabel(StatusChoices, j);
  }

  /** The error `clean` raises: the field it is attached to and its message. */
  datatype ValidationError = ValidationError(field: string, message: string)

  const UpdateNeedsTarget: string := "수정 요청의 경우 대상 게시글을 선택해야 합니다."
  const CreateForbidsTarget: string := "생성 요청의 경우 대상 게시글을 지정할 수 없습니다."

  /** `clean`: an edit request must name the post to edit and a creation
      request must not name one. */
  function Clean(r: AdminRequest): (e: Option<ValidationError>)
    ensures e.Some? ==> e.value.field == "target_post"
  {
    if r.requestType == "UPDATE" && r.targetPost.None? then
      Some(ValidationError("target_post", UpdateNeedsTarget))
    else if r.requestType == "CREATE" && r.targetPost.Some? then
      Some(ValidationError("target_post", CreateForbidsTarget))
    else None
  }

  /** `clean` rejects exactly an edit request without a target and a
      creation request with one; anything else, including a request type
      outside the declared codes, passes. */
  lemma CleanOutcomes(r: AdminRequest)
    ensures Clean(r).None? <==>
              !(r.requestType == "UPDATE" && r.targetPost.None?) &&
              !(r.requestType == "CREATE" && r.targetPost.Some?)
    ensures Clean(r).Some? && r.requestType == "UPDATE" ==> Clean(r).value.message == UpdateNeedsTarget
    ensures Clean(r).Some? && r.requestType == "CREATE" ==> Clean(r).value.message == CreateForbidsTarget
    ensures r.requestType !in Codes(RequestTypeChoices) ==> Clean(r).None?
  {
    DeclaredCodes();
  }
}

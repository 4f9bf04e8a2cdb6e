/** The admin form for posts. The five multiple-choice fields are stored as
    one comma-joined code string each (`clean_*`), and on opening an existing
    post the stored string is split on "," and every piece stripped to
    recover the ticked codes (`__init__`). */
module PostForms {
  import Text
  import opened Wrappers
  import opened PostModels

  /** The multiple-choice fields the form converts, in the order it visits them. */
  const TargetFields: seq<string> :=
    ["application_months", "activity_months", "eligibility", "recruitment_fields", "required_dev_levels"]

  /** A code list with no empty, comma-carrying or space-padded code: what
      the form's choice lists offer. */
  predicate CleanCodes(xs: seq<string>)
  {
    forall i :: 0 <= i < |xs| ==>
      xs[i] != "" && ',' !in xs[i] && !Text.IsSpace(xs[i][0]) && !Text.IsSpace(xs[i][|xs[i]| - 1])
  }

  // ---------------------------------------------------------------------
  // Encoding: the `clean_*` methods

  /** `",".join(data) if data else ""`. */
  function Encode(data: seq<string>): (r: string)
    ensures data == [] ==> r == ""
    ensures |data| == 1 ==> r == data[0]
    ensures |data| >= 2 ==> ',' in r
    ensures data != [] && (forall i :: 0 <= i < |data| ==> ',' !in data[i]) ==> Text.Split(r, ',') == data
  {
    if data == [] then ""
    else if forall i :: 0 <= i < |data| ==> ',' !in data[i] then
      Text.SplitJoin(data, ',');
      Text.Join(data, ",")
    else Text.Join(data, ",")
  }

  /** `clean_<field>`: the selection under `field` in the cleaned data (the
      empty selection when it is missing), encoded. */
  function CleanField(cleanedData: map<string, seq<string>>, field: string): (r: string)
    ensures field !in cleanedData ==> r == ""
    ensures field in cleanedData && CleanCodes(cleanedData[field]) ==>
              (r == "" <==> cleanedData[field] == [])
  {
    Encode(if field in cleanedData then cleanedData[field] else [])
  }

  // ---------------------------------------------------------------------
  // Decoding: the initial values of `__init__`

  /** `[v.strip() for v in raw.split(",")] if raw else []`; `None` stands for
      a missing attribute. */
  function Decode(raw: Option<string>): (r: seq<string>)
    ensures raw.None? || raw.value == "" ==> r == []
    ensures raw.Some? && raw.value != "" ==> |r| == |Text.Split(raw.value, ',')|
    ensures raw.Some? && raw.value != "" ==>
              forall i :: 0 <= i < |r| ==> r[i] == Text.Strip(Text.Split(raw.value, ',')[i])
  {
    if raw.Some? && raw.value != "" then
      var pieces := Text.Split(raw.value, ',');
      seq(|pieces|, i requires 0 <= i < |pieces| => Text.Strip(pieces[i]))
    else []
  }

  /** Decoding the encoding of a selection gives the selection back. */
  lemma EncodeDecode(xs: seq<string>)
    requires CleanCodes(xs)
    ensures Decode(Some(Encode(xs))) == xs
  {
    if xs != [] {
      var s := Encode(xs);
      assert s != "" by {
        if |xs| == 1 {
          assert s == xs[0];
        }
      }
      Text.SplitJoin(xs, ',');
      var r := Decode(Some(s));
      forall i | 0 <= i < |xs| ensures r[i] == xs[i] {
        Text.StripClean(xs[i]);
      }
    }
  }

  /** A selection holding only the empty code is encoded as "" and comes back
      as no selection at all. */
  lemma EmptyCodeLost()
    ensures Encode([""]) == "" && Decode(Some(Encode([""]))) == []
  {
  }

  /** Splitting keeps empty pieces: two codes around a doubled comma decode
      to the first code, an empty code and the second code. */
  lemma EmptyPieceKept(a: string, b: string)
    requires CleanCodes([a, b])
    ensures Decode(Some(a + ",," + b)) == [a, "", b]
  {
    assert [a, b][0] == a && [a, b][1] == b;
    var raw := a + ",," + b;
    var parts := [a, "", b];
    DoubledCommaSplits(a, b);
    assert raw != "" by { assert |raw| >= 2; }
    Text.StripClean(a);
    Text.StripClean(b);
    Text.StripClean("");
    assert forall i :: 0 <= i < |parts| ==> Text.Strip(parts[i]) == parts[i] by {
      assert parts[0] == a && parts[1] == "" && parts[2] == b;
    }
    DecodeUnchanged(raw, parts);
  }

  /** A string whose pieces are already stripped decodes to its pieces. */
  lemma DecodeUnchanged(raw: string, parts: seq<string>)
    requires raw != "" && Text.Split(raw, ',') == parts
    requires forall i :: 0 <= i < |parts| ==> Text.Strip(parts[i]) == parts[i]
    ensures Decode(Some(raw)) == parts
  {
  }

  /** A doubled comma between two comma-free strings splits into three
      pieces, the middle one empty. */
  lemma DoubledCommaSplits(a: string, b: string)
    requires ',' !in a && ',' !in b
    ensures Text.Split(a + ",," + b, ',') == [a, "", b]
  {
    var parts := [a, "", b];
    assert forall i :: 0 <= i < |parts| ==> ',' !in parts[i] by {
      assert parts[0] == a && parts[1] == "" && parts[2] == b;
    }
    assert Text.Join(parts, ",") == a + ",," + b by {
      assert Text.Join(parts[1..], ",") == "" + "," + b;
    }
    Text.SplitJoin(parts, ',');
  }


  /** A string with a blank in front of it strips to itself when it is clean. */
  lemma StripBlankPrefix(m: string)
    requires m == "" || (!Text.IsSpace(m[0]) && !Text.IsSpace(m[|m| - 1]))
    ensures Text.Strip(" " + m) == m
  {
    assert (" " + m)[1..] == m;
    assert Text.TrimStart(" " + m) == Text.TrimStart(m);
    Text.StripClean(m);
  }

  /** Each string with a blank in front: the parts after the first of
      `Join(xs, ", ")` once split on ",". */
  function Blanked(ys: seq<string>): (r: seq<string>)
    ensures |r| == |ys|
    ensures forall i :: 0 <= i < |ys| ==> r[i] == " " + ys[i]
  {
    if ys == [] then [] else [" " + ys[0]] + Blanked(ys[1..])
  }

  /** Joining the blanked strings on "," is joining the strings on ", ",
      behind one more blank. */
  lemma {:induction false} JoinBlanked(ys: seq<string>)
    requires ys != []
    ensures Text.Join(Blanked(ys), ",") == " " + Text.Join(ys, ", ")
  {
    if |ys| >= 2 {
      JoinBlanked(ys[1..]);
      var b := Blanked(ys);
      assert b[1..] == Blanked(ys[1..]);
      assert Text.Join(b, ",") == b[0] + "," + Text.Join(b[1..], ",");
    }
  }

  /** The month display of `get_*_months_display` read back by the form's
      decoder gives the months again: the ", " separator splits on its comma
      and the blank is stripped. */
  lemma DecodeReadsDisplay(months: seq<string>)
    requires months != [] && CleanCodes(months)
    ensures Decode(Some(MonthsDisplay(Some(months)))) == months
  {
    var s := MonthsDisplay(Some(months));
    var p := [months[0]] + Blanked(months[1..]);
    DisplaySplits(months);
    StripsBack(months);
    var r := Decode(Some(s));
    assert forall i :: 0 <= i < |r| ==> r[i] == months[i];
  }

  /** Stripping the first month and the blanked rest gives the months back. */
  lemma StripsBack(months: seq<string>)
    requires months != [] && CleanCodes(months)
    ensures var p := [months[0]] + Blanked(months[1..]);
            forall i :: 0 <= i < |months| ==> Text.Strip(p[i]) == months[i]
  {
    var p := [months[0]] + Blanked(months[1..]);
    forall i | 0 <= i < |months| ensures Text.Strip(p[i]) == months[i] {
      if i == 0 {
        Text.StripClean(months[0]);
      } else {
        assert p[i] == " " + months[i];
        StripBlankPrefix(months[i]);
      }
    }
  }

  /** The month display is non-empty and splits on "," into the first month
      and the blanked rest. */
  lemma DisplaySplits(months: seq<string>)
    requires months != [] && CleanCodes(months)
    ensures MonthsDisplay(Some(months)) != ""
    ensures Text.Split(MonthsDisplay(Some(months)), ',') == [months[0]] + Blanked(months[1..])
  {
    var s := MonthsDisplay(Some(months));
    var p := [months[0]] + Blanked(months[1..]);
    if |months| == 1 {
      assert s == months[0] && p == [months[0]];
    } else {
      JoinBlanked(months[1..]);
      assert s == months[0] + ", " + Text.Join(months[1..], ", ");
      assert p[1..] == Blanked(months[1..]);
      assert Text.Join(p, ",") == months[0] + "," + Text.Join(p[1..], ",");
    }
    assert s == Text.Join(p, ",");
    forall i | 0 <= i < |p| ensures ',' !in p[i] {
      if i > 0 {
        assert p[i] == " " + months[i];
      }
    }
    Text.SplitJoin(p, ',');
  }


  // ---------------------------------------------------------------------
  // The form object

  /** `getattr(instance, field, None)` for the converted fields. */
  function RawField(p: Post, field: string): (r: Option<string>)
    ensures r.Some? <==> field in TargetFields
    ensures field == "application_months" ==> r == Some(p.applicationMonths)
    ensures field == "activity_months" ==> r == Some(p.activityMonths)
    ensures field == "eligibility" ==> r == Some(p.eligibility)
    ensures field == "recruitment_fields" ==> r == Some(p.recruitmentFields)
    ensures field == "required_dev_levels" ==> r == Some(p.requiredDevLevels)
  {
    if field == "application_months" then Some(p.applicationMonths)
    else if field == "activity_months" then Some(p.activityMonths)
    else if field == "eligibility" then Some(p.eligibility)
    else if field == "recruitment_fields" then Some(p.recruitmentFields)
    else if field == "required_dev_levels" then Some(p.requiredDevLevels)
    else None
  }

  /** `self.instance and self.instance.pk`: a saved post with a truthy key. */
  predicate HasPk(p: Post)
  {
    p.pk.Some? && p.pk.value != 0
  }

  /** The decoded values of `fields`, one entry per field. */
  function Decoded(p: Post, fields: seq<string>): (r: map<string, seq<string>>)
    ensures forall k :: k in r <==> k in fields
  {
    if fields == [] then map[]
    else
      var f := fields[|fields| - 1];
      assert forall k :: k in fields <==> k in fields[..|fields| - 1] || k == f;
      Decoded(p, fields[..|fields| - 1])[f := Decode(RawField(p, f))]
  }

  lemma {:induction false} DecodedValue(p: Post, fields: seq<string>, f: string)
    requires f in fields
    ensures f in Decoded(p, fields) && Decoded(p, fields)[f] == Decode(RawField(p, f))
  {
    var last := fields[|fields| - 1];
    if f != last {
      assert f in fields[..|fields| - 1];
      DecodedValue(p, fields[..|fields| - 1], f);
    }
  }

  /** Before any field is visited nothing is added. */
  lemma DecodedNone(p: Post, base: map<string, seq<string>>)
    ensures base + Decoded(p, TargetFields[..0]) == base
  {
    assert TargetFields[..0] == [];
  }

  /** One more visited field adds its decoded value. */
  lemma DecodedStep(p: Post, base: map<string, seq<string>>, i: nat)
    requires i < |TargetFields|
    ensures base + Decoded(p, TargetFields[..i + 1]) ==
              (base + Decoded(p, TargetFields[..i]))[TargetFields[i] := Decode(RawField(p, TargetFields[i]))]
  {
    var fields := TargetFields[..i + 1];
    assert fields[..|fields| - 1] == TargetFields[..i];
    assert fields[|fields| - 1] == TargetFields[i];
  }

  /** An initial-value map after `__init__`: for a post with a key, every
      converted field decoded from the post; otherwise as it was. */
  function AfterInit(base: map<string, seq<string>>, p: Post): map<string, seq<string>>
  {
    if HasPk(p) then base + Decoded(p, TargetFields) else base
  }

  /** What `__init__` leaves in an initial-value map: the decoded stored
      strings under the five fields of a saved post, every other entry as
      it was, and no change at all for an unsaved post. */
  lemma AfterInitContents(base: map<string, seq<string>>, p: Post, k: string)
    ensures !HasPk(p) ==> AfterInit(base, p) == base
    ensures HasPk(p) && k in TargetFields ==>
              k in AfterInit(base, p) && AfterInit(base, p)[k] == Decode(RawField(p, k))
    ensures k !in TargetFields ==>
              (k in AfterInit(base, p) <==> k in base) &&
              (k in base ==> AfterInit(base, p)[k] == base[k])
  {
    if HasPk(p) && k in TargetFields {
      DecodedValue(p, TargetFields, k);
    }
  }

  class PostAdminForm {
    var instance: Post
    /** `self.fields[f].initial`, by field name. */
    var fieldInitial: map<string, seq<string>>
    /** `self.initial`. */
    var initial: map<string, seq<string>>

    /** `PostAdminForm(instance=...)`: the base form has produced
        `baseInitial` and the declared fields' `baseFieldInitial`; for a
        saved post both are then overwritten field by field. */
    constructor (instance: Post, baseInitial: map<string, seq<string>>,
                 baseFieldInitial: map<string, seq<string>>)
      ensures this.instance == instance
      ensures initial == AfterInit(baseInitial, instance)
      ensures fieldInitial == AfterInit(baseFieldInitial, instance)
    {
      this.instance := instance;
      var init := baseInitial;
      var fieldInit := baseFieldInitial;
      if HasPk(instance) {
        DecodedNone(instance, baseInitial);
        DecodedNone(instance, baseFieldInitial);
        for i := 0 to |TargetFields|
          invariant init == baseInitial + Decoded(instance, TargetFields[..i])
          invariant fieldInit == baseFieldInitial + Decoded(instance, TargetFields[..i])
        {
          var field := TargetFields[i];
          var values := Decode(RawField(instance, field));
          DecodedStep(instance, baseInitial, i);
          DecodedStep(instance, baseFieldInitial, i);
          fieldInit := fieldInit[field := values];
          init := init[field := values];
        }
        assert TargetFields[..|TargetFields|] == TargetFields;
      }
      initial := init;
      fieldInitial := fieldInit;
    }
  }

  /** After `__init__` on a saved post, the field's initial value and the
      form's initial value of every converted field are the same list. */
  lemma InitialsAgree(baseInitial: map<string, seq<string>>,
                      baseFieldInitial: map<string, seq<string>>, p: Post, k: string)
    requires HasPk(p) && k in TargetFields
    ensures k in AfterInit(baseInitial, p) && k in AfterInit(baseFieldInitial, p)
    ensures AfterInit(baseInitial, p)[k] == AfterInit(baseFieldInitial, p)[k]
  {
    AfterInitContents(baseInitial, p, k);
    AfterInitContents(baseFieldInitial, p, k);
  }

  /** Saving a selection into any of the five converted fields and
      reopening the post shows the same selection in that field. */
  lemma SaveAndReopen(p: Post, field: string, selection: seq<string>, base: map<string, seq<string>>)
    requires HasPk(p) && field in TargetFields && CleanCodes(selection)
    requires RawField(p, field) == Some(Encode(selection))
    ensures field in AfterInit(base, p)
    ensures AfterInit(base, p)[field] == selection
  {
    AfterInitContents(base, p, field);
    EncodeDecode(selection);
  }

  // ---------------------------------------------------------------------
  // The stored strings and the model's list helpers

  /** Every valid month label is a clean code: digits followed by "월". */
  lemma MonthLabelClean(m: string)
    requires m in ValidMonths()
    ensures CleanCodes([m])
  {
    ValidMonthsDistinct(m);
    var k :| 1 <= k <= 12 && m == MonthName(k);
    var d := Text.Decimal(k);
    assert m == d + "월";
    assert m[0] == d[0] && m[|m| - 1] == '월';
    forall i | 0 <= i < |m| ensures m[i] != ',' {
      if i < |d| {
        assert m[i] == d[i];
      }
    }
  }

  /** The month-list validator, applied as written to what `clean_*` stores
      for the selection "3월": the stored value is a string, not a list, so
      it is refused. */
  method StoredMonthsRefused() returns (outcome: MonthCheck)
    ensures outcome == NotAList
  {
    outcome := ValidateMonthList(JString(Encode(["3월"])));
  }

  /** The stored month string is valid when every decoded piece is a month
      label; the empty string (no month ticked) is valid. */
  predicate StoredMonthsValid(stored: string)
  {
    var d := Decode(Some(stored));
    forall i :: 0 <= i < |d| ==> d[i] in ValidMonths()
  }

  /** Every selection of months the form can store passes the stored-string
      check, and decodes back to the selection. */
  lemma EncodedMonthsValid(months: seq<string>)
    requires forall i :: 0 <= i < |months| ==> months[i] in ValidMonths()
    ensures StoredMonthsValid(Encode(months))
    ensures Decode(Some(Encode(months))) == months
  {
    forall i | 0 <= i < |months| ensures CleanCodes([months[i]]) {
      MonthLabelClean(months[i]);
    }
    assert CleanCodes(months) by {
      forall i | 0 <= i < |months|
        ensures months[i] != "" && ',' !in months[i]
                && !Text.IsSpace(months[i][0]) && !Text.IsSpace(months[i][|months[i]| - 1])
      {
        assert CleanCodes([months[i]]);
        assert [months[i]][0] == months[i];
      }
    }
    EncodeDecode(months);
  }

  /** `", ".join(value) if value else "기간 미정"` applied to the stored
      string: joining a string joins its characters. */
  function StoredDisplayAsWritten(stored: string): (r: string)
    ensures stored == "" ==> r == Undecided
  {
    if stored != "" then Text.Join(seq(|stored|, i requires 0 <= i < |stored| => [stored[i]]), ", ")
    else Undecided
  }

  /** A post stored with the single month "3월" is shown as "3, 월". */
  lemma StoredDisplayScattersCharacters()
    ensures StoredDisplayAsWritten(Encode(["3월"])) == "3, 월"
    ensures StoredDisplayAsWritten(Encode(["3월"])) != MonthsDisplay(Some(["3월"]))
  {
    var stored := Encode(["3월"]);
    assert stored == "3월";
    var chars := seq(|stored|, i requires 0 <= i < |stored| => [stored[i]]);
    assert chars == ["3", "월"];
    assert Text.Join(chars, ", ") == "3" + ", " + "월";
  }

  /** The display the helpers evidently mean for a stored string: its
      decoded months joined by ", ", or the placeholder when none. */
  function StoredDisplay(stored: string): (r: string)
    ensures stored == "" ==> r == Undecided
  {
    MonthsDisplay(Some(Decode(Some(stored))))
  }

  /** For every selection of months the form stores, the stored-string
      display equals the list display of the selection. */
  lemma StoredDisplayMatchesList(months: seq<string>)
    requires forall i :: 0 <= i < |months| ==> months[i] in ValidMonths()
    ensures StoredDisplay(Encode(months)) == MonthsDisplay(Some(months))
  {
    EncodedMonthsValid(months);
  }
}

/** The recruitment post record, its default ordering (newest first), the
    month-list validator and the month display helpers. */
module PostModels {
  import Text
  import Seqs
  import opened Wrappers

  /** A recruitment post as the views and the admin form use it. The five
      categorical fields hold comma-joined code strings (see `PostForms`);
      `pk` is `None` until the record is saved. */
  datatype Post = Post(
    pk: Option<nat>,
    author: nat,
    clubName: string,
    kind: string,            // the `type` column (club, external, bootcamp)
    activityType: string,
    applicationMonths: string,
    activityMonths: string,
    eligibility: string,
    recruitmentFields: string,
    requiredDevLevels: string,
    isPublished: bool,
    createdAt: int)

  /** A post as it is created: unsaved and not yet published. */
  function NewPost(author: nat, clubName: string, kind: string, activityType: string,
                   applicationMonths: string, activityMonths: string, eligibility: string,
                   recruitmentFields: string, requiredDevLevels: string, createdAt: int): (p: Post)
    ensures !p.isPublished && p.pk.None?
    ensures p.author == author && p.clubName == clubName && p.createdAt == createdAt
  {
    Post(None, author, clubName, kind, activityType, applicationMonths, activityMonths,
         eligibility, recruitmentFields, requiredDevLevels, false, createdAt)
  }

  // ---------------------------------------------------------------------
  // Default ordering: `ordering = ["-created_at"]`

  predicate NewestFirst(s: seq<Post>)
  {
    forall i, j :: 0 <= i < j < |s| ==> s[i].createdAt >= s[j].createdAt
  }

  /** Places `p` before the first post that is not newer than it. */
  function Insert(p: Post, s: seq<Post>): (r: seq<Post>)
    requires NewestFirst(s)
    ensures NewestFirst(r)
    ensures multiset(r) == multiset(s) + multiset{p}
    ensures |r| == |s| + 1 && (r[0] == p || (s != [] && r[0] == s[0]))
  {
    if s == [] || s[0].createdAt <= p.createdAt then
      HeadBound(p, s);
      [p] + s
    else
      NewestFirstTail(s);
      var rest := Insert(p, s[1..]);
      InsertBehindHead(p, s, rest);
      [s[0]] + rest
  }

  /** When `p` is older than the head, the head stays in front of `p`
      inserted into the rest. */
  lemma InsertBehindHead(p: Post, s: seq<Post>, rest: seq<Post>)
    requires NewestFirst(s) && s != [] && p.createdAt < s[0].createdAt
    requires NewestFirst(rest) && multiset(rest) == multiset(s[1..]) + multiset{p}
    requires rest != [] && (rest[0] == p || (s[1..] != [] && rest[0] == s[1..][0]))
    ensures NewestFirst([s[0]] + rest)
    ensures multiset([s[0]] + rest) == multiset(s) + multiset{p}
  {
    NewestFirstTail(s);
    HeadBound(s[0], rest);
    assert s == [s[0]] + s[1..];
  }

  /** Dropping the newest post leaves a newest-first list. */
  lemma NewestFirstTail(s: seq<Post>)
    requires NewestFirst(s) && s != []
    ensures NewestFirst(s[1..])
    ensures |s| > 1 ==> s[1].createdAt <= s[0].createdAt
  {
    var t := s[1..];
    forall i, j | 0 <= i < j < |t| ensures t[i].createdAt >= t[j].createdAt {
      assert t[i] == s[i + 1] && t[j] == s[j + 1];
    }
  }

  /** A post at least as new as the head of a newest-first list may go in front. */
  lemma HeadBound(x: Post, s: seq<Post>)
    requires NewestFirst(s)
    requires s != [] ==> s[0].createdAt <= x.createdAt
    ensures NewestFirst([x] + s)
  {
    var r := [x] + s;
    forall i, j | 0 <= i < j < |r| ensures r[i].createdAt >= r[j].createdAt {
      if i == 0 && j > 1 {
        assert r[j] == s[j - 1];
      }
    }
  }

  /** `order_by("-created_at")`: the same posts, newest first. */
  function SortNewestFirst(s: seq<Post>): (r: seq<Post>)
    ensures NewestFirst(r)
    ensures multiset(r) == multiset(s)
  {
    if s == [] then []
    else
      assert s == [s[0]] + s[1..];
      Insert(s[0], SortNewestFirst(s[1..]))
  }

  /** Sorting neither adds nor loses a post. */
  lemma SortedMembers(s: seq<Post>, p: Post)
    ensures p in SortNewestFirst(s) <==> p in s
  {
    assert p in SortNewestFirst(s) <==> p in multiset(SortNewestFirst(s));
  }

  /** Keeping some posts of a newest-first list leaves it newest first. */
  lemma {:induction false} FilterKeepsOrder(s: seq<Post>, keep: Post -> bool)
    requires NewestFirst(s)
    ensures NewestFirst(Seqs.Filter(s, keep))
  {
    if s != [] {
      NewestFirstTail(s);
      FilterKeepsOrder(s[1..], keep);
      var rest := Seqs.Filter(s[1..], keep);
      if keep(s[0]) {
        if rest != [] {
          assert rest[0] in s[1..];
          var j :| 0 <= j < |s[1..]| && s[1..][j] == rest[0];
          assert rest[0] == s[j + 1];
        }
        HeadBound(s[0], rest);
      }
    }
  }


  /** Removing posts from a newest-first list keeps it newest first. */
  lemma {:induction false} SubsequenceKeepsOrder(a: seq<Post>, b: seq<Post>)
    requires Seqs.SubsequenceOf(a, b) && NewestFirst(b)
    ensures NewestFirst(a)
    decreases |b|
  {
    if a != [] {
      assert b != [];
      if a[0] == b[0] && Seqs.SubsequenceOf(a[1..], b[1..]) {
        SubsequenceKeepsOrder(a[1..], b[1..]);
        SubsequenceMembers(a[1..], b[1..]);
        forall j | 0 < j < |a| ensures a[0].createdAt >= a[j].createdAt {
          assert a[j] == a[1..][j - 1];
          assert a[j] in b[1..];
          var k :| 0 <= k < |b[1..]| && b[1..][k] == a[j];
          assert b[k + 1] == a[j];
        }
      } else {
        SubsequenceKeepsOrder(a, b[1..]);
      }
    }
  }

  lemma {:induction false} SubsequenceMembers(a: seq<Post>, b: seq<Post>)
    requires Seqs.SubsequenceOf(a, b)
    ensures forall x :: x in a ==> x in b
    decreases |b|
  {
    if a != [] {
      if a[0] == b[0] && Seqs.SubsequenceOf(a[1..], b[1..]) {
        SubsequenceMembers(a[1..], b[1..]);
        assert forall x :: x in a ==> x == a[0] || x in a[1..];
      } else {
        SubsequenceMembers(a, b[1..]);
      }
    }
  }

  // ---------------------------------------------------------------------
  // Month strings: "1월" ... "12월"

  /** The month label `f"{m}월"`. */
  function MonthName(m: nat): string
  {
    Text.Decimal(m) + "월"
  }

  /** `[f"{i}월" for i in range(1, 13)]`. */
  function ValidMonths(): (r: seq<string>)
    ensures |r| == 12
  {
    seq(12, i requires 0 <= i < 12 => MonthName(i + 1))
  }

  /** The valid-month list, written out: twelve entries, "1월" to "12월". */
  lemma ValidMonthsListed()
    ensures ValidMonths() == ["1월", "2월", "3월", "4월", "5월", "6월",
                              "7월", "8월", "9월", "10월", "11월", "12월"]
  {
    var v := ValidMonths();
    assert v[0] == "1월" && v[1] == "2월" && v[2] == "3월" && v[3] == "4월";
    assert v[4] == "5월" && v[5] == "6월" && v[6] == "7월" && v[7] == "8월";
    assert v[8] == "9월";
    assert Text.Decimal(10) == "10" && v[9] == "10월";
    assert Text.Decimal(11) == "11" && v[10] == "11월";
    assert Text.Decimal(12) == "12" && v[11] == "12월";
  }

  /** The twelve labels are pairwise different, and a string is a valid month
      exactly when it is the label of a month from 1 to 12. */
  lemma ValidMonthsDistinct(s: string)
    ensures Seqs.Distinct(ValidMonths())
    ensures s in ValidMonths() <==> exists m :: 1 <= m <= 12 && s == MonthName(m)
  {
    LabelsDiffer();
    if s in ValidMonths() {
      var i :| 0 <= i < 12 && ValidMonths()[i] == s;
      assert s == MonthName(i + 1);
    }
    if m :| 1 <= m <= 12 && s == MonthName(m) {
      assert ValidMonths()[m - 1] == s;
    }
  }

  /** Labels of different months differ: one-digit labels by their digit,
      two-digit labels by their second digit, and the two kinds by length. */
  lemma LabelsDiffer()
    ensures Seqs.Distinct(ValidMonths())
  {
    ValidMonthsListed();
    var v := ValidMonths();
    forall i, j | 0 <= i < j < 12 ensures v[i] != v[j] {
      if j < 9 {
        assert v[i][0] != v[j][0];
      } else if i < 9 {
        assert |v[i]| != |v[j]|;
      } else {
        assert v[i][1] != v[j][1];
      }
    }
  }

  // ---------------------------------------------------------------------
  // validate_month_list

  /** A JSON value, as stored in a JSON column. */
  datatype Json =
    | JNull
    | JBool(b: bool)
    | JNumber(n: int)
    | JString(s: string)
    | JArray(items: seq<Json>)
    | JObject(members: seq<(string, Json)>)

  /** What `validate_month_list` reports. */
  datatype MonthCheck = Accepted | NotAList | InvalidItem(item: Json)

  predicate IsMonthItem(j: Json)
  {
    j.JString? && j.s in ValidMonths()
  }

  /** Checks that `value` is a list of month labels; on failure names the
      first offending item. */
  method ValidateMonthList(value: Json) returns (outcome: MonthCheck)
    ensures outcome == NotAList <==> !value.JArray?
    ensures outcome == Accepted <==>
              value.JArray? && forall i :: 0 <= i < |value.items| ==> IsMonthItem(value.items[i])
    ensures outcome.InvalidItem? ==>
              value.JArray? &&
              exists k :: 0 <= k < |value.items| && value.items[k] == outcome.item &&
                          !IsMonthItem(value.items[k]) &&
                          forall j :: 0 <= j < k ==> IsMonthItem(value.items[j])
  {
    if !value.JArray? {
      return NotAList;
    }
    var valid := ValidMonths();
    var items := value.items;
    for i := 0 to |items|
      invariant forall j :: 0 <= j < i ==> IsMonthItem(items[j])
    {
      var item := items[i];
      if !item.JString? || item.s !in valid {
        return InvalidItem(item);
      }
    }
    return Accepted;
  }

  // ---------------------------------------------------------------------
  // get_application_months_display / get_activity_months_display

  const Undecided: string := "기간 미정"

  /** The display helpers: the placeholder when the value is missing or
      empty, otherwise the items joined by ", ". */
  function MonthsDisplay(months: Option<seq<string>>): (r: string)
    ensures months.None? || months.value == [] ==> r == Undecided
  {
    if months.Some? && months.value != [] then Text.Join(months.value, ", ") else Undecided
  }

  /** A non-empty list of valid months never shows the placeholder: its
      display starts with the first month's digits. */
  lemma {:induction false} DisplayOfMonths(months: seq<string>)
    requires months != []
    requires forall i :: 0 <= i < |months| ==> months[i] in ValidMonths()
    ensures MonthsDisplay(Some(months)) != Undecided
    ensures |MonthsDisplay(Some(months))| > 0 && '0' <= MonthsDisplay(Some(months))[0] <= '9'
  {
    ValidMonthsListed();
    var first := months[0];
    assert first in ValidMonths();
    var r := MonthsDisplay(Some(months));
    if |months| > 1 {
      assert r == first + ", " + Text.Join(months[1..], ", ");
    }
    assert r[0] == first[0];
    assert '0' <= first[0] <= '9';
    assert Undecided[0] == '기';
  }
}

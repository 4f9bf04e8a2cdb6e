/** The recommendation views of the front page. Unlike the listing filter,
    they match codes as case-insensitive substrings (`__icontains`), so a
    code also matches inside a longer token. */
module MainViews {
  import Text
  import Seqs
  import opened Wrappers
  import opened PostModels
  import opened Query

  /** The profile attributes the views read from the signed-in user; an
      empty string stands for an unset (falsy) attribute. */
  datatype Profile = Profile(interestField: string, affiliation: string, devLevel: string)

  /** `request.user`. */
  datatype Viewer = Anonymous | Member(nickname: string, profile: Profile)

  /** The profile clause `q_interest | q_eligibility`: nothing when no code
      is set, otherwise some set code found in its column. */
  predicate ProfileMatches(profile: Profile, p: Post)
  {
    (profile.interestField == "" && profile.affiliation == "" && profile.devLevel == "")
    || (profile.interestField != "" && Text.ContainsIgnoreCase(p.recruitmentFields, profile.interestField))
    || (profile.affiliation != "" && Text.ContainsIgnoreCase(p.eligibility, profile.affiliation))
    || (profile.devLevel != "" && Text.ContainsIgnoreCase(p.eligibility, profile.devLevel))
  }

  /** `activity_type` from the query string, when given and non-empty, must
      equal the post's activity type. */
  predicate ActivityMatches(activityType: Option<string>, p: Post)
  {
    activityType.None? || activityType.value == "" || p.activityType == activityType.value
  }

  /** Every clause of the front-page query. */
  predicate Recommends(profile: Profile, month: nat, activityType: Option<string>, p: Post)
  {
    p.isPublished
    && Text.ContainsIgnoreCase(p.applicationMonths, MonthName(month))
    && ProfileMatches(profile, p)
    && ActivityMatches(activityType, p)
  }

  /** The profile clause as `main` builds it: each set code adds an
      `icontains` test to its group, and an unset one adds nothing. */
  lemma ProfileQueryHolds(profile: Profile, qInterest: Q, qEligibility: Q, p: Post)
    requires qInterest == if profile.interestField == "" then Empty
                          else OrQ(Empty, Leaf(IContains(RecruitmentFields, profile.interestField)))
    requires var qAffiliation := if profile.affiliation == "" then Empty
                                 else OrQ(Empty, Leaf(IContains(Eligibility, profile.affiliation)));
             qEligibility == if profile.devLevel == "" then qAffiliation
                             else OrQ(qAffiliation, Leaf(IContains(Eligibility, profile.devLevel)))
    ensures Holds(OrQ(qInterest, qEligibility), p) == ProfileMatches(profile, p)
  {
    var qAffiliation := if profile.affiliation == "" then Empty
                        else OrQ(Empty, Leaf(IContains(Eligibility, profile.affiliation)));
    OrHolds(qAffiliation, Leaf(IContains(Eligibility, profile.devLevel)), p);
    OrHolds(qInterest, qEligibility, p);
  }

  /** `main`: builds `q_published & q_month & (q_interest | q_eligibility) &
      q_activity_type` step by step for a signed-in viewer and returns the
      distinct matching posts in the default (newest-first) order. `month` is
      the current month of the clock. */
  method MainRecommendations(db: seq<Post>, viewer: Viewer, month: nat, activityType: Option<string>)
    returns (recommended: seq<Post>)
    ensures viewer.Anonymous? ==> recommended == []
    ensures Seqs.Distinct(recommended) && NewestFirst(recommended)
    ensures forall p :: p in recommended <==>
              viewer.Member? && p in db && Recommends(viewer.profile, month, activityType, p)
  {
    if viewer.Anonymous? {
      return [];
    }
    var profile := viewer.profile;
    var currentMonth := MonthName(month);
    var qPublished := Leaf(PublishedIs(true));
    var qMonth := Leaf(IContains(ApplicationMonths, currentMonth));

    var qInterest := Empty;
    if profile.interestField != "" {
      qInterest := OrQ(qInterest, Leaf(IContains(RecruitmentFields, profile.interestField)));
    }

    var qEligibility := Empty;
    if profile.affiliation != "" {
      qEligibility := OrQ(qEligibility, Leaf(IContains(Eligibility, profile.affiliation)));
    }
    if profile.devLevel != "" {
      qEligibility := OrQ(qEligibility, Leaf(IContains(Eligibility, profile.devLevel)));
    }

    var qActivityType := Empty;
    if activityType.Some? && activityType.value != "" {
      qActivityType := Leaf(ActivityTypeIs(activityType.value));
    }

    var finalQuery := AndQ(AndQ(AndQ(qPublished, qMonth), OrQ(qInterest, qEligibility)), qActivityType);
    forall p ensures Holds(finalQuery, p) == Recommends(profile, month, activityType, p) {
      AndHolds(AndQ(AndQ(qPublished, qMonth), OrQ(qInterest, qEligibility)), qActivityType, p);
      AndHolds(AndQ(qPublished, qMonth), OrQ(qInterest, qEligibility), p);
      ProfileQueryHolds(profile, qInterest, qEligibility, p);
    }
    var ordered := SortNewestFirst(db);
    var matching := FilterQ(ordered, finalQuery);
    recommended := Seqs.Dedup(matching);
    DistinctMatches(db, finalQuery);
  }

  /** `.filter(q).distinct()` over the newest-first table: each matching
      post once, newest first. */
  lemma DistinctMatches(db: seq<Post>, q: Q)
    ensures var r := Seqs.Dedup(FilterQ(SortNewestFirst(db), q));
            Seqs.Distinct(r) && NewestFirst(r) && forall p :: p in r <==> p in db && Holds(q, p)
  {
    var ordered := SortNewestFirst(db);
    var matching := FilterQ(ordered, q);
    var r := Seqs.Dedup(matching);
    Seqs.FilterIsSubsequence(ordered, p => Holds(q, p));
    SubsequenceKeepsOrder(matching, ordered);
    Seqs.DedupIsSubsequence(matching);
    SubsequenceKeepsOrder(r, matching);
    forall p ensures p in r <==> p in db && Holds(q, p) {
      SortedMembers(db, p);
      if p in r {
        var i :| 0 <= i < |r| && r[i] == p;
        var j :| 0 <= j < |matching| && matching[j] == p;
      }
      if p in db && Holds(q, p) {
        var i :| 0 <= i < |ordered| && ordered[i] == p;
        var j :| 0 <= j < |matching| && matching[j] == p;
      }
    }
  }

  /** `recommend_page`: for a signed-in viewer with an interest code, the
      published posts whose recruitment fields contain that code, newest
      first; nothing otherwise. */
  function RecommendPage(db: seq<Post>, viewer: Viewer): (r: seq<Post>)
    ensures viewer.Anonymous? || viewer.profile.interestField == "" ==> r == []
    ensures NewestFirst(r)
  {
    if viewer.Member? && viewer.profile.interestField != "" then
      SortNewestFirst(FilterQ(db, AndQ(Leaf(PublishedIs(true)),
                                       Leaf(IContains(RecruitmentFields, viewer.profile.interestField)))))
    else []
  }

  /** The recommendation page holds exactly the published posts whose
      recruitment fields contain the viewer's interest code. */
  lemma RecommendPageContents(db: seq<Post>, viewer: Viewer, p: Post)
    ensures p in RecommendPage(db, viewer) <==>
              viewer.Member? && viewer.profile.interestField != "" && p in db && p.isPublished
              && Text.ContainsIgnoreCase(p.recruitmentFields, viewer.profile.interestField)
  {
    if viewer.Member? && viewer.profile.interestField != "" {
      var q := AndQ(Leaf(PublishedIs(true)), Leaf(IContains(RecruitmentFields, viewer.profile.interestField)));
      assert Holds(q, p) == (p.isPublished && Text.ContainsIgnoreCase(p.recruitmentFields, viewer.profile.interestField));
      var r := FilterQ(db, q);
      SortedMembers(r, p);
      if p in r {
        var i :| 0 <= i < |r| && r[i] == p;
        assert Holds(q, r[i]) && r[i] in db;
      }
      if p in db && Holds(q, p) {
        var i :| 0 <= i < |db| && db[i] == p;
        assert db[i] in r;
      }
    }
  }

  // ---------------------------------------------------------------------
  // Substring matching

  /** Lower-casing distributes over concatenation. */
  lemma LowerAppend(a: string, b: string)
    ensures Text.Lower(a + b) == Text.Lower(a) + Text.Lower(b)
  {
  }

  /** A string is found, ignoring case, at the start of any longer string it
      begins: in `main`, "BACKEND" matches the fields "BACKEND2,FRONTEND"
      and the month "1월" matches the months "11월" only in the sense that
      "1" + "1월" ends with "1월" (see `SuffixContained`). */
  lemma PrefixContained(code: string, rest: string)
    ensures Text.ContainsIgnoreCase(code + rest, code)
  {
    LowerAppend(code, rest);
    assert Text.OccursAt(Text.Lower(code + rest), Text.Lower(code), 0);
  }

  /** A string is found, ignoring case, at the end of any string it ends. */
  lemma SuffixContained(front: string, code: string)
    ensures Text.ContainsIgnoreCase(front + code, code)
  {
    LowerAppend(front, code);
    var s := Text.Lower(front + code);
    assert s[|front|..|front| + |code|] == Text.Lower(code);
    assert Text.OccursAt(s, Text.Lower(code), |front|);
  }

  /** In January the month clause accepts a post open only in November:
      "1월" is a substring of "11월", although it is not one of its tokens. */
  lemma JanuaryMatchesNovember(p: Post)
    requires p.applicationMonths == "11월"
    ensures Text.ContainsIgnoreCase(p.applicationMonths, MonthName(1))
    ensures MonthName(1) !in Text.Split(p.applicationMonths, ',')
  {
    assert MonthName(1) == "1월";
    assert "1" + "1월" == p.applicationMonths;
    SuffixContained("1", "1월");
    Text.SplitJoin(["11월"], ',');
  }
}

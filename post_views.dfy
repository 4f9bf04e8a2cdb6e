/** The post listing views: the published-newest-first base query, the
    per-type list, and the AJAX filter that narrows the base query by type,
    recruitment field, quarter (expanded to months), eligibility and level. */
module PostViews {
  import Text
  import Seqs
  import opened Wrappers
  import opened PostModels
  import opened Query

  /** `request.GET`: one string per parameter name. */
  type Params = map<string, string>

  /** `request.GET.get(key)`. */
  function Get(params: Params, key: string): (r: Option<string>)
    ensures r.Some? <==> key in params
    ensures r.Some? ==> r.value == params[key]
  {
    if key in params then Some(params[key]) else None
  }

  /** `Post.objects.filter(is_published=True).order_by("-created_at")`. */
  function PublishedNewestFirst(db: seq<Post>): seq<Post>
  {
    SortNewestFirst(FilterQ(db, Leaf(PublishedIs(true))))
  }

  /** The base listing holds exactly the published posts of the table, newest first. */
  lemma PublishedNewestFirstContents(db: seq<Post>, p: Post)
    ensures NewestFirst(PublishedNewestFirst(db))
    ensures p in PublishedNewestFirst(db) <==> p in db && p.isPublished
  {
    var published := FilterQ(db, Leaf(PublishedIs(true)));
    assert p in PublishedNewestFirst(db) <==> p in multiset(published);
  }

  /** `posts_list`: the base listing. `posts_type_list`: the base listing
      restricted to one post type, compared with the lower-cased type code. */
  function TypeList(db: seq<Post>, typeCode: string): seq<Post>
  {
    Seqs.Filter(PublishedNewestFirst(db), (p: Post) => p.kind == Text.Lower(typeCode))
  }

  // ---------------------------------------------------------------------
  // Parameter parsing

  /** `param and param not in ["ALL", ""]`. */
  predicate Active(param: Option<string>)
  {
    param.Some? && param.value != "" && param.value != "ALL"
  }

  /** `[v for v in value.split(",") if v]`. */
  function Codes(value: string): (r: seq<string>)
    ensures forall i :: 0 <= i < |r| ==> r[i] != "" && ',' !in r[i]
  {
    Text.SplitPiecesFree(value, ',');
    Seqs.Filter(Text.Split(value, ','), v => v != "")
  }

  /** The codes an active parameter contributes; none for an inactive one. */
  function GroupCodes(param: Option<string>): seq<string>
  {
    if Active(param) then Codes(param.value) else []
  }

  /** The quarter table of `posts_ajax_list`. */
  function QuarterMonths(name: string): seq<string>
  {
    if name == "1분기" then ["1월", "2월", "3월"]
    else if name == "2분기" then ["4월", "5월", "6월"]
    else if name == "3분기" then ["7월", "8월", "9월"]
    else if name == "4분기" then ["10월", "11월", "12월"]
    else []
  }

  /** The months of all named quarters, in order, repetitions included. */
  function ExpandQuarters(names: seq<string>): seq<string>
  {
    if names == [] then [] else ExpandQuarters(names[..|names| - 1]) + QuarterMonths(names[|names| - 1])
  }

  /** The months a quarter parameter asks for (before de-duplication). */
  function QuarterParamMonths(param: Option<string>): seq<string>
  {
    ExpandQuarters(GroupCodes(param))
  }

  // ---------------------------------------------------------------------
  // What the filter keeps

  /** Some code is a whole token of the column. */
  predicate AnyCodeIsToken(codes: seq<string>, p: Post, col: Column)
  {
    exists i :: 0 <= i < |codes| && codes[i] in Text.Split(ColumnValue(p, col), ',')
  }

  /** One group of the filter: no codes, no constraint; otherwise some code
      must be a whole token of the column (OR within the group). */
  predicate GroupOk(codes: seq<string>, p: Post, col: Column)
  {
    codes == [] || AnyCodeIsToken(codes, p, col)
  }

  /** The `type` parameter, if active, must equal the post type after lower-casing. */
  predicate TypeOk(params: Params, p: Post)
  {
    var t := Get(params, "type");
    !Active(t) || p.kind == Text.Lower(t.value)
  }

  /** A post survives every group of the AJAX filter (AND across groups). */
  predicate AjaxKeeps(params: Params, p: Post)
  {
    TypeOk(params, p)
    && GroupOk(GroupCodes(Get(params, "field")), p, RecruitmentFields)
    && GroupOk(QuarterParamMonths(Get(params, "quarter")), p, ApplicationMonths)
    && GroupOk(GroupCodes(Get(params, "eligibility")), p, Eligibility)
    && GroupOk(GroupCodes(Get(params, "level")), p, RequiredDevLevels)
  }

  /** The AJAX listing, specified: the base listing, kept where every group agrees. */
  function AjaxResult(db: seq<Post>, params: Params): seq<Post>
  {
    Seqs.Filter(PublishedNewestFirst(db), p => AjaxKeeps(params, p))
  }

  // ---------------------------------------------------------------------
  // posts_ajax_list, step by step

  /** One OR-group: accumulate `q |= Q(col__regex=...)` for every code, then
      `posts = posts.filter(q)`. */
  method FilterByCodes(posts: seq<Post>, col: Column, codes: seq<string>) returns (r: seq<Post>)
    requires forall i :: 0 <= i < |codes| ==> ',' !in codes[i]
    ensures r == Seqs.Filter(posts, p => GroupOk(codes, p, col))
  {
    r := posts;
    if codes != [] {
      var q := Empty;
      for i := 0 to |codes|
        invariant q == AnyToken(col, codes[..i])
      {
        assert codes[..i + 1][..i] == codes[..i];
        q := OrQ(q, Leaf(TokenRegex(col, codes[i])));
      }
      assert codes[..|codes|] == codes;
      forall p | p in posts ensures Holds(q, p) == GroupOk(codes, p, col) {
        AnyTokenHolds(col, codes, p);
      }
      Seqs.FilterCongruent(posts, p => Holds(q, p), p => GroupOk(codes, p, col));
      r := FilterQ(posts, q);
    } else {
      Seqs.FilterAll(posts, p => GroupOk(codes, p, col));
    }
  }

  /** The quarter group: `months.extend(quarter_map.get(qv, []))` for every
      name, `months = list(dict.fromkeys(months))`, then the OR-group over
      `application_months`. */
  method FilterByQuarters(posts: seq<Post>, names: seq<string>) returns (r: seq<Post>)
    ensures r == Seqs.Filter(posts, p => GroupOk(ExpandQuarters(names), p, ApplicationMonths))
  {
    var months: seq<string> := [];
    for i := 0 to |names|
      invariant months == ExpandQuarters(names[..i])
    {
      assert names[..i + 1][..i] == names[..i];
      months := months + QuarterMonths(names[i]);
    }
    assert names[..|names|] == names;
    var all := months;
    months := Seqs.Dedup(months);
    forall m | m in all ensures ',' !in m {
      ExpandQuarterMonthsClean(names, m);
    }
    r := FilterByCodes(posts, ApplicationMonths, months);
    forall p | p in posts
      ensures GroupOk(months, p, ApplicationMonths) == GroupOk(all, p, ApplicationMonths)
    {
      DedupSameGroup(all, p);
    }
    Seqs.FilterCongruent(posts, p => GroupOk(months, p, ApplicationMonths),
                         p => GroupOk(all, p, ApplicationMonths));
  }

  /** `posts_ajax_list`: re-binds `posts` after each active group. */
  method AjaxList(db: seq<Post>, params: Params) returns (posts: seq<Post>)
    ensures posts == AjaxResult(db, params)
  {
    var base := PublishedNewestFirst(db);
    posts := base;
    var typeParam := Get(params, "type");
    if Active(typeParam) {
      posts := FilterQ(posts, Leaf(KindIs(Text.Lower(typeParam.value))));
    }
    ghost var p0 := posts;
    TypeStage(base, params, p0);
    var fieldCodes := GroupCodes(Get(params, "field"));
    posts := FilterByCodes(posts, RecruitmentFields, fieldCodes);
    ghost var p1 := posts;
    var quarterNames := GroupCodes(Get(params, "quarter"));
    posts := FilterByQuarters(posts, quarterNames);
    ghost var p2 := posts;
    var eligibilityCodes := GroupCodes(Get(params, "eligibility"));
    posts := FilterByCodes(posts, Eligibility, eligibilityCodes);
    ghost var p3 := posts;
    var levelCodes := GroupCodes(Get(params, "level"));
    posts := FilterByCodes(posts, RequiredDevLevels, levelCodes);
    AjaxStages(base, params, fieldCodes, ExpandQuarters(quarterNames), eligibilityCodes, levelCodes,
               p0, p1, p2, p3, posts);
  }

  /** The type step keeps exactly the posts of the requested type. */
  lemma TypeStage(base: seq<Post>, params: Params, p0: seq<Post>)
    requires var t := Get(params, "type");
             p0 == if Active(t) then FilterQ(base, Leaf(KindIs(Text.Lower(t.value)))) else base
    ensures p0 == Seqs.Filter(base, p => TypeOk(params, p))
  {
    var t := Get(params, "type");
    if !Active(t) {
      Seqs.FilterAll(base, p => TypeOk(params, p));
    } else {
      Seqs.FilterCongruent(base, p => Holds(Leaf(KindIs(Text.Lower(t.value))), p),
                           p => TypeOk(params, p));
    }
  }

  /** Chaining the five filters is filtering once by their conjunction. */
  lemma AjaxStages(base: seq<Post>, params: Params,
                   field: seq<string>, months: seq<string>, elig: seq<string>, level: seq<string>,
                   p0: seq<Post>, p1: seq<Post>, p2: seq<Post>, p3: seq<Post>, p4: seq<Post>)
    requires field == GroupCodes(Get(params, "field"))
    requires months == QuarterParamMonths(Get(params, "quarter"))
    requires elig == GroupCodes(Get(params, "eligibility"))
    requires level == GroupCodes(Get(params, "level"))
    requires p0 == Seqs.Filter(base, p => TypeOk(params, p))
    requires p1 == Seqs.Filter(p0, p => GroupOk(field, p, RecruitmentFields))
    requires p2 == Seqs.Filter(p1, p => GroupOk(months, p, ApplicationMonths))
    requires p3 == Seqs.Filter(p2, p => GroupOk(elig, p, Eligibility))
    requires p4 == Seqs.Filter(p3, p => GroupOk(level, p, RequiredDevLevels))
    ensures p4 == Seqs.Filter(base, p => AjaxKeeps(params, p))
  {
    var k0 := p => TypeOk(params, p);
    var k1 := p => k0(p) && GroupOk(field, p, RecruitmentFields);
    var k2 := p => k1(p) && GroupOk(months, p, ApplicationMonths);
    var k3 := p => k2(p) && GroupOk(elig, p, Eligibility);
    var k4 := p => k3(p) && GroupOk(level, p, RequiredDevLevels);
    Seqs.FilterFilter(base, k0, p => GroupOk(field, p, RecruitmentFields), k1);
    Seqs.FilterFilter(base, k1, p => GroupOk(months, p, ApplicationMonths), k2);
    Seqs.FilterFilter(base, k2, p => GroupOk(elig, p, Eligibility), k3);
    Seqs.FilterFilter(base, k3, p => GroupOk(level, p, RequiredDevLevels), k4);
    Seqs.FilterCongruent(base, k4, p => AjaxKeeps(params, p));
  }

  lemma {:induction false} ExpandQuarterMonthsClean(names: seq<string>, m: string)
    requires m in ExpandQuarters(names)
    ensures ',' !in m
  {
    if names != [] {
      var init := names[..|names| - 1];
      if m in ExpandQuarters(init) {
        ExpandQuarterMonthsClean(init, m);
      }
    }
  }

  /** De-duplicating the month list does not change which posts pass. */
  lemma DedupSameGroup(months: seq<string>, p: Post)
    ensures GroupOk(Seqs.Dedup(months), p, ApplicationMonths) == GroupOk(months, p, ApplicationMonths)
  {
    var d := Seqs.Dedup(months);
    var tokens := Text.Split(ColumnValue(p, ApplicationMonths), ',');
    if i :| 0 <= i < |d| && d[i] in tokens {
      var j :| 0 <= j < |months| && months[j] == d[i];
    }
    if j :| 0 <= j < |months| && months[j] in tokens {
      var i :| 0 <= i < |d| && d[i] == months[j];
    }
  }

  // ---------------------------------------------------------------------
  // Properties of the listing

  /** The AJAX result is newest first, is obtained from the base listing by
      removing posts only, and holds exactly the published posts of the table
      that pass every active group. */
  lemma AjaxResultShape(db: seq<Post>, params: Params, p: Post)
    ensures NewestFirst(AjaxResult(db, params))
    ensures Seqs.SubsequenceOf(AjaxResult(db, params), PublishedNewestFirst(db))
    ensures p in AjaxResult(db, params) <==> p in db && p.isPublished && AjaxKeeps(params, p)
  {
    PublishedNewestFirstContents(db, p);
    FilterKeepsOrder(PublishedNewestFirst(db), p => AjaxKeeps(params, p));
    Seqs.FilterIsSubsequence(PublishedNewestFirst(db), p => AjaxKeeps(params, p));
  }

  /** A parameter that is absent, "", "ALL" or made of commas only gives no
      codes, so its group constrains nothing. */
  lemma InactiveParamNoConstraint(param: Option<string>, p: Post, col: Column)
    requires param.None? || param.value == "" || param.value == "ALL"
             || forall i :: 0 <= i < |param.value| ==> param.value[i] == ','
    ensures GroupCodes(param) == []
    ensures GroupOk(GroupCodes(param), p, col)
  {
    if Active(param) {
      CommasOnlyEmptyPieces(param.value);
      var pieces := Text.Split(param.value, ',');
      Seqs.FilterCongruent(pieces, v => v != "", v => false);
      NothingKept(pieces);
    }
  }

  lemma {:induction false} NothingKept(s: seq<string>)
    ensures Seqs.Filter(s, (v: string) => false) == []
  {
    if s != [] {
      NothingKept(s[1..]);
    }
  }

  /** Splitting a string of commas gives empty pieces only. */
  lemma {:induction false} CommasOnlyEmptyPieces(s: string)
    requires forall i :: 0 <= i < |s| ==> s[i] == ','
    ensures forall piece :: piece in Text.Split(s, ',') ==> piece == ""
    decreases |s|
  {
    if s != [] {
      assert Text.IndexOf(s, ',') == 0;
      CommasOnlyEmptyPieces(s[1..]);
    }
  }

  /** A parameter holding one code (no comma, not "ALL") contributes that code. */
  lemma SingleCode(v: string)
    requires v != "" && v != "ALL" && ',' !in v
    ensures GroupCodes(Some(v)) == [v]
  {
    Text.SplitJoin([v], ',');
    assert Text.Split(v, ',') == [v];
    assert Seqs.Filter([v], (x: string) => x != "") == [v] + Seqs.Filter([v][1..], (x: string) => x != "");
  }

  /** A field of two comma-free codes splits into those two tokens. */
  lemma TwoTokens(a: string, b: string)
    requires ',' !in a && ',' !in b
    ensures Text.Split(a + "," + b, ',') == [a, b]
  {
    Text.SplitJoin([a, b], ',');
    assert Text.Join([a, b], [',']) == a + "," + b;
  }

  /** A code matches a field only as a whole token: a code that is a proper
      prefix of the field's first token ("BACKEND" in "BACKEND2,FRONTEND") is
      a substring of the field yet does not select the post, while the second
      token does. */
  lemma WholeTokenOnly(p: Post, code: string, suffix: string, rest: string)
    requires code != "" && code != "ALL" && suffix != "" && rest != "" && rest != "ALL"
    requires ',' !in code && ',' !in suffix && ',' !in rest && rest != code
    requires p.recruitmentFields == code + suffix + "," + rest
    ensures Text.Contains(p.recruitmentFields, code)
    ensures !GroupOk(GroupCodes(Some(code)), p, RecruitmentFields)
    ensures GroupOk(GroupCodes(Some(rest)), p, RecruitmentFields)
  {
    assert Text.OccursAt(p.recruitmentFields, code, 0);
    SingleCode(code);
    SingleCode(rest);
    assert ',' !in code + suffix;
    TwoTokens(code + suffix, rest);
    assert code != code + suffix by { assert |code| < |code + suffix|; }
  }

  /** Quarter `n분기` stands for exactly its three months; any other name
      stands for none. */
  lemma QuarterExpansion(name: string)
    ensures QuarterMonths(Text.Decimal(1) + "분기") == [MonthName(1), MonthName(2), MonthName(3)]
    ensures QuarterMonths(Text.Decimal(2) + "분기") == [MonthName(4), MonthName(5), MonthName(6)]
    ensures QuarterMonths(Text.Decimal(3) + "분기") == [MonthName(7), MonthName(8), MonthName(9)]
    ensures QuarterMonths(Text.Decimal(4) + "분기") == [MonthName(10), MonthName(11), MonthName(12)]
    ensures name !in {"1분기", "2분기", "3분기", "4분기"} ==> QuarterMonths(name) == []
  {
    UnknownQuarter(name);
    Quarter1();
    Quarter2();
    Quarter3();
    Quarter4();
  }

  lemma UnknownQuarter(name: string)
    ensures name !in {"1분기", "2분기", "3분기", "4분기"} ==> QuarterMonths(name) == []
  {
  }

  lemma Quarter1()
    ensures QuarterMonths(Text.Decimal(1) + "분기") == [MonthName(1), MonthName(2), MonthName(3)]
  {
    assert Text.Decimal(1) == "1" && Text.Decimal(2) == "2" && Text.Decimal(3) == "3";
    assert Text.Decimal(1) + "분기" == "1분기";
    assert MonthName(1) == "1월" && MonthName(2) == "2월" && MonthName(3) == "3월";
  }

  lemma Quarter2()
    ensures QuarterMonths(Text.Decimal(2) + "분기") == [MonthName(4), MonthName(5), MonthName(6)]
  {
    assert Text.Decimal(2) == "2" && Text.Decimal(4) == "4" && Text.Decimal(5) == "5" && Text.Decimal(6) == "6";
    assert Text.Decimal(2) + "분기" == "2분기";
    assert MonthName(4) == "4월" && MonthName(5) == "5월" && MonthName(6) == "6월";
  }

  lemma Quarter3()
    ensures QuarterMonths(Text.Decimal(3) + "분기") == [MonthName(7), MonthName(8), MonthName(9)]
  {
    assert Text.Decimal(3) == "3" && Text.Decimal(7) == "7" && Text.Decimal(8) == "8" && Text.Decimal(9) == "9";
    assert Text.Decimal(3) + "분기" == "3분기";
    assert MonthName(7) == "7월" && MonthName(8) == "8월" && MonthName(9) == "9월";
  }

  lemma Quarter4()
    ensures QuarterMonths(Text.Decimal(4) + "분기") == [MonthName(10), MonthName(11), MonthName(12)]
  {
    assert Text.Decimal(1) == "1" && Text.Decimal(4) == "4" && Text.Decimal(10) == "10" && Text.Decimal(11) == "11" && Text.Decimal(12) == "12";
    assert Text.Decimal(4) + "분기" == "4분기";
    assert MonthName(10) == "10월" && MonthName(11) == "11월" && MonthName(12) == "12월";
  }

  /** When no quarter name is known, the quarter group constrains nothing. */
  lemma {:induction false} UnknownQuartersNoConstraint(names: seq<string>)
    requires forall i :: 0 <= i < |names| ==> names[i] !in {"1분기", "2분기", "3분기", "4분기"}
    ensures ExpandQuarters(names) == []
  {
    if names != [] {
      UnknownQuartersNoConstraint(names[..|names| - 1]);
    }
  }

  /** `posts_type_list` is the AJAX listing with only a `type` parameter. */
  lemma TypeListIsAjaxByType(db: seq<Post>, typeCode: string)
    requires typeCode != "" && typeCode != "ALL"
    ensures TypeList(db, typeCode) == AjaxResult(db, map["type" := typeCode])
  {
    var params := map["type" := typeCode];
    forall p ensures AjaxKeeps(params, p) == (p.kind == Text.Lower(typeCode)) {
      assert GroupCodes(Get(params, "field")) == [];
      assert GroupCodes(Get(params, "quarter")) == [];
      assert GroupCodes(Get(params, "eligibility")) == [];
      assert GroupCodes(Get(params, "level")) == [];
    }
    Seqs.FilterCongruent(PublishedNewestFirst(db), (p: Post) => p.kind == Text.Lower(typeCode),
                         p => AjaxKeeps(params, p));
  }

  /** `posts_type_list`, for every type code: newest first, and holding
      exactly the published posts whose type is the lower-cased code. */
  lemma TypeListContents(db: seq<Post>, typeCode: string, p: Post)
    ensures NewestFirst(TypeList(db, typeCode))
    ensures p in TypeList(db, typeCode) <==> p in db && p.isPublished && p.kind == Text.Lower(typeCode)
  {
    var base := PublishedNewestFirst(db);
    PublishedNewestFirstContents(db, p);
    FilterKeepsOrder(base, (p: Post) => p.kind == Text.Lower(typeCode));
    if p in base && p.kind == Text.Lower(typeCode) {
      var i :| 0 <= i < |base| && base[i] == p;
    }
  }

  /** For the code "ALL" the two listings part ways: the type page looks
      for posts typed "all", while the AJAX listing drops the type filter,
      so every published post of another type is on one and not the other. */
  lemma AllTypeListsDiffer(db: seq<Post>, p: Post)
    requires p in db && p.isPublished && p.kind != "all"
    ensures p !in TypeList(db, "ALL")
    ensures p in AjaxResult(db, map["type" := "ALL"])
  {
    assert Text.Lower("ALL") == "all";
    TypeListContents(db, "ALL", p);
    var params := map["type" := "ALL"];
    assert GroupCodes(Get(params, "field")) == [];
    assert GroupCodes(Get(params, "quarter")) == [];
    assert GroupCodes(Get(params, "eligibility")) == [];
    assert GroupCodes(Get(params, "level")) == [];
    assert AjaxKeeps(params, p);
    AjaxResultShape(db, params, p);
  }

  /** A post just created is unpublished, so no listing shows it. */
  lemma NewPostHidden(db: seq<Post>, p: Post)
    requires !p.isPublished
    ensures PublishedNewestFirst(db + [p]) == PublishedNewestFirst(db)
  {
    var published := (x: Post) => Holds(Leaf(PublishedIs(true)), x);
    Seqs.FilterAppend(db, [p], published);
    assert !published(p);
    assert Seqs.Filter([p], published) == Seqs.Filter([p][1..], published) == [];
    assert FilterQ(db + [p], Leaf(PublishedIs(true))) == FilterQ(db, Leaf(PublishedIs(true)));
  }

  /** With one field code and one quarter name, the AJAX filter keeps a post
      exactly when the code is one of its field tokens and, if the quarter is
      known, one of the quarter's months is one of its month tokens. */
  lemma FieldAndQuarter(p: Post, code: string, quarter: string)
    requires GroupCodes(Some(code)) == [code] && GroupCodes(Some(quarter)) == [quarter]
    ensures AjaxKeeps(map["field" := code, "quarter" := quarter], p) <==>
              (code in Text.Split(p.recruitmentFields, ',') &&
               (QuarterMonths(quarter) == [] ||
                exists m :: m in QuarterMonths(quarter) && m in Text.Split(p.applicationMonths, ',')))
  {
    var params := map["field" := code, "quarter" := quarter];
    FieldAndQuarterParams(code, quarter);
    var months := QuarterParamMonths(Some(quarter));
    assert months == QuarterMonths(quarter) by {
      assert ExpandQuarters([quarter]) == ExpandQuarters([]) + QuarterMonths(quarter);
    }
    assert AjaxKeeps(params, p) <==>
             GroupOk([code], p, RecruitmentFields) && GroupOk(months, p, ApplicationMonths);
    var tokens := Text.Split(p.applicationMonths, ',');
    if i :| 0 <= i < |months| && months[i] in tokens {
      assert months[i] in QuarterMonths(quarter);
    }
    if m :| m in QuarterMonths(quarter) && m in tokens {
      var i :| 0 <= i < |months| && months[i] == m;
    }
    if code in Text.Split(p.recruitmentFields, ',') {
      assert [code][0] in Text.Split(ColumnValue(p, RecruitmentFields), ',');
    }
  }

  /** Only the field and quarter parameters of such a request are present. */
  lemma FieldAndQuarterParams(code: string, quarter: string)
    ensures var params := map["field" := code, "quarter" := quarter];
            Get(params, "type") == None && Get(params, "eligibility") == None
            && Get(params, "level") == None
            && Get(params, "field") == Some(code) && Get(params, "quarter") == Some(quarter)
  {
    var params := map["field" := code, "quarter" := quarter];
    assert params.Keys == {"field", "quarter"};
  }

  /** The scenario post's fields and months split into these tokens. */
  lemma ScenarioTokens(p: Post)
    requires p.recruitmentFields == "BACKEND,FRONTEND"
    requires p.applicationMonths == "3월,4월"
    ensures Text.Split(p.recruitmentFields, ',') == ["BACKEND", "FRONTEND"]
    ensures Text.Split(p.applicationMonths, ',') == ["3월", "4월"]
  {
    var f := "BACKEND" + "," + "FRONTEND";
    assert Text.Split(f, ',') == ["BACKEND", "FRONTEND"] by { TwoTokens("BACKEND", "FRONTEND"); }
    assert f == p.recruitmentFields;
    var m := "3월" + "," + "4월";
    assert Text.Split(m, ',') == ["3월", "4월"] by { TwoTokens("3월", "4월"); }
    assert m == p.applicationMonths;
  }

  /** A post whose fields are "BACKEND,FRONTEND" and whose months are
      "3월,4월" (split into their tokens, see `ScenarioTokens`) passes
      `field=BACKEND` together with any quarter that holds one of its months:
      `1분기` (March is in the first quarter) as well as `2분기` (April). */
  lemma QuarterScenario(p: Post, quarter: string, month: string)
    requires Text.Split(p.recruitmentFields, ',') == ["BACKEND", "FRONTEND"]
    requires Text.Split(p.applicationMonths, ',') == ["3월", "4월"]
    requires quarter != "" && quarter != "ALL" && ',' !in quarter
    requires month in QuarterMonths(quarter) && month in ["3월", "4월"]
    ensures AjaxKeeps(map["field" := "BACKEND", "quarter" := quarter], p)
  {
    SingleCode("BACKEND");
    SingleCode(quarter);
    FieldAndQuarter(p, "BACKEND", quarter);
  }
}

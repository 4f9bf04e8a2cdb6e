/** Django's `Q` objects over posts: lookups, combined with `|` and `&`, and
    `QuerySet.filter(q)`. An empty `Q()` is the identity of both `|` and `&`
    (combining with it returns the other operand) and, given to `filter`,
    keeps every row. */
module Query {
  import Text
  import Seqs
  import opened Wrappers
  import opened PostModels

  /** The comma-delimited code columns a lookup can test. */
  datatype Column = RecruitmentFields | ApplicationMonths | Eligibility | RequiredDevLevels

  function ColumnValue(p: Post, c: Column): string
  {
    match c
    case RecruitmentFields => p.recruitmentFields
    case ApplicationMonths => p.applicationMonths
    case Eligibility => p.eligibility
    case RequiredDevLevels => p.requiredDevLevels
  }

  /** One keyword argument of `Q(...)` or `filter(...)`. */
  datatype Lookup =
    | PublishedIs(b: bool)                 // is_published=b
    | KindIs(kind: string)                 // type=kind
    | ActivityTypeIs(activityType: string) // activity_type=...
    | TokenRegex(col: Column, code: string) // col__regex=r"(^|,)code(,|$)"
    | IContains(col: Column, text: string)  // col__icontains=text

  predicate LookupHolds(l: Lookup, p: Post)
  {
    match l
    case PublishedIs(b) => p.isPublished == b
    case KindIs(k) => p.kind == k
    case ActivityTypeIs(a) => p.activityType == a
    case TokenRegex(c, v) => Text.RegexToken(ColumnValue(p, c), v)
    case IContains(c, t) => Text.ContainsIgnoreCase(ColumnValue(p, c), t)
  }

  datatype Q = Empty | Leaf(lookup: Lookup) | Or(left: Q, right: Q) | And(left: Q, right: Q)

  /** `a | b`. */
  function OrQ(a: Q, b: Q): (r: Q)
    ensures a.Empty? ==> r == b
    ensures b.Empty? ==> r == a
  {
    if a.Empty? then b else if b.Empty? then a else Or(a, b)
  }

  /** `a & b`. */
  function AndQ(a: Q, b: Q): (r: Q)
    ensures a.Empty? ==> r == b
    ensures b.Empty? ==> r == a
  {
    if a.Empty? then b else if b.Empty? then a else And(a, b)
  }

  /** Whether the row `p` satisfies `q`; `Q()` constrains nothing. */
  predicate Holds(q: Q, p: Post)
  {
    match q
    case Empty => true
    case Leaf(l) => LookupHolds(l, p)
    case Or(a, b) => Holds(a, p) || Holds(b, p)
    case And(a, b) => Holds(a, p) && Holds(b, p)
  }

  /** `&` is conjunction of the operands' conditions. */
  lemma AndHolds(a: Q, b: Q, p: Post)
    ensures Holds(AndQ(a, b), p) == (Holds(a, p) && Holds(b, p))
  {
  }

  /** `|` is disjunction, except that an empty operand drops out instead of
      acting as "true". */
  lemma OrHolds(a: Q, b: Q, p: Post)
    ensures !a.Empty? && !b.Empty? ==> Holds(OrQ(a, b), p) == (Holds(a, p) || Holds(b, p))
    ensures a.Empty? ==> Holds(OrQ(a, b), p) == Holds(b, p)
    ensures b.Empty? ==> Holds(OrQ(a, b), p) == Holds(a, p)
  {
  }

  /** `queryset.filter(q)`. */
  function FilterQ(s: seq<Post>, q: Q): (r: seq<Post>)
    ensures forall i :: 0 <= i < |r| ==> Holds(q, r[i]) && r[i] in s
    ensures forall i :: 0 <= i < |s| && Holds(q, s[i]) ==> s[i] in r
  {
    Seqs.Filter(s, p => Holds(q, p))
  }

  /** `q_0 | q_1 | ... ` built by `q = Q()` and then `q |= Q(col__regex=...)`
      for every code, as a value: the disjunction of one token lookup per code. */
  function AnyToken(col: Column, codes: seq<string>): (q: Q)
    ensures codes == [] <==> q.Empty?
  {
    if codes == [] then Empty else OrQ(AnyToken(col, codes[..|codes| - 1]), Leaf(TokenRegex(col, codes[|codes| - 1])))
  }

  /** The accumulated disjunction holds exactly when some code is a whole
      token of the column. */
  lemma {:induction false} AnyTokenHolds(col: Column, codes: seq<string>, p: Post)
    requires codes != []
    requires forall i :: 0 <= i < |codes| ==> ',' !in codes[i]
    ensures Holds(AnyToken(col, codes), p) <==>
              exists i :: 0 <= i < |codes| && codes[i] in Text.Split(ColumnValue(p, col), ',')
  {
    var init := codes[..|codes| - 1];
    var last := codes[|codes| - 1];
    Text.RegexTokenIsPiece(ColumnValue(p, col), last);
    if init != [] {
      AnyTokenHolds(col, init, p);
      if Holds(AnyToken(col, codes), p) && !Holds(Leaf(TokenRegex(col, last)), p) {
        var i :| 0 <= i < |init| && init[i] in Text.Split(ColumnValue(p, col), ',');
        assert codes[i] == init[i];
      }
      if i :| 0 <= i < |codes| && codes[i] in Text.Split(ColumnValue(p, col), ',') {
        if i < |init| {
          assert init[i] == codes[i];
        }
      }
    }
  }
}

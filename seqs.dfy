/** Sequence operations behind query results: keeping the rows a condition
    accepts, SQL `DISTINCT` / `dict.fromkeys` de-duplication, and the
    subsequence relation between a result and the rows it was taken from. */
module Seqs {

  /** The elements of `s` that `keep` accepts, in their original order. */
  function Filter<T>(s: seq<T>, keep: T -> bool): (r: seq<T>)
    ensures |r| <= |s|
    ensures forall i :: 0 <= i < |r| ==> r[i] in s && keep(r[i])
    ensures forall i :: 0 <= i < |s| && keep(s[i]) ==> s[i] in r
  {
    if s == [] then []
    else if keep(s[0]) then [s[0]] + Filter(s[1..], keep)
    else Filter(s[1..], keep)
  }

  /** `a` is `b` with some elements removed, order kept. */
  predicate SubsequenceOf<T(==)>(a: seq<T>, b: seq<T>)
    decreases |b|
  {
    a == [] || (b != [] && ((a[0] == b[0] && SubsequenceOf(a[1..], b[1..])) || SubsequenceOf(a, b[1..])))
  }

  /** Filtering only removes elements. */
  lemma {:induction false} FilterIsSubsequence<T>(s: seq<T>, keep: T -> bool)
    ensures SubsequenceOf(Filter(s, keep), s)
  {
    if s != [] {
      FilterIsSubsequence(s[1..], keep);
      if keep(s[0]) {
        assert Filter(s, keep)[1..] == Filter(s[1..], keep);
      } else {
        var r := Filter(s, keep);
        if r != [] {
          assert SubsequenceOf(r, s[1..]);
        }
      }
    }
  }

  /** Filtering twice is filtering once with both conditions. */
  lemma {:induction false} FilterFilter<T>(s: seq<T>, f: T -> bool, g: T -> bool, fg: T -> bool)
    requires forall x :: fg(x) == (f(x) && g(x))
    ensures Filter(Filter(s, f), g) == Filter(s, fg)
  {
    if s != [] {
      FilterFilter(s[1..], f, g, fg);
    }
  }

  /** Two conditions that agree on every element of `s` filter it alike. */
  lemma {:induction false} FilterCongruent<T>(s: seq<T>, f: T -> bool, g: T -> bool)
    requires forall x :: x in s ==> f(x) == g(x)
    ensures Filter(s, f) == Filter(s, g)
  {
    if s != [] {
      FilterCongruent(s[1..], f, g);
    }
  }

  /** A condition that accepts everything keeps the sequence as it is. */
  lemma {:induction false} FilterAll<T>(s: seq<T>, keep: T -> bool)
    requires forall x :: x in s ==> keep(x)
    ensures Filter(s, keep) == s
  {
    if s != [] {
      FilterAll(s[1..], keep);
    }
  }

  /** No element occurs twice. */
  predicate Distinct<T(==)>(s: seq<T>)
  {
    forall i, j :: 0 <= i < j < |s| ==> s[i] != s[j]
  }

  /** `list(dict.fromkeys(s))`: each element once, at its first occurrence. */
  function Dedup<T(==)>(s: seq<T>): (r: seq<T>)
    ensures Distinct(r)
    ensures forall i :: 0 <= i < |r| ==> r[i] in s
    ensures forall i :: 0 <= i < |s| ==> s[i] in r
    ensures |r| <= |s|
  {
    if s == [] then []
    else
      var rest := Dedup(s[..|s| - 1]);
      if s[|s| - 1] in rest then rest else rest + [s[|s| - 1]]
  }

  /** A sequence without repetitions is its own de-duplication. */
  lemma {:induction false} DedupDistinct<T>(s: seq<T>)
    requires Distinct(s)
    ensures Dedup(s) == s
  {
    if s != [] {
      var init := s[..|s| - 1];
      assert Distinct(init);
      DedupDistinct(init);
      assert s[|s| - 1] !in init;
      assert init + [s[|s| - 1]] == s;
    }
  }

  /** The position of the first occurrence of `x` in `s`. */
  function FirstIndex<T(==)>(s: seq<T>, x: T): (k: nat)
    requires x in s
    ensures k < |s| && s[k] == x
    ensures forall j :: 0 <= j < k ==> s[j] != x
  {
    if s[0] == x then 0 else 1 + FirstIndex(s[1..], x)
  }

  /** An element of a prefix first occurs where it first occurs in the prefix. */
  lemma FirstIndexPrefix<T>(s: seq<T>, n: nat, x: T)
    requires n <= |s| && x in s[..n]
    ensures x in s && FirstIndex(s, x) == FirstIndex(s[..n], x)
  {
    var k := FirstIndex(s[..n], x);
    assert s[k] == x;
    assert forall j :: 0 <= j < k ==> s[j] == s[..n][j];
  }

  /** De-duplication keeps the first occurrence of every element in order:
      it is a subsequence of its input, and its elements come in the order
      of their first occurrences. */
  lemma {:induction false} DedupIsSubsequence<T>(s: seq<T>)
    ensures SubsequenceOf(Dedup(s), s)
    ensures forall i, j :: 0 <= i < j < |Dedup(s)| ==> FirstIndex(s, Dedup(s)[i]) < FirstIndex(s, Dedup(s)[j])
  {
    DedupFirstOrder(s);
    DedupSubsequence(s);
  }

  lemma {:induction false} DedupSubsequence<T>(s: seq<T>)
    ensures SubsequenceOf(Dedup(s), s)
  {
    if s != [] {
      var init := s[..|s| - 1];
      DedupSubsequence(init);
      var rest := Dedup(init);
      if s[|s| - 1] in rest {
        SubsequenceAppend(rest, init, s[|s| - 1]);
      } else {
        SubsequenceExtend(rest, init, s[|s| - 1]);
      }
      assert init + [s[|s| - 1]] == s;
    }
  }

  /** The elements of `Dedup(s)` come in the order of their first
      occurrences in `s`. */
  lemma {:induction false} DedupFirstOrder<T>(s: seq<T>)
    ensures forall i, j :: 0 <= i < j < |Dedup(s)| ==> FirstIndex(s, Dedup(s)[i]) < FirstIndex(s, Dedup(s)[j])
  {
    if s != [] {
      var n := |s| - 1;
      var init := s[..n];
      var x := s[n];
      DedupFirstOrder(init);
      var rest := Dedup(init);
      var r := Dedup(s);
      assert r == if x in rest then rest else rest + [x];
      forall i, j | 0 <= i < j < |r| ensures FirstIndex(s, r[i]) < FirstIndex(s, r[j]) {
        assert r[i] == rest[i] && rest[i] in init;
        FirstIndexPrefix(s, n, rest[i]);
        if j < |rest| {
          assert r[j] == rest[j] && rest[j] in init;
          FirstIndexPrefix(s, n, rest[j]);
          assert FirstIndex(init, rest[i]) < FirstIndex(init, rest[j]);
        } else {
          assert r[j] == x && x !in init;
          assert FirstIndex(s, x) == n;
          assert FirstIndex(init, rest[i]) < n;
        }
      }
    }
  }

  lemma {:induction false} SubsequenceAppend<T>(a: seq<T>, b: seq<T>, x: T)
    requires SubsequenceOf(a, b)
    ensures SubsequenceOf(a, b + [x])
    decreases |b|
  {
    if a != [] {
      assert b != [];
      assert (b + [x])[1..] == b[1..] + [x];
      if a[0] == b[0] && SubsequenceOf(a[1..], b[1..]) {
        SubsequenceAppend(a[1..], b[1..], x);
      } else {
        SubsequenceAppend(a, b[1..], x);
      }
    }
  }

  lemma {:induction false} SubsequenceExtend<T>(a: seq<T>, b: seq<T>, x: T)
    requires SubsequenceOf(a, b)
    ensures SubsequenceOf(a + [x], b + [x])
    decreases |b|
  {
    if a == [] {
      assert SubsequenceOf(([] + [x])[1..], ([x] + [])[1..]);
      if b != [] {
        SubsequenceExtend(a, b[1..], x);
        assert (b + [x])[1..] == b[1..] + [x];
      }
    } else {
      assert (b + [x])[1..] == b[1..] + [x];
      assert (a + [x])[1..] == a[1..] + [x];
      if a[0] == b[0] && SubsequenceOf(a[1..], b[1..]) {
        SubsequenceExtend(a[1..], b[1..], x);
      } else {
        SubsequenceExtend(a, b[1..], x);
      }
    }
  }

  /** Filtering distributes over concatenation. */
  lemma {:induction false} FilterAppend<T>(s: seq<T>, t: seq<T>, keep: T -> bool)
    ensures Filter(s + t, keep) == Filter(s, keep) + Filter(t, keep)
  {
    if s != [] {
      var st := s + t;
      assert st[0] == s[0] && st[1..] == s[1..] + t;
      FilterAppend(s[1..], t, keep);
      assert Filter(st, keep) == (if keep(s[0]) then [s[0]] else []) + Filter(s[1..] + t, keep);
    } else {
      assert s + t == t;
    }
  }
}

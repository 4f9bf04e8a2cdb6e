/** Python string operations the core relies on, over `seq<char>`:
    `str.split(",")`, `",".join(...)`, `str.strip()`, ASCII `str.lower()`,
    substring containment and decimal formatting of a natural number. */
module Text {

  /** Python's `sep.join(parts)`. */
  function Join(parts: seq<string>, sep: string): (r: string)
    ensures parts == [] ==> r == ""
    ensures |parts| == 1 ==> r == parts[0]
  {
    if |parts| == 0 then ""
    else if |parts| == 1 then parts[0]
    else parts[0] + sep + Join(parts[1..], sep)
  }

  /** Index of the first occurrence of `c` in `s`, or `|s|` when there is none. */
  function IndexOf(s: string, c: char): (k: nat)
    ensures k <= |s|
    ensures forall j :: 0 <= j < k ==> s[j] != c
    ensures k < |s| ==> s[k] == c
  {
    if |s| == 0 then 0
    else if s[0] == c then 0
    else 1 + IndexOf(s[1..], c)
  }

  /** Python's `s.split(sep)` for a one-character separator: every piece is
      kept, empty ones included, so the result is never empty. */
  function Split(s: string, sep: char): (r: seq<string>)
    ensures |r| >= 1
    decreases |s|
  {
    var k := IndexOf(s, sep);
    if k == |s| then [s]
    else [s[..k]] + Split(s[k + 1..], sep)
  }

  /** No piece produced by splitting on `sep` contains `sep`. */
  lemma {:induction false} SplitPiecesFree(s: string, sep: char)
    ensures forall piece :: piece in Split(s, sep) ==> sep !in piece
    decreases |s|
  {
    var k := IndexOf(s, sep);
    if k < |s| {
      SplitPiecesFree(s[k + 1..], sep);
      assert sep !in s[..k];
    }
  }

  /** Joining on `sep` and splitting on it again gives back the parts, as long
      as there is at least one part and none contains the separator. */
  lemma {:induction false} SplitJoin(parts: seq<string>, sep: char)
    requires parts != []
    requires forall i :: 0 <= i < |parts| ==> sep !in parts[i]
    ensures Split(Join(parts, [sep]), sep) == parts
  {
    if |parts| == 1 {
      assert IndexOf(parts[0], sep) == |parts[0]|;
    } else {
      var s := Join(parts, [sep]);
      var head := parts[0];
      var tail := Join(parts[1..], [sep]);
      assert s == head + [sep] + tail;
      FirstSeparator(head, tail, sep);
      assert Split(s, sep) == [head] + Split(tail, sep);
      SplitJoin(parts[1..], sep);
    }
  }

  /** In `head + sep + tail` with `sep` not in `head`, the first separator
      is the one after `head`. */
  lemma FirstSeparator(head: string, tail: string, sep: char)
    requires sep !in head
    ensures var s := head + [sep] + tail;
            IndexOf(s, sep) == |head| && s[..|head|] == head && s[|head| + 1..] == tail
  {
    var s := head + [sep] + tail;
    assert s[|head|] == sep;
    assert forall j :: 0 <= j < |head| ==> s[j] == head[j];
    assert s[..|head|] == head;
    assert s[|head| + 1..] == tail;
  }

  /** The regular expression `(^|,)v(,|$)` matches `s` at position `i`:
      `v` starts there, preceded by the start of `s` or a comma and followed
      by a comma or the end of `s`. */
  predicate TokenAt(s: string, v: string, i: nat)
  {
    i + |v| <= |s| && (i == 0 || s[i - 1] == ',') && s[i..i + |v|] == v
    && (i + |v| == |s| || s[i + |v|] == ',')
  }

  /** Django's `__regex` lookup with the pattern `(^|,)v(,|$)` (searched
      anywhere in `s`). */
  predicate RegexToken(s: string, v: string)
  {
    exists i: nat :: i <= |s| && TokenAt(s, v, i)
  }

  /** For a code without commas, the regular expression matches exactly when
      the code is one of the comma-separated pieces of the field: a whole
      token, never part of one. */
  lemma RegexTokenIsPiece(s: string, v: string)
    requires ',' !in v
    ensures RegexToken(s, v) <==> v in Split(s, ',')
  {
    if RegexToken(s, v) {
      var i: nat :| i <= |s| && TokenAt(s, v, i);
      MatchIsPiece(s, v, i);
    }
    if v in Split(s, ',') {
      PieceIsMatch(s, v);
    }
  }

  /** A match of a comma-free code is one of the pieces. */
  lemma {:induction false} MatchIsPiece(s: string, v: string, i: nat)
    requires ',' !in v && TokenAt(s, v, i)
    ensures v in Split(s, ',')
    decreases |s|
  {
    var k := IndexOf(s, ',');
    if i <= k {
      MatchInHead(s, v, k, i);
      assert Split(s, ',')[0] == s[..k];
    } else {
      var rest := s[k + 1..];
      MatchShift(s, v, k, i - (k + 1));
      MatchIsPiece(rest, v, i - (k + 1));
      assert Split(s, ',') == [s[..k]] + Split(rest, ',');
    }
  }

  /** Every piece is matched by the pattern built from it. */
  lemma {:induction false} PieceIsMatch(s: string, v: string)
    requires v in Split(s, ',')
    ensures RegexToken(s, v)
    decreases |s|
  {
    var k := IndexOf(s, ',');
    if v == s[..k] {
      HeadTokenMatches(s, k);
    } else {
      assert k < |s|;
      var rest := s[k + 1..];
      assert Split(s, ',') == [s[..k]] + Split(rest, ',');
      PieceIsMatch(rest, v);
      var j: nat :| j <= |rest| && TokenAt(rest, v, j);
      MatchShift(s, v, k, j);
    }
  }

  /** The first piece matches at position 0. */
  lemma HeadTokenMatches(s: string, k: nat)
    requires k == IndexOf(s, ',')
    ensures TokenAt(s, s[..k], 0)
  {
    assert s[0..k] == s[..k];
  }

  /** A match that starts inside the first piece is the first piece. */
  lemma MatchInHead(s: string, v: string, k: nat, i: nat)
    requires ',' !in v
    requires k == IndexOf(s, ',') && i <= k && TokenAt(s, v, i)
    ensures v == s[..k]
  {
    assert i == 0;
  }

  /** Matches in the text after the first comma are matches in `s`, shifted. */
  lemma MatchShift(s: string, v: string, k: nat, j: nat)
    requires k < |s| && s[k] == ','
    ensures TokenAt(s[k + 1..], v, j) <==> TokenAt(s, v, j + k + 1)
  {
    var rest := s[k + 1..];
    if j + |v| <= |rest| {
      assert rest[j..j + |v|] == s[j + k + 1..j + k + 1 + |v|];
      if j > 0 {
        assert rest[j - 1] == s[j + k];
      }
      if j + |v| < |rest| {
        assert rest[j + |v|] == s[j + k + 1 + |v|];
      }
    }
  }

  /** Python's `str.isspace()` for one character. */
  predicate IsSpace(c: char)
  {
    ('\t' <= c <= '\r') || ('\U{1C}' <= c <= '\U{1F}') || c == ' '
    || c == '\U{85}' || c == '\U{A0}' || c == '\U{1680}'
    || ('\U{2000}' <= c <= '\U{200A}') || c == '\U{2028}' || c == '\U{2029}'
    || c == '\U{202F}' || c == '\U{205F}' || c == '\U{3000}'
  }

  /** Removes leading whitespace. */
  function TrimStart(s: string): (r: string)
    ensures |r| <= |s| && r == s[|s| - |r|..]
    ensures r == [] || !IsSpace(r[0])
    ensures forall j :: 0 <= j < |s| - |r| ==> IsSpace(s[j])
  {
    if |s| > 0 && IsSpace(s[0]) then TrimStart(s[1..]) else s
  }

  /** Removes trailing whitespace. */
  function TrimEnd(s: string): (r: string)
    ensures |r| <= |s| && r == s[..|r|]
    ensures r == [] || !IsSpace(r[|r| - 1])
    ensures forall j :: |r| <= j < |s| ==> IsSpace(s[j])
  {
    if |s| > 0 && IsSpace(s[|s| - 1]) then TrimEnd(s[..|s| - 1]) else s
  }

  /** Python's `s.strip()`: whitespace removed at both ends. */
  function Strip(s: string): string
  {
    TrimEnd(TrimStart(s))
  }

  /** A string with no whitespace at either end is its own `strip()`. */
  lemma StripClean(s: string)
    requires s == [] || (!IsSpace(s[0]) && !IsSpace(s[|s| - 1]))
    ensures Strip(s) == s
  {
  }

  /** ASCII lower-casing of one character. */
  function LowerChar(c: char): char
  {
    if 'A' <= c <= 'Z' then (c as int + 32) as char else c
  }

  /** `str.lower()` restricted to ASCII letters. */
  function Lower(s: string): (r: string)
    ensures |r| == |s|
    ensures forall i :: 0 <= i < |s| ==> r[i] == LowerChar(s[i])
  {
    seq(|s|, i requires 0 <= i < |s| => LowerChar(s[i]))
  }

  /** `needle` occurs in `s` starting at position `i`. */
  predicate OccursAt(s: string, needle: string, i: nat)
  {
    i + |needle| <= |s| && s[i..i + |needle|] == needle
  }

  /** SQL `LIKE '%needle%'`: `needle` is a substring of `s`. */
  predicate Contains(s: string, needle: string)
  {
    exists i: nat :: i <= |s| && OccursAt(s, needle, i)
  }

  /** Django's `__icontains` lookup (ASCII case folding). */
  predicate ContainsIgnoreCase(s: string, needle: string)
  {
    Contains(Lower(s), Lower(needle))
  }

  /** Decimal digits of a natural number, as `str(n)` prints them. */
  function Decimal(n: nat): (r: string)
    ensures |r| >= 1
    ensures forall i :: 0 <= i < |r| ==> '0' <= r[i] <= '9'
  {
    if n < 10 then ["0123456789"[n]] else Decimal(n / 10) + ["0123456789"[n % 10]]
  }
}

/**
 * String primitives the dashboard relies on: a three-way string comparison
 * (standing in for `localeCompare`), `trim`, `toLowerCase` and `includes`.
 */
module Text {

  /** Three-way lexicographic comparison by character code: -1, 0 or 1. */
  function StrCompare(a: string, b: string): (r: int)
    ensures -1 <= r <= 1
  {
    if |a| == 0 && |b| == 0 then 0
    else if |a| == 0 then -1
    else if |b| == 0 then 1
    else if a[0] < b[0] then -1
    else if a[0] > b[0] then 1
    else StrCompare(a[1..], b[1..])
  }

  /** The comparison reports "equal" exactly for equal strings. */
  lemma {:induction false} StrCompareZeroIff(a: string, b: string)
    ensures StrCompare(a, b) == 0 <==> a == b
  {
    if |a| > 0 && |b| > 0 && a[0] == b[0] {
      StrCompareZeroIff(a[1..], b[1..]);
      assert a == [a[0]] + a[1..];
      assert b == [b[0]] + b[1..];
    }
  }

  /** Swapping the operands negates the result. */
  lemma {:induction false} StrCompareFlip(a: string, b: string)
    ensures StrCompare(b, a) == -StrCompare(a, b)
  {
    if |a| > 0 && |b| > 0 && a[0] == b[0] {
      StrCompareFlip(a[1..], b[1..]);
    }
  }

  /** "Not after" is transitive. */
  lemma {:induction false} StrCompareTransitive(a: string, b: string, c: string)
    requires StrCompare(a, b) <= 0 && StrCompare(b, c) <= 0
    ensures StrCompare(a, c) <= 0
  {
    if |a| > 0 && |b| > 0 && |c| > 0 && a[0] == b[0] && b[0] == c[0] {
      StrCompareTransitive(a[1..], b[1..], c[1..]);
    }
  }

  /** ECMAScript WhiteSpace and LineTerminator code points: what `String.prototype.trim` strips. */
  predicate IsWhitespace(c: char) {
    || c == '\t' || c == '\U{000B}' || c == '\U{000C}' || c == ' ' || c == '\U{00A0}' || c == '\U{FEFF}'
    || c == '\U{1680}' || ('\U{2000}' <= c <= '\U{200A}') || c == '\U{202F}' || c == '\U{205F}' || c == '\U{3000}'
    || c == '\n' || c == '\r' || c == '\U{2028}' || c == '\U{2029}'
  }

  predicate AllWhitespace(s: string) {
    forall i :: 0 <= i < |s| ==> IsWhitespace(s[i])
  }

  /** `s` without its leading whitespace. */
  function TrimStart(s: string): (r: string)
    ensures |r| <= |s| && r == s[|s| - |r|..]
    ensures AllWhitespace(s[..|s| - |r|])
    ensures |r| > 0 ==> !IsWhitespace(r[0])
  {
    if |s| > 0 && IsWhitespace(s[0]) then TrimStart(s[1..]) else s
  }

  /** `s` without its trailing whitespace. */
  function TrimEnd(s: string): (r: string)
    ensures |r| <= |s| && r == s[..|r|]
    ensures AllWhitespace(s[|r|..])
    ensures |r| > 0 ==> !IsWhitespace(r[|r| - 1])
  {
    if |s| > 0 && IsWhitespace(s[|s| - 1]) then TrimEnd(s[..|s| - 1]) else s
  }

  /** Leading whitespace only: nothing survives the start trim. */
  lemma {:induction false} TrimStartAllWhitespace(s: string)
    requires AllWhitespace(s)
    ensures TrimStart(s) == []
  {
    if |s| > 0 {
      TrimStartAllWhitespace(s[1..]);
    }
  }

  /** Two pieces are all whitespace exactly when their concatenation is. */
  lemma AllWhitespaceAppend(a: string, b: string)
    ensures AllWhitespace(a + b) <==> AllWhitespace(a) && AllWhitespace(b)
  {
    if AllWhitespace(a + b) {
      forall k | 0 <= k < |a|
        ensures IsWhitespace(a[k])
      {
        assert a[k] == (a + b)[k];
      }
      forall k | 0 <= k < |b|
        ensures IsWhitespace(b[k])
      {
        assert b[k] == (a + b)[|a| + k];
      }
    }
  }

  /** `r` occurs in `s` at `i` with nothing but whitespace before and after it. */
  predicate Padded(s: string, r: string, i: int) {
    OccursAt(s, r, i) && AllWhitespace(s[..i]) && AllWhitespace(s[i + |r|..])
  }

  /** The two-sided trim starts and ends with a non-whitespace character. */
  lemma TrimEnds(s: string)
    ensures var r := TrimEnd(TrimStart(s));
      r != [] ==> !IsWhitespace(r[0]) && !IsWhitespace(r[|r| - 1])
  {
    var t := TrimStart(s);
    var r := TrimEnd(t);
    if r != [] {
      assert r[0] == t[0];
    }
  }

  /** The two-sided trim is empty exactly when `s` is all whitespace. */
  lemma TrimEmptyExactly(s: string)
    ensures TrimEnd(TrimStart(s)) == [] <==> AllWhitespace(s)
  {
    var t := TrimStart(s);
    if AllWhitespace(s) {
      TrimStartAllWhitespace(s);
    }
    if TrimEnd(t) == [] {
      assert t[0..] == t;
      assert s == s[..|s| - |t|] + t;
      AllWhitespaceAppend(s[..|s| - |t|], t);
    }
  }

  /**
   * `String.prototype.trim`: the piece of `s` left between its leading and
   * trailing whitespace. It is empty exactly when `s` is all whitespace, and
   * otherwise starts and ends with a non-whitespace character.
   */
  function Trim(s: string): (r: string)
    ensures r == [] <==> AllWhitespace(s)
    ensures r != [] ==> !IsWhitespace(r[0]) && !IsWhitespace(r[|r| - 1])
  {
    TrimEmptyExactly(s);
    TrimEnds(s);
    TrimEnd(TrimStart(s))
  }

  /** The trimmed text sits in `s` with nothing but whitespace before and after it. */
  lemma TrimIsPadded(s: string)
    ensures exists i :: Padded(s, Trim(s), i)
  {
    var t := TrimStart(s);
    var r := TrimEnd(t);
    assert r == Trim(s);
    var i := |s| - |t|;
    assert s[i..i + |r|] == r;
    assert AllWhitespace(s[i + |r|..]) by {
      assert s[i + |r|..] == t[|r|..];
    }
    assert Padded(s, r, i);
  }

  /** ASCII lower-casing of one character. */
  function LowerChar(c: char): char {
    if 'A' <= c <= 'Z' then (c as int + 32) as char else c
  }

  /** Lower-casing neither creates nor removes whitespace. */
  lemma LowerKeepsWhitespace(c: char)
    ensures IsWhitespace(LowerChar(c)) == IsWhitespace(c)
  {
    if 'A' <= c <= 'Z' {
      assert 'a' <= LowerChar(c) <= 'z';
    }
  }

  /**
   * `String.prototype.toLowerCase`, restricted to ASCII letters: same length,
   * every capital replaced by its small letter 32 code points up, every other
   * character kept, so no capital is left.
   */
  function Lower(s: string): (r: string)
    ensures |r| == |s|
    ensures forall i :: 0 <= i < |s| && 'A' <= s[i] <= 'Z' ==> r[i] as int == s[i] as int + 32
    ensures forall i :: 0 <= i < |s| && !('A' <= s[i] <= 'Z') ==> r[i] == s[i]
    ensures forall i :: 0 <= i < |r| ==> !('A' <= r[i] <= 'Z')
  {
    seq(|s|, i requires 0 <= i < |s| => LowerChar(s[i]))
  }

  /** Lower-casing is idempotent. */
  lemma LowerIdempotent(s: string)
    ensures Lower(Lower(s)) == Lower(s)
  {
  }

  /** `p` is a prefix of `s`. */
  predicate IsPrefix(p: string, s: string) {
    |p| <= |s| && s[..|p|] == p
  }

  /** `q` occurs in `s` starting at position `i`. */
  predicate OccursAt(s: string, q: string, i: int) {
    0 <= i && i + |q| <= |s| && s[i..i + |q|] == q
  }

  /** An occurrence in `s` is one at its start or one in its tail, shifted by one. */
  lemma {:induction false} OccursShift(s: string, q: string)
    requires |s| > 0
    ensures (exists i :: OccursAt(s, q, i)) <==> IsPrefix(q, s) || exists i :: OccursAt(s[1..], q, i)
  {
    forall i | OccursAt(s[1..], q, i)
      ensures OccursAt(s, q, i + 1)
    {
      assert s[1..][i..i + |q|] == s[i + 1..i + 1 + |q|];
    }
    if IsPrefix(q, s) {
      assert OccursAt(s, q, 0);
    }
    forall i | OccursAt(s, q, i) && !IsPrefix(q, s)
      ensures OccursAt(s[1..], q, i - 1)
    {
      assert s[1..][i - 1..i - 1 + |q|] == s[i..i + |q|];
    }
  }

  /**
   * `String.prototype.includes`: search for `q` at every start position of
   * `s`; it succeeds exactly when `q` occurs somewhere in `s`.
   */
  function Contains(s: string, q: string): (r: bool)
    ensures r <==> exists i :: OccursAt(s, q, i)
    decreases |s|
  {
    if |s| == 0 then
      assert forall i :: OccursAt(s, q, i) ==> IsPrefix(q, s);
      assert IsPrefix(q, s) ==> OccursAt(s, q, 0);
      IsPrefix(q, s)
    else
      OccursShift(s, q);
      IsPrefix(q, s) || Contains(s[1..], q)
  }
}

/** Generic sequence operations shared by the search filter, the sort and the summaries. */
module Seqs {

  /** `xs` is obtained from `ys` by deleting elements: it keeps their relative order. */
  predicate IsSubsequence<T(==)>(xs: seq<T>, ys: seq<T>)
    decreases |ys|
  {
    if xs == [] then true
    else if ys == [] then false
    else IsSubsequence(xs, ys[1..]) || (xs[0] == ys[0] && IsSubsequence(xs[1..], ys[1..]))
  }

  /** The elements of `s` that satisfy `p`, in their order in `s` (Array.prototype.filter). */
  function Filter<T(==,!new)>(s: seq<T>, p: T -> bool): (r: seq<T>)
    ensures forall i :: 0 <= i < |r| ==> p(r[i])
    ensures forall x :: multiset(r)[x] == if p(x) then multiset(s)[x] else 0
    ensures forall x :: x in r <==> x in s && p(x)
    ensures IsSubsequence(r, s)
  {
    if s == [] then []
    else
      assert s == [s[0]] + s[1..];
      if p(s[0]) then [s[0]] + Filter(s[1..], p)
      else Filter(s[1..], p)
  }

  /** `s` back to front. */
  function Reverse<T>(s: seq<T>): (r: seq<T>)
    ensures |r| == |s|
    ensures forall i :: 0 <= i < |s| ==> r[i] == s[|s| - 1 - i]
  {
    if s == [] then [] else Reverse(s[1..]) + [s[0]]
  }

  lemma {:induction false} ReverseSameElements<T>(s: seq<T>)
    ensures multiset(Reverse(s)) == multiset(s)
  {
    if s != [] {
      ReverseSameElements(s[1..]);
      assert s == [s[0]] + s[1..];
    }
  }

  /** Removing the element at `k` removes one occurrence of it. */
  lemma MultisetRemove<T>(b: seq<T>, k: int)
    requires 0 <= k < |b|
    ensures multiset(b[..k] + b[k + 1..]) == multiset(b) - multiset{b[k]}
  {
    assert b == b[..k] + [b[k]] + b[k + 1..];
  }

  /** Dropping the last element removes one occurrence of it. */
  lemma MultisetDropLast<T>(a: seq<T>)
    requires a != []
    ensures multiset(a[..|a| - 1]) == multiset(a) - multiset{a[|a| - 1]}
  {
    assert a == a[..|a| - 1] + [a[|a| - 1]];
  }

  /** `h + (b + y)` is `(h + b) + y`, stated over names so it is used without unfolding anything. */
  lemma AppendRegroup<T>(whole: seq<T>, base: seq<T>, h: seq<T>, r: seq<T>, b: seq<T>, y: seq<T>)
    requires whole == h + r && r == b + y && base == h + b
    ensures whole == base + y
  {
  }
}

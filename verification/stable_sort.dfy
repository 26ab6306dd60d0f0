/**
 * A stable sort under an arbitrary total preorder, the contract that
 * Array.prototype.sort has had since the ECMAScript 2019 edition of ECMA-262:
 * elements that compare equal keep their relative order.
 */
module StableSort {
  import opened Seqs

  /** `leq` is reflexive, total and transitive. */
  ghost predicate TotalPreorder<T(!new)>(leq: (T, T) -> bool) {
    && (forall x :: leq(x, x))
    && (forall x, y :: leq(x, y) || leq(y, x))
    && (forall x, y, z :: leq(x, y) && leq(y, z) ==> leq(x, z))
  }

  /** Every element may precede every later element. */
  ghost predicate SortedBy<T>(s: seq<T>, leq: (T, T) -> bool) {
    forall i, j :: 0 <= i < j < |s| ==> leq(s[i], s[j])
  }

  /** Places `x` after every leading element of `t` that may precede it. */
  function Insert<T>(x: T, t: seq<T>, leq: (T, T) -> bool): (r: seq<T>)
    ensures |r| == |t| + 1
    ensures multiset(r) == multiset(t) + multiset{x}
  {
    if t == [] || !leq(t[0], x) then [x] + t
    else
      assert t == [t[0]] + t[1..];
      [t[0]] + Insert(x, t[1..], leq)
  }

  lemma SortedTail<T>(s: seq<T>, leq: (T, T) -> bool)
    requires SortedBy(s, leq) && s != []
    ensures SortedBy(s[1..], leq)
  {
    forall i, j | 0 <= i < j < |s[1..]|
      ensures leq(s[1..][i], s[1..][j])
    {
      assert s[1..][i] == s[i + 1] && s[1..][j] == s[j + 1];
    }
  }

  lemma SortedCons<T>(h: T, s: seq<T>, leq: (T, T) -> bool)
    requires SortedBy(s, leq)
    requires forall y :: y in s ==> leq(h, y)
    ensures SortedBy([h] + s, leq)
  {
    var r := [h] + s;
    forall i, j | 0 <= i < j < |r|
      ensures leq(r[i], r[j])
    {
      if i > 0 {
        assert r[i] == s[i - 1] && r[j] == s[j - 1];
      } else {
        assert r[j] in s;
      }
    }
  }

  lemma {:induction false} InsertSorted<T(!new)>(x: T, t: seq<T>, leq: (T, T) -> bool)
    requires TotalPreorder(leq) && SortedBy(t, leq)
    ensures SortedBy(Insert(x, t, leq), leq)
  {
    if t == [] {
    } else if !leq(t[0], x) {
      forall y | y in t
        ensures leq(x, y)
      {
        var k :| 0 <= k < |t| && t[k] == y;
        assert leq(t[0], y);
      }
      SortedCons(x, t, leq);
    } else {
      var rest := Insert(x, t[1..], leq);
      SortedTail(t, leq);
      InsertSorted(x, t[1..], leq);
      forall y | y in rest
        ensures leq(t[0], y)
      {
        assert y in multiset(rest);
        if y != x {
          var k :| 0 <= k < |t[1..]| && t[1..][k] == y;
          assert t[k + 1] == y;
        }
      }
      SortedCons(t[0], rest, leq);
    }
  }

  /** Insertion sort, taking the elements left to right: a sorted permutation of `s`. */
  function InsertionSort<T(!new)>(s: seq<T>, leq: (T, T) -> bool): (r: seq<T>)
    requires TotalPreorder(leq)
    ensures |r| == |s|
    ensures multiset(r) == multiset(s)
    ensures SortedBy(r, leq)
  {
    if s == [] then []
    else
      assert s == s[..|s| - 1] + [s[|s| - 1]];
      var sortedInit := InsertionSort(s[..|s| - 1], leq);
      InsertSorted(s[|s| - 1], sortedInit, leq);
      Insert(s[|s| - 1], sortedInit, leq)
  }

  // ---------------------------------------------------------------- stability

  /** The elements of `s` that tie with `z` (each may precede the other), in their order in `s`. */
  function Ties<T>(s: seq<T>, z: T, leq: (T, T) -> bool): seq<T> {
    if s == [] then []
    else (if leq(s[0], z) && leq(z, s[0]) then [s[0]] else []) + Ties(s[1..], z, leq)
  }

  lemma {:induction false} TiesAppend<T>(a: seq<T>, b: seq<T>, z: T, leq: (T, T) -> bool)
    ensures Ties(a + b, z, leq) == Ties(a, z, leq) + Ties(b, z, leq)
  {
    if a == [] {
      assert a + b == b;
    } else {
      assert (a + b)[0] == a[0];
      assert (a + b)[1..] == a[1..] + b;
      TiesAppend(a[1..], b, z, leq);
    }
  }

  lemma {:induction false} TiesNone<T>(s: seq<T>, z: T, leq: (T, T) -> bool)
    requires forall y :: y in s ==> !(leq(y, z) && leq(z, y))
    ensures Ties(s, z, leq) == []
  {
    if s != [] {
      TiesNone(s[1..], z, leq);
    }
  }

  lemma {:induction false} InsertNotTied<T>(x: T, t: seq<T>, z: T, leq: (T, T) -> bool)
    requires !(leq(x, z) && leq(z, x))
    ensures Ties(Insert(x, t, leq), z, leq) == Ties(t, z, leq)
  {
    if t != [] && leq(t[0], x) {
      InsertNotTied(x, t[1..], z, leq);
    }
  }

  /** An element after `a` cannot tie with `z` when `z` may precede `x` but `a` may not. */
  lemma BeyondIsNotTied<T(!new)>(a: T, x: T, y: T, z: T, leq: (T, T) -> bool)
    requires TotalPreorder(leq)
    requires leq(a, y) && !leq(a, x) && leq(z, x)
    ensures !(leq(y, z) && leq(z, y))
  {
  }

  /** Inserting before every element of `t`: no element of `t` ties with `z`, so `x` is the only tie. */
  lemma InsertTiedFront<T(!new)>(x: T, t: seq<T>, z: T, leq: (T, T) -> bool)
    requires TotalPreorder(leq) && SortedBy(t, leq)
    requires leq(x, z) && leq(z, x)
    requires t != [] && !leq(t[0], x)
    ensures Ties([x] + t, z, leq) == Ties(t, z, leq) + [x]
  {
    forall y | y in t
      ensures !(leq(y, z) && leq(z, y))
    {
      var k :| 0 <= k < |t| && t[k] == y;
      assert leq(t[0], y) by {
        if k > 0 {
          assert leq(t[0], t[k]);
        }
      }
      BeyondIsNotTied(t[0], x, y, z, leq);
    }
    TiesNone(t, z, leq);
    TiesAppend([x], t, z, leq);
  }

  lemma InsertBehindHead<T>(x: T, t: seq<T>, leq: (T, T) -> bool)
    requires t != [] && leq(t[0], x)
    ensures Insert(x, t, leq) == [t[0]] + Insert(x, t[1..], leq)
  {
  }

  lemma TiesSplitHead<T>(t: seq<T>, z: T, leq: (T, T) -> bool)
    requires t != []
    ensures Ties(t, z, leq) == Ties([t[0]], z, leq) + Ties(t[1..], z, leq)
  {
    assert t == [t[0]] + t[1..];
    TiesAppend([t[0]], t[1..], z, leq);
  }

  /** Inserting behind the head: the head's tie status is untouched, the rest is the smaller insertion. */
  lemma InsertTiedBehind<T>(x: T, t: seq<T>, z: T, leq: (T, T) -> bool)
    requires t != [] && leq(t[0], x)
    requires Ties(Insert(x, t[1..], leq), z, leq) == Ties(t[1..], z, leq) + [x]
    ensures Ties(Insert(x, t, leq), z, leq) == Ties(t, z, leq) + [x]
  {
    var rest := Insert(x, t[1..], leq);
    InsertBehindHead(x, t, leq);
    TiesAppend([t[0]], rest, z, leq);
    TiesSplitHead(t, z, leq);
    AppendRegroup(Ties(Insert(x, t, leq), z, leq), Ties(t, z, leq), Ties([t[0]], z, leq), Ties(rest, z, leq), Ties(t[1..], z, leq), [x]);
  }

  lemma {:induction false} InsertTied<T(!new)>(x: T, t: seq<T>, z: T, leq: (T, T) -> bool)
    requires TotalPreorder(leq) && SortedBy(t, leq)
    requires leq(x, z) && leq(z, x)
    ensures Ties(Insert(x, t, leq), z, leq) == Ties(t, z, leq) + [x]
  {
    if t == [] {
      assert Insert(x, t, leq) == [x];
    } else if !leq(t[0], x) {
      assert Insert(x, t, leq) == [x] + t;
      InsertTiedFront(x, t, z, leq);
    } else {
      SortedTail(t, leq);
      InsertTied(x, t[1..], z, leq);
      InsertTiedBehind(x, t, z, leq);
    }
  }

  /** Elements that tie keep their relative order. */
  lemma {:induction false} InsertionSortStable<T(!new)>(s: seq<T>, z: T, leq: (T, T) -> bool)
    requires TotalPreorder(leq)
    ensures Ties(InsertionSort(s, leq), z, leq) == Ties(s, z, leq)
  {
    if s != [] {
      var init := s[..|s| - 1];
      var last := s[|s| - 1];
      assert s == init + [last];
      InsertionSortStable(init, z, leq);
      TiesAppend(init, [last], z, leq);
      if leq(last, z) && leq(z, last) {
        InsertTied(last, InsertionSort(init, leq), z, leq);
      } else {
        InsertNotTied(last, InsertionSort(init, leq), z, leq);
      }
    }
  }

  // ---------------------------------------------------------------- uniqueness

  /** No two different elements of `s` tie. */
  ghost predicate NoTiesBy<T>(s: seq<T>, leq: (T, T) -> bool) {
    forall x, y :: x in s && y in s && leq(x, y) && leq(y, x) ==> x == y
  }

  /** Two sorted arrangements of one multiset without ties start with the same element. */
  lemma SortedHeadsAgree<T>(a: seq<T>, b: seq<T>, leq: (T, T) -> bool)
    requires SortedBy(a, leq) && SortedBy(b, leq)
    requires multiset(a) == multiset(b) && a != []
    requires NoTiesBy(a, leq)
    ensures b != [] && a[0] == b[0]
  {
    assert a[0] in multiset(b);
    var k :| 0 <= k < |b| && b[k] == a[0];
    assert b[0] in multiset(a);
    var m :| 0 <= m < |a| && a[m] == b[0];
    if k > 0 && m > 0 {
      assert leq(b[0], b[k]) && leq(a[0], a[m]);
      assert b[0] in a;
    }
  }

  lemma NoTiesTail<T>(a: seq<T>, leq: (T, T) -> bool)
    requires NoTiesBy(a, leq) && a != []
    ensures NoTiesBy(a[1..], leq)
  {
    forall x, y | x in a[1..] && y in a[1..] && leq(x, y) && leq(y, x)
      ensures x == y
    {
      assert x in a && y in a;
    }
  }

  lemma MultisetTail<T>(a: seq<T>)
    requires a != []
    ensures multiset(a[1..]) == multiset(a) - multiset{a[0]}
  {
    assert a == [a[0]] + a[1..];
  }

  /** Equal multisets with equal heads have equal tails. */
  lemma SameTails<T>(a: seq<T>, b: seq<T>)
    requires multiset(a) == multiset(b) && a != [] && b != [] && a[0] == b[0]
    ensures multiset(a[1..]) == multiset(b[1..])
  {
    MultisetTail(a);
    MultisetTail(b);
  }

  /** Without ties, a multiset has only one sorted arrangement. */
  lemma {:induction false} SortedUnique<T>(a: seq<T>, b: seq<T>, leq: (T, T) -> bool)
    requires SortedBy(a, leq) && SortedBy(b, leq)
    requires multiset(a) == multiset(b)
    requires NoTiesBy(a, leq)
    ensures a == b
    decreases |a|
  {
    if a != [] {
      SortedHeadsAgree(a, b, leq);
      SameTails(a, b);
      SortedTail(a, leq);
      SortedTail(b, leq);
      NoTiesTail(a, leq);
      SortedUnique(a[1..], b[1..], leq);
      assert a == [a[0]] + a[1..];
    }
  }

  // ---------------------------------------------------------------- reversal

  /** Read back to front, a sequence sorted by `leq` is sorted by any `geq` that reverses `leq` on its elements. */
  lemma ReverseSorted<T>(s: seq<T>, leq: (T, T) -> bool, geq: (T, T) -> bool)
    requires SortedBy(s, leq)
    requires forall x, y :: x in s && y in s && leq(x, y) ==> geq(y, x)
    ensures SortedBy(Reverse(s), geq)
  {
    var r := Reverse(s);
    var n := |s|;
    forall i, j | 0 <= i < j < |r|
      ensures geq(r[i], r[j])
    {
      assert r[i] == s[n - 1 - i] && r[j] == s[n - 1 - j];
      assert leq(s[n - 1 - j], s[n - 1 - i]);
      assert s[n - 1 - j] in s && s[n - 1 - i] in s;
    }
  }
}

/**
 * `sortData`: a stable sort of a copy of the rows by one attribute. Missing
 * values go last in either direction; strings compare by StrCompare, numbers
 * by difference; "desc" negates the comparison of two present values.
 */
module Sorting {
  import opened Wrappers
  import opened Coins
  import opened Text
  import opened Seqs
  import opened StableSort

  datatype Direction = Asc | Desc

  /**
   * Sign-carrying comparison of two present values of one attribute: zero
   * exactly for equal values, the string order for strings, the difference
   * for numbers.
   */
  function ValueCompare(x: Value, y: Value): (r: real)
    ensures r == 0.0 <==> x == y
    ensures x.Num? && y.Num? ==> (r < 0.0 <==> x.x < y.x)
    ensures x.Text? && y.Text? ==> (r < 0.0 <==> StrCompare(x.s, y.s) < 0)
  {
    match (x, y)
    case (Text(s), Text(t)) =>
      StrCompareZeroIff(s, t);
      StrCompare(s, t) as real
    case (Num(a), Num(b)) => a - b
    // never met for one attribute (see Coins.Field); kept so the order stays total
    case (Num(_), Text(_)) => -1.0
    case (Text(_), Num(_)) => 1.0
  }

  /**
   * The comparator the sort is meant to use: negative when `a` goes first,
   * positive when `b` goes first, zero when they tie. A missing value goes
   * after a present one in either direction; two rows tie exactly when they
   * carry the same value or both lack it.
   */
  function Compare(a: Coin, b: Coin, key: Attribute, dir: Direction): (r: real)
    ensures r == 0.0 <==> Field(a, key) == Field(b, key)
    ensures Field(a, key).None? && Field(b, key).Some? ==> r > 0.0
    ensures Field(a, key).Some? && Field(b, key).None? ==> r < 0.0
    ensures Field(a, key).Some? && Field(b, key).Some? ==>
      r == (if dir == Asc then 1.0 else -1.0) * ValueCompare(Field(a, key).value, Field(b, key).value)
  {
    match (Field(a, key), Field(b, key))
    case (None, None) => 0.0
    case (None, Some(_)) => 1.0
    case (Some(_), None) => -1.0
    case (Some(va), Some(vb)) =>
      var comp := ValueCompare(va, vb);
      if dir == Asc then comp else -comp
  }

  /** `a` may precede `b`. */
  predicate Leq(a: Coin, b: Coin, key: Attribute, dir: Direction) {
    Compare(a, b, key, dir) <= 0.0
  }

  function CoinLeq(key: Attribute, dir: Direction): (Coin, Coin) -> bool {
    (a, b) => Leq(a, b, key, dir)
  }

  /** Swapping the operands negates the comparison: the comparator is consistent. */
  lemma CompareAntisymmetric(a: Coin, b: Coin, key: Attribute, dir: Direction)
    ensures Compare(b, a, key, dir) == -Compare(a, b, key, dir)
  {
    match (Field(a, key), Field(b, key))
    case (Some(Text(s)), Some(Text(t))) => StrCompareFlip(s, t);
    case _ =>
  }

  lemma LeqTransitive(a: Coin, b: Coin, c: Coin, key: Attribute, dir: Direction)
    requires Leq(a, b, key, dir) && Leq(b, c, key, dir)
    ensures Leq(a, c, key, dir)
  {
    match (Field(a, key), Field(b, key), Field(c, key))
    case (Some(Text(s)), Some(Text(t)), Some(Text(u))) =>
      if dir == Asc {
        StrCompareTransitive(s, t, u);
      } else {
        StrCompareFlip(s, t);
        StrCompareFlip(t, u);
        StrCompareFlip(s, u);
        StrCompareTransitive(u, t, s);
      }
    case _ =>
  }

  /** For every attribute and direction, "may precede" is a total preorder. */
  lemma CoinLeqTotalPreorder(key: Attribute, dir: Direction)
    ensures TotalPreorder(CoinLeq(key, dir))
  {
    var leq := CoinLeq(key, dir);
    assert forall x :: leq(x, x);
    forall x, y ensures leq(x, y) || leq(y, x) {
      CompareAntisymmetric(x, y, key, dir);
    }
    forall x, y, z | leq(x, y) && leq(y, z) ensures leq(x, z) {
      LeqTransitive(x, y, z, key, dir);
    }
  }

  /**
   * `sortData(data, key, direction)`: a copy of the rows, rearranged into a
   * sorted permutation by the stable sort.
   */
  function SortData(data: seq<Coin>, key: Attribute, dir: Direction): (r: seq<Coin>)
    ensures |r| == |data|
    ensures multiset(r) == multiset(data)
    ensures forall i, j :: 0 <= i < j < |r| ==> Leq(r[i], r[j], key, dir)
  {
    CoinLeqTotalPreorder(key, dir);
    InsertionSort(data, CoinLeq(key, dir))
  }

  /**
   * In the sorted rows, a row lacking the attribute is followed only by rows
   * lacking it, in both directions; present values ascend for Asc and
   * descend for Desc.
   */
  lemma SortDataOrder(data: seq<Coin>, key: Attribute, dir: Direction)
    ensures var r := SortData(data, key, dir);
      forall i, j :: 0 <= i < j < |r| && Field(r[i], key).None? ==> Field(r[j], key).None?
    ensures var r := SortData(data, key, dir);
      forall i, j :: 0 <= i < j < |r| && Field(r[i], key).Some? && Field(r[j], key).Some? ==>
        if dir == Asc then ValueCompare(Field(r[i], key).value, Field(r[j], key).value) <= 0.0
        else ValueCompare(Field(r[j], key).value, Field(r[i], key).value) <= 0.0
  {
    var r := SortData(data, key, dir);
    forall i, j | 0 <= i < j < |r| && Field(r[i], key).Some? && Field(r[j], key).Some? && dir == Desc
      ensures ValueCompare(Field(r[j], key).value, Field(r[i], key).value) <= 0.0
    {
      assert Leq(r[i], r[j], key, dir);
      CompareAntisymmetric(r[j], r[i], key, Asc);
    }
  }

  /** On a numeric attribute the present values are non-decreasing (Asc) or non-increasing (Desc). */
  lemma SortDataNumeric(data: seq<Coin>, key: Attribute, dir: Direction, i: int, j: int)
    requires var r := SortData(data, key, dir); 0 <= i < j < |r|
    requires var r := SortData(data, key, dir); Field(r[i], key).Some? && Field(r[j], key).Some?
    requires !key.IsText()
    ensures var r := SortData(data, key, dir);
      if dir == Asc then Field(r[i], key).value.x <= Field(r[j], key).value.x
      else Field(r[i], key).value.x >= Field(r[j], key).value.x
  {
    SortDataOrder(data, key, dir);
  }

  // ---------------------------------------------------------------- stability

  /** The rows of `s` whose attribute `key` is `v` (None: the rows lacking it), in their order in `s`. */
  function WithValue(s: seq<Coin>, key: Attribute, v: Option<Value>): seq<Coin> {
    if s == [] then []
    else (if Field(s[0], key) == v then [s[0]] else []) + WithValue(s[1..], key, v)
  }

  lemma {:induction false} WithValueAppend(a: seq<Coin>, b: seq<Coin>, key: Attribute, v: Option<Value>)
    ensures WithValue(a + b, key, v) == WithValue(a, key, v) + WithValue(b, key, v)
  {
    if a == [] {
      assert a + b == b;
    } else {
      var head := if Field(a[0], key) == v then [a[0]] else [];
      assert (a + b)[1..] == a[1..] + b;
      assert WithValue(a + b, key, v) == head + WithValue(a[1..] + b, key, v);
      WithValueAppend(a[1..], b, key, v);
      AppendRegroup(WithValue(a + b, key, v), WithValue(a, key, v), head,
        WithValue(a[1..] + b, key, v), WithValue(a[1..], key, v), WithValue(b, key, v));
    }
  }

  /** The first row carrying `v` is the first of `WithValue`: no earlier row carries `v`. */
  lemma {:induction false} WithValueFirst(s: seq<Coin>, key: Attribute, v: Option<Value>)
    requires WithValue(s, key, v) != []
    ensures exists i ::
      && 0 <= i < |s| && s[i] == WithValue(s, key, v)[0] && Field(s[i], key) == v
      && (forall j :: 0 <= j < i ==> Field(s[j], key) != v)
  {
    if Field(s[0], key) != v {
      WithValueFirst(s[1..], key, v);
      var i :| 0 <= i < |s[1..]| && s[1..][i] == WithValue(s[1..], key, v)[0] && Field(s[1..][i], key) == v
        && forall j :: 0 <= j < i ==> Field(s[1..][j], key) != v;
      assert s[i + 1] == WithValue(s, key, v)[0];
      forall j | 0 <= j < i + 1 ensures Field(s[j], key) != v {
        if j > 0 {
          assert s[j] == s[1..][j - 1];
        }
      }
    } else {
      assert s[0] == WithValue(s, key, v)[0];
    }
  }

  /** `s[i]` carries `v` and no later row does. */
  ghost predicate LastWithValue(s: seq<Coin>, key: Attribute, v: Option<Value>, i: int) {
    && 0 <= i < |s| && Field(s[i], key) == v
    && forall j :: i < j < |s| ==> Field(s[j], key) != v
  }

  /** The last row carrying `v` is the last of `WithValue`: no later row carries `v`. */
  lemma {:induction false} WithValueLast(s: seq<Coin>, key: Attribute, v: Option<Value>)
    requires WithValue(s, key, v) != []
    ensures var w := WithValue(s, key, v);
      exists i :: LastWithValue(s, key, v, i) && s[i] == w[|w| - 1]
  {
    var w := WithValue(s, key, v);
    var rest := WithValue(s[1..], key, v);
    if rest != [] {
      WithValueLast(s[1..], key, v);
      var i :| LastWithValue(s[1..], key, v, i) && s[1..][i] == rest[|rest| - 1];
      assert w[|w| - 1] == rest[|rest| - 1];
      forall j | i + 1 < j < |s| ensures Field(s[j], key) != v {
        assert s[j] == s[1..][j - 1];
      }
      assert LastWithValue(s, key, v, i + 1) && s[i + 1] == w[|w| - 1];
    } else {
      WithValueNone(s[1..], key, v);
      forall j | 0 < j < |s| ensures Field(s[j], key) != v {
        assert s[j] in s[1..];
      }
      assert LastWithValue(s, key, v, 0) && s[0] == w[|w| - 1];
    }
  }


  /** The last row of `s` closes its own value class. */
  lemma WithValueEndsWithLast(s: seq<Coin>, key: Attribute)
    requires |s| > 0
    ensures var w := WithValue(s, key, Field(s[|s|- 1], key));
      |w| > 0 && w[|w| - 1] == s[|s| - 1]
  {
    var last := s[|s| - 1];
    assert s == s[..|s| - 1] + [last];
    WithValueAppend(s[..|s| - 1], [last], key, Field(last, key));
    assert WithValue([last], key, Field(last, key)) == [last];
  }

  /**
   * If `s` lists the rows of `data` carrying the value of its own last row in
   * the same order as `data`, that row is the last in `data` carrying it.
   */
  lemma LastOfClass(s: seq<Coin>, data: seq<Coin>, key: Attribute)
    requires |s| > 0
    requires WithValue(s, key, Field(s[|s| - 1], key)) == WithValue(data, key, Field(s[|s| - 1], key))
    ensures exists i ::
      && 0 <= i < |data| && data[i] == s[|s| - 1]
      && (forall j :: i < j < |data| ==> Field(data[j], key) != Field(s[|s| - 1], key))
  {
    var v := Field(s[|s| - 1], key);
    WithValueEndsWithLast(s, key);
    WithValueLast(data, key, v);
  }

  lemma {:induction false} WithValueNone(s: seq<Coin>, key: Attribute, v: Option<Value>)
    requires WithValue(s, key, v) == []
    ensures forall c :: c in s ==> Field(c, key) != v
  {
    if s != [] {
      WithValueNone(s[1..], key, v);
      assert forall c :: c in s ==> c == s[0] || c in s[1..];
    }
  }

  /** The rows that tie with `z` are the rows carrying `z`'s value. */
  lemma {:induction false} TiesAreSameValue(s: seq<Coin>, z: Coin, key: Attribute, dir: Direction)
    ensures Ties(s, z, CoinLeq(key, dir)) == WithValue(s, key, Field(z, key))
  {
    if s != [] {
      CompareAntisymmetric(s[0], z, key, dir);
      TiesAreSameValue(s[1..], z, key, dir);
    }
  }

  /**
   * The sort is stable: for every value of the attribute (and for "missing"),
   * the rows carrying it keep their relative input order.
   */
  lemma SortDataStable(data: seq<Coin>, key: Attribute, dir: Direction, z: Coin)
    ensures WithValue(SortData(data, key, dir), key, Field(z, key)) == WithValue(data, key, Field(z, key))
  {
    CoinLeqTotalPreorder(key, dir);
    InsertionSortStable(data, z, CoinLeq(key, dir));
    TiesAreSameValue(data, z, key, dir);
    TiesAreSameValue(SortData(data, key, dir), z, key, dir);
  }

  // ---------------------------------------------------------------- direction

  /** Every row carries the attribute. */
  ghost predicate AllPresent(s: seq<Coin>, key: Attribute) {
    forall c :: c in s ==> Field(c, key).Some?
  }

  /** No two different rows carry the same value of the attribute. */
  ghost predicate NoTies(s: seq<Coin>, key: Attribute) {
    forall x, y :: x in s && y in s && Field(x, key) == Field(y, key) ==> x == y
  }

  /** Reading rows sorted ascending back to front gives rows sorted descending, when every value is present. */
  lemma ReverseOfAscIsDesc(up: seq<Coin>, key: Attribute)
    requires SortedBy(up, CoinLeq(key, Asc))
    requires AllPresent(up, key)
    ensures SortedBy(Reverse(up), CoinLeq(key, Desc))
  {
    forall x, y | x in up && y in up && CoinLeq(key, Asc)(x, y)
      ensures CoinLeq(key, Desc)(y, x)
    {
      DescOfAscPair(y, x, key);
    }
    ReverseSorted(up, CoinLeq(key, Asc), CoinLeq(key, Desc));
  }

  lemma DescOfAscPair(a: Coin, b: Coin, key: Attribute)
    requires Leq(b, a, key, Asc)
    requires Field(a, key).Some? && Field(b, key).Some?
    ensures CoinLeq(key, Desc)(a, b)
  {
    CompareAntisymmetric(a, b, key, Asc);
  }

  lemma NoTiesUnderLeq(s: seq<Coin>, key: Attribute, dir: Direction)
    requires NoTies(s, key)
    ensures NoTiesBy(s, CoinLeq(key, dir))
  {
    forall x, y | x in s && y in s && Leq(x, y, key, dir) && Leq(y, x, key, dir)
      ensures x == y
    {
      CompareAntisymmetric(x, y, key, dir);
    }
  }

  /**
   * With every row carrying the attribute and no two rows tying, sorting
   * descending gives exactly the reverse of sorting ascending.
   */
  lemma DescReversesAsc(data: seq<Coin>, key: Attribute)
    requires AllPresent(data, key) && NoTies(data, key)
    ensures SortData(data, key, Desc) == Reverse(SortData(data, key, Asc))
  {
    var up := SortData(data, key, Asc);
    var down := SortData(data, key, Desc);
    SameRowsKeepPresenceAndTies(data, up, key);
    SameRowsKeepPresenceAndTies(data, down, key);
    SortDataSortedBy(data, key, Asc);
    ReverseOfAscIsDesc(up, key);
    ReverseSameElements(up);
    NoTiesUnderLeq(down, key, Desc);
    CoinLeqTotalPreorder(key, Desc);
    SortDataSortedBy(data, key, Desc);
    SortedUnique(down, Reverse(up), CoinLeq(key, Desc));
  }

  lemma SameRowsKeepPresenceAndTies(a: seq<Coin>, b: seq<Coin>, key: Attribute)
    requires multiset(a) == multiset(b)
    requires AllPresent(a, key) && NoTies(a, key)
    ensures AllPresent(b, key) && NoTies(b, key)
  {
    assert forall c :: c in b ==> c in multiset(a);
  }

  lemma SortDataSortedBy(data: seq<Coin>, key: Attribute, dir: Direction)
    ensures SortedBy(SortData(data, key, dir), CoinLeq(key, dir))
  {
  }

  // ---------------------------------------------------------------- as written

  /**
   * The comparator as `sortData` writes it: a missing left value always
   * answers "after", even when the right value is missing too. Whenever one
   * of the two values is present it agrees with `Compare`.
   */
  function JsCompare(a: Coin, b: Coin, key: Attribute, dir: Direction): (r: real)
    ensures Field(a, key).Some? || Field(b, key).Some? ==> r == Compare(a, b, key, dir)
    ensures Field(a, key).None? && Field(b, key).None? ==> r > 0.0
  {
    var va := Field(a, key);
    var vb := Field(b, key);
    if va.None? then 1.0
    else if vb.None? then -1.0
    else
      var comp := ValueCompare(va.value, vb.value);
      if dir == Asc then comp else -comp
  }

  /** Two rows that both lack the attribute are each reported to go after the other. */
  lemma JsCompareInconsistent()
    ensures exists a: Coin, b: Coin :: JsCompare(a, b, MarketCap, Asc) > 0.0 && JsCompare(b, a, MarketCap, Asc) > 0.0
  {
    var a := Coin("alpha", "Alpha", "alp", "", None, None, None, None, None);
    var b := Coin("beta", "Beta", "bet", "", None, None, None, None, None);
    assert JsCompare(a, b, MarketCap, Asc) > 0.0 && JsCompare(b, a, MarketCap, Asc) > 0.0;
  }
}

/**
 * `updateSummaries` as a pure computation: the two totals and the biggest
 * gainer and loser of a snapshot, or "no data" for an empty one.
 */
module Summary {
  import opened Wrappers
  import opened Coins
  import opened Seqs
  import opened Sorting

  datatype Measure = MarketCapSum | VolumeSum

  /** A row's contribution to a total: `coin.market_cap || 0` / `coin.total_volume || 0`. */
  function Amount(c: Coin, m: Measure): real {
    match m
    case MarketCapSum => c.marketCap.GetOr(0.0)
    case VolumeSum => c.totalVolume.GetOr(0.0)
  }

  predicate HasAmount(c: Coin, m: Measure) {
    match m
    case MarketCapSum => c.marketCap.Some?
    case VolumeSum => c.totalVolume.Some?
  }

  /** `data.reduce((sum, coin) => sum + amount(coin), 0)`: a left fold from 0. */
  function Total(data: seq<Coin>, m: Measure): (r: real)
    ensures (forall c :: c in data ==> !HasAmount(c, m)) ==> r == 0.0
    ensures (forall c :: c in data ==> Amount(c, m) >= 0.0) ==> r >= 0.0
  {
    if data == [] then 0.0
    else
      assert forall c :: c in data[..|data| - 1] ==> c in data;
      assert data[|data| - 1] in data;
      Total(data[..|data| - 1], m) + Amount(data[|data| - 1], m)
  }

  /** Totals add up over concatenation. */
  lemma {:induction false} TotalAppend(a: seq<Coin>, b: seq<Coin>, m: Measure)
    ensures Total(a + b, m) == Total(a, m) + Total(b, m)
    decreases |b|
  {
    if b == [] {
      assert a + b == a;
    } else {
      assert (a + b)[..|a + b| - 1] == a + b[..|b| - 1];
      TotalAppend(a, b[..|b| - 1], m);
    }
  }

  lemma TotalCons(x: Coin, s: seq<Coin>, m: Measure)
    ensures Total([x] + s, m) == Amount(x, m) + Total(s, m)
  {
    TotalAppend([x], s, m);
    assert [x][..0] == [];
  }

  /** Taking one row out of the middle takes its amount off the total. */
  lemma TotalRemove(b: seq<Coin>, k: int, m: Measure)
    requires 0 <= k < |b|
    ensures Total(b, m) == Total(b[..k] + b[k + 1..], m) + Amount(b[k], m)
  {
    assert b == b[..k] + ([b[k]] + b[k + 1..]);
    TotalAppend(b[..k], [b[k]] + b[k + 1..], m);
    TotalCons(b[k], b[k + 1..], m);
    TotalAppend(b[..k], b[k + 1..], m);
  }

  /** A total does not depend on the order of the rows. */
  lemma {:induction false} TotalPermutation(a: seq<Coin>, b: seq<Coin>, m: Measure)
    requires multiset(a) == multiset(b)
    ensures Total(a, m) == Total(b, m)
    decreases |a|
  {
    if a != [] {
      var x := a[|a| - 1];
      assert x in multiset(b);
      var k :| 0 <= k < |b| && b[k] == x;
      MultisetDropLast(a);
      MultisetRemove(b, k);
      TotalPermutation(a[..|a| - 1], b[..k] + b[k + 1..], m);
      TotalRemove(b, k, m);
    }
  }

  /** Rows lacking the amount add nothing: the total is the sum over the rows that carry it. */
  lemma {:induction false} TotalSkipsMissing(data: seq<Coin>, m: Measure)
    ensures Total(data, m) == Total(Filter(data, c => HasAmount(c, m)), m)
  {
    if data != [] {
      var rest := Filter(data[1..], c => HasAmount(c, m));
      TotalSkipsMissing(data[1..], m);
      assert data == [data[0]] + data[1..];
      TotalCons(data[0], data[1..], m);
      if HasAmount(data[0], m) {
        TotalCons(data[0], rest, m);
      }
    }
  }

  // ---------------------------------------------------------------- movers

  datatype Movers = Movers(gainer: Coin, loser: Coin)

  /** `typeof coin.price_change_percentage_24h === "number"`. */
  predicate HasChange(c: Coin) {
    c.priceChange24h.Some?
  }

  /** The 24h change of a row that has one. */
  function ChangeOf(c: Coin): real {
    c.priceChange24h.GetOr(0.0)
  }

  /** The rows with a numeric 24h change, sorted by that change, descending. */
  function ByChangeDesc(data: seq<Coin>): seq<Coin> {
    SortData(Filter(data, HasChange), PriceChange24h, Desc)
  }

  /** Some row has a numeric 24h change. */
  predicate AnyChange(data: seq<Coin>) {
    exists c :: c in data && HasChange(c)
  }

  /**
   * The first and the last row after sorting the rows with a numeric 24h
   * change by that change, descending; None when no row has one. The
   * gainer's change is the largest and the loser's the smallest.
   */
  function FindMovers(data: seq<Coin>): (r: Option<Movers>)
    ensures r.None? <==> forall c :: c in data ==> !HasChange(c)
    ensures r.Some? ==> r.value.gainer in data && r.value.loser in data
    ensures r.Some? ==> HasChange(r.value.gainer) && HasChange(r.value.loser)
    ensures r.Some? ==> forall c :: c in data && HasChange(c) ==>
      ChangeOf(r.value.loser) <= ChangeOf(c) <= ChangeOf(r.value.gainer)
  {
    if |Filter(data, HasChange)| == 0 then
      assert forall c :: c in data ==> !HasChange(c);
      None
    else
      SortedEndsAreMovers(data);
      var sorted := ByChangeDesc(data);
      Some(Movers(sorted[0], sorted[|sorted| - 1]))
  }

  lemma SortedEndsAreMovers(data: seq<Coin>)
    requires AnyChange(data)
    ensures var sorted := ByChangeDesc(data);
      && |sorted| > 0
      && sorted[0] in data && sorted[|sorted| - 1] in data
      && HasChange(sorted[0]) && HasChange(sorted[|sorted| - 1])
      && forall c :: c in data && HasChange(c) ==>
        ChangeOf(sorted[|sorted| - 1]) <= ChangeOf(c) <= ChangeOf(sorted[0])
  {
    var byChange := Filter(data, HasChange);
    var sorted := ByChangeDesc(data);
    var w :| w in data && HasChange(w);
    assert w in byChange;
    forall c | c in sorted
      ensures c in data && HasChange(c)
    {
      assert c in multiset(byChange);
    }
    EndsAreExtremes(sorted);
    forall c | c in data && HasChange(c)
      ensures c in sorted
    {
      assert c in multiset(byChange);
    }
  }

  /** In rows sorted descending by change, the first has the largest change and the last the smallest. */
  lemma EndsAreExtremes(s: seq<Coin>)
    requires forall i, j :: 0 <= i < j < |s| ==> Leq(s[i], s[j], PriceChange24h, Desc)
    requires forall c :: c in s ==> HasChange(c)
    requires |s| > 0
    ensures forall c :: c in s ==>
      ChangeOf(s[|s| - 1]) <= ChangeOf(c) <= ChangeOf(s[0])
  {
    forall c | c in s
      ensures ChangeOf(s[|s| - 1]) <= ChangeOf(c) <= ChangeOf(s[0])
    {
      var k :| 0 <= k < |s| && s[k] == c;
      assert s[0] in s && s[|s| - 1] in s;
      if k > 0 {
        assert Leq(s[0], s[k], PriceChange24h, Desc);
      }
      if k < |s| - 1 {
        assert Leq(s[k], s[|s| - 1], PriceChange24h, Desc);
      }
    }
  }

  /** Rows with a numeric change keep their value-classes when the rest are dropped. */
  lemma {:induction false} WithValueOfChanging(data: seq<Coin>, x: real)
    ensures WithValue(Filter(data, HasChange), PriceChange24h, Some(Num(x)))
         == WithValue(data, PriceChange24h, Some(Num(x)))
  {
    if data != [] {
      WithValueOfChanging(data[1..], x);
      var v := Some(Num(x));
      var rest := Filter(data[1..], HasChange);
      if HasChange(data[0]) {
        assert Filter(data, HasChange) == [data[0]] + rest;
        assert ([data[0]] + rest)[1..] == rest;
      }
    }
  }

  /** A row carries the change value `x` exactly when it has a numeric change equal to `x`. */
  lemma ChangeField(c: Coin, x: real)
    ensures Field(c, PriceChange24h) == Some(Num(x)) <==> HasChange(c) && ChangeOf(c) == x
  {
  }

  /**
   * Among rows with equal change the sort keeps list order, so the gainer is
   * the first-listed row with the largest change and the loser the
   * last-listed row with the smallest.
   */
  lemma MoversTieBreak(data: seq<Coin>)
    requires FindMovers(data).Some?
    ensures var g := FindMovers(data).value.gainer;
      exists i ::
        && 0 <= i < |data| && data[i] == g
        && (forall j :: 0 <= j < i ==> !(HasChange(data[j]) && ChangeOf(data[j]) == ChangeOf(g)))
    ensures var l := FindMovers(data).value.loser;
      exists i ::
        && 0 <= i < |data| && data[i] == l
        && (forall j :: i < j < |data| ==> !(HasChange(data[j]) && ChangeOf(data[j]) == ChangeOf(l)))
  {
    GainerIsFirstListed(data);
    LoserIsLastListed(data);
  }

  lemma GainerIsFirstListed(data: seq<Coin>)
    requires AnyChange(data)
    ensures var sorted := ByChangeDesc(data);
      && |sorted| > 0
      && exists i ::
        && 0 <= i < |data| && data[i] == sorted[0]
        && (forall j :: 0 <= j < i ==> !(HasChange(data[j]) && ChangeOf(data[j]) == ChangeOf(sorted[0])))
  {
    SortedEndsAreMovers(data);
    var sorted := ByChangeDesc(data);
    var g := sorted[0];
    var v := Some(Num(ChangeOf(g)));
    ChangeField(g, ChangeOf(g));
    SortDataStable(Filter(data, HasChange), PriceChange24h, Desc, g);
    WithValueOfChanging(data, ChangeOf(g));
    assert WithValue(sorted, PriceChange24h, v)[0] == g;
    WithValueFirst(data, PriceChange24h, v);
    var i :|
      && 0 <= i < |data| && data[i] == g
      && (forall j :: 0 <= j < i ==> Field(data[j], PriceChange24h) != v);
    forall j | 0 <= j < i
      ensures !(HasChange(data[j]) && ChangeOf(data[j]) == ChangeOf(g))
    {
      ChangeField(data[j], ChangeOf(g));
    }
  }

  lemma LoserIsLastListed(data: seq<Coin>)
    requires AnyChange(data)
    ensures var sorted := ByChangeDesc(data);
      && |sorted| > 0
      && exists i ::
        && 0 <= i < |data| && data[i] == sorted[|sorted| - 1]
        && (forall j :: i < j < |data| ==> !(HasChange(data[j]) && ChangeOf(data[j]) == ChangeOf(sorted[|sorted| - 1])))
  {
    SortedEndsAreMovers(data);
    var sorted := ByChangeDesc(data);
    var l := sorted[|sorted| - 1];
    ChangeField(l, ChangeOf(l));
    SortDataStable(Filter(data, HasChange), PriceChange24h, Desc, l);
    WithValueOfChanging(data, ChangeOf(l));
    LastOfClass(sorted, data, PriceChange24h);
    var i :|
      && 0 <= i < |data| && data[i] == l
      && (forall j :: i < j < |data| ==> Field(data[j], PriceChange24h) != Field(l, PriceChange24h));
    forall j | i < j < |data|
      ensures !(HasChange(data[j]) && ChangeOf(data[j]) == ChangeOf(l))
    {
      ChangeField(data[j], ChangeOf(l));
    }
  }

  // ---------------------------------------------------------------- result

  /** What the summary cards show: a "no data" state, or the totals and (if any) the movers. */
  datatype SummaryResult = NoData | Totals(marketCap: real, volume: real, movers: Option<Movers>)

  /** An empty snapshot gives "no data" rather than zero totals. */
  function Summarize(data: seq<Coin>): (r: SummaryResult)
    ensures r.NoData? <==> data == []
    ensures r.Totals? ==> r.marketCap == Total(data, MarketCapSum) && r.volume == Total(data, VolumeSum)
    ensures r.Totals? ==> (r.movers.None? <==> forall c :: c in data ==> !HasChange(c))
    ensures r.Totals? ==> r.movers == FindMovers(data)
  {
    if data == [] then NoData
    else Totals(Total(data, MarketCapSum), Total(data, VolumeSum), FindMovers(data))
  }
}

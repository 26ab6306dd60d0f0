/**
 * The page state that the refresh, the search box and the column headers
 * act on: the last snapshot, the connection status, the view parameters,
 * the rows on show and the summary cards.
 */
module Dashboard {
  import opened Wrappers
  import opened Coins
  import opened Text
  import opened Seqs
  import opened Search
  import opened Sorting
  import opened SortControl
  import opened Summary

  /** The status indicator: nothing shown before the first fetch completes. */
  datatype Status = Pending | Live | Offline

  /** How one fetch of the market list ends; a body that does not parse counts as a network error. */
  datatype FetchOutcome = Fetched(data: seq<Coin>) | NotOk | NetworkError

  /**
   * The four summary cards; None is the "—" placeholder. Gainer and loser
   * name the coin whose name and change the card shows.
   */
  datatype Panel = Panel(marketCap: Option<real>, volume: Option<real>, gainer: Option<Coin>, loser: Option<Coin>)

  const Placeholders := Panel(None, None, None, None)

  datatype Dashboard = Dashboard(
    raw: seq<Coin>,
    status: Status,
    query: string,
    sort: SortState,
    shown: seq<Coin>,
    panel: Panel)

  /** The page as loaded: no rows, default sort, empty search, placeholder cards. */
  const Initial := Dashboard([], Pending, "", DefaultSort, [], Placeholders)

  /**
   * `applySearchFilter`: the search filter, then the sort by the current key.
   * The rows are exactly the snapshot's rows that pass the search, each as
   * often as in the snapshot, arranged in sort order.
   */
  function ApplySearchFilter(raw: seq<Coin>, query: string, sort: SortState): (r: seq<Coin>)
    ensures AllWhitespace(query) ==> multiset(r) == multiset(raw)
    ensures !AllWhitespace(query) ==>
      forall c :: multiset(r)[c] == if Matches(c, NormalizeQuery(query)) then multiset(raw)[c] else 0
    ensures forall i, j :: 0 <= i < j < |r| ==> Leq(r[i], r[j], AttributeOf(sort.key), sort.direction)
  {
    SortData(SearchFilter(raw, query), AttributeOf(sort.key), sort.direction)
  }

  /** The rows on show are the current snapshot seen through the current view parameters. */
  ghost predicate Consistent(d: Dashboard) {
    d.shown == ApplySearchFilter(d.raw, d.query, d.sort)
  }

  /**
   * `updateSummaries` applied to the cards: placeholders for an empty
   * snapshot; otherwise both totals, and the movers when some coin has a
   * numeric change. When none has, the gainer and loser cards keep what
   * they showed before.
   */
  function ShowSummary(p: Panel, data: seq<Coin>): (r: Panel)
    ensures data == [] ==> r == Placeholders
    ensures data != [] ==> r.marketCap == Some(Total(data, MarketCapSum)) && r.volume == Some(Total(data, VolumeSum))
    ensures data != [] && (forall c :: c in data ==> !HasChange(c)) ==> r.gainer == p.gainer && r.loser == p.loser
    ensures data != [] && (exists c :: c in data && HasChange(c)) ==>
      && r.gainer.Some? && r.loser.Some? && r.gainer.value in data && r.loser.value in data
      && HasChange(r.gainer.value) && HasChange(r.loser.value)
      && r.gainer == Some(FindMovers(data).value.gainer) && r.loser == Some(FindMovers(data).value.loser)
      && forall c :: c in data && HasChange(c) ==> ChangeOf(r.loser.value) <= ChangeOf(c) <= ChangeOf(r.gainer.value)
  {
    match Summarize(data)
    case NoData => Placeholders
    case Totals(cap, volume, movers) =>
      match movers
      case None => Panel(Some(cap), Some(volume), p.gainer, p.loser)
      case Some(m) => Panel(Some(cap), Some(volume), Some(m.gainer), Some(m.loser))
  }

  /**
   * `fetchData`: a successful fetch replaces the snapshot wholesale, marks the
   * status live and recomputes the cards and the rows; any failure marks the
   * status offline and changes nothing else.
   */
  function FetchData(d: Dashboard, outcome: FetchOutcome): (r: Dashboard)
    ensures outcome.Fetched? ==> r.raw == outcome.data && r.status == Live
    ensures outcome.Fetched? ==> r.query == d.query && r.sort == d.sort
    ensures outcome.Fetched? ==> r.panel == ShowSummary(d.panel, outcome.data)
    ensures outcome.Fetched? ==> Consistent(r)
    ensures !outcome.Fetched? ==> r.status == Offline && r.(status := d.status) == d
  {
    match outcome
    case Fetched(data) =>
      d.(raw := data, status := Live, panel := ShowSummary(d.panel, data),
         shown := ApplySearchFilter(data, d.query, d.sort))
    case _ => d.(status := Offline)
  }

  /** The search box changed: the rows are recomputed for the new text. */
  function SearchInput(d: Dashboard, input: string): (r: Dashboard)
    ensures r.query == input && Consistent(r)
    ensures r.(shown := d.shown, query := d.query) == d
  {
    d.(query := input, shown := ApplySearchFilter(d.raw, input, d.sort))
  }

  /** A header was clicked: the sort state follows `Click` and the rows are re-sorted, unless the header has no key. */
  function HeaderClick(d: Dashboard, header: Option<string>): (r: Dashboard)
    ensures header.None? || header.value == [] ==> r == d
    ensures header.Some? && header.value != [] ==> r.sort == Click(d.sort, header) && Consistent(r)
    ensures r.(shown := d.shown, sort := d.sort) == d
  {
    match header
    case None => d
    case Some(key) =>
      if key == [] then d
      else
        var sort := Click(d.sort, header);
        d.(sort := sort, shown := ApplySearchFilter(d.raw, d.query, sort))
  }

  /** Every event keeps the rows consistent with the state; with `InitialConsistent` this makes consistency an invariant of the page. */
  lemma ConsistencyInvariant(d: Dashboard, outcome: FetchOutcome, input: string, header: Option<string>)
    ensures Consistent(d) ==> Consistent(FetchData(d, outcome))
    ensures Consistent(d) ==> Consistent(SearchInput(d, input))
    ensures Consistent(d) ==> Consistent(HeaderClick(d, header))
  {
    if Consistent(d) {
      FetchKeepsConsistency(d, outcome);
      ClickKeepsConsistency(d, header);
    }
  }

  /** The page as loaded shows the (empty) snapshot under the default view. */
  lemma InitialConsistent()
    ensures Consistent(Initial)
  {
    assert SearchFilter([], "") == [];
  }

  lemma FetchKeepsConsistency(d: Dashboard, outcome: FetchOutcome)
    requires Consistent(d)
    ensures Consistent(FetchData(d, outcome))
  {
    if !outcome.Fetched? {
      var r := FetchData(d, outcome);
      assert r.raw == d.raw && r.query == d.query && r.sort == d.sort && r.shown == d.shown;
    }
  }

  lemma ClickKeepsConsistency(d: Dashboard, header: Option<string>)
    requires Consistent(d)
    ensures Consistent(HeaderClick(d, header))
  {
    if header.None? || header.value == [] {
      assert HeaderClick(d, header) == d;
    }
  }

  /** Two failed refreshes in a row: offline after each, rows and cards untouched. */
  lemma TwoFailuresKeepTable(d: Dashboard, first: FetchOutcome, second: FetchOutcome)
    requires !first.Fetched? && !second.Fetched?
    ensures FetchData(d, first).status == Offline
    ensures FetchData(FetchData(d, first), second).status == Offline
    ensures FetchData(FetchData(d, first), second).shown == d.shown
    ensures FetchData(FetchData(d, first), second).panel == d.panel
    ensures FetchData(FetchData(d, first), second).raw == d.raw
  {
  }

  /** A refresh that fails after a successful one leaves that snapshot's rows on show. */
  lemma FailureKeepsLastGoodSnapshot(d: Dashboard, data: seq<Coin>, failure: FetchOutcome)
    requires !failure.Fetched?
    ensures FetchData(FetchData(d, Fetched(data)), failure).raw == data
    ensures FetchData(FetchData(d, Fetched(data)), failure).shown == ApplySearchFilter(data, d.query, d.sort)
  {
  }
}

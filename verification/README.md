# Crypto price dashboard — a Dafny model of its core logic

The dashboard in `script.js` shows CoinGecko's top coins in a table. The page
logic does the following:

- It fetches the market list, optionally with a demo API key appended to the URL.
- It keeps the last good snapshot, with a live or offline status.
- It filters the rows by a search box, matching on lower-cased name or symbol.
- It sorts the rows by a clicked column header. Each further click on the
  same header flips between ascending and descending. Rows that lack the
  value stay last in both directions.
- It shows four summary cards: total market cap, total volume, biggest
  gainer and biggest loser.
- For the details tab, it draws a 7-day price chart. When the history
  endpoint fails, it falls back to a synthetic series within 10% of the
  current price.

The model lifts each of these decisions out of the DOM and network code into
pure functions over immutable sequences of `Coin` records. Whatever the
browser supplies is a parameter:

- the fetch outcome
- the search text
- the clicked header's sort key
- the seven `Math.random()` draws

The modules follow the program's structure:

- `Wrappers` — `Option`.
- `Seqs` — filtering, subsequences, reversal, multiset facts.
- `Text` — string order (a stand-in for `localeCompare`), ECMAScript
  `trim`, ASCII `toLowerCase`, `includes`.
- `Coins` — the coin record. An attribute is addressed by its JSON name,
  as `a[key]` does.
- `ApiUrl` — `withApiKey` and the two endpoints.
- `Search` — the filter step of `applySearchFilter`.
- `StableSort` — a stable insertion sort over any total preorder. It stands
  for `Array.prototype.sort`, which ECMAScript 2019 and later require to be
  stable.
- `Sorting` — `sortData` and its comparator.
- `SortControl` — `currentSort` and the header-click rule.
- `Summary` — `updateSummaries` as a pure result.
- `Dashboard` — the page state, and how a refresh, a search keystroke or a
  header click changes it.
- `Chart` — `generateFallbackSeries` and `loadCoinChart`.

## Model

| member | source | states |
|---|---|---|
| ApiUrl.WithApiKey | script.js:7-12 | An empty key leaves the URL unchanged. Otherwise the result is the URL, then `&` if it already has a `?` and `?` if not, then `x_cg_demo_api_key=` and the key. |
| ApiUrl.ConfiguredEndpoints | script.js:4-23 | With the shipped empty key, both endpoints are the bare URLs. |
| ApiUrl.KeyJoinedWithAmpersand | script.js:14-23 | Both endpoints already carry a query, so a configured key is always joined with `&`. |
| ApiUrl.KeyedUrlHasQuery | script.js:7-12 | A URL with a key appended always contains `?`, so keying it again joins the second key with `&` rather than starting a second query. |
| Coins.AttributeOf | script.js:185-186 | A known JSON name selects the attribute of that name. Any other name reads as missing on every coin. |
| Coins.AttributeOfJsonName | script.js:185-186 | Looking up an attribute's own JSON name gives that attribute back. |
| Coins.Field | script.js:185-186 | A text attribute yields a string, a numeric one a number, and an unknown key nothing. |
| Text.StrCompareZeroIff | script.js:192 | The string order reports equality exactly for equal strings. |
| Text.StrCompareFlip | script.js:192 | Swapping the operands negates the string comparison. |
| Text.StrCompareTransitive | script.js:192 | The string order is transitive. |
| Text.Trim | script.js:203 | The trimmed query is empty exactly when the whole input is whitespace or line terminators, and otherwise starts and ends with another character. |
| Text.TrimIsPadded | script.js:203 | The trimmed query occurs in the input with only whitespace or line terminators before and after it. |
| Text.Lower | script.js:203 | Lower-casing keeps the length, maps each capital A–Z to its small letter, keeps every other character and leaves no capital. |
| Text.LowerIdempotent | script.js:203 | Lower-casing twice is lower-casing once. |
| Text.Contains | script.js:208-209 | `includes` holds exactly when the query occurs at some position. |
| Seqs.Filter | script.js:206-210 | Keeps exactly the elements that satisfy the predicate, each as often as in the input, in input order. |
| Search.NormalizeQuery | script.js:203-205 | The normalised query is empty exactly when the input is blank, is no longer than the input and holds no capital. |
| Search.Matches | script.js:207-209 | A row matches exactly when the query occurs in its lower-cased name or in its lower-cased symbol. |
| Search.SearchFilter | script.js:203-211 | A blank query returns the snapshot itself. Otherwise the result holds exactly the matching rows, each as often as in the snapshot, in snapshot order. |
| Search.SearchKeepsExactlyMatches | script.js:205-210 | A row is kept if and only if the normalised query occurs in its lower-cased name or symbol. |
| Search.SearchIgnoresCase | script.js:203 | Typing the query in upper or lower case selects the same rows. |
| Search.LowerTrimCommute | script.js:203 | Trimming and lower-casing commute, because lower-casing maps whitespace to whitespace. |
| StableSort.InsertionSort | script.js:184 | The sort returns a permutation of a copy of its input, ordered by the comparator. |
| StableSort.InsertionSortStable | script.js:184 | Rows that tie keep their relative order. |
| StableSort.SortedUnique | script.js:184-198 | Under an order with no ties between distinct rows, the sorted arrangement of a multiset is unique. |
| Sorting.ValueCompare | script.js:191-197 | Two present values compare as zero exactly when equal. Numbers compare negative exactly when the left is smaller, and strings exactly when the string order puts the left first. |
| Sorting.Compare | script.js:184-198 | Zero exactly when both rows carry the same value or both lack it. A missing value goes after a present one in either direction. Two present values compare by the value comparison, negated for descending. |
| Sorting.CompareAntisymmetric | script.js:188-197 | Swapping the operands negates the corrected comparator. |
| Sorting.LeqTransitive | script.js:188-197 | "May precede" is transitive, for both directions and for string and number attributes alike. |
| Sorting.CoinLeqTotalPreorder | script.js:188-197 | For every attribute and direction, "may precede" is a total preorder. |
| Sorting.SortData | script.js:183-200 | The result is a permutation of the input rows, ordered by the comparator. |
| Sorting.SortDataOrder | script.js:188-197 | A row lacking the attribute is followed only by rows lacking it. Present values are non-decreasing ascending and non-increasing descending. |
| Sorting.SortDataNumeric | script.js:194-197 | On a numeric attribute, two present values are in numeric order for the direction. |
| Sorting.SortDataStable | script.js:184-198 | For every value, the rows carrying it appear in the sorted list in the same order as in the input. |
| Sorting.DescReversesAsc | script.js:191-197 | When every row has the attribute and no two rows share a value, sorting descending gives exactly the reverse of sorting ascending. |
| Sorting.JsCompareInconsistent | script.js:188 | The comparator as written says "goes after" in both orders for two rows that both lack the attribute. |
| Sorting.JsCompare | script.js:184-198 | Whenever at least one of the two values is present, the written comparator equals the corrected one. When both are missing it answers "after". |
| SortControl.Click | script.js:220-229 | A header without a key changes nothing. The current key flips the direction. Any other key becomes the sort key, ascending. |
| SortControl.ClickTwiceRestores | script.js:223-225 | Two clicks on the current key's header restore the sort state. |
| SortControl.ClickNewHeaderTwice | script.js:223-228 | Two clicks on another header leave that key sorted descending. |
| Summary.Total | script.js:249-256 | A total over rows that all lack the amount is 0. A total of non-negative amounts is non-negative. |
| Summary.TotalAppend | script.js:249-256 | Totals add up over concatenation. |
| Summary.TotalPermutation | script.js:249-256 | A total does not depend on the order of the rows. |
| Summary.TotalSkipsMissing | script.js:250-254 | Missing amounts count as 0, so the total is the sum over the rows that carry the amount. |
| Summary.FindMovers | script.js:263-273 | Gives no movers exactly when no row has a numeric change. Otherwise gainer and loser are rows with a change. Every row with a change lies between the loser's change and the gainer's. |
| Summary.MoversTieBreak | script.js:268-273 | Among equal changes, the gainer is the first such row in the list and the loser the last. |
| Summary.Summarize | script.js:238-273 | Gives "no data" exactly for an empty snapshot. Otherwise it gives both totals and the movers of `FindMovers`, which are absent exactly when no row has a change. |
| Dashboard.ApplySearchFilter | script.js:202-213 | The rows shown are exactly the snapshot's rows that pass the search, with their counts, in sort order. |
| Dashboard.ShowSummary | script.js:238-283 | Placeholders for an empty snapshot, totals otherwise. With no row changing, the gainer and loser cards keep their previous coins. Otherwise they show the movers `FindMovers` picks: rows of the snapshot that have a change, the largest and the smallest. |
| Dashboard.FetchData | script.js:287-301 | Success replaces the snapshot wholesale, sets the status live, redraws the summary cards for the new snapshot and re-derives the rows. Failure sets the status offline and changes nothing else. |
| Dashboard.SearchInput | script.js:202-213 | A keystroke re-derives the rows for the new text and changes nothing else. |
| Dashboard.HeaderClick | script.js:216-233 | A header without a key changes nothing. Otherwise the sort follows the click rule, the rows are re-sorted, and nothing else changes. |
| Dashboard.InitialConsistent | script.js:56-61 | The page as loaded, with no rows, an empty search and the default sort, is consistent. |
| Dashboard.ConsistencyInvariant | script.js:202-213 | A refresh, a keystroke or a header click keeps the rows on show equal to the snapshot under the current search and sort. |
| Dashboard.TwoFailuresKeepTable | script.js:298-301 | Two failed refreshes leave the status offline and the snapshot, rows and cards untouched. |
| Dashboard.FailureKeepsLastGoodSnapshot | script.js:292-301 | A failed refresh after a successful one keeps that snapshot's rows on show. |
| Chart.FallbackValue | script.js:399-401 | A synthetic point is never negative. For a non-negative price and a draw in [0, 1) it lies between 90% and 110% of the price. |
| Chart.GenerateFallbackSeries | script.js:385-405 | Gives seven points, labelled six days ago through today. Point k uses draw k, is never negative, and lies within 10% of a non-negative price. |
| Chart.LoadCoinChart | script.js:407-441 | The synthetic series is used exactly when the fetch fails, or gives no or an empty `prices` list. It then has seven points labelled six days ago through today, point k is the fallback value of the coin's price (0 when missing) under draw k, and each lies within 10% of a non-negative price. Otherwise labels and values mirror the samples one for one. |

## Left out

- DOM construction and rendering are not modelled: `createRow`, `renderTable`, `renderSelectedCoinBox`, `showCoinDetails`, `switchTab`, `formatNumber`, the status texts and `updateLastUpdated`. They are presentation only. The rank fallback `market_cap_rank ?? index + 1` in a row's cell belongs to this rendering.
- Theme persistence (`loadThemeFromStorage`, `toggleTheme`) is browser storage plumbing.
- `fetch`, `response.json` and Chart.js are foreign calls. They appear only as an outcome parameter. A body that fails to parse counts as a network error, because the `catch` in `fetchData` treats it like one.
- The auto-refresh timer (`startAutoRefresh`) is not modelled. Each refresh is one `FetchData` step.
- Dates are left out. A fallback label is "n days ago" and a sample label is the sample's timestamp, not a formatted date.
- `Math.random()` is left out. Its seven draws are an input, each in [0, 1).
- Number formatting (`toLocaleString`, `toFixed`, the `$`, `%` and unconditional `+` prefixes) is presentation, so it is not modelled.
- Text.StrCompare: plain code-point order stands in for `localeCompare`, whose collation depends on the locale. The sort properties only use the fact that it is a total order.
- Text.Lower: ASCII lower-casing only. Non-ASCII letters keep their case, whereas `toLowerCase` folds them too.
- Floating point is modelled as exact reals. NaN, infinities and rounding are not modelled, so a change of NaN, whose `typeof` is "number", is not covered.
- Coins.Field: coin attributes outside the record are not modelled. They read as missing, as `a[key]` does for an undefined property. `name` and `symbol` are assumed to be strings, as the endpoint delivers them.
- The source's sort with the inconsistent comparator is not modelled as a sequence result. Its outcome for several rows that lack the key depends on the engine's sort algorithm. The model sorts with the corrected comparator; see Findings.
- Concurrency is not modelled. The page can have a refresh and a chart load in flight at once; each is modelled as one atomic step.

## Findings

| source | as written | input that shows it | evidently intended | confidence | as-written member | corrected member |
|---|---|---|---|---|---|---|
| script.js:188 | A missing left value returns 1 before the right value is looked at, so two rows that both lack the key each compare as "after" the other. The comparator is then not consistent, and `Array.prototype.sort` leaves the order implementation-defined. | Two coins whose `market_cap` is `null`, sorted by `market_cap` ascending: `JsCompare(a, b)` and `JsCompare(b, a)` are both 1. | Two missing values tie (0), so the rows that lack the key keep their relative order at the end. | high; not executed | Sorting.JsCompareInconsistent | Sorting.CompareAntisymmetric |

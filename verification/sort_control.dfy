/** The sort state the column headers drive (`currentSort` and its click handler). */
module SortControl {
  import opened Wrappers
  import opened Sorting

  /** The JSON name of the sort attribute and the direction. */
  datatype SortState = SortState(key: string, direction: Direction)

  /** Rank ascending until a header is clicked. */
  const DefaultSort := SortState("market_cap_rank", Asc)

  function Flip(d: Direction): Direction {
    if d == Asc then Desc else Asc
  }

  /**
   * A click on a header carrying sort key `header`: nothing for a header
   * without a key (absent or empty); the same key flips the direction; a
   * different key becomes the sort key, ascending.
   */
  function Click(s: SortState, header: Option<string>): (r: SortState)
    ensures header.None? || header.value == [] ==> r == s
    ensures header.Some? && header.value != [] ==> r.key == header.value
    ensures header.Some? && header.value != [] && header.value == s.key ==> r.direction != s.direction
    ensures header.Some? && header.value != [] && header.value != s.key ==> r.direction == Asc
  {
    match header
    case None => s
    case Some(key) =>
      if key == [] then s
      else if s.key == key then s.(direction := Flip(s.direction))
      else SortState(key, Asc)
  }

  /** Two clicks on the header of the current sort key restore the sort state. */
  lemma ClickTwiceRestores(s: SortState)
    ensures Click(Click(s, Some(s.key)), Some(s.key)) == s
  {
  }

  /** Two clicks on another header leave that key sorted descending. */
  lemma ClickNewHeaderTwice(s: SortState, key: string)
    requires key != [] && key != s.key
    ensures Click(Click(s, Some(key)), Some(key)) == SortState(key, Desc)
  {
  }
}

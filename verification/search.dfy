/** The filter step of the table pipeline: the search box against coin names and symbols. */
module Search {
  import opened Coins
  import opened Text
  import opened Seqs

  /**
   * The search text as compared: trimmed, then lower-cased. It is empty
   * exactly for a blank input, and holds no ASCII capital.
   */
  function NormalizeQuery(input: string): (r: string)
    ensures r == [] <==> AllWhitespace(input)
    ensures |r| <= |input|
    ensures forall i :: 0 <= i < |r| ==> !('A' <= r[i] <= 'Z')
  {
    Lower(Trim(input))
  }

  /** The query occurs in the coin's lower-cased name or in its lower-cased symbol. */
  function Matches(c: Coin, q: string): (r: bool)
    ensures r <==> (exists i :: OccursAt(Lower(c.name), q, i)) || (exists i :: OccursAt(Lower(c.symbol), q, i))
  {
    Contains(Lower(c.name), q) || Contains(Lower(c.symbol), q)
  }

  /**
   * The coins of `raw` that the search box lets through: all of them for an
   * empty normalised query, the matching ones otherwise.
   */
  function SearchFilter(raw: seq<Coin>, input: string): (r: seq<Coin>)
    ensures AllWhitespace(input) ==> r == raw
    ensures !AllWhitespace(input) ==>
      forall c :: multiset(r)[c] == if Matches(c, NormalizeQuery(input)) then multiset(raw)[c] else 0
    ensures !AllWhitespace(input) ==> forall i :: 0 <= i < |r| ==> Matches(r[i], NormalizeQuery(input))
    ensures IsSubsequence(r, raw)
  {
    var q := NormalizeQuery(input);
    if q == [] then
      assert raw == raw[..|raw|];
      SubsequenceReflexive(raw);
      raw
    else
      Filter(raw, c => Matches(c, q))
  }

  /** Every sequence is a subsequence of itself. */
  lemma {:induction false} SubsequenceReflexive<T>(s: seq<T>)
    ensures IsSubsequence(s, s)
  {
    if s != [] {
      SubsequenceReflexive(s[1..]);
    }
  }

  /** A non-blank search keeps a coin exactly when the query occurs in its lower-cased name or symbol. */
  lemma SearchKeepsExactlyMatches(raw: seq<Coin>, input: string, c: Coin)
    requires !AllWhitespace(input)
    ensures c in SearchFilter(raw, input) <==>
      c in raw && ((exists i :: OccursAt(Lower(c.name), NormalizeQuery(input), i))
                || (exists i :: OccursAt(Lower(c.symbol), NormalizeQuery(input), i)))
  {
    var q := NormalizeQuery(input);
    var r := SearchFilter(raw, input);
    assert c in r <==> multiset(r)[c] > 0;
    assert c in raw <==> multiset(raw)[c] > 0;
  }

  /** Searching is case-insensitive: the query's ASCII capitals and surrounding whitespace do not matter. */
  lemma SearchIgnoresCase(raw: seq<Coin>, input: string)
    ensures SearchFilter(raw, Lower(input)) == SearchFilter(raw, input)
  {
    LowerIdempotent(Trim(input));
    assert Lower(Trim(Lower(input))) == Lower(Trim(input)) by {
      LowerTrimCommute(input);
    }
  }

  /** Lower-casing never turns a whitespace character into another one, so it commutes with trimming. */
  lemma LowerTrimCommute(s: string)
    ensures Trim(Lower(s)) == Lower(Trim(s))
  {
    LowerTrimStartCommute(s);
    LowerTrimEndCommute(TrimStart(s));
  }

  lemma {:induction false} LowerTrimStartCommute(s: string)
    ensures TrimStart(Lower(s)) == Lower(TrimStart(s))
    decreases |s|
  {
    if |s| > 0 {
      assert Lower(s)[0] == LowerChar(s[0]);
      LowerKeepsWhitespace(s[0]);
      assert Lower(s)[1..] == Lower(s[1..]);
      if IsWhitespace(s[0]) {
        LowerTrimStartCommute(s[1..]);
      }
    }
  }

  lemma {:induction false} LowerTrimEndCommute(s: string)
    ensures TrimEnd(Lower(s)) == Lower(TrimEnd(s))
    decreases |s|
  {
    if |s| > 0 {
      assert Lower(s)[|s| - 1] == LowerChar(s[|s| - 1]);
      LowerKeepsWhitespace(s[|s| - 1]);
      assert Lower(s)[..|s| - 1] == Lower(s[..|s| - 1]);
      if IsWhitespace(s[|s| - 1]) {
        LowerTrimEndCommute(s[..|s| - 1]);
      }
    }
  }
}

/** The `stocks(symbol)` query (finviz_backend/schema.py, resolve_stocks):
    with a non-empty search text, the stocks whose symbol contains it
    regardless of letter case; otherwise every stock; in either case no
    more than the first ten, in the table's order. */
module StockSearch {
  import opened Models

  /** The slice `[:10]` applied to both queries. */
  const MaxResults: nat := 10

  /** ASCII lower-casing of one character. */
  function LowerChar(c: char): char
  {
    if 'A' <= c <= 'Z' then (c as int + 32) as char else c
  }

  /** ASCII lower-casing of a string. */
  function Lower(s: string): string
  {
    seq(|s|, i requires 0 <= i < |s| => LowerChar(s[i]))
  }

  /** `needle` occurs in `hay` starting at index `i`. */
  predicate OccursAt(hay: string, needle: string, i: nat)
  {
    i + |needle| <= |hay| && hay[i..i + |needle|] == needle
  }

  /** The `icontains` lookup: `needle` occurs in `hay` when letter case
      is ignored. */
  predicate IContains(hay: string, needle: string)
  {
    exists i :: 0 <= i <= |hay| && OccursAt(Lower(hay), Lower(needle), i)
  }

  /** `Stock.objects.filter(symbol__icontains=query)`: the matching stocks,
      in table order. */
  function Matching(table: seq<Stock>, query: string): (r: seq<Stock>)
    ensures |r| <= |table|
    ensures forall s :: s in r <==> s in table && IContains(s.symbol, query)
  {
    if table == [] then []
    else
      var init, last := table[..|table| - 1], table[|table| - 1];
      assert forall s :: s in table <==> s in init || s == last by {
        assert table == init + [last];
      }
      if IContains(last.symbol, query) then Matching(init, query) + [last] else Matching(init, query)
  }

  /** The first `MaxResults` elements of `s`, or all of them. */
  function Take(s: seq<Stock>): seq<Stock>
  {
    if |s| <= MaxResults then s else s[..MaxResults]
  }

  /** resolve_stocks. `symbol` is None when the argument is null; Python's
      `if symbol:` treats None and the empty string alike. */
  function ResolveStocks(table: seq<Stock>, symbol: Option<string>): (r: seq<Stock>)
    ensures |r| <= MaxResults
    ensures forall s :: s in r ==> s in table
    ensures symbol.Some? && symbol.value != "" ==>
      var candidates := Matching(table, symbol.value);
      && (forall s :: s in r ==> IContains(s.symbol, symbol.value))
      && r <= candidates
      && |r| == if |candidates| < MaxResults then |candidates| else MaxResults
    ensures symbol.None? || symbol.value == "" ==>
      r <= table && |r| == if |table| < MaxResults then |table| else MaxResults
  {
    if symbol.Some? && symbol.value != "" then Take(Matching(table, symbol.value))
    else Take(table)
  }

  // ---------------------------------------------------------------------
  // Properties
  // ---------------------------------------------------------------------

  /** Fewer than ten results means nothing that matches was cut off. */
  lemma ShortResultIsComplete(table: seq<Stock>, query: string)
    requires query != ""
    requires |ResolveStocks(table, Some(query))| < MaxResults
    ensures forall s :: s in table && IContains(s.symbol, query) ==> s in ResolveStocks(table, Some(query))
  {
  }

  /** The filter keeps the table's order: matching a concatenation is
      matching each part. */
  lemma {:induction false} MatchingConcat(a: seq<Stock>, b: seq<Stock>, query: string)
    ensures Matching(a + b, query) == Matching(a, query) + Matching(b, query)
  {
    if b == [] {
      assert a + b == a;
    } else {
      var init := b[..|b| - 1];
      MatchingConcat(a, init, query);
      assert (a + b)[..|a + b| - 1] == a + init;
    }
  }

  /** Lower-casing twice is lower-casing once. */
  lemma LowerIdempotent(s: string)
    ensures Lower(Lower(s)) == Lower(s)
  {
    forall i | 0 <= i < |s| ensures Lower(Lower(s))[i] == Lower(s)[i] {
      var c := s[i];
      assert Lower(s)[i] == LowerChar(c);
    }
  }

  /** The lookup ignores letter case on either side, and on both. */
  lemma CaseInsensitive(hay: string, needle: string)
    ensures IContains(hay, needle) <==> IContains(Lower(hay), Lower(needle))
    ensures IContains(hay, needle) <==> IContains(Lower(hay), needle)
    ensures IContains(hay, needle) <==> IContains(hay, Lower(needle))
  {
    LowerIdempotent(hay);
    LowerIdempotent(needle);
  }

  /** A symbol that contains the text with matching case is found by the
      lookup too. */
  lemma ExactOccurrenceMatches(hay: string, needle: string, i: nat)
    requires OccursAt(hay, needle, i)
    ensures IContains(hay, needle)
  {
    var h, n := Lower(hay), Lower(needle);
    assert h[i..i + |n|] == n by {
      forall k | 0 <= k < |n| ensures h[i..i + |n|][k] == n[k] {
        assert hay[i..i + |needle|][k] == needle[k];
      }
    }
    assert OccursAt(h, n, i);
  }
}

/** The `openPositions` field of a portfolio (finviz_backend/schema.py,
    resolve_open_positions): the open positions, taken in ascending opening
    order, folded into one entry per stock symbol whose quantity is the sum
    of the quantities of that symbol's open positions.

    `rows` is the portfolio's position_set in query order. The
    specification functions describe the first `n` rows, counting only the
    open ones, which is what the resolver's loop has seen after `n`
    iterations. */
module OpenPositions {
  import opened Models

  // ---------------------------------------------------------------------
  // Specification
  // ---------------------------------------------------------------------

  /** Row `j` is an open position in stock `sym`. */
  predicate OpenIn(rows: seq<Position>, j: nat, sym: string)
    requires j < |rows|
  {
    IsOpen(rows[j]) && SymbolOf(rows[j]) == sym
  }

  /** The open rows are in ascending opening time, as
      `filter(closed=None).order_by("opened")` delivers them. Ties may come
      in any order. */
  predicate OpenSortedByOpened(rows: seq<Position>)
  {
    forall i, j :: 0 <= i < j < |rows| && IsOpen(rows[i]) && IsOpen(rows[j]) ==> rows[i].openedAt <= rows[j].openedAt
  }

  /** Some open position among the first `n` rows is in stock `sym`. */
  predicate Mentions(rows: seq<Position>, n: nat, sym: string)
    requires n <= |rows|
  {
    n > 0 && (OpenIn(rows, n - 1, sym) || Mentions(rows, n - 1, sym))
  }

  /** The symbols of the open positions among the first `n` rows, each
      once, in the order in which they first occur. */
  function Symbols(rows: seq<Position>, n: nat): (syms: seq<string>)
    requires n <= |rows|
    ensures forall i, j :: 0 <= i < j < |syms| ==> syms[i] != syms[j]
    ensures forall sym :: sym in syms <==> Mentions(rows, n, sym)
  {
    if n == 0 then []
    else if IsOpen(rows[n - 1]) && !Mentions(rows, n - 1, SymbolOf(rows[n - 1])) then
      Symbols(rows, n - 1) + [SymbolOf(rows[n - 1])]
    else Symbols(rows, n - 1)
  }

  /** The sum of the quantities of the open positions in stock `sym` among
      the first `n` rows. */
  function TotalQuantity(rows: seq<Position>, n: nat, sym: string): int
    requires n <= |rows|
  {
    if n == 0 then 0
    else TotalQuantity(rows, n - 1, sym) + if OpenIn(rows, n - 1, sym) then rows[n - 1].quantity else 0
  }

  /** The index of the first open position in stock `sym`. */
  function FirstIndex(rows: seq<Position>, n: nat, sym: string): (r: nat)
    requires n <= |rows| && Mentions(rows, n, sym)
    ensures r < n && OpenIn(rows, r, sym)
    ensures forall j :: 0 <= j < r ==> !OpenIn(rows, j, sym)
  {
    if Mentions(rows, n - 1, sym) then FirstIndex(rows, n - 1, sym)
    else
      NotMentioned(rows, n - 1, sym);
      n - 1
  }

  /** The entry shown for `sym`: the stock's first open position, with its
      quantity replaced by the stock's total open quantity. */
  function Entry(rows: seq<Position>, n: nat, sym: string): Position
    requires n <= |rows| && Mentions(rows, n, sym)
  {
    rows[FirstIndex(rows, n, sym)].(quantity := TotalQuantity(rows, n, sym))
  }

  /** What `openPositions` is meant to return: one entry per symbol of the
      open rows, in first-occurrence order. */
  function OpenPositionsOf(rows: seq<Position>): seq<Position>
  {
    var syms := Symbols(rows, |rows|);
    seq(|syms|, k requires 0 <= k < |syms| => Entry(rows, |rows|, syms[k]))
  }

  // ---------------------------------------------------------------------
  // The resolver
  // ---------------------------------------------------------------------

  /** The loop of resolve_open_positions. The dictionary `res` is keyed by
      symbol; `order` records its insertion order, which is the order of
      `res.values()`. A repeated symbol adds the row's quantity onto the
      stored entry; a new symbol stores the row itself. */
  method ResolveOpenPositions(rows: seq<Position>) returns (result: seq<Position>)
    requires OpenSortedByOpened(rows)
    ensures result == OpenPositionsOf(rows)
    ensures forall k :: 0 <= k < |result| ==> IsOpen(result[k])
    ensures forall k, q :: 0 <= k < |result| && q in rows && IsOpen(q) && SymbolOf(q) == SymbolOf(result[k])
              ==> result[k].openedAt <= q.openedAt
  {
    var res: map<string, Position> := map[];
    var order: seq<string> := [];
    var i := 0;
    while i < |rows|
      invariant 0 <= i <= |rows|
      invariant order == Symbols(rows, i)
      invariant forall sym :: sym in res <==> Mentions(rows, i, sym)
      invariant forall sym :: sym in res ==> res[sym] == Entry(rows, i, sym)
    {
      var position := rows[i];
      EntryStep(rows, i);
      if position.closedAt == None {
        var sym := position.stock.symbol;
        if sym in res {
          res := res[sym := res[sym].(quantity := res[sym].quantity + position.quantity)];
        } else {
          res := res[sym := position];
          order := order + [sym];
        }
      }
      i := i + 1;
    }
    result := seq(|order|, k requires 0 <= k < |order| => res[order[k]]);
    OpenAndEarliest(rows);
  }

  // ---------------------------------------------------------------------
  // Lemmas about one more row
  // ---------------------------------------------------------------------

  /** A stock with no open position among the first `n` rows has none at
      any index below `n`, and a total quantity of zero. */
  lemma {:induction false} NotMentioned(rows: seq<Position>, n: nat, sym: string)
    requires n <= |rows| && !Mentions(rows, n, sym)
    ensures forall j :: 0 <= j < n ==> !OpenIn(rows, j, sym)
    ensures TotalQuantity(rows, n, sym) == 0
  {
    if n > 0 {
      NotMentioned(rows, n - 1, sym);
    }
  }

  /** What row `i` does to the entries: a closed row changes none; an open
      row adds its quantity to the entry of a symbol seen before, becomes
      the entry of a new symbol, and leaves every other symbol's entry as
      it was. */
  lemma EntryStep(rows: seq<Position>, i: nat)
    requires i < |rows|
    ensures var p, sym := rows[i], SymbolOf(rows[i]);
      forall x :: Mentions(rows, i + 1, x) <==> Mentions(rows, i, x) || (IsOpen(p) && x == sym)
    ensures forall x :: Mentions(rows, i, x) && !OpenIn(rows, i, x) ==> Entry(rows, i + 1, x) == Entry(rows, i, x)
    ensures var p, sym := rows[i], SymbolOf(rows[i]);
      IsOpen(p) && Mentions(rows, i, sym) ==>
        Entry(rows, i + 1, sym) == Entry(rows, i, sym).(quantity := Entry(rows, i, sym).quantity + p.quantity)
    ensures var p, sym := rows[i], SymbolOf(rows[i]);
      IsOpen(p) && !Mentions(rows, i, sym) ==> Entry(rows, i + 1, sym) == p
  {
    var p, sym := rows[i], SymbolOf(rows[i]);
    if IsOpen(p) && !Mentions(rows, i, sym) {
      NotMentioned(rows, i, sym);
    }
  }

  // ---------------------------------------------------------------------
  // What the view means
  // ---------------------------------------------------------------------

  /** `e` opened no later than every open row in its stock. */
  predicate EarliestFor(rows: seq<Position>, e: Position)
  {
    forall q :: q in rows && IsOpen(q) && SymbolOf(q) == SymbolOf(e) ==> e.openedAt <= q.openedAt
  }

  /** Every entry of the view is an open position in its stock and
      carries the opening time of the earliest open position in that
      stock. */
  lemma OpenAndEarliest(rows: seq<Position>)
    requires OpenSortedByOpened(rows)
    ensures var r := OpenPositionsOf(rows);
      forall k :: 0 <= k < |r| ==> IsOpen(r[k]) && EarliestFor(rows, r[k])
  {
    var n, r := |rows|, OpenPositionsOf(rows);
    var syms := Symbols(rows, n);
    forall k | 0 <= k < |r| ensures IsOpen(r[k]) && EarliestFor(rows, r[k]) {
      var f := FirstIndex(rows, n, syms[k]);
      forall q | q in rows && IsOpen(q) && SymbolOf(q) == syms[k] ensures rows[f].openedAt <= q.openedAt {
        var j :| 0 <= j < n && rows[j] == q;
        assert OpenIn(rows, j, syms[k]);
      }
    }
  }

  /** Each entry's quantity is the sum of the quantities of all open
      positions in its stock, and every other field is that of the stock's
      first open position in query order. */
  lemma EntryMeaning(rows: seq<Position>, k: nat)
    requires k < |OpenPositionsOf(rows)|
    ensures var e, n := OpenPositionsOf(rows)[k], |rows|;
      && Mentions(rows, n, SymbolOf(e))
      && e.quantity == TotalQuantity(rows, n, SymbolOf(e))
      && (exists j :: 0 <= j < n && OpenIn(rows, j, SymbolOf(e)) && e == rows[j].(quantity := e.quantity)
                      && forall i :: 0 <= i < j ==> !OpenIn(rows, i, SymbolOf(e)))
  {
    var n := |rows|;
    var sym := Symbols(rows, n)[k];
    var j := FirstIndex(rows, n, sym);
    assert OpenIn(rows, j, sym);
  }

  /** Whether some row is an open position in stock `sym`, as an index. */
  lemma {:induction false} MentionsWitness(rows: seq<Position>, n: nat, sym: string)
    requires n <= |rows|
    ensures Mentions(rows, n, sym) <==> exists j :: 0 <= j < n && OpenIn(rows, j, sym)
  {
    if n > 0 {
      MentionsWitness(rows, n - 1, sym);
    }
  }

  /** The view has exactly one entry per stock symbol, and its symbols are
      exactly the symbols of the open rows. */
  lemma OneEntryPerOpenSymbol(rows: seq<Position>)
    ensures var r := OpenPositionsOf(rows);
      forall i, j :: 0 <= i < j < |r| ==> SymbolOf(r[i]) != SymbolOf(r[j])
    ensures var r := OpenPositionsOf(rows);
      (set k | 0 <= k < |r| :: SymbolOf(r[k])) == (set q | q in rows && IsOpen(q) :: SymbolOf(q))
  {
    var n, r := |rows|, OpenPositionsOf(rows);
    var syms := Symbols(rows, n);
    forall k | 0 <= k < |r| ensures SymbolOf(r[k]) == syms[k] {
      assert OpenIn(rows, FirstIndex(rows, n, syms[k]), syms[k]);
    }
    var left, right := set k | 0 <= k < |r| :: SymbolOf(r[k]), set q | q in rows && IsOpen(q) :: SymbolOf(q);
    forall sym | sym in right ensures sym in left {
      var q :| q in rows && IsOpen(q) && SymbolOf(q) == sym;
      var j :| 0 <= j < n && rows[j] == q;
      assert OpenIn(rows, j, sym);
      MentionsWitness(rows, n, sym);
      var k :| 0 <= k < |syms| && syms[k] == sym;
    }
    forall sym | sym in left ensures sym in right {
      var k :| 0 <= k < |r| && SymbolOf(r[k]) == sym;
      assert rows[FirstIndex(rows, n, sym)] in rows;
    }
  }

  /** Entries appear in the order in which their symbols first occur among
      the open rows: an earlier entry's stock is first seen at an earlier
      row. */
  lemma {:induction false} FirstOccurrenceOrder(rows: seq<Position>, n: nat, i: nat, j: nat)
    requires n <= |rows| && i < j < |Symbols(rows, n)|
    ensures FirstIndex(rows, n, Symbols(rows, n)[i]) < FirstIndex(rows, n, Symbols(rows, n)[j])
  {
    var syms, before := Symbols(rows, n), Symbols(rows, n - 1);
    assert syms[i] == before[i] && Mentions(rows, n - 1, syms[i]);
    assert FirstIndex(rows, n, syms[i]) == FirstIndex(rows, n - 1, syms[i]) < n - 1;
    if j < |before| {
      assert syms[j] == before[j] && Mentions(rows, n - 1, syms[j]);
      FirstOccurrenceOrder(rows, n - 1, i, j);
    } else {
      assert !Mentions(rows, n - 1, syms[j]);
    }
  }

  /** The same order stated on the view itself: an earlier entry's stock
      first occurs at an earlier row than a later entry's stock. */
  lemma ResultInFirstOccurrenceOrder(rows: seq<Position>, i: nat, j: nat)
    requires i < j < |OpenPositionsOf(rows)|
    ensures var r := OpenPositionsOf(rows);
      Mentions(rows, |rows|, SymbolOf(r[i])) && Mentions(rows, |rows|, SymbolOf(r[j]))
      && FirstIndex(rows, |rows|, SymbolOf(r[i])) < FirstIndex(rows, |rows|, SymbolOf(r[j]))
  {
    var syms := Symbols(rows, |rows|);
    assert SymbolOf(OpenPositionsOf(rows)[i]) == syms[i];
    assert SymbolOf(OpenPositionsOf(rows)[j]) == syms[j];
    FirstOccurrenceOrder(rows, |rows|, i, j);
  }

  // ---------------------------------------------------------------------
  // Closed rows do not count
  // ---------------------------------------------------------------------

  /** `big` is `small` with the closed position `big[k]` inserted at `k`. */
  predicate InsertedClosed(small: seq<Position>, big: seq<Position>, k: nat)
  {
    && k <= |small| && |big| == |small| + 1
    && !IsOpen(big[k])
    && (forall j :: 0 <= j < k ==> big[j] == small[j])
    && (forall j :: k <= j < |small| ==> big[j + 1] == small[j])
  }

  /** Where index `j` of `small` lands in `big`. */
  function Shift(j: nat, k: nat): nat
  {
    if j < k then j else j + 1
  }

  /** The first `n` rows of `small` and the first `Shift(n, k)` rows of
      `big` (past the inserted closed row once `n` reaches `k`) have the
      same symbols, totals and entries. */
  lemma {:induction false} InsertClosedPrefix(small: seq<Position>, big: seq<Position>, k: nat, n: nat)
    requires InsertedClosed(small, big, k) && n <= |small|
    ensures var m := Shift(n, k);
      && (forall sym :: Mentions(big, m, sym) == Mentions(small, n, sym))
      && (forall sym :: TotalQuantity(big, m, sym) == TotalQuantity(small, n, sym))
      && Symbols(big, m) == Symbols(small, n)
      && (forall sym :: Mentions(small, n, sym) ==> FirstIndex(big, m, sym) == Shift(FirstIndex(small, n, sym), k))
  {
    if n == 0 {
      if k == 0 {
        assert !IsOpen(big[0]);
      }
    } else {
      InsertClosedPrefix(small, big, k, n - 1);
      if n < k {
        assert big[n - 1] == small[n - 1];
      } else if n == k {
        assert big[n - 1] == small[n - 1];
        assert !IsOpen(big[n]);
      } else {
        assert big[n] == small[n - 1];
      }
    }
  }

  /** A closed position never influences the open-positions view:
      inserting one anywhere in the rows leaves the result unchanged. */
  lemma ClosedRowIgnored(a: seq<Position>, p: Position, b: seq<Position>)
    requires !IsOpen(p)
    ensures OpenPositionsOf(a + [p] + b) == OpenPositionsOf(a + b)
  {
    var small, big, k := a + b, a + [p] + b, |a|;
    assert InsertedClosed(small, big, k);
    InsertClosedPrefix(small, big, k, |small|);
    var syms := Symbols(small, |small|);
    forall i | 0 <= i < |syms| ensures Entry(big, |big|, syms[i]) == Entry(small, |small|, syms[i]) {
      var f := FirstIndex(small, |small|, syms[i]);
      assert big[Shift(f, k)] == small[f];
    }
  }

  // ---------------------------------------------------------------------
  // Conservation of quantity
  // ---------------------------------------------------------------------

  /** The sum of the quantities of the positions of `s`. */
  function SumQuantities(s: seq<Position>): int
  {
    if s == [] then 0 else SumQuantities(s[..|s| - 1]) + s[|s| - 1].quantity
  }

  /** The sum of the quantities of the open positions among the first `n`
      rows. */
  function OpenQuantity(rows: seq<Position>, n: nat): int
    requires n <= |rows|
  {
    if n == 0 then 0 else OpenQuantity(rows, n - 1) + if IsOpen(rows[n - 1]) then rows[n - 1].quantity else 0
  }

  /** The sum of the stock totals of the symbols `syms`. */
  function SumTotals(syms: seq<string>, rows: seq<Position>, n: nat): int
    requires n <= |rows|
  {
    if syms == [] then 0 else SumTotals(syms[..|syms| - 1], rows, n) + TotalQuantity(rows, n, syms[|syms| - 1])
  }

  /** Folding the open positions into one entry per symbol neither creates
      nor loses shares: the entries' quantities add up to the quantities of
      all open positions. */
  lemma QuantityConserved(rows: seq<Position>)
    ensures SumQuantities(OpenPositionsOf(rows)) == OpenQuantity(rows, |rows|)
  {
    var r, syms := OpenPositionsOf(rows), Symbols(rows, |rows|);
    EntriesSum(rows, |syms|);
    assert r[..|syms|] == r;
    assert syms[..|syms|] == syms;
    SymbolTotals(rows, |rows|);
  }

  /** The first `m` entries add up to the totals of the first `m` symbols. */
  lemma {:induction false} EntriesSum(rows: seq<Position>, m: nat)
    requires m <= |Symbols(rows, |rows|)|
    ensures SumQuantities(OpenPositionsOf(rows)[..m]) == SumTotals(Symbols(rows, |rows|)[..m], rows, |rows|)
  {
    if m > 0 {
      EntriesSum(rows, m - 1);
      assert OpenPositionsOf(rows)[..m][..m - 1] == OpenPositionsOf(rows)[..m - 1];
      assert Symbols(rows, |rows|)[..m][..m - 1] == Symbols(rows, |rows|)[..m - 1];
    }
  }

  /** The stock totals over all symbols add up to the total open quantity. */
  lemma {:induction false} SymbolTotals(rows: seq<Position>, n: nat)
    requires n <= |rows|
    ensures SumTotals(Symbols(rows, n), rows, n) == OpenQuantity(rows, n)
  {
    if n > 0 {
      SymbolTotals(rows, n - 1);
      var p := rows[n - 1];
      if IsOpen(p) && !Mentions(rows, n - 1, SymbolOf(p)) {
        TotalsNewSymbol(rows, n);
      } else {
        TotalsKnownSymbol(rows, n);
      }
    }
  }

  /** A row that opens a new symbol adds that symbol's total, which is the
      row's own quantity. */
  lemma TotalsNewSymbol(rows: seq<Position>, n: nat)
    requires 0 < n <= |rows|
    requires IsOpen(rows[n - 1]) && !Mentions(rows, n - 1, SymbolOf(rows[n - 1]))
    ensures SumTotals(Symbols(rows, n), rows, n) == SumTotals(Symbols(rows, n - 1), rows, n - 1) + rows[n - 1].quantity
  {
    var before, p := Symbols(rows, n - 1), rows[n - 1];
    var sym := SymbolOf(p);
    assert Symbols(rows, n) == before + [sym];
    TotalsStep(before, rows, n - 1);
    SumTotalsAppend(before, sym, rows, n);
    NotMentioned(rows, n - 1, sym);
  }

  /** Any other row adds its quantity, if open, to the total of a symbol
      already listed. */
  lemma TotalsKnownSymbol(rows: seq<Position>, n: nat)
    requires 0 < n <= |rows|
    requires !(IsOpen(rows[n - 1]) && !Mentions(rows, n - 1, SymbolOf(rows[n - 1])))
    ensures SumTotals(Symbols(rows, n), rows, n)
            == SumTotals(Symbols(rows, n - 1), rows, n - 1) + if IsOpen(rows[n - 1]) then rows[n - 1].quantity else 0
  {
    var before := Symbols(rows, n - 1);
    assert Symbols(rows, n) == before;
    TotalsStep(before, rows, n - 1);
  }

  /** One more symbol adds its total. */
  lemma SumTotalsAppend(syms: seq<string>, sym: string, rows: seq<Position>, n: nat)
    requires n <= |rows|
    ensures SumTotals(syms + [sym], rows, n) == SumTotals(syms, rows, n) + TotalQuantity(rows, n, sym)
  {
    assert (syms + [sym])[..|syms|] == syms;
  }

  /** Row `n` adds its quantity to the totals of distinct symbols once if
      it is open and its symbol is among them, and not at all otherwise. */
  lemma {:induction false} TotalsStep(syms: seq<string>, rows: seq<Position>, n: nat)
    requires n < |rows|
    requires forall i, j :: 0 <= i < j < |syms| ==> syms[i] != syms[j]
    ensures SumTotals(syms, rows, n + 1)
            == SumTotals(syms, rows, n) + if IsOpen(rows[n]) && SymbolOf(rows[n]) in syms then rows[n].quantity else 0
  {
    if syms != [] {
      var init := syms[..|syms| - 1];
      TotalsStep(init, rows, n);
      assert syms == init + [syms[|syms| - 1]];
    }
  }
}

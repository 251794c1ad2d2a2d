/** The `sectors` field of a portfolio (finviz_backend/schema.py,
    resolve_sectors): one entry per position, named after the sector of the
    position's stock, whose share is the position's notional weight
    (quantity times price) divided by the weight of all positions. The
    sector of a stock comes from a quote service; here it is the parameter
    `sectorOf`. Float arithmetic is modelled on exact reals. */
module Sectors {
  import opened Models

  datatype Sector = Sector(name: string, share: real)

  /** The exception the resolver raises: Python's ZeroDivisionError. */
  datatype Error = DivisionByZero

  datatype Result<T> = Ok(value: T) | Err(error: Error)

  /** The notional weight `quantity * price` of one position. */
  function Weight(p: Position): real
  {
    p.quantity as real * p.price
  }

  /** The sum of the weights of all positions. */
  function TotalWeight(positions: seq<Position>): real
  {
    if positions == [] then 0.0
    else TotalWeight(positions[..|positions| - 1]) + Weight(positions[|positions| - 1])
  }

  /** Python's `sum` over the shares of a list of entries. */
  function SumShares(entries: seq<Sector>): real
  {
    if entries == [] then 0.0
    else SumShares(entries[..|entries| - 1]) + entries[|entries| - 1].share
  }

  /** The list comprehension that divides every share by `total`. It only
      divides when there is an entry to divide. */
  function Normalize(entries: seq<Sector>, total: real): (r: seq<Sector>)
    requires entries != [] ==> total != 0.0
    ensures |r| == |entries|
    ensures forall i :: 0 <= i < |r| ==> r[i].name == entries[i].name && r[i].share * total == entries[i].share
  {
    seq(|entries|, i requires 0 <= i < |entries| => Sector(entries[i].name, entries[i].share / total))
  }

  /** resolve_sectors: the loop that appends one entry per position,
      then the sum of the shares, then the normalisation. With no positions
      nothing is divided and the result is empty; with positions whose
      weights sum to zero the division fails. */
  method ResolveSectors(positions: seq<Position>, sectorOf: string -> string) returns (r: Result<seq<Sector>>)
    ensures r.Err? <==> positions != [] && TotalWeight(positions) == 0.0
    ensures r.Ok? ==> |r.value| == |positions|
    ensures r.Ok? ==> forall i :: 0 <= i < |positions| ==>
              && r.value[i].name == sectorOf(SymbolOf(positions[i]))
              && r.value[i].share == Weight(positions[i]) / TotalWeight(positions)
    ensures r.Ok? && positions != [] ==> SumShares(r.value) == 1.0
  {
    var sectors: seq<Sector> := [];
    var i := 0;
    while i < |positions|
      invariant 0 <= i <= |positions|
      invariant |sectors| == i
      invariant forall k :: 0 <= k < i ==> sectors[k] == Sector(sectorOf(SymbolOf(positions[k])), Weight(positions[k]))
    {
      var position := positions[i];
      sectors := sectors + [Sector(sectorOf(position.stock.symbol), position.quantity as real * position.price)];
      i := i + 1;
    }
    var total := SumShares(sectors);
    SharesAreWeights(sectors, positions);
    if sectors != [] && total == 0.0 {
      return Err(DivisionByZero);
    }
    var normalized := Normalize(sectors, total);
    if sectors != [] {
      NormalizedSum(sectors, total);
      DivideBySelf(total);
    }
    r := Ok(normalized);
  }

  /** Entries whose shares are the positions' weights add up to the total
      weight. */
  lemma {:induction false} SharesAreWeights(entries: seq<Sector>, positions: seq<Position>)
    requires |entries| == |positions|
    requires forall k :: 0 <= k < |entries| ==> entries[k].share == Weight(positions[k])
    ensures SumShares(entries) == TotalWeight(positions)
  {
    if entries != [] {
      var n := |entries| - 1;
      SharesAreWeights(entries[..n], positions[..n]);
    }
  }

  /** A non-zero number divided by itself is one. */
  lemma DivideBySelf(x: real)
    requires x != 0.0
    ensures x / x == 1.0
  {
  }

  /** Dividing every share by the nonzero `total` divides their sum by it. */
  lemma {:induction false} NormalizedSum(entries: seq<Sector>, total: real)
    requires total != 0.0
    ensures SumShares(Normalize(entries, total)) == SumShares(entries) / total
  {
    if entries != [] {
      var n := |entries| - 1;
      NormalizedSum(entries[..n], total);
      assert Normalize(entries, total)[..n] == Normalize(entries[..n], total);
    }
  }
}

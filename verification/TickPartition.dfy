/** Validation of a converted table, and its split by year. */
module TickPartition {
  import opened Calendar
  import opened Grouping
  import opened Sorting
  import opened TickParsing
  import opened TickConversion

  // ---- validation ----

  datatype Complaint = NegativeSpreads(n: nat) | Nulls(n: nat) | OutOfOrder | NegativeMeanSpread

  function Count(table: seq<Tick>, test: Tick -> bool): nat {
    if table == [] then 0 else Count(table[..|table| - 1], test) + if test(table[|table| - 1]) then 1 else 0
  }

  function NullCells(table: seq<Tick>): nat {
    Count(table, (t: Tick) => t.bid.NaN?) + Count(table, (t: Tick) => t.ask.NaN?)
  }

  predicate InOrder(table: seq<Tick>) {
    forall i :: 0 <= i < |table| - 1 ==> table[i].timestamp <= table[i + 1].timestamp
  }

  /** Ask minus bid; the difference of two equal infinities is no number. */
  function Spread(t: Tick): Quote {
    if HasNull(t) || (t.bid.Infinite? && t.bid == t.ask) then NaN
    else if t.ask.Infinite? then t.ask
    else if t.bid.Infinite? then Infinite(!t.bid.positive)
    else Amount(t.ask.value - t.bid.value)
  }

  /** The sum of the spreads that are finite numbers. */
  function SpreadSum(table: seq<Tick>): real {
    if table == [] then 0.0
    else
      var spread := Spread(table[|table| - 1]);
      SpreadSum(table[..|table| - 1]) + if spread.Amount? then spread.value else 0.0
  }

  /** The mean leaves out what is no number; with infinite spreads of one sign it is that infinity, and with both it
  is no number. */
  predicate MeanBelowZero(table: seq<Tick>) {
    var down := Count(table, (t: Tick) => Spread(t) == Infinite(false));
    var up := Count(table, (t: Tick) => Spread(t) == Infinite(true));
    var n := Count(table, (t: Tick) => Spread(t).Amount?);
    if down + up > 0 then up == 0 else n > 0 && SpreadSum(table) / n as real < 0.0
  }

  /** The errors; only the whole-file converter looks at the mean spread. */
  function Complaints(table: seq<Tick>, reader: Reader): seq<Complaint> {
    var negative, nulls := Count(table, (t: Tick) => Below(t.ask, t.bid)), NullCells(table);
    (if negative > 0 then [NegativeSpreads(negative)] else [])
    + (if nulls > 0 then [Nulls(nulls)] else [])
    + (if !InOrder(table) then [OutOfOrder] else [])
    + (if reader.Plain? && MeanBelowZero(table) then [NegativeMeanSpread] else [])
  }

  lemma {:induction false} CountNone(table: seq<Tick>, test: Tick -> bool)
    ensures Count(table, test) == 0 <==> forall t :: t in table ==> !test(t)
  {
    if table != [] {
      var front, last := table[..|table| - 1], table[|table| - 1];
      CountNone(front, test);
      assert forall t :: t in table <==> t in front || t == last;
    }
  }

  lemma {:induction false} SpreadSumNotNegative(table: seq<Tick>)
    requires forall t :: t in table ==> Sane(t)
    ensures SpreadSum(table) >= 0.0
  {
    if table != [] {
      assert table[|table| - 1] in table;
      SpreadSumNotNegative(table[..|table| - 1]);
    }
  }

  /** For any table, sorted or not: a negative spread is reported exactly if some ask lies below its bid, a null exactly
  if some price is no number, and disorder exactly if some time is earlier than the one before. */
  lemma ComplaintsIff(table: seq<Tick>, reader: Reader)
    ensures var complaints := Complaints(table, reader);
      && ((exists c :: c in complaints && c.NegativeSpreads?) <==> exists t :: t in table && Below(t.ask, t.bid))
      && ((exists c :: c in complaints && c.Nulls?) <==> exists t :: t in table && (t.bid.NaN? || t.ask.NaN?))
      && (OutOfOrder in complaints <==>
            exists i, j :: 0 <= i < |table| && j == i + 1 < |table| && table[j].timestamp < table[i].timestamp)
      && (NegativeMeanSpread in complaints ==> reader.Plain?)
  {
    var negative := Count(table, (t: Tick) => Below(t.ask, t.bid));
    var complaints := Complaints(table, reader);
    CountNone(table, (t: Tick) => Below(t.ask, t.bid));
    CountNone(table, (t: Tick) => t.bid.NaN?);
    CountNone(table, (t: Tick) => t.ask.NaN?);
    if negative > 0 { assert complaints[0] == NegativeSpreads(negative); }
    if NullCells(table) > 0 { assert complaints[if negative > 0 then 1 else 0] == Nulls(NullCells(table)); }
  }

  predicate Finite(table: seq<Tick>) { forall t :: t in table ==> t.bid.Amount? && t.ask.Amount? }

  function Bids(table: seq<Tick>): real
    requires Finite(table)
  {
    if table == [] then 0.0
    else
      assert table[|table| - 1] in table;
      Bids(table[..|table| - 1]) + table[|table| - 1].bid.value
  }

  function Asks(table: seq<Tick>): real
    requires Finite(table)
  {
    if table == [] then 0.0
    else
      assert table[|table| - 1] in table;
      Asks(table[..|table| - 1]) + table[|table| - 1].ask.value
  }

  lemma {:induction false} FiniteSpreads(table: seq<Tick>)
    requires Finite(table)
    ensures SpreadSum(table) == Asks(table) - Bids(table)
    ensures Count(table, (t: Tick) => Spread(t).Amount?) == |table|
    ensures Count(table, (t: Tick) => Spread(t) == Infinite(false)) == 0
    ensures Count(table, (t: Tick) => Spread(t) == Infinite(true)) == 0
  {
    if table != [] {
      assert table[|table| - 1] in table;
      FiniteSpreads(table[..|table| - 1]);
    }
  }

  /** On a table of finite prices the whole-file converter reports a negative mean spread exactly if the asks come to
  less than the bids. */
  lemma MeanSpreadIff(table: seq<Tick>, reader: Reader)
    requires Finite(table)
    ensures NegativeMeanSpread in Complaints(table, reader) <==> reader.Plain? && Asks(table) < Bids(table)
  {
    FiniteSpreads(table);
    if table != [] { Quotient(SpreadSum(table), |table|); }
  }

  lemma Quotient(sum: real, n: nat)
    requires n > 0
    ensures sum / n as real < 0.0 <==> sum < 0.0
  {
    var d := n as real;
    assert sum / d * d == sum;
  }

  lemma InTableIffKept(records: seq<Record>, symbol: string, reader: Reader, table: seq<Tick>)
    requires IsSortOf(table, KeptBy(records, symbol, reader), TIME)
    ensures forall t :: t in table <==> t in KeptBy(records, symbol, reader)
    ensures forall t :: t in table ==> Sane(t)
  {
    var kept := KeptBy(records, symbol, reader);
    forall t ensures t in table <==> t in kept {
      assert t in table <==> t in multiset(table);
      assert t in kept <==> t in multiset(kept);
    }
    forall t | t in table ensures Sane(t) {
      KeptCounts(records, ParserFor(symbol, reader), t);
      var i :| 0 <= i < |records| && Parse(records[i], symbol, reader) == Kept(t);
      KeptTicksAreSane(records[i], symbol, reader);
    }
  }

  /** What either converter produces passes its own validation exactly when every kept price is a number; and
  nulls are the only error that it can report. */
  lemma ValidationPassesIff(records: seq<Record>, symbol: string, reader: Reader, table: seq<Tick>)
    requires IsSortOf(table, KeptBy(records, symbol, reader), TIME)
    ensures Complaints(table, reader) == if NullCells(table) > 0 then [Nulls(NullCells(table))] else []
    ensures Complaints(table, reader) == [] <==> forall t :: t in KeptBy(records, symbol, reader) ==> !HasNull(t)
  {
    InTableIffKept(records, symbol, reader, table);
    SaneTableHasOnlyNulls(table, reader);
    CountNone(table, (t: Tick) => t.bid.NaN?);
    CountNone(table, (t: Tick) => t.ask.NaN?);
  }

  lemma SaneTableHasOnlyNulls(table: seq<Tick>, reader: Reader)
    requires Sorted(table, TIME) && forall t :: t in table ==> Sane(t)
    ensures Complaints(table, reader) == if NullCells(table) > 0 then [Nulls(NullCells(table))] else []
  {
    CountNone(table, (t: Tick) => Below(t.ask, t.bid));
    CountNone(table, (t: Tick) => Spread(t) == Infinite(false));
    SpreadSumNotNegative(table);
    MeanNotNegative(SpreadSum(table), Count(table, (t: Tick) => Spread(t).Amount?));
    SortedIsInOrder(table);
  }

  lemma SortedIsInOrder(table: seq<Tick>)
    requires Sorted(table, TIME)
    ensures InOrder(table)
  {
    forall i | 0 <= i < |table| - 1 ensures table[i].timestamp <= table[i + 1].timestamp {
      assert TIME(table[i]) <= TIME(table[i + 1]);
    }
  }

  lemma MeanNotNegative(sum: real, n: nat)
    requires sum >= 0.0
    ensures n > 0 ==> sum / n as real >= 0.0
  {
  }

  // ---- the split by year ----

  const YEAR := (t: Tick) => Year(t.timestamp)

  /** Years never decrease down a table sorted by time. */
  lemma SortedByYear(table: seq<Tick>)
    requires Sorted(table, TIME)
    ensures Sorted(table, YEAR)
  {
    forall i, j | 0 <= i < j < |table| ensures YEAR(table[i]) <= YEAR(table[j]) {
      assert TIME(table[i]) <= TIME(table[j]);
      YearIsMonotone(table[i].timestamp, table[j].timestamp);
    }
  }

  /** One partition for every year that occurs, with that year's rows in their order. */
  method PartitionByYear(table: seq<Tick>) returns (partitions: map<int, seq<Tick>>)
    ensures forall y :: y in partitions <==> exists t :: t in table && Year(t.timestamp) == y
    ensures forall y :: y in partitions ==> partitions[y] == RowsOf(table, YEAR, y) != []
  {
    var years := KeysOf(table, YEAR);
    KeysExactly(table, YEAR);
    partitions := map[];
    for i := 0 to |years|
      invariant forall y :: y in partitions <==> y in years[..i]
      invariant forall y :: y in partitions ==> partitions[y] == RowsOf(table, YEAR, y) != []
    {
      RowsExactly(table, YEAR, years[i]);
      assert years[i] in years;
      partitions := partitions[years[i] := RowsOf(table, YEAR, years[i])];
    }
    assert years[..|years|] == years;
  }

  /** Laid end to end in year order, the partitions of a sorted table are the table again: every kept tick is
  in the file of its year, as often as it was read, and nothing else is. */
  lemma PartitionsAreLossless(records: seq<Record>, symbol: string, reader: Reader, table: seq<Tick>)
    requires IsSortOf(table, KeptBy(records, symbol, reader), TIME)
    ensures InKeyOrder(table, YEAR, KeysOf(table, YEAR)) == table
    ensures multiset(InKeyOrder(table, YEAR, KeysOf(table, YEAR))) == multiset(KeptBy(records, symbol, reader))
  {
    SortedByYear(table);
    GroupsAreLossless(table, YEAR);
  }
}

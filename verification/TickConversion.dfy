/** Whole-file and batched conversion of a file of records. */
module TickConversion {
  import opened Sorting
  import opened TickParsing

  const TIME := (t: Tick) => t.timestamp

  type Parser = Record -> Parsed

  function ParserFor(symbol: string, reader: Reader): Parser { record => Parse(record, symbol, reader) }

  datatype Outcome = Table(rows: seq<Tick>) | NoTicks | Aborted

  function KeptTicks(records: seq<Record>, parse: Parser): seq<Tick> {
    if records == [] then []
    else
      var parsed := parse(records[|records| - 1]);
      KeptTicks(records[..|records| - 1], parse) + if parsed.Kept? then [parsed.tick] else []
  }

  /** The unit in which the installed version of pandas keeps the times of a table. */
  datatype Unit = Nanoseconds | Microseconds

  /** Nanoseconds in 64 bits reach from 1677 to 2262; times beyond them fail the table. */
  predicate Holds(unit: Unit, micros: int) {
    unit.Microseconds? || -9_223_372_036_854_775 <= micros <= 9_223_372_036_854_775
  }

  /** In nanoseconds the time fits a signed 64-bit number, and is not the least one, which stands for a missing time. */
  lemma HoldsIff(micros: int)
    ensures Holds(Nanoseconds, micros) <==> -0x8000_0000_0000_0000 < 1000 * micros < 0x8000_0000_0000_0000
    ensures Holds(Microseconds, micros)
  {
  }

  predicate Held(ticks: seq<Tick>, unit: Unit) { forall t :: t in ticks ==> Holds(unit, t.timestamp) }

  /** A record on which a conversion fails: its parser raises, or no table holds its time. */
  predicate Spoils(parsed: Parsed, unit: Unit) {
    parsed.Raised? || (parsed.Kept? && !Holds(unit, parsed.tick.timestamp))
  }

  predicate Aborts(records: seq<Record>, parse: Parser, unit: Unit) {
    exists i :: 0 <= i < |records| && Spoils(parse(records[i]), unit)
  }

  /** What a converter comes to, up to the order of the table's rows. */
  function OutcomeOf(records: seq<Record>, parse: Parser, unit: Unit): Outcome {
    var kept := KeptTicks(records, parse);
    if Aborts(records, parse, unit) then Aborted else if kept == [] then NoTicks else Table(kept)
  }

  lemma OneMoreRecord(records: seq<Record>, i: nat, parse: Parser)
    requires i < |records|
    ensures var parsed, before := parse(records[i]), KeptTicks(records[..i], parse);
      KeptTicks(records[..i + 1], parse) == before + if parsed.Kept? then [parsed.tick] else []
  {
    assert records[..i + 1][..i] == records[..i];
  }

  lemma {:induction false} KeptCounts(records: seq<Record>, parse: Parser, t: Tick)
    ensures t in KeptTicks(records, parse)
       <==> exists i :: 0 <= i < |records| && parse(records[i]) == Kept(t)
  {
    if records != [] {
      var front := records[..|records| - 1];
      KeptCounts(front, parse, t);
      if exists i :: 0 <= i < |records| && parse(records[i]) == Kept(t) {
        var i :| 0 <= i < |records| && parse(records[i]) == Kept(t);
        if i < |front| { assert parse(front[i]) == Kept(t); }
      }
    }
  }

  lemma AbortsIff(records: seq<Record>, parse: Parser, unit: Unit)
    requires forall i :: 0 <= i < |records| ==> !parse(records[i]).Raised?
    ensures Aborts(records, parse, unit) <==> !Held(KeptTicks(records, parse), unit)
  {
    var kept := KeptTicks(records, parse);
    if Aborts(records, parse, unit) {
      var i :| 0 <= i < |records| && Spoils(parse(records[i]), unit);
      KeptCounts(records, parse, parse(records[i]).tick);
    } else {
      forall t | t in kept ensures Holds(unit, t.timestamp) {
        KeptCounts(records, parse, t);
        var i :| 0 <= i < |records| && parse(records[i]) == Kept(t);
        assert !Spoils(parse(records[i]), unit);
      }
    }
  }

  // ---- the two converters, up to their sort ----

  method ConvertWholeFile(records: seq<Record>, parse: Parser, unit: Unit) returns (outcome: Outcome, skipped: nat)
    ensures outcome == OutcomeOf(records, parse, unit)
    ensures !outcome.Aborted? ==> |KeptTicks(records, parse)| + skipped == |records|
  {
    var parsedTicks: seq<Tick> := [];
    skipped := 0;
    for i := 0 to |records|
      invariant parsedTicks == KeptTicks(records[..i], parse)
      invariant |parsedTicks| + skipped == i
      invariant forall j :: 0 <= j < i ==> !parse(records[j]).Raised?
    {
      OneMoreRecord(records, i, parse);
      var parsed := parse(records[i]);
      if parsed.Raised? {
        assert Spoils(parse(records[i]), unit);
        return Aborted, skipped;
      }
      if parsed.Kept? { parsedTicks := parsedTicks + [parsed.tick]; } else { skipped := skipped + 1; }
    }
    assert records[..|records|] == records;
    AbortsIff(records, parse, unit);
    if parsedTicks == [] { return NoTicks, skipped; }
    return if Held(parsedTicks, unit) then Table(parsedTicks) else Aborted, skipped;
  }

  function Concat(batches: seq<seq<Tick>>): seq<Tick> {
    if batches == [] then [] else Concat(batches[..|batches| - 1]) + batches[|batches| - 1]
  }

  predicate Uniform(batches: seq<seq<Tick>>, size: int) { forall k :: 0 <= k < |batches| ==> |batches[k]| == size }

  /** Where the batched loop stands: `i` records read, the full batches, and the ticks of the next one. */
  ghost predicate Reached(records: seq<Record>, parse: Parser, batchSize: int, i: nat,
                          batches: seq<seq<Tick>>, parsedTicks: seq<Tick>, skipped: nat)
  {
    && i <= |records|
    && Concat(batches) + parsedTicks == KeptTicks(records[..i], parse)
    && |KeptTicks(records[..i], parse)| + skipped == i
    && (batchSize >= 1 ==> Uniform(batches, batchSize) && |parsedTicks| < batchSize)
    && (batchSize < 1 ==> parsedTicks == [] && |batches| == i)
  }

  lemma OneRecord(records: seq<Record>, parse: Parser, batchSize: int, i: nat,
                  batches: seq<seq<Tick>>, parsedTicks: seq<Tick>, skipped: nat)
    requires Reached(records, parse, batchSize, i, batches, parsedTicks, skipped) && i < |records|
    ensures var parsed := parse(records[i]);
      var ticks := parsedTicks + if parsed.Kept? then [parsed.tick] else [];
      var missed := skipped + if parsed.Kept? then 0 else 1;
      if |ticks| >= batchSize then Reached(records, parse, batchSize, i + 1, batches + [ticks], [], missed)
      else Reached(records, parse, batchSize, i + 1, batches, ticks, missed)
  {
    OneMoreRecord(records, i, parse);
    var parsed := parse(records[i]);
    var ticks := parsedTicks + if parsed.Kept? then [parsed.tick] else [];
    assert (batches + [ticks])[..|batches|] == batches;
    assert Concat(batches) + ticks == KeptTicks(records[..i + 1], parse);
  }

  /** The batches laid end to end are the kept ticks, whatever the batch size, and all are full but the last;
  a size below one makes every record a batch. */
  ghost predicate Batched(records: seq<Record>, parse: Parser, batchSize: int, batches: seq<seq<Tick>>) {
    var kept := KeptTicks(records, parse);
    && Concat(batches) == kept
    && (batchSize < 1 ==> |batches| == |records|)
    && (batchSize >= 1 ==> (batches == [] <==> kept == []))
    && (batchSize >= 1 && batches != [] ==>
          var last := |batches| - 1;
          Uniform(batches[..last], batchSize) && 1 <= |batches[last]| <= batchSize)
  }

  /** A batch whose times no table holds comes from a record that spoils the file. */
  lemma NextBatch(records: seq<Record>, parse: Parser, unit: Unit, i: nat, batches: seq<seq<Tick>>, batch: seq<Tick>)
    requires i <= |records| && Concat(batches) + batch == KeptTicks(records[..i], parse) && Held(Concat(batches), unit)
    ensures !Held(batch, unit) ==> Aborts(records, parse, unit)
    ensures Concat(batches + [batch]) == Concat(batches) + batch
    ensures Held(batch, unit) ==> Held(Concat(batches + [batch]), unit)
  {
    assert (batches + [batch])[..|batches|] == batches;
    if !Held(batch, unit) {
      var t :| t in batch && !Holds(unit, t.timestamp);
      KeptCounts(records[..i], parse, t);
      assert t in Concat(batches) + batch;
      var j :| 0 <= j < i && parse(records[..i][j]) == Kept(t);
      assert Spoils(parse(records[j]), unit);
    }
  }

  method ConvertInBatches(records: seq<Record>, parse: Parser, unit: Unit, batchSize: int)
    returns (outcome: Outcome, batches: seq<seq<Tick>>, skipped: nat, processed: nat)
    ensures outcome.Aborted? <==> Aborts(records, parse, unit)
    ensures !outcome.Aborted? ==> Batched(records, parse, batchSize, batches)
    ensures !outcome.Aborted? ==> processed == |records| && |KeptTicks(records, parse)| + skipped == processed
    ensures !outcome.Aborted? ==> outcome == if batches == [] then NoTicks else Table(KeptTicks(records, parse))
    ensures batchSize >= 1 ==> outcome == OutcomeOf(records, parse, unit)
  {
    var parsedTicks: seq<Tick> := [];
    batches, skipped, processed := [], 0, 0;
    while processed < |records|
      invariant Reached(records, parse, batchSize, processed, batches, parsedTicks, skipped)
      invariant forall j :: 0 <= j < processed ==> !parse(records[j]).Raised?
      invariant Held(Concat(batches), unit)
    {
      OneRecord(records, parse, batchSize, processed, batches, parsedTicks, skipped);
      var parsed := parse(records[processed]);
      if parsed.Raised? {
        assert Spoils(parse(records[processed]), unit);
        return Aborted, batches, skipped, processed;
      }
      if parsed.Kept? { parsedTicks := parsedTicks + [parsed.tick]; } else { skipped := skipped + 1; }
      processed := processed + 1;
      if |parsedTicks| >= batchSize {
        NextBatch(records, parse, unit, processed, batches, parsedTicks);
        if !Held(parsedTicks, unit) { return Aborted, batches, skipped, processed; }
        batches := batches + [parsedTicks];
        parsedTicks := [];
      }
    }
    LastBatch(records, parse, batchSize, batches, parsedTicks, skipped);
    AbortsIff(records, parse, unit);
    if parsedTicks != [] {
      NextBatch(records, parse, unit, processed, batches, parsedTicks);
      if !Held(parsedTicks, unit) { return Aborted, batches, skipped, processed; }
      batches := batches + [parsedTicks];
    }
    return if batches == [] then NoTicks else Table(Concat(batches)), batches, skipped, processed;
  }

  lemma LastBatch(records: seq<Record>, parse: Parser, batchSize: int,
                  batches: seq<seq<Tick>>, parsedTicks: seq<Tick>, skipped: nat)
    requires Reached(records, parse, batchSize, |records|, batches, parsedTicks, skipped)
    ensures Batched(records, parse, batchSize, if parsedTicks != [] then batches + [parsedTicks] else batches)
    ensures |KeptTicks(records, parse)| + skipped == |records|
  {
    assert records[..|records|] == records;
    assert (batches + [parsedTicks])[..|batches|] == batches;
  }

  // ---- the two converters agree ----

  function KeptBy(records: seq<Record>, symbol: string, reader: Reader): seq<Tick> {
    KeptTicks(records, ParserFor(symbol, reader))
  }

  /** The ticks that only the plain reader keeps. */
  function Lost(records: seq<Record>, symbol: string): nat {
    if records == [] then 0
    else
      Lost(records[..|records| - 1], symbol) + if Gone(records[|records| - 1], symbol) then 1 else 0
  }

  predicate Gone(record: Record, symbol: string) {
    Parse(record, symbol, Plain).Kept? && TimeOf(record.fields).Fraction?
  }

  lemma {:induction false} StreamingLoses(records: seq<Record>, symbol: string)
    requires forall i :: 0 <= i < |records| ==> Neither(records[i], symbol)
    ensures var plain, streamed := KeptBy(records, symbol, Plain), KeptBy(records, symbol, Streaming);
      |plain| == |streamed| + Lost(records, symbol) && (Lost(records, symbol) == 0 ==> plain == streamed)
  {
    if records != [] {
      StreamingLoses(records[..|records| - 1], symbol);
      ReadersDisagreeIff(records[|records| - 1], symbol);
      ApartMeansKept(records[|records| - 1], symbol);
    }
  }

  predicate SomeReadApart(records: seq<Record>, symbol: string) {
    exists i :: 0 <= i < |records| && ReadApart(records[i], symbol)
  }

  lemma {:induction false} LostIff(records: seq<Record>, symbol: string)
    requires forall i :: 0 <= i < |records| ==> Neither(records[i], symbol)
    ensures Lost(records, symbol) > 0 <==> SomeReadApart(records, symbol)
  {
    if records != [] {
      var front, last := records[..|records| - 1], records[|records| - 1];
      assert records == front + [last];
      LostIff(front, symbol);
      assert SomeReadApart(records, symbol) <==> SomeReadApart(front, symbol) || Gone(last, symbol) by {
        SomeOneMore(front, last, symbol);
        ApartMeansKept(last, symbol);
      }
    }
  }

  lemma SomeOneMore(records: seq<Record>, record: Record, symbol: string)
    ensures SomeReadApart(records + [record], symbol) <==> SomeReadApart(records, symbol) || ReadApart(record, symbol)
  {
    var more := records + [record];
    if SomeReadApart(records, symbol) {
      var i :| 0 <= i < |records| && ReadApart(records[i], symbol);
      assert ReadApart(more[i], symbol);
    }
    if ReadApart(record, symbol) { assert ReadApart(more[|records|], symbol); }
  }

  /** Neither reader raises on the record. */
  predicate Neither(record: Record, symbol: string) {
    !Parse(record, symbol, Plain).Raised? && !Parse(record, symbol, Streaming).Raised?
  }

  lemma ApartMeansKept(record: Record, symbol: string)
    requires Neither(record, symbol)
    ensures ReadApart(record, symbol) <==> Gone(record, symbol)
  {
  }

  predicate StreamingAborts(records: seq<Record>, symbol: string, unit: Unit) {
    Aborts(records, ParserFor(symbol, Streaming), unit)
  }

  predicate PlainAborts(records: seq<Record>, symbol: string, unit: Unit) {
    Aborts(records, ParserFor(symbol, Plain), unit)
  }

  /** A file in which nothing is a literal of the plain reader's own aborts that reader if it aborts the streaming one;
  and in any file only a record read apart can abort just one. */
  lemma AbortsApart(records: seq<Record>, symbol: string, unit: Unit)
    ensures StreamingAborts(records, symbol, unit) && !PlainAborts(records, symbol, unit) ==>
      exists i :: 0 <= i < |records| && !StrictRecord(records[i])
    ensures StreamingAborts(records, symbol, unit) != PlainAborts(records, symbol, unit) ==>
      SomeReadApart(records, symbol)
  {
    var plain, streaming := ParserFor(symbol, Plain), ParserFor(symbol, Streaming);
    if StreamingAborts(records, symbol, unit) && !PlainAborts(records, symbol, unit) {
      var i :| 0 <= i < |records| && Spoils(streaming(records[i]), unit);
      ReadersDisagreeIff(records[i], symbol);
      assert !Spoils(plain(records[i]), unit) && ReadApart(records[i], symbol);
    } else if PlainAborts(records, symbol, unit) && !StreamingAborts(records, symbol, unit) {
      var i :| 0 <= i < |records| && Spoils(plain(records[i]), unit);
      ReadersDisagreeIff(records[i], symbol);
      assert !Spoils(streaming(records[i]), unit) && ReadApart(records[i], symbol);
    }
  }

  lemma {:induction false} ReadAlike(records: seq<Record>, symbol: string)
    requires !SomeReadApart(records, symbol)
    ensures KeptBy(records, symbol, Plain) == KeptBy(records, symbol, Streaming)
  {
    if records != [] {
      var front, last := records[..|records| - 1], records[|records| - 1];
      assert records == front + [last];
      SomeOneMore(front, last, symbol);
      ReadAlike(front, symbol);
      ReadersDisagreeIff(last, symbol);
    }
  }

  lemma NeitherRaises(records: seq<Record>, symbol: string, unit: Unit)
    requires !PlainAborts(records, symbol, unit) && !StreamingAborts(records, symbol, unit)
    ensures forall i :: 0 <= i < |records| ==> Neither(records[i], symbol)
  {
    forall i | 0 <= i < |records| ensures Neither(records[i], symbol) {
      assert !Spoils(ParserFor(symbol, Plain)(records[i]), unit);
      assert !Spoils(ParserFor(symbol, Streaming)(records[i]), unit);
    }
  }

  /** The two converters come to the same outcome if and only if each meets a record that spoils the file for it, or
  no record is read apart. */
  lemma ConvertersAgreeIff(records: seq<Record>, symbol: string, unit: Unit)
    ensures OutcomeOf(records, ParserFor(symbol, Plain), unit) == OutcomeOf(records, ParserFor(symbol, Streaming), unit)
       <==> || (PlainAborts(records, symbol, unit) && StreamingAborts(records, symbol, unit))
            || !SomeReadApart(records, symbol)
  {
    AbortsApart(records, symbol, unit);
    if !SomeReadApart(records, symbol) {
      ReadAlike(records, symbol);
    } else if !PlainAborts(records, symbol, unit) && !StreamingAborts(records, symbol, unit) {
      NeitherRaises(records, symbol, unit);
      LostIff(records, symbol);
      StreamingLoses(records, symbol);
    }
  }

  /** And when neither aborts, their sorted tables hold the same ticks under the same condition, and then the same
  column of times, however each sort orders equal times. */
  lemma SortedTablesAgreeIff(records: seq<Record>, symbol: string, unit: Unit, whole: seq<Tick>, batched: seq<Tick>)
    requires !PlainAborts(records, symbol, unit) && !StreamingAborts(records, symbol, unit)
    requires IsSortOf(whole, KeptBy(records, symbol, Plain), TIME)
    requires IsSortOf(batched, KeptBy(records, symbol, Streaming), TIME)
    ensures multiset(whole) == multiset(batched) <==> !SomeReadApart(records, symbol)
    ensures !SomeReadApart(records, symbol) ==> Keys(whole, TIME) == Keys(batched, TIME)
  {
    NeitherRaises(records, symbol, unit);
    LostIff(records, symbol);
    StreamingLoses(records, symbol);
    assert |multiset(whole)| == |KeptBy(records, symbol, Plain)|;
    assert |multiset(batched)| == |KeptBy(records, symbol, Streaming)|;
    if !SomeReadApart(records, symbol) { SortsAgreeOnKeys(whole, batched, TIME); }
  }
}

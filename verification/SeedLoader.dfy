/** Seeding ticks from files: one file's batch loop, and the totals of a symbol. */
module SeedLoader {
  import opened Options

  type Tick = nat

  /** What becomes of one row before it is batched: its columns cannot be read, the quality gate refuses it, or
  it is a tick to insert. */
  datatype Row = Unreadable | Refused | Valid(tick: Tick)

  /** What an insert does: it returns a count, or raises. */
  datatype Answer = Returned(n: int) | Raised

  datatype Call = Call(batch: seq<Tick>, answer: Answer)

  datatype Stats = Stats(total: int, inserted: int, skipped: int, errors: int)

  // ---- what a list of calls amounts to ----

  function CallInserted(c: Call): int { if c.answer.Returned? && c.answer.n > 0 then c.answer.n else 0 }

  function CallErrors(c: Call): int {
    if c.answer.Raised? then 1 else if c.answer.n > 0 then 0 else |c.batch|
  }

  /** Ticks that a successful insert did not count. */
  function CallShortfall(c: Call): int { if CallInserted(c) > 0 then |c.batch| - c.answer.n else 0 }

  function Handed(c: Call): seq<Tick> { if c.answer.Raised? then [] else c.batch }

  function Sum(calls: seq<Call>, f: Call -> int): int {
    if calls == [] then 0 else Sum(calls[..|calls| - 1], f) + f(calls[|calls| - 1])
  }

  function AllHanded(calls: seq<Call>): seq<Tick> {
    if calls == [] then [] else AllHanded(calls[..|calls| - 1]) + Handed(calls[|calls| - 1])
  }

  const INSERTED := (c: Call) => CallInserted(c)
  const ERRORS := (c: Call) => CallErrors(c)
  const SHORTFALL := (c: Call) => CallShortfall(c)
  const RAISES := (c: Call) => if c.answer.Raised? then 1 else 0

  // ---- what a list of rows amounts to ----

  function Ticks(rows: seq<Row>): seq<Tick> {
    if rows == [] then []
    else Ticks(rows[..|rows| - 1]) + if rows[|rows| - 1].Valid? then [rows[|rows| - 1].tick] else []
  }

  function Count(rows: seq<Row>, test: Row -> bool): nat {
    if rows == [] then 0 else Count(rows[..|rows| - 1], test) + if test(rows[|rows| - 1]) then 1 else 0
  }

  const UNREADABLE := (r: Row) => r.Unreadable?
  const REFUSED := (r: Row) => r.Refused?

  lemma {:induction false} RowsAreCounted(rows: seq<Row>)
    ensures |Ticks(rows)| + Count(rows, UNREADABLE) + Count(rows, REFUSED) == |rows|
  {
    if rows != [] { RowsAreCounted(rows[..|rows| - 1]); }
  }

  lemma {:induction false} CallsAreCounted(calls: seq<Call>)
    ensures Sum(calls, INSERTED) + Sum(calls, ERRORS) + Sum(calls, SHORTFALL) == |AllHanded(calls)| + Sum(calls, RAISES)
  {
    if calls != [] { CallsAreCounted(calls[..|calls| - 1]); }
  }

  // ---- one file ----

  /** Batches hold `size` ticks; but a raised insert leaves its batch in place, and the next call carries it
  again with the next tick. */
  ghost predicate Sized(calls: seq<Call>, size: nat) {
    forall k :: 0 <= k < |calls| ==>
      if k > 0 && calls[k - 1].answer.Raised?
      then |calls[k].batch| == |calls[k - 1].batch| + 1 && calls[k - 1].batch <= calls[k].batch
      else |calls[k].batch| == size
  }

  function BatchLength(batchSize: int): nat { if batchSize < 1 then 1 else batchSize }

  ghost predicate AnsweredBy(calls: seq<Call>, db: nat -> Answer) {
    forall k :: 0 <= k < |calls| ==> calls[k].answer == db(k) && calls[k].batch != []
  }

  predicate Pending(calls: seq<Call>) { calls != [] && calls[|calls| - 1].answer.Raised? }

  /** Where the row loop stands. */
  ghost predicate Reached(rows: seq<Row>, i: nat, size: nat, batch: seq<Tick>, stats: Stats, calls: seq<Call>,
                          db: nat -> Answer)
  {
    && i <= |rows|
    && AnsweredBy(calls, db) && Sized(calls, size)
    && AllHanded(calls) + batch == Ticks(rows[..i])
    && (if Pending(calls) then batch == calls[|calls| - 1].batch && |batch| >= size else |batch| < size)
    && stats == Stats(|rows|, Sum(calls, INSERTED), Count(rows[..i], REFUSED),
                      Count(rows[..i], UNREADABLE) + Sum(calls, ERRORS))
  }

  /** A positive count is added; otherwise the batch counts as errors; an exception counts as one error. */
  function AddCall(stats: Stats, c: Call): Stats {
    stats.(inserted := stats.inserted + CallInserted(c), errors := stats.errors + CallErrors(c))
  }

  lemma NoTick(rows: seq<Row>, i: nat, size: nat, batch: seq<Tick>, stats: Stats, calls: seq<Call>, db: nat -> Answer)
    requires Reached(rows, i, size, batch, stats, calls, db) && i < |rows|
    ensures rows[i].Unreadable? ==> Reached(rows, i + 1, size, batch, stats.(errors := stats.errors + 1), calls, db)
    ensures rows[i].Refused? ==> Reached(rows, i + 1, size, batch, stats.(skipped := stats.skipped + 1), calls, db)
  {
    assert rows[..i + 1][..i] == rows[..i];
  }

  lemma SumOne(calls: seq<Call>, c: Call, f: Call -> int)
    ensures Sum(calls + [c], f) == Sum(calls, f) + f(c)
    ensures AllHanded(calls + [c]) == AllHanded(calls) + Handed(c)
  {
    assert (calls + [c])[..|calls|] == calls;
  }

  lemma OneMoreCall(calls: seq<Call>, c: Call, size: nat, db: nat -> Answer)
    requires AnsweredBy(calls, db) && Sized(calls, size) && c.batch != [] && c.answer == db(|calls|)
    requires if Pending(calls)
      then |c.batch| == |calls[|calls| - 1].batch| + 1 && calls[|calls| - 1].batch <= c.batch
      else |c.batch| == size
    ensures AnsweredBy(calls + [c], db) && Sized(calls + [c], size)
  {
  }

  /** A valid row joins the batch, which is handed over when it is full. */
  lemma OneTick(rows: seq<Row>, i: nat, batchSize: int, batch: seq<Tick>, stats: Stats, calls: seq<Call>,
                db: nat -> Answer)
    requires Reached(rows, i, BatchLength(batchSize), batch, stats, calls, db) && i < |rows| && rows[i].Valid?
    ensures var more := batch + [rows[i].tick];
      var c := Call(more, db(|calls|));
      if |more| >= batchSize
      then Reached(rows, i + 1, BatchLength(batchSize), if c.answer.Raised? then more else [], AddCall(stats, c),
                   calls + [c], db)
      else Reached(rows, i + 1, BatchLength(batchSize), more, stats, calls, db)
  {
    var more := batch + [rows[i].tick];
    assert rows[..i + 1][..i] == rows[..i];
    assert AllHanded(calls) + more == Ticks(rows[..i + 1]);
    if |more| >= batchSize {
      var c := Call(more, db(|calls|));
      OneMoreCall(calls, c, BatchLength(batchSize), db);
      SumOne(calls, c, INSERTED);
      SumOne(calls, c, ERRORS);
    }
  }

  /** Every valid tick was handed over once and in order, and the counters say what became of every row. */
  ghost predicate Seeded(rows: seq<Row>, calls: seq<Call>, stats: Stats) {
    && AllHanded(calls) == Ticks(rows)
    && stats == Stats(|rows|, Sum(calls, INSERTED), Count(rows, REFUSED), Count(rows, UNREADABLE) + Sum(calls, ERRORS))
  }

  /** Only the last call may carry fewer ticks than a batch. */
  ghost predicate Batched(calls: seq<Call>, size: nat) {
    calls != [] ==>
      && Sized(calls[..|calls| - 1], size)
      && (calls[|calls| - 1].batch != [] && (Pending(calls[..|calls| - 1]) || |calls[|calls| - 1].batch| <= size))
  }

  /** `db` answers the insert calls in turn; `calls` are those made. The result is nothing if the insert after
  the loop raises, as that exception leaves the function. */
  method SeedFile(rows: seq<Row>, batchSize: int, db: nat -> Answer, dryRun: bool)
    returns (stats: Option<Stats>, calls: seq<Call>)
    ensures dryRun ==> calls == [] && stats == Some(Stats(|rows|, 0, 0, 0))
    ensures AnsweredBy(calls, db) && Batched(calls, BatchLength(batchSize))
    ensures !dryRun ==> (stats.None? <==> Pending(calls))
    ensures stats.Some? && !dryRun ==> Seeded(rows, calls, stats.value)
  {
    calls := [];
    var tally := Stats(|rows|, 0, 0, 0);
    if dryRun { return Some(tally), calls; }
    var batch: seq<Tick> := [];
    for i := 0 to |rows|
      invariant Reached(rows, i, BatchLength(batchSize), batch, tally, calls, db)
    {
      NoTick(rows, i, BatchLength(batchSize), batch, tally, calls, db);
      match rows[i]
      case Unreadable => tally := tally.(errors := tally.errors + 1);
      case Refused => tally := tally.(skipped := tally.skipped + 1);
      case Valid(tick) =>
        OneTick(rows, i, batchSize, batch, tally, calls, db);
        batch := batch + [tick];
        if |batch| >= batchSize {
          var call := Call(batch, db(|calls|));
          calls := calls + [call];
          tally := AddCall(tally, call);
          if !call.answer.Raised? { batch := []; }
        }
    }
    Finish(rows, BatchLength(batchSize), batch, tally, calls, db);
    if batch != [] {
      var call := Call(batch, db(|calls|));
      calls := calls + [call];
      if call.answer.Raised? { return None, calls; }
      tally := AddCall(tally, call);
    }
    return Some(tally), calls;
  }

  lemma Finish(rows: seq<Row>, size: nat, batch: seq<Tick>, stats: Stats, calls: seq<Call>, db: nat -> Answer)
    requires Reached(rows, |rows|, size, batch, stats, calls, db) && size > 0
    ensures batch == [] ==> Seeded(rows, calls, stats) && Batched(calls, size)
    ensures batch != [] ==>
      var c := Call(batch, db(|calls|));
      && AnsweredBy(calls + [c], db) && Batched(calls + [c], size)
      && (!c.answer.Raised? ==> Seeded(rows, calls + [c], AddCall(stats, c)))
  {
    assert rows[..|rows|] == rows;
    if batch == [] {
      assert AllHanded(calls) + [] == AllHanded(calls);
      LoopCallsFit(calls, size, db);
    } else {
      LastCallFits(calls, Call(batch, db(|calls|)), size);
      if db(|calls|).Returned? { LastCallCounts(rows, batch, stats, calls, db(|calls|)); }
    }
  }

  lemma LoopCallsFit(calls: seq<Call>, size: nat, db: nat -> Answer)
    requires Sized(calls, size) && AnsweredBy(calls, db)
    ensures Batched(calls, size)
  {
    if calls != [] {
      var front := calls[..|calls| - 1];
      assert forall k :: 0 <= k < |front| ==> front[k] == calls[k];
      var last := |calls| - 1;
      assert if last > 0 && calls[last - 1].answer.Raised? then Pending(front) else |calls[last].batch| == size;
    }
  }

  lemma LastCallFits(calls: seq<Call>, c: Call, size: nat)
    requires Sized(calls, size) && c.batch != [] && (Pending(calls) || |c.batch| <= size)
    ensures Batched(calls + [c], size)
  {
    assert (calls + [c])[..|calls|] == calls;
  }

  lemma LastCallCounts(rows: seq<Row>, batch: seq<Tick>, stats: Stats, calls: seq<Call>, answer: Answer)
    requires AllHanded(calls) + batch == Ticks(rows) && answer.Returned?
    requires stats
          == Stats(|rows|, Sum(calls, INSERTED), Count(rows, REFUSED), Count(rows, UNREADABLE) + Sum(calls, ERRORS))
    ensures Seeded(rows, calls + [Call(batch, answer)], AddCall(stats, Call(batch, answer)))
  {
    SumOne(calls, Call(batch, answer), INSERTED);
    SumOne(calls, Call(batch, answer), ERRORS);
  }

  /** Every tick is handed over exactly once, in order, to an insert that returns. So inserted, skipped and
  errors add up to all rows and one more for every insert that raised, short of what successful inserts did
  not count. */
  lemma FileConservesRows(rows: seq<Row>, calls: seq<Call>, stats: Stats)
    requires Seeded(rows, calls, stats)
    ensures stats.inserted + stats.skipped + stats.errors + Sum(calls, SHORTFALL) == stats.total + Sum(calls, RAISES)
  {
    RowsAreCounted(rows);
    CallsAreCounted(calls);
  }

  /** An insert that returns nothing or all of its batch leaves no shortfall. */
  lemma {:induction false} WholeBatchesFallShortOfNothing(calls: seq<Call>)
    requires forall c :: c in calls && c.answer.Returned? ==> c.answer.n <= 0 || c.answer.n == |c.batch|
    ensures Sum(calls, SHORTFALL) == 0
  {
    if calls != [] {
      assert calls[|calls| - 1] in calls;
      WholeBatchesFallShortOfNothing(calls[..|calls| - 1]);
    }
  }

  // ---- a symbol's files ----

  /** A file: the year in its name; whether the symbol has data for that year, or nothing if the check raises;
  its rows, or nothing if loading raises; and the answers to its inserts. */
  datatype File = File(year: Option<int>, existing: Option<bool>, rows: Option<seq<Row>>, db: nat -> Answer)

  datatype Summary = Summary(processed: nat, skippedFiles: nat, failed: nat,
                             total: int, inserted: int, skipped: int, errors: int)

  /** What becomes of a file, with the insert calls made for it. */
  datatype Outcome = Processed(stats: Stats, made: seq<Call>) | Skipped | Failed(made: seq<Call>)

  predicate Checked(file: File, skipExisting: bool) { skipExisting && file.year.Some? && file.year.value != 0 }

  function CountFiles(files: seq<File>, test: File -> bool): nat {
    if files == [] then 0
    else CountFiles(files[..|files| - 1], test) + if test(files[|files| - 1]) then 1 else 0
  }

  function SkipTest(skipExisting: bool): File -> bool {
    file => Checked(file, skipExisting) && file.existing == Some(true)
  }

  lemma {:induction false} SumConcat(a: seq<Call>, b: seq<Call>, f: Call -> int)
    ensures Sum(a + b, f) == Sum(a, f) + Sum(b, f)
  {
    if b == [] {
      assert a + b == a;
    } else {
      assert (a + b)[..|a + b| - 1] == a + b[..|b| - 1];
      SumConcat(a, b[..|b| - 1], f);
    }
  }

  /** The counters of the processed files conserve their rows. */
  ghost predicate Conserves(summary: Summary, calls: seq<Call>) {
    summary.inserted + summary.skipped + summary.errors + Sum(calls, SHORTFALL) == summary.total + Sum(calls, RAISES)
  }

  function AddFile(summary: Summary, stats: Stats): Summary {
    summary.(processed := summary.processed + 1, total := summary.total + stats.total,
             inserted := summary.inserted + stats.inserted, skipped := summary.skipped + stats.skipped,
             errors := summary.errors + stats.errors)
  }

  lemma FileAddsUp(summary: Summary, before: seq<Call>, rows: seq<Row>, calls: seq<Call>, stats: Stats)
    requires Conserves(summary, before) && Seeded(rows, calls, stats)
    ensures Conserves(AddFile(summary, stats), before + calls)
  {
    FileConservesRows(rows, calls, stats);
    SumConcat(before, calls, SHORTFALL);
    SumConcat(before, calls, RAISES);
  }

  /** A file is skipped exactly if its check says that there is data; it fails exactly if that check raises, its rows
  cannot be loaded, or its last insert raises; otherwise every valid tick of it was handed over, or it was a dry run,
  which only counts rows. */
  ghost predicate Justified(file: File, outcome: Outcome, skipExisting: bool, dryRun: bool) {
    var checks := Checked(file, skipExisting);
    && (checks <==> skipExisting && file.year.Some? && file.year.value != 0)
    && (outcome.Skipped? <==> checks && file.existing == Some(true))
    && (checks && file.existing == None ==> outcome == Failed([]))
    && (!outcome.Skipped? && !(checks && file.existing == None) && file.rows.None? ==> outcome == Failed([]))
    && (outcome.Failed? && !(checks && file.existing == None) && file.rows.Some? ==>
          !dryRun && Pending(outcome.made) && AnsweredBy(outcome.made, file.db))
    && (outcome.Processed? ==>
          && file.rows.Some?
          && if dryRun then outcome.made == [] && outcome.stats == Stats(|file.rows.value|, 0, 0, 0)
             else !Pending(outcome.made) && AnsweredBy(outcome.made, file.db)
                  && Seeded(file.rows.value, outcome.made, outcome.stats))
  }

  /** The totals and the calls of the processed files. */
  function Totals(outcomes: seq<Outcome>): Summary {
    if outcomes == [] then Summary(0, 0, 0, 0, 0, 0, 0)
    else
      var before, last := Totals(outcomes[..|outcomes| - 1]), outcomes[|outcomes| - 1];
      match last
      case Processed(stats, _) => AddFile(before, stats)
      case Skipped => before.(skippedFiles := before.skippedFiles + 1)
      case Failed(_) => before.(failed := before.failed + 1)
  }

  function CallsOf(outcomes: seq<Outcome>): seq<Call> {
    if outcomes == [] then []
    else
      var last := outcomes[|outcomes| - 1];
      CallsOf(outcomes[..|outcomes| - 1]) + if last.Processed? then last.made else []
  }

  /** Each file is processed, skipped or failed. The totals conserve rows over the processed files, whose
  insert calls are `calls`; a failed file adds nothing, whatever it had inserted; a dry run counts rows only. */
  method SeedSymbol(files: seq<File>, batchSize: int, skipExisting: bool, dryRun: bool)
    returns (summary: Summary, calls: seq<Call>, ghost outcomes: seq<Outcome>)
    ensures |outcomes| == |files|
    ensures forall i :: 0 <= i < |files| ==> Justified(files[i], outcomes[i], skipExisting, dryRun)
    ensures summary == Totals(outcomes) && calls == CallsOf(outcomes)
    ensures summary.processed + summary.skippedFiles + summary.failed == |files|
    ensures summary.skippedFiles == CountFiles(files, SkipTest(skipExisting))
    ensures !dryRun ==> Conserves(summary, calls)
    ensures dryRun ==> calls == [] && summary.inserted == summary.skipped == summary.errors == 0
  {
    summary, calls, outcomes := Summary(0, 0, 0, 0, 0, 0, 0), [], [];
    for i := 0 to |files|
      invariant |outcomes| == i
      invariant forall k :: 0 <= k < i ==> Justified(files[k], outcomes[k], skipExisting, dryRun)
      invariant summary == Totals(outcomes) && calls == CallsOf(outcomes)
    {
      var file := files[i];
      ghost var outcome := Skipped;
      if Checked(file, skipExisting) && file.existing == None {
        summary, outcome := summary.(failed := summary.failed + 1), Failed([]);
      } else if Checked(file, skipExisting) && file.existing == Some(true) {
        summary := summary.(skippedFiles := summary.skippedFiles + 1);
      } else if file.rows.None? {
        summary, outcome := summary.(failed := summary.failed + 1), Failed([]);
      } else {
        var stats, made := SeedFile(file.rows.value, batchSize, file.db, dryRun);
        if stats.None? {
          summary, outcome := summary.(failed := summary.failed + 1), Failed(made);
        } else {
          summary, calls := AddFile(summary, stats.value), calls + made;
          outcome := Processed(stats.value, made);
        }
      }
      assert (outcomes + [outcome])[..i] == outcomes;
      outcomes := outcomes + [outcome];
    }
    OutcomesAddUp(files, outcomes, skipExisting, dryRun);
  }

  /** What the outcomes of a symbol's files amount to. */
  lemma {:induction false} OutcomesAddUp(files: seq<File>, outcomes: seq<Outcome>, skipExisting: bool, dryRun: bool)
    requires |outcomes| == |files|
    requires forall i :: 0 <= i < |files| ==> Justified(files[i], outcomes[i], skipExisting, dryRun)
    ensures var summary := Totals(outcomes);
      && summary.processed + summary.skippedFiles + summary.failed == |files|
      && summary.skippedFiles == CountFiles(files, SkipTest(skipExisting))
      && (!dryRun ==> Conserves(summary, CallsOf(outcomes)))
      && (dryRun ==> CallsOf(outcomes) == [] && summary.inserted == summary.skipped == summary.errors == 0)
  {
    if files != [] {
      var n := |files| - 1;
      OutcomesAddUp(files[..n], outcomes[..n], skipExisting, dryRun);
      assert Justified(files[n], outcomes[n], skipExisting, dryRun);
      assert SkipTest(skipExisting)(files[n]) <==> outcomes[n].Skipped?;
      assert CallsOf(outcomes[..n]) + [] == CallsOf(outcomes[..n]);
      if outcomes[n].Processed? && !dryRun {
        var before, last := outcomes[..n], outcomes[n];
        FileAddsUp(Totals(before), CallsOf(before), files[n].rows.value, last.made, last.stats);
      }
    }
  }
}

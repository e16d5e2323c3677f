/** What crashes, resumes and failing inserts do to a backfill. */
module BackfillRecovery {
  import opened Options
  import opened BackfillResume

  // ---- no tick is lost ----

  /** The table holds only wanted ticks, and those of them in `sure` that come before `c`. */
  ghost predicate StoredBefore(job: Job, sure: iset<Tick>, rows: multiset<Tick>, c: int) {
    && (forall t :: t in rows ==> Wanted(job, t))
    && (forall t :: Wanted(job, t) && t in sure && t.time < c ==> t in rows)
  }

  /** What every checkpoint promises. */
  ghost predicate Sound(job: Job, sure: iset<Tick>, d: Disk) {
    var c := CheckpointOr(d, job.start);
    job.start <= c <= job.end && StoredBefore(job, sure, d.rows, c)
  }

  function CheckpointOr(d: Disk, otherwise: int): int {
    if d.record.Some? && d.record.value.checkpoint.Some? then d.record.value.checkpoint.value else otherwise
  }

  /** The ticks that the validation of every run lets through. */
  ghost function Sure(runs: seq<Run>): iset<Tick> { iset t: Tick | PassesAll(runs, t) }

  ghost predicate PassesAll(runs: seq<Run>, t: Tick) { forall k :: 0 <= k < |runs| ==> runs[k].gate(t) }

  ghost predicate Passes(runs: seq<Run>, t: Tick) { exists k :: 0 <= k < |runs| && runs[k].gate(t) }

  ghost predicate LetsThrough(run: Run, sure: iset<Tick>) { forall t :: t in sure ==> run.gate(t) }

  /** The table holds only wanted ticks, all in `sure` that this run does not read, and its first `n` batches. */
  ghost predicate Underway(job: Job, sure: iset<Tick>, rows: multiset<Tick>, ticks: seq<Tick>,
                           batches: seq<seq<Tick>>, n: nat) {
    && (forall t :: t in rows ==> Wanted(job, t))
    && (forall t :: Wanted(job, t) && t in sure && t !in ticks ==> t in rows)
    && (forall t :: InSome(batches, n, t) ==> t in rows)
  }

  lemma InsertAdvances(job: Job, sure: iset<Tick>, rows: multiset<Tick>, ticks: seq<Tick>,
                       batches: seq<seq<Tick>>, k: nat)
    requires k < |batches| && (forall t :: t in batches[k] ==> Wanted(job, t))
    requires Underway(job, sure, rows, ticks, batches, k)
    ensures Underway(job, sure, rows + Added(batches, NO_LOSS, k), ticks, batches, k + 1)
  {
    NothingLost(batches[k], k);
    forall t | InSome(batches, k + 1, t) ensures t in rows + Added(batches, NO_LOSS, k) {
      var j :| 0 <= j < k + 1 && j < |batches| && t in batches[j];
      if j < k { assert InSome(batches, k, t); }
    }
  }

  lemma {:induction false} RowsUnderway(job: Job, sure: iset<Tick>, rows: multiset<Tick>, ticks: seq<Tick>,
                                        batches: seq<seq<Tick>>, n: nat)
    requires n <= |batches| && forall j, t :: 0 <= j < |batches| && t in batches[j] ==> Wanted(job, t)
    requires Underway(job, sure, rows, ticks, batches, 0)
    ensures Underway(job, sure, RowsAfter(rows, batches, NO_LOSS, n), ticks, batches, n)
  {
    if n > 0 {
      RowsUnderway(job, sure, rows, ticks, batches, n - 1);
      InsertAdvances(job, sure, RowsAfter(rows, batches, NO_LOSS, n - 1), ticks, batches, n - 1);
    }
  }

  lemma CheckpointIsSafe(job: Job, sure: iset<Tick>, rows: multiset<Tick>, ticks: seq<Tick>,
                         batches: seq<seq<Tick>>, k: nat)
    requires k < |batches| && Batched(batches, ticks) && Underway(job, sure, rows, ticks, batches, k + 1)
    ensures StoredBefore(job, sure, rows, LastTime(batches[k]))
  {
    forall t | Wanted(job, t) && t in sure && t.time < LastTime(batches[k]) ensures t in rows {
      assert t in ticks ==> InSome(batches, k + 1, t);
    }
  }

  /** A run that reads `ticks` in `batches` onto a sound disk. */
  ghost predicate Reads(job: Job, sure: iset<Tick>, d: Disk, ticks: seq<Tick>, batches: seq<seq<Tick>>) {
    && Batched(batches, ticks)
    && (forall j, t :: 0 <= j < |batches| && t in batches[j] ==> Wanted(job, t))
    && Underway(job, sure, d.rows, ticks, batches, 0)
  }

  lemma FlushedSound(job: Job, sure: iset<Tick>, d: Disk, ticks: seq<Tick>, batches: seq<seq<Tick>>, n: nat)
    requires Sound(job, sure, d) && Reads(job, sure, d, ticks, batches) && n <= |batches|
    ensures Sound(job, sure, Flushed(d, batches, NO_LOSS, n))
  {
    if n > 0 {
      RowsUnderway(job, sure, d.rows, ticks, batches, n);
      CheckpointIsSafe(job, sure, RowsAfter(d.rows, batches, NO_LOSS, n), ticks, batches, n - 1);
      var last := batches[n - 1][|batches[n - 1]| - 1];
      assert last in batches[n - 1];
    }
  }

  lemma FlushSound(job: Job, sure: iset<Tick>, d: Disk, ticks: seq<Tick>, batches: seq<seq<Tick>>, budget: nat)
    requires Sound(job, sure, d) && Reads(job, sure, d, ticks, batches)
    ensures Sound(job, sure, FlushedUntil(d, batches, NO_LOSS, budget))
  {
    if budget >= 2 * |batches| {
      FlushedSound(job, sure, d, ticks, batches, |batches|);
    } else {
      var n := budget / 2;
      FlushedSound(job, sure, d, ticks, batches, n);
      RowsUnderway(job, sure, d.rows, ticks, batches, n);
      if budget % 2 == 1 {
        InsertAdvances(job, sure, RowsAfter(d.rows, batches, NO_LOSS, n), ticks, batches, n);
      }
    }
  }

  lemma BeginSound(job: Job, sure: iset<Tick>, d: Disk, run: Run)
    requires WellPosed(job) && Sound(job, sure, d) && LetsThrough(run, sure)
    ensures Sound(job, sure, Begun(d, run))
    ensures !Refuses(job, d, run) ==>
              Reads(job, sure, Begun(d, run), Pulled(job, run, StartPoint(job, d, run)), Batches(job, d, run))
  {
    if !Refuses(job, d, run) { StartsReading(job, sure, d, run, StartPoint(job, d, run)); }
  }

  lemma StartsReading(job: Job, sure: iset<Tick>, d: Disk, run: Run, from: int)
    requires WellPosed(job) && job.start <= from < job.end && StoredBefore(job, sure, d.rows, from)
    requires LetsThrough(run, sure)
    ensures Reads(job, sure, d, Pulled(job, run, from), Split(Pulled(job, run, from)))
  {
    var ticks := Pulled(job, run, from);
    PulledContents(job, run, from);
    SplitIsBatched(ticks);
    ReadsFrom(job, sure, d, run, from, ticks, Split(ticks));
  }

  lemma ReadsFrom(job: Job, sure: iset<Tick>, d: Disk, run: Run, from: int, ticks: seq<Tick>, batches: seq<seq<Tick>>)
    requires job.start <= from && StoredBefore(job, sure, d.rows, from) && LetsThrough(run, sure)
    requires forall t :: t in ticks <==> t in job.source && Valid(t) && run.gate(t) && from <= t.time <= job.end
    requires Batched(batches, ticks)
    ensures Reads(job, sure, d, ticks, batches)
  {
  }

  lemma ExecuteWrites(job: Job, d: Disk, run: Run)
    ensures var e := Execute(job, d, run); var f := Written(job, d, run);
      e.rows == f.rows && f.record.Some? && e.record.value.checkpoint == f.record.value.checkpoint
  {
  }

  lemma RunSound(job: Job, sure: iset<Tick>, d: Disk, run: Run)
    requires WellPosed(job) && Sound(job, sure, d) && run.losses == NO_LOSS && LetsThrough(run, sure)
    ensures Sound(job, sure, Execute(job, d, run))
  {
    BeginSound(job, sure, d, run);
    ExecuteWrites(job, d, run);
    if !Refuses(job, d, run) {
      var begun, batches := Begun(d, run), Batches(job, d, run);
      FlushSound(job, sure, begun, Pulled(job, run, StartPoint(job, d, run)), batches,
                 Reached(begun.record, job.driver, Budget(run, batches)));
    }
    assert Sound(job, sure, Written(job, d, run));
  }

  lemma SuccessStoresAll(job: Job, sure: iset<Tick>, d: Disk, run: Run, t: Tick)
    requires WellPosed(job) && Sound(job, sure, d) && run.losses == NO_LOSS && LetsThrough(run, sure)
    requires Succeeds(job, d, run) && Wanted(job, t) && t in sure
    ensures t in Execute(job, d, run).rows
  {
    BeginSound(job, sure, d, run);
    SuccessWrites(job, d, run);
    ReadIsStored(job, sure, Begun(d, run), Pulled(job, run, StartPoint(job, d, run)), Batches(job, d, run), t);
  }

  lemma SuccessWrites(job: Job, d: Disk, run: Run)
    requires Succeeds(job, d, run)
    ensures var batches := Batches(job, d, run);
      Execute(job, d, run).rows == RowsAfter(Begun(d, run).rows, batches, run.losses, |batches|)
  {
  }

  lemma ReadIsStored(job: Job, sure: iset<Tick>, d: Disk, ticks: seq<Tick>, batches: seq<seq<Tick>>, t: Tick)
    requires Reads(job, sure, d, ticks, batches) && Wanted(job, t) && t in sure
    ensures t in RowsAfter(d.rows, batches, NO_LOSS, |batches|)
  {
    RowsUnderway(job, sure, d.rows, ticks, batches, |batches|);
    assert t in ticks ==> InSome(batches, |batches|, t);
  }

  predicate Contains(batches: seq<seq<Tick>>, t: Tick) { exists j :: 0 <= j < |batches| && t in batches[j] }

  lemma AddedOf(batches: seq<seq<Tick>>, losses: Losses, k: nat, t: Tick)
    requires k < |batches|
    ensures !Contains(batches, t) ==> Added(batches, losses, k)[t] == 0
  {
    InsertedCount(batches[k], k, losses);
    if !Contains(batches, t) { assert t !in multiset(batches[k]); }
  }

  lemma {:induction false} RowsGrow(rows: multiset<Tick>, batches: seq<seq<Tick>>, losses: Losses, n: nat, t: Tick)
    requires n <= |batches|
    ensures rows[t] <= RowsAfter(rows, batches, losses, n)[t]
    ensures !Contains(batches, t) ==> RowsAfter(rows, batches, losses, n)[t] == rows[t]
  {
    if n > 0 {
      var k := n - 1;
      RowsGrow(rows, batches, losses, k, t);
      AddedOf(batches, losses, k, t);
    }
  }

  lemma FlushGrows(d: Disk, batches: seq<seq<Tick>>, losses: Losses, budget: nat, t: Tick)
    requires NonEmpty(batches)
    ensures d.rows[t] <= FlushedUntil(d, batches, losses, budget).rows[t]
    ensures !Contains(batches, t) ==> FlushedUntil(d, batches, losses, budget).rows[t] == d.rows[t]
  {
    RowsGrow(d.rows, batches, losses, if budget >= 2 * |batches| then |batches| else budget / 2, t);
    if budget < 2 * |batches| { AddedOf(batches, losses, budget / 2, t); }
  }

  lemma RunKeepsRows(job: Job, d: Disk, run: Run, t: Tick)
    requires WellPosed(job)
    ensures d.rows[t] <= Execute(job, d, run).rows[t]
    ensures Execute(job, d, run).rows[t] > d.rows[t] ==> t in job.source && Valid(t) && run.gate(t)
  {
    var begun, from := Begun(d, run), StartPoint(job, d, run);
    if !Refuses(job, d, run) {
      var batches := Batches(job, d, run);
      FlushGrows(begun, batches, run.losses, Reached(begun.record, job.driver, Budget(run, batches)), t);
      if Contains(batches, t) { BatchedTickPulled(job, run, from, t); }
    }
  }

  /** The main result: whatever crashes and errors there were, each followed by a resume or by a fresh start, once some
  run has finished the table holds every valid tick of the range that the validation of all runs lets through,
  and besides what it held before only such as that of some run does. */
  lemma CrashAndResumeLosesNothing(job: Job, d: Disk, runs: seq<Run>, finished: nat)
    requires WellPosed(job) && Sound(job, Sure(runs), d)
    requires forall k :: 0 <= k < |runs| ==> runs[k].losses == NO_LOSS
    requires finished < |runs| && Succeeds(job, History(job, d, runs[..finished]), runs[finished])
    ensures forall t :: Wanted(job, t) && PassesAll(runs, t) ==> t in History(job, d, runs).rows
    ensures forall t :: t in History(job, d, runs).rows ==> Wanted(job, t) && (t in d.rows || Passes(runs, t))
  {
    HistoryStoresAll(job, Sure(runs), d, runs, finished);
    HistorySound(job, Sure(runs), d, runs);
    forall t | t in History(job, d, runs).rows ensures t in d.rows || Passes(runs, t) {
      StoredPassed(job, d, runs, t);
    }
  }

  lemma {:induction false} HistoryStoresAll(job: Job, sure: iset<Tick>, d: Disk, runs: seq<Run>, finished: nat)
    requires WellPosed(job) && Sound(job, sure, d)
    requires forall k :: 0 <= k < |runs| ==> runs[k].losses == NO_LOSS && LetsThrough(runs[k], sure)
    requires finished < |runs| && Succeeds(job, History(job, d, runs[..finished]), runs[finished])
    ensures forall t :: Wanted(job, t) && t in sure ==> t in History(job, d, runs).rows
    decreases |runs|
  {
    var front, last := runs[..|runs| - 1], runs[|runs| - 1];
    HistorySound(job, sure, d, front);
    if finished < |front| {
      assert front[..finished] == runs[..finished];
      HistoryStoresAll(job, sure, d, front, finished);
      RunKeepsAll(job, sure, History(job, d, front), last);
    } else {
      assert front == runs[..finished];
      SuccessLeavesNone(job, sure, History(job, d, front), last);
    }
  }

  lemma RunKeepsAll(job: Job, sure: iset<Tick>, d: Disk, run: Run)
    requires WellPosed(job) && forall t :: Wanted(job, t) && t in sure ==> t in d.rows
    ensures forall t :: Wanted(job, t) && t in sure ==> t in Execute(job, d, run).rows
  {
    forall t | Wanted(job, t) && t in sure ensures t in Execute(job, d, run).rows { RunKeepsRows(job, d, run, t); }
  }

  lemma SuccessLeavesNone(job: Job, sure: iset<Tick>, d: Disk, run: Run)
    requires WellPosed(job) && Sound(job, sure, d) && run.losses == NO_LOSS && LetsThrough(run, sure)
    requires Succeeds(job, d, run)
    ensures forall t :: Wanted(job, t) && t in sure ==> t in Execute(job, d, run).rows
  {
    forall t | Wanted(job, t) && t in sure ensures t in Execute(job, d, run).rows {
      SuccessStoresAll(job, sure, d, run, t);
    }
  }

  /** Every checkpoint of a history is safe for the ticks that the validation of all its runs lets through. */
  lemma {:induction false} HistorySound(job: Job, sure: iset<Tick>, d: Disk, runs: seq<Run>)
    requires WellPosed(job) && Sound(job, sure, d)
    requires forall k :: 0 <= k < |runs| ==> runs[k].losses == NO_LOSS && LetsThrough(runs[k], sure)
    ensures Sound(job, sure, History(job, d, runs))
    decreases |runs|
  {
    if runs != [] {
      HistorySound(job, sure, d, runs[..|runs| - 1]);
      RunSound(job, sure, History(job, d, runs[..|runs| - 1]), runs[|runs| - 1]);
    }
  }

  /** Whatever fails, rows come only from valid ticks that the validation of some run let through. */
  lemma {:induction false} StoredPassed(job: Job, d: Disk, runs: seq<Run>, t: Tick)
    requires WellPosed(job)
    ensures d.rows[t] <= History(job, d, runs).rows[t]
    ensures History(job, d, runs).rows[t] > d.rows[t] ==> t in job.source && Valid(t) && Passes(runs, t)
    decreases |runs|
  {
    if runs != [] {
      var front := runs[..|runs| - 1];
      StoredPassed(job, d, front, t);
      RunKeepsRows(job, History(job, d, front), runs[|runs| - 1], t);
    }
  }

  // ---- what the connector's events and its validation mean for this script ----

  /** The connector's events carry their prices one level down, where the script does not look. */
  datatype Quote = Quote(time: int, bid: real, ask: real)

  function Normalized(q: Quote): Tick { Tick(q.time, None, None) }

  /** So from them no history of runs stores anything, and a run that nothing disturbs completes all the same. */
  lemma NestedPricesStoreNothing(job: Job, d: Disk, runs: seq<Run>)
    requires WellPosed(job) && forall t :: t in job.source ==> exists q :: t == Normalized(q)
    ensures History(job, d, runs).rows == d.rows
    ensures job.driver.updates ==>
      forall run: Run :: run.ending.Finishes? && !Refuses(job, History(job, d, runs), run)
                         ==> Succeeds(job, History(job, d, runs), run)
  {
    forall t ensures History(job, d, runs).rows[t] == d.rows[t] { StoredPassed(job, d, runs, t); }
    var e := History(job, d, runs);
    forall run: Run | job.driver.updates && run.ending.Finishes? && !Refuses(job, e, run)
      ensures Succeeds(job, e, run)
    {
      NothingPulled(job, run, StartPoint(job, e, run));
    }
  }

  lemma NothingPulled(job: Job, run: Run, from: int)
    requires WellPosed(job) && from < job.end
    requires forall t :: t in job.source ==> !Valid(t) || !run.gate(t)
    ensures Pulled(job, run, from) == []
  {
    PulledContents(job, run, from);
    FirstIsIn(Pulled(job, run, from));
  }

  lemma FirstIsIn(ticks: seq<Tick>)
    ensures ticks == [] || ticks[0] in ticks
  {
  }

  const MAX_AGE := 3600

  /** The validation refuses ticks that are too old when it looks at them. */
  ghost predicate RefusesOld(gate: Tick -> bool, earliest: int) {
    forall t :: gate(t) ==> earliest - t.time <= MAX_AGE
  }

  /** So a range that lies further back than that, when a run first looks at the clock, is never stored. */
  lemma OldRangesStoreNothing(job: Job, d: Disk, runs: seq<Run>, earliest: int)
    requires WellPosed(job) && (forall k :: 0 <= k < |runs| ==> RefusesOld(runs[k].gate, earliest))
    requires forall t :: t in job.source ==> t.time < earliest - MAX_AGE
    ensures History(job, d, runs).rows == d.rows
  {
    forall t ensures History(job, d, runs).rows[t] == d.rows[t] { StoredPassed(job, d, runs, t); }
  }

  // ---- checkpoints ----

  /** A resumed run never moves the checkpoint back, however it ends. */
  lemma CheckpointNeverRetreats(job: Job, d: Disk, run: Run)
    requires WellPosed(job) && Resumable(d, run)
    ensures Execute(job, d, run).record.Some? && Execute(job, d, run).record.value.checkpoint.Some?
    ensures d.record.value.checkpoint.value <= Execute(job, d, run).record.value.checkpoint.value
  {
    var from := StartPoint(job, d, run);
    ExecuteWrites(job, d, run);
    if !Refuses(job, d, run) {
      var batches := Batches(job, d, run);
      FlushAdvances(d, batches, run.losses, Reached(d.record, job.driver, Budget(run, batches)), from);
      forall t | Contains(batches, t) ensures from <= t.time { BatchedTickPulled(job, run, from, t); }
    }
  }

  lemma FlushAdvances(d: Disk, batches: seq<seq<Tick>>, losses: Losses, budget: nat, from: int)
    requires NonEmpty(batches) && d.record.Some? && d.record.value.checkpoint == Some(from)
    ensures var e := FlushedUntil(d, batches, losses, budget);
      && e.record.Some? && e.record.value.checkpoint.Some?
      && ((forall t :: Contains(batches, t) ==> from <= t.time) ==> from <= e.record.value.checkpoint.value)
  {
    var n := if budget >= 2 * |batches| then |batches| else budget / 2;
    if n > 0 {
      var last := batches[n - 1][|batches[n - 1]| - 1];
      assert last in batches[n - 1];
      assert Contains(batches, last);
    }
  }

  lemma BatchedTickPulled(job: Job, run: Run, from: int, t: Tick)
    requires Ordered(job.source) && from < job.end && Contains(Split(Pulled(job, run, from)), t)
    ensures Valid(t) && run.gate(t) && t in job.source && from <= t.time <= job.end
  {
    PulledContents(job, run, from);
    SplitIsBatched(Pulled(job, run, from));
  }

  lemma {:induction false} SplitHolds(ticks: seq<Tick>, rows: multiset<Tick>)
    ensures RowsAfter(rows, Split(ticks), NO_LOSS, |Split(ticks)|) == rows + multiset(ticks)
  {
    if |ticks| > BATCH {
      var head, rest := ticks[..BATCH], ticks[BATCH..];
      SplitHolds(rest, rows + multiset(head));
      RowsShift(rows, head, Split(rest), |Split(rest)|);
      Reassemble(rows, head, rest, ticks);
    } else if ticks != [] {
      OneBatch(ticks, rows);
    } else {
      assert rows + multiset(ticks) == rows;
    }
  }

  lemma Reassemble(rows: multiset<Tick>, head: seq<Tick>, rest: seq<Tick>, ticks: seq<Tick>)
    requires |ticks| > BATCH && head == ticks[..BATCH] && rest == ticks[BATCH..]
    ensures (rows + multiset(head)) + multiset(rest) == rows + multiset(ticks)
    ensures Split(ticks) == [head] + Split(rest)
  {
    assert ticks == head + rest;
  }

  lemma OneBatch(ticks: seq<Tick>, rows: multiset<Tick>)
    requires 0 < |ticks| <= BATCH
    ensures RowsAfter(rows, Split(ticks), NO_LOSS, |Split(ticks)|) == rows + multiset(ticks)
  {
    assert Split(ticks) == [ticks] && RowsAfter(rows, [ticks], NO_LOSS, 0) == rows;
    NothingLost(ticks, 0);
    assert Added([ticks], NO_LOSS, 0) == multiset(ticks);
  }

  lemma {:induction false} RowsShift(rows: multiset<Tick>, head: seq<Tick>, tail: seq<seq<Tick>>, n: nat)
    requires n <= |tail|
    ensures RowsAfter(rows, [head] + tail, NO_LOSS, n + 1) == RowsAfter(rows + multiset(head), tail, NO_LOSS, n)
  {
    assert RowsAfter(rows, [head] + tail, NO_LOSS, 0) == rows;
    if n > 0 {
      RowsShift(rows, head, tail, n - 1);
      NothingLost(tail[n - 1], n);
      NothingLost(tail[n - 1], n - 1);
    } else {
      NothingLost(head, 0);
    }
  }

  /** A run that finishes with no insert or row failing adds what it read, once more for what was already there. */
  lemma FinishedRunAddsPulled(job: Job, d: Disk, run: Run)
    requires Succeeds(job, d, run) && run.losses == NO_LOSS
    ensures Execute(job, d, run).rows == d.rows + multiset(Pulled(job, run, StartPoint(job, d, run)))
  {
    SplitHolds(Pulled(job, run, StartPoint(job, d, run)), d.rows);
  }

  /** So resuming a backfill that is already complete is not harmless: it reads the whole range again and stores
  every tick of it that passes its validation once more. */
  lemma ResumeAfterCompletionDuplicates(job: Job, d: Disk, first: Run, again: Run)
    requires WellPosed(job) && job.driver.zoned && Succeeds(job, d, first)
    requires again.resume && again.ending.Finishes? && again.losses == NO_LOSS
    ensures var done := Execute(job, d, first);
      Execute(job, done, again).rows == done.rows + multiset(Pulled(job, again, job.start))
    ensures forall t :: Wanted(job, t) && again.gate(t) ==>
      Execute(job, Execute(job, d, first), again).rows[t] > Execute(job, d, first).rows[t]
  {
    var done := Execute(job, d, first);
    CompletedReadsAfresh(job, d, first, again);
    FinishedRunAddsPulled(job, done, again);
    PulledContents(job, again, job.start);
  }

  lemma CompletedReadsAfresh(job: Job, d: Disk, first: Run, again: Run)
    requires WellPosed(job) && job.driver.zoned && Succeeds(job, d, first)
    requires again.resume && again.ending.Finishes?
    ensures var done := Execute(job, d, first); StartPoint(job, done, again) == job.start && Succeeds(job, done, again)
  {
    assert Execute(job, d, first).record.value.status == Completed;
  }

  // ---- what a checkpoint says, and how often a tick is stored ----

  function Min(a: nat, b: nat): nat { if a < b then a else b }

  /** Batch `k` is the next hundred ticks, or what is left of them. */
  lemma {:induction false} SplitAt(ticks: seq<Tick>, k: nat)
    requires k < |Split(ticks)|
    ensures BATCH * k < |ticks| && Split(ticks)[k] == ticks[BATCH * k..Min(BATCH * (k + 1), |ticks|)]
    ensures k + 1 < |Split(ticks)| <==> BATCH * (k + 1) < |ticks|
  {
    if |ticks| > BATCH {
      var rest := ticks[BATCH..];
      assert Split(ticks) == [ticks[..BATCH]] + Split(rest) && Split(rest) != [];
      if k > 0 {
        SplitAt(rest, k - 1);
        assert rest[BATCH * (k - 1)..Min(BATCH * k, |rest|)] == ticks[BATCH * k..Min(BATCH * (k + 1), |ticks|)];
      }
    }
  }

  lemma {:induction false} PrefixStored(rows: multiset<Tick>, ticks: seq<Tick>, n: nat)
    requires n <= |Split(ticks)|
    ensures RowsAfter(rows, Split(ticks), NO_LOSS, n) == rows + multiset(ticks[..Min(BATCH * n, |ticks|)])
  {
    if n > 0 {
      var k, batches := n - 1, Split(ticks);
      PrefixStored(rows, ticks, k);
      AddsNextHundred(ticks, k);
      var before, after := multiset(ticks[..Min(BATCH * k, |ticks|)]), multiset(ticks[..Min(BATCH * n, |ticks|)]);
      assert RowsAfter(rows, batches, NO_LOSS, n) == (rows + before) + Added(batches, NO_LOSS, k);
      assert (rows + before) + Added(batches, NO_LOSS, k) == rows + after;
    }
  }

  lemma AddsNextHundred(ticks: seq<Tick>, k: nat)
    requires k < |Split(ticks)|
    ensures multiset(ticks[..Min(BATCH * k, |ticks|)]) + Added(Split(ticks), NO_LOSS, k)
         == multiset(ticks[..Min(BATCH * (k + 1), |ticks|)])
  {
    SplitAt(ticks, k);
    NothingLost(Split(ticks)[k], k);
    CutOnce(ticks, BATCH * k, Min(BATCH * (k + 1), |ticks|));
  }

  lemma CutOnce(ticks: seq<Tick>, k: nat, m: nat)
    requires k <= m <= |ticks|
    ensures multiset(ticks[..m]) == multiset(ticks[..k]) + multiset(ticks[k..m])
  {
    assert ticks[..m] == ticks[..k] + ticks[k..m];
  }

  /** After `n` inserts with their checkpoints the table has gained the first `n` hundreds of what is read, or all of
  it, and the record has the time of the last of these ticks. */
  lemma CheckpointIsLastStored(d: Disk, ticks: seq<Tick>, n: nat)
    requires 0 < n <= |Split(ticks)|
    ensures var m := Min(BATCH * n, |ticks|);
      && m > 0
      && Flushed(d, Split(ticks), NO_LOSS, n)
         == Disk(d.rows + multiset(ticks[..m]), Marked(d.record, ticks[m - 1].time))
  {
    PrefixStored(d.rows, ticks, n);
    SplitAt(ticks, n - 1);
  }

  /** A run that dies right after its `n`-th checkpoint. */
  predicate DiesAfterCheckpoint(job: Job, d: Disk, run: Run, n: nat) {
    && Records(job.driver) && !Refuses(job, d, run) && run.losses == NO_LOSS
    && run.ending == Dies(2 * n) && 0 < n <= |Batches(job, d, run)|
  }

  lemma CrashedAt(job: Job, d: Disk, run: Run, n: nat)
    requires DiesAfterCheckpoint(job, d, run, n)
    ensures var ticks := Pulled(job, run, StartPoint(job, d, run)); var m := Min(BATCH * n, |ticks|);
      && m > 0
      && Execute(job, d, run) == Disk(d.rows + multiset(ticks[..m]), Some(Record(Some(ticks[m - 1].time), InProgress)))
  {
    DiesFlushed(job, d, run, n);
    CheckpointIsLastStored(Begun(d, run), Pulled(job, run, StartPoint(job, d, run)), n);
  }

  lemma EvenBudget(d: Disk, batches: seq<seq<Tick>>, n: nat)
    requires NonEmpty(batches) && n <= |batches|
    ensures FlushedUntil(d, batches, NO_LOSS, 2 * n) == Flushed(d, batches, NO_LOSS, n)
  {
  }

  lemma DiesFlushed(job: Job, d: Disk, run: Run, n: nat)
    requires DiesAfterCheckpoint(job, d, run, n)
    ensures Execute(job, d, run) == Flushed(Begun(d, run), Batches(job, d, run), NO_LOSS, n)
  {
    EvenBudget(Begun(d, run), Batches(job, d, run), n);
    assert !Stops(job, run, Batches(job, d, run));
  }

  /** Its record is in progress, and of the ticks that it stored none is later than the checkpoint, and one is at it. */
  lemma CheckpointIsLatest(job: Job, d: Disk, run: Run, n: nat)
    requires WellPosed(job) && DiesAfterCheckpoint(job, d, run, n)
    ensures var e := Execute(job, d, run);
      && e.record.value.status == InProgress && e.record.value.checkpoint.Some?
      && (forall t :: e.rows[t] > d.rows[t] ==> t.time <= e.record.value.checkpoint.value)
      && (exists t :: e.rows[t] > d.rows[t] && t.time == e.record.value.checkpoint.value)
  {
    var ticks := Pulled(job, run, StartPoint(job, d, run));
    CrashedAt(job, d, run, n);
    PulledContents(job, run, StartPoint(job, d, run));
    LastIsLatest(d.rows, ticks, Min(BATCH * n, |ticks|));
  }

  lemma LastIsLatest(rows: multiset<Tick>, ticks: seq<Tick>, m: nat)
    requires Ordered(ticks) && 0 < m <= |ticks|
    ensures var more := rows + multiset(ticks[..m]);
      && more[ticks[m - 1]] > rows[ticks[m - 1]]
      && forall t :: more[t] > rows[t] ==> t.time <= ticks[m - 1].time
  {
    assert ticks[m - 1] in ticks[..m];
    forall t | (rows + multiset(ticks[..m]))[t] > rows[t] ensures t.time <= ticks[m - 1].time {
      assert t in ticks[..m];
    }
  }

  lemma {:induction false} ValidCounts(ticks: seq<Tick>, t: Tick)
    ensures multiset(ValidOnly(ticks))[t] == if Valid(t) then multiset(ticks)[t] else 0
  {
    if ticks != [] {
      ValidCounts(ticks[1..], t);
      assert ticks == [ticks[0]] + ticks[1..];
    }
  }

  lemma {:induction false} RangeCounts(source: seq<Tick>, from: int, to: int, t: Tick)
    ensures multiset(Range(source, from, to))[t] == if from <= t.time <= to then multiset(source)[t] else 0
  {
    if source != [] {
      RangeCounts(source[1..], from, to, t);
      RangeHead(source, from, to, t);
      HeadCounts(source, t);
    }
  }

  lemma HeadCounts(ticks: seq<Tick>, t: Tick)
    requires ticks != []
    ensures multiset(ticks)[t] == (if ticks[0] == t then 1 else 0) + multiset(ticks[1..])[t]
  {
    assert ticks == [ticks[0]] + ticks[1..];
  }

  /** How often a run that starts at `from` reads a tick. */
  lemma PulledCounts(job: Job, run: Run, from: int, t: Tick)
    requires from < job.end
    ensures multiset(Pulled(job, run, from))[t] ==
            if Valid(t) && run.gate(t) && from <= t.time <= job.end
            then multiset(job.source)[t] + OnBoundaries(job.source, from, job.end)[t] else 0
  {
    var feed := Feed(job.source, from, job.end);
    ValidCounts(Passing(feed, run.gate), t);
    YieldRepeatsBoundaries(job, run, from, t);
    RangeCounts(job.source, from, job.end, t);
    BoundariesInside(job.source, from, job.end, t);
  }

  lemma {:induction false} BoundariesInside(source: seq<Tick>, from: int, end: int, t: Tick)
    ensures OnBoundaries(source, from, end)[t] > 0 ==> from < t.time < end
    decreases end - from
  {
    if from + DAY < end {
      BoundariesInside(source, from + DAY, end, t);
      RangeCounts(source, from + DAY, from + DAY, t);
    }
  }

  lemma PrefixCounts(ticks: seq<Tick>, m: nat, t: Tick)
    requires Ordered(ticks) && 0 < m <= |ticks| && t.time != ticks[m - 1].time
    ensures multiset(ticks[..m])[t] == if t.time < ticks[m - 1].time then multiset(ticks)[t] else 0
  {
    assert ticks == ticks[..m] + ticks[m..];
    if t.time < ticks[m - 1].time { assert t !in ticks[m..]; } else { assert t !in ticks[..m]; }
  }

  /** A crash right after a checkpoint and a resume that finishes: from an empty table a wanted tick that both runs let
  through is stored as often as the source has it, and once more for each inner day boundary of the requests of the
  run that stored it; only a tick at the very time of the checkpoint can be stored by both. */
  lemma ResumeStoresOnce(job: Job, first: Run, again: Run, n: nat, t: Tick)
    requires WellPosed(job) && DiesAfterCheckpoint(job, Disk(multiset{}, None), first, n)
    requires again.resume && again.losses == NO_LOSS && Wanted(job, t) && first.gate(t) && again.gate(t)
    requires var crashed := Execute(job, Disk(multiset{}, None), first); Succeeds(job, crashed, again)
    ensures var crashed := Execute(job, Disk(multiset{}, None), first);
      var e, c := Execute(job, crashed, again), crashed.record.value.checkpoint.value;
      t.time != c ==>
        e.rows[t] == multiset(job.source)[t] + OnBoundaries(job.source, if t.time < c then job.start else c, job.end)[t]
  {
    var d, ticks := Disk(multiset{}, None), Pulled(job, first, job.start);
    CrashedAt(job, d, first, n);
    PulledContents(job, first, job.start);
    StoredByBoth(job, Execute(job, d, first), first, again, Min(BATCH * n, |ticks|), t);
  }

  lemma StoredByBoth(job: Job, crashed: Disk, first: Run, again: Run, m: nat, t: Tick)
    requires WellPosed(job) && 0 < m <= |Pulled(job, first, job.start)| && Ordered(Pulled(job, first, job.start))
    requires var ticks := Pulled(job, first, job.start);
      crashed == Disk(multiset{} + multiset(ticks[..m]), Some(Record(Some(ticks[m - 1].time), InProgress)))
    requires again.resume && again.losses == NO_LOSS && Succeeds(job, crashed, again)
    requires Wanted(job, t) && first.gate(t) && again.gate(t)
    ensures var e, c := Execute(job, crashed, again), crashed.record.value.checkpoint.value;
      t.time != c ==>
        e.rows[t] == multiset(job.source)[t] + OnBoundaries(job.source, if t.time < c then job.start else c, job.end)[t]
  {
    var ticks := Pulled(job, first, job.start);
    var c := ticks[m - 1].time;
    FinishedRunAddsPulled(job, crashed, again);
    PulledCounts(job, first, job.start, t);
    PulledCounts(job, again, c, t);
    if t.time != c { PrefixCounts(ticks, m, t); }
  }

  // ---- records that do not advance ----

  /** A run records a checkpoint exactly when updates go through, times read back from the record carry a zone, and the
  run gets past its first insert; or the record that it resumes has one already. */
  lemma CheckpointRecordedIff(job: Job, d: Disk, run: Run)
    requires WellPosed(job)
    ensures Execute(job, d, run).record.value.checkpoint.Some? <==>
      || Begun(d, run).record.value.checkpoint.Some?
      || (Records(job.driver) && Batches(job, d, run) != [] && Budget(run, Batches(job, d, run)) > 1)
  {
    ExecuteWrites(job, d, run);
  }

  function CheckpointOf(d: Disk): Option<int> { if d.record.Some? then d.record.value.checkpoint else None }

  /** Otherwise no checkpoint is ever recorded, and every run, resumed or not, reads from the start. */
  lemma {:induction false} NeverAdvances(job: Job, d: Disk, runs: seq<Run>)
    requires WellPosed(job) && !Records(job.driver) && CheckpointOf(d).None?
    ensures CheckpointOf(History(job, d, runs)).None?
    ensures forall run: Run :: StartPoint(job, History(job, d, runs), run) == job.start
    decreases |runs|
  {
    if runs != [] {
      var front := runs[..|runs| - 1];
      NeverAdvances(job, d, front);
      CheckpointRecordedIff(job, History(job, d, front), runs[|runs| - 1]);
    }
  }

  /** Then a run that nothing else disturbs stores its first batch and fails at the checkpoint, and the next one stores
  it again; only a run that reads nothing gets through, and completes if updates do. */
  lemma StartsOverForever(job: Job, d: Disk, runs: seq<Run>, run: Run)
    requires WellPosed(job) && !Records(job.driver) && CheckpointOf(d).None? && run.ending.Finishes?
    ensures var now := History(job, d, runs);
      var e, ticks := Execute(job, now, run), Pulled(job, run, job.start);
      && (Succeeds(job, now, run) <==> job.driver.updates && ticks == [])
      && e.rows == (if ticks == [] then now.rows else now.rows + Inserted(Split(ticks)[0], 0, run.losses))
      && (job.driver.updates ==> e.record.value.status == if ticks == [] then Completed else Failed)
  {
    NeverAdvances(job, d, runs);
    var now, batches := History(job, d, runs), Split(Pulled(job, run, job.start));
    assert Batches(job, now, run) == batches;
    assert RowsAfter(now.rows, batches, run.losses, 0) == now.rows;
  }

  /** With a zone at the end of the range but not in the record, or the other way round, resumed runs read nothing
  once there is a checkpoint: only starting afresh goes on. */
  lemma {:induction false} MixedResumesReadNothing(job: Job, d: Disk, runs: seq<Run>)
    requires job.driver.zoned != job.zoned && CheckpointOf(d).Some?
    requires d.record.value.status == Failed || d.record.value.status == InProgress
    requires forall k :: 0 <= k < |runs| ==> runs[k].resume
    ensures var e := History(job, d, runs);
      && e.rows == d.rows && CheckpointOf(e) == CheckpointOf(d)
      && (e.record.value.status == Failed || e.record.value.status == InProgress)
    decreases |runs|
  {
    if runs != [] { MixedResumesReadNothing(job, d, runs[..|runs| - 1]); }
  }

  // ---- a checkpoint at the end of the range ----

  /** Once the checkpoint has reached the end of the range, no resumed run can read anything or finish,
  however often it is tried: the connector refuses to start at its end. */
  lemma {:induction false} StuckAtEnd(job: Job, d: Disk, runs: seq<Run>)
    requires WellPosed(job) && CheckpointOf(d) == Some(job.end)
    requires d.record.value.status == Failed || d.record.value.status == InProgress
    requires forall k :: 0 <= k < |runs| ==> runs[k].resume
    ensures var e := History(job, d, runs);
      && e.rows == d.rows && CheckpointOf(e) == Some(job.end)
      && (e.record.value.status == Failed || e.record.value.status == InProgress)
    ensures forall run: Run :: run.resume ==> !Succeeds(job, History(job, d, runs), run)
    decreases |runs|
  {
    if runs != [] { StuckAtEnd(job, d, runs[..|runs| - 1]); }
  }

  /** Nothing in the times or the driver gets in the way of a run that goes on from `checkpoint`. */
  predicate GoesOn(job: Job, run: Run, checkpoint: int) {
    && checkpoint < job.end
    && job.driver.zoned == job.zoned
    && job.driver.updates
    && (job.driver.zoned || Pulled(job, run, checkpoint) == [])
  }

  /** A resumed run that meets no other error succeeds exactly when its checkpoint lies before the end, both of them
  carry a zone or neither does, in the latter case nothing is left to read, and updates go through. If it succeeds
  and nothing fails, the table holds all wanted ticks that all runs so far let through; if it is refused, it is
  unchanged. */
  lemma ResumeSucceedsIff(job: Job, sure: iset<Tick>, d: Disk, run: Run)
    requires WellPosed(job) && Sound(job, sure, d) && LetsThrough(run, sure)
    requires Resumable(d, run) && run.ending.Finishes?
    ensures var c, e := d.record.value.checkpoint.value, Execute(job, d, run);
      && (e.record.value.status == Completed <==> GoesOn(job, run, c))
      && (c >= job.end || job.driver.zoned != job.zoned ==> e.rows == d.rows)
      && (GoesOn(job, run, c) && run.losses == NO_LOSS ==> forall t :: Wanted(job, t) && t in sure ==> t in e.rows)
  {
    if Succeeds(job, d, run) && run.losses == NO_LOSS {
      forall t | Wanted(job, t) && t in sure ensures t in Execute(job, d, run).rows {
        SuccessStoresAll(job, sure, d, run, t);
      }
    }
  }

  /** A minute with 101 ticks, all in its last second: the first 100 fill a batch whose checkpoint is the
  end of the range. */
  function CrowdedEnd(end: int, given: bool): Job {
    var source := seq(101, i => Tick(end, Some((i + 1) as real), Some((i + 2) as real)));
    Job(source, end - 60, end, given, Driver(true, true))
  }

  /** A first run that lets every tick through and dies after one insert and its checkpoint. */
  function DiesAfterBatch(): Run { Run(false, t => true, NO_LOSS, Dies(2)) }

  lemma {:induction false} ValidOnlyAll(ticks: seq<Tick>)
    requires forall t :: t in ticks ==> Valid(t)
    ensures ValidOnly(ticks) == ticks
  {
    if ticks != [] { ValidOnlyAll(ticks[1..]); }
  }

  lemma {:induction false} PassingAll(ticks: seq<Tick>, gate: Tick -> bool)
    requires forall t :: t in ticks ==> gate(t)
    ensures Passing(ticks, gate) == ticks
  {
    if ticks != [] { PassingAll(ticks[1..], gate); }
  }

  lemma {:induction false} RangeAll(source: seq<Tick>, from: int, to: int)
    requires forall t :: t in source ==> from <= t.time <= to
    ensures Range(source, from, to) == source
  {
    if source != [] { RangeAll(source[1..], from, to); }
  }

  lemma CrowdedEndPulled(end: int, given: bool)
    ensures var job := CrowdedEnd(end, given);
      WellPosed(job) && Pulled(job, DiesAfterBatch(), end - 60) == job.source
  {
    var source := CrowdedEnd(end, given).source;
    RangeAll(source, end - 60, end);
    OneDayFeed(source, end - 60, end);
    PassingAll(source, DiesAfterBatch().gate);
    ValidOnlyAll(source);
  }

  lemma OneDayFeed(source: seq<Tick>, from: int, end: int)
    requires from < end <= from + DAY
    ensures Feed(source, from, end) == Range(source, from, end)
  {
    assert Feed(source, end, end) == [];
  }

  lemma CrowdedBatches(end: int, given: bool)
    ensures var source := CrowdedEnd(end, given).source; Split(source) == [source[..100], source[100..]]
  {
  }

  /** So a crash right after that checkpoint loses the last tick, and no number of resumes brings it back. */
  lemma CrashAtEndLosesTick(end: int, given: bool, resumes: seq<Run>) returns (lost: Tick)
    requires forall k :: 0 <= k < |resumes| ==> resumes[k].resume
    ensures var job := CrowdedEnd(end, given);
      var crashed := Execute(job, Disk(multiset{}, None), DiesAfterBatch());
      Wanted(job, lost) && lost !in History(job, crashed, resumes).rows
  {
    var job, d, run := CrowdedEnd(end, given), Disk(multiset{}, None), DiesAfterBatch();
    var batches := Split(job.source);
    lost := job.source[100];
    CrowdedEndPulled(end, given);
    CrowdedBatches(end, given);
    var crashed := Execute(job, d, run);
    assert crashed == Flushed(Begun(d, run), batches, NO_LOSS, 1);
    assert RowsAfter(multiset{}, batches, NO_LOSS, 0) == multiset{};
    NothingLost(batches[0], 0);
    assert crashed.rows == multiset(batches[0]);
    assert LastTime(batches[0]) == end;
    assert forall i :: 0 <= i < 100 ==> batches[0][i].bid == Some((i + 1) as real);
    StuckAtEnd(job, crashed, resumes);
  }

  // ---- inserts that fail ----

  /** Every row of the first `n` batches is stored. */
  ghost predicate NoneLost(losses: Losses, batches: seq<seq<Tick>>, n: nat)
    requires n <= |batches|
  {
    forall j :: 0 <= j < n ==> Unharmed(batches[j], j, losses)
  }

  function Sizes(batches: seq<seq<Tick>>, n: nat): nat
    requires n <= |batches|
  {
    if n == 0 then 0 else Sizes(batches, n - 1) + |batches[n - 1]|
  }

  lemma AddedCount(batches: seq<seq<Tick>>, losses: Losses, k: nat)
    requires k < |batches| && batches[k] != []
    ensures |Added(batches, losses, k)| <= |batches[k]|
    ensures |Added(batches, losses, k)| == |batches[k]| <==> Unharmed(batches[k], k, losses)
    ensures NoneLost(losses, batches, k + 1) <==> NoneLost(losses, batches, k) && Unharmed(batches[k], k, losses)
  {
    InsertedCount(batches[k], k, losses);
  }

  lemma {:induction false} RowsCount(rows: multiset<Tick>, batches: seq<seq<Tick>>, losses: Losses, n: nat)
    requires n <= |batches| && NonEmpty(batches)
    ensures |RowsAfter(rows, batches, losses, n)| <= |rows| + Sizes(batches, n)
    ensures |RowsAfter(rows, batches, losses, n)| == |rows| + Sizes(batches, n) <==> NoneLost(losses, batches, n)
  {
    if n > 0 {
      var k := n - 1;
      RowsCount(rows, batches, losses, k);
      AddedCount(batches, losses, k);
    }
  }

  lemma {:induction false} SizesShift(head: seq<Tick>, tail: seq<seq<Tick>>, n: nat)
    requires n <= |tail|
    ensures Sizes([head] + tail, n + 1) == |head| + Sizes(tail, n)
  {
    if n > 0 { SizesShift(head, tail, n - 1); }
  }

  lemma {:induction false} SplitSizes(ticks: seq<Tick>)
    ensures Sizes(Split(ticks), |Split(ticks)|) == |ticks|
  {
    if |ticks| > BATCH {
      SplitSizes(ticks[BATCH..]);
      SizesShift(ticks[..BATCH], Split(ticks[BATCH..]), |Split(ticks[BATCH..])|);
    }
  }

  /** An insert that fails by returning -1, or a row that fails singly, is not noticed: the run finishes all the
  same. It stores everything it read exactly when no insert and no row failed. */
  lemma FinishedRunStoresAllIff(job: Job, d: Disk, run: Run)
    requires WellPosed(job) && Succeeds(job, d, run)
    ensures var e := Execute(job, d, run); var ticks := Pulled(job, run, StartPoint(job, d, run));
      && e.record.value.status == Completed
      && (|e.rows| == |d.rows| + |ticks| <==> NoneLost(run.losses, Split(ticks), |Split(ticks)|))
  {
    var ticks := Pulled(job, run, StartPoint(job, d, run));
    RowsCount(d.rows, Split(ticks), run.losses, |Split(ticks)|);
    SplitSizes(ticks);
  }

  /** And a tick that a checkpoint has passed over stays as it is, in every run resumed from there. */
  lemma PassedOverStaysLost(job: Job, d: Disk, run: Run, t: Tick)
    requires WellPosed(job) && Resumable(d, run) && t.time < d.record.value.checkpoint.value
    ensures Execute(job, d, run).rows[t] == d.rows[t]
  {
    var from := StartPoint(job, d, run);
    if !Refuses(job, d, run) {
      var batches := Batches(job, d, run);
      if Contains(batches, t) { BatchedTickPulled(job, run, from, t); }
      FlushGrows(d, batches, run.losses, Reached(d.record, job.driver, Budget(run, batches)), t);
    }
  }

  // ---- duplicates ----

  lemma {:induction false} RangeSplit(source: seq<Tick>, from: int, mid: int, to: int, t: Tick)
    requires from <= mid <= to
    ensures multiset(Range(source, from, mid))[t] + multiset(Range(source, mid, to))[t]
         == multiset(Range(source, from, to))[t] + multiset(Range(source, mid, mid))[t]
  {
    if source != [] {
      RangeSplit(source[1..], from, mid, to, t);
      RangeHead(source, from, mid, t);
      RangeHead(source, mid, to, t);
      RangeHead(source, from, to, t);
      RangeHead(source, mid, mid, t);
    }
  }

  lemma RangeHead(source: seq<Tick>, from: int, to: int, t: Tick)
    requires source != []
    ensures multiset(Range(source, from, to))[t] ==
            (if from <= source[0].time <= to && source[0] == t then 1 else 0)
            + multiset(Range(source[1..], from, to))[t]
  {
  }

  /** The ticks that fall on the connector's inner day boundaries. */
  function OnBoundaries(source: seq<Tick>, from: int, end: int): multiset<Tick>
    decreases end - from
  {
    if from + DAY >= end then multiset{}
    else multiset(Range(source, from + DAY, from + DAY)) + OnBoundaries(source, from + DAY, end)
  }

  /** Daily requests that include both ends read a boundary tick twice, and every other tick once. So even
  a run without a crash stores a tick twice exactly when it falls on an inner day boundary. */
  lemma {:induction false} FeedRepeatsBoundaries(source: seq<Tick>, from: int, end: int, t: Tick)
    requires from < end
    ensures multiset(Feed(source, from, end))[t]
         == multiset(Range(source, from, end))[t] + OnBoundaries(source, from, end)[t]
    decreases end - from
  {
    if from + DAY < end {
      FeedRepeatsBoundaries(source, from + DAY, end, t);
      RangeSplit(source, from, from + DAY, end, t);
      assert Feed(source, from, end) == Range(source, from, from + DAY) + Feed(source, from + DAY, end);
    } else {
      OneDayFeed(source, from, end);
    }
  }

  lemma {:induction false} PassingCounts(ticks: seq<Tick>, gate: Tick -> bool, t: Tick)
    ensures multiset(Passing(ticks, gate))[t] == if gate(t) then multiset(ticks)[t] else 0
  {
    if ticks != [] {
      PassingCounts(ticks[1..], gate, t);
      assert ticks == [ticks[0]] + ticks[1..];
    }
  }

  /** What the connector yields of a tick, after its validation. */
  lemma YieldRepeatsBoundaries(job: Job, run: Run, from: int, t: Tick)
    requires from < job.end
    ensures multiset(Passing(Feed(job.source, from, job.end), run.gate))[t] ==
            if run.gate(t)
            then multiset(Range(job.source, from, job.end))[t] + OnBoundaries(job.source, from, job.end)[t]
            else 0
  {
    FeedRepeatsBoundaries(job.source, from, job.end, t);
    PassingCounts(Feed(job.source, from, job.end), run.gate, t);
  }

  /** A tick is on the `k`-th day boundary after `from`, for some `k` from one on, before `end`. */
  ghost predicate OnDay(t: Tick, from: int, end: int) {
    exists k: int :: k >= 1 && t.time == from + k * 24 * 60 * 60 && t.time < end
  }

  lemma DayAfter(t: Tick, from: int, end: int)
    ensures OnDay(t, from, end) <==>
      (t.time == from + 24 * 60 * 60 && t.time < end) || OnDay(t, from + 24 * 60 * 60, end)
  {
    if OnDay(t, from, end) {
      var k: int :| k >= 1 && t.time == from + k * 24 * 60 * 60 && t.time < end;
      if k > 1 { assert t.time == from + 24 * 60 * 60 + (k - 1) * 24 * 60 * 60; }
    }
    if OnDay(t, from + 24 * 60 * 60, end) {
      var k: int :| k >= 1 && t.time == from + 24 * 60 * 60 + k * 24 * 60 * 60 && t.time < end;
      assert t.time == from + (k + 1) * 24 * 60 * 60;
    }
    if t.time == from + 24 * 60 * 60 && t.time < end { assert t.time == from + 1 * 24 * 60 * 60; }
  }

  /** The inner boundaries are whole days from the start, and each tick on one counts as often as the source has it. */
  lemma {:induction false} BoundariesAreDays(source: seq<Tick>, from: int, end: int, t: Tick)
    ensures OnBoundaries(source, from, end)[t] == if OnDay(t, from, end) then multiset(source)[t] else 0
    decreases end - from
  {
    DayAfter(t, from, end);
    if from + DAY < end {
      BoundariesAreDays(source, from + DAY, end, t);
      RangeCounts(source, from + DAY, from + DAY, t);
      if OnDay(t, from + DAY, end) { LaterDay(t, from + DAY, end); }
    } else if OnDay(t, from, end) {
      LaterDay(t, from, end);
    }
  }

  lemma LaterDay(t: Tick, from: int, end: int)
    requires OnDay(t, from, end)
    ensures from + 24 * 60 * 60 <= t.time < end
  {
  }

  // ---- what a run reads, and what it records ----

  /** A run reads a tick exactly if the source has it in the run's range, with a bid and an ask that are not zero, and
  the validation lets it through. */
  lemma ReadsPricedTicks(job: Job, run: Run, from: int, t: Tick)
    requires Ordered(job.source) && from < job.end
    ensures t in Pulled(job, run, from) <==>
      && t in job.source && from <= t.time <= job.end && run.gate(t)
      && exists bid: real, ask: real :: t == Tick(t.time, Some(bid), Some(ask)) && bid != 0.0 && ask != 0.0
  {
    PulledContents(job, run, from);
    if Valid(t) { assert t == Tick(t.time, Some(t.bid.value), Some(t.ask.value)); }
  }

  /** Without `--resume` an earlier record makes no difference to a run. */
  lemma FreshStartForgets(job: Job, d: Disk, run: Run)
    requires !run.resume
    ensures Execute(job, d, run) == Execute(job, d.(record := None), run)
    ensures StartPoint(job, d, run) == job.start
  {
  }

  /** A fresh run that dies before its first checkpoint leaves a pending record that nothing can be resumed from. */
  lemma EarlyCrashLeavesPending(job: Job, d: Disk, run: Run, effects: nat)
    requires WellPosed(job) && !run.resume && run.ending == Dies(effects) && effects <= 1
    ensures Execute(job, d, run).record == Some(Record(None, Pending))
    ensures forall again: Run :: StartPoint(job, Execute(job, d, run), again) == job.start
  {
  }

  /** Where updates go through, the record says how the last run ended: completed exactly if it succeeded, and failed if
  the connector refused or anything raised. */
  lemma EndingIsRecorded(job: Job, d: Disk, run: Run)
    requires job.driver.updates
    ensures !run.ending.Dies? ==>
      var status := Execute(job, d, run).record.value.status;
      && (status == Completed <==> Succeeds(job, d, run))
      && (status == Failed <==> !Succeeds(job, d, run))
    ensures Refuses(job, d, run) ==> Execute(job, d, run).record.value.status == Failed
  {
  }
}

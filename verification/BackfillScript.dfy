/** The backfill script itself: one loop over the feed, inserting and checkpointing as it goes. */
module BackfillScript {
  import opened Options
  import opened BackfillResume

  class TickStore {
    var rows: multiset<Tick>

    /** The `k`-th insert of a run. It counts the rows that it stored; a database error is reported as -1, not
    raised, and a row that fails singly only lowers the count. */
    method InsertBatch(batch: seq<Tick>, k: nat, losses: Losses) returns (inserted: int)
      modifies this
      ensures rows == old(rows) + Inserted(batch, k, losses)
      ensures inserted == if k in losses.errors then -1 else |Inserted(batch, k, losses)|
      ensures inserted == |batch| && batch != [] ==> rows == old(rows) + multiset(batch)
    {
      InsertedCount(batch, k, losses);
      if k in losses.errors { return -1; }
      inserted := 0;
      for i := 0 to |batch|
        invariant rows == old(rows) + Surviving(batch, k, losses.rows, i)
        invariant inserted == |Surviving(batch, k, losses.rows, i)|
      {
        if (k, i) !in losses.rows {
          rows := rows + multiset{batch[i]};
          inserted := inserted + 1;
        }
      }
    }
  }

  class ProgressTracker {
    var record: Option<Record>
    const driver: Driver

    /** Subtracting a start without a zone from the time of a tick raises before anything is recorded, and so may the
    update itself. */
    method UpdateProgress(time: int) returns (raised: bool)
      modifies this
      ensures raised <==> CheckpointRaises(old(record), driver)
      ensures record == if raised then old(record) else Marked(old(record), time)
    {
      if record.None? { return false; }
      if !driver.zoned || !driver.updates { return true; }
      record := Some(Record(Some(time), InProgress));
      raised := false;
    }

    method Mark(status: Status)
      requires record.Some?
      modifies this
      ensures record == Some(if driver.updates then old(record).value.(status := status) else old(record).value)
    {
      if driver.updates { record := Some(record.value.(status := status)); }
    }

    /** `get_resume_point` */
    method ResumePoint() returns (time: Option<int>)
      ensures time == if record.Some? && (record.value.status == Failed || record.value.status == InProgress)
                      then record.value.checkpoint else None
    {
      if record.None? || (record.value.status != Failed && record.value.status != InProgress) { return None; }
      time := record.value.checkpoint;
    }
  }

  function Counted(batch: seq<Tick>, k: nat, losses: Losses): int {
    if k in losses.errors then -1 else |Inserted(batch, k, losses)|
  }

  /** What the script counts; an insert that reports an error counts as minus one. */
  function Collected(batches: seq<seq<Tick>>, losses: Losses, n: nat): int
    requires n <= |batches|
  {
    if n == 0 then 0
    else Collected(batches, losses, n - 1) + Counted(batches[n - 1], n - 1, losses)
  }

  lemma {:induction false} OnlyPrefixMatters(rows: multiset<Tick>, xs: seq<seq<Tick>>, ys: seq<seq<Tick>>,
                                             losses: Losses, n: nat)
    requires n <= |xs|
    ensures RowsAfter(rows, xs + ys, losses, n) == RowsAfter(rows, xs, losses, n)
    ensures Collected(xs + ys, losses, n) == Collected(xs, losses, n)
  {
    if n > 0 { OnlyPrefixMatters(rows, xs, ys, losses, n - 1); }
  }

  lemma FlushedPrefix(d: Disk, xs: seq<seq<Tick>>, ys: seq<seq<Tick>>, losses: Losses)
    requires NonEmpty(xs) && NonEmpty(xs + ys)
    ensures Flushed(d, xs + ys, losses, |xs|) == Flushed(d, xs, losses, |xs|)
    ensures Collected(xs + ys, losses, |xs|) == Collected(xs, losses, |xs|)
  {
    OnlyPrefixMatters(d.rows, xs, ys, losses, |xs|);
  }

  lemma SplitFull(batch: seq<Tick>, rest: seq<Tick>)
    requires |batch| == BATCH
    ensures Split(batch + rest) == [batch] + Split(rest)
  {
    if rest == [] {
      assert batch + rest == batch;
    } else {
      assert (batch + rest)[..BATCH] == batch && (batch + rest)[BATCH..] == rest;
    }
  }

  function Stored(now: Disk, batch: seq<Tick>, k: nat, losses: Losses): Disk {
    now.(rows := now.rows + Inserted(batch, k, losses))
  }

  /** The process dies just before a batch, or between its insert and its checkpoint. */
  lemma FlushStops(d: Disk, done: seq<seq<Tick>>, rest: seq<seq<Tick>>, losses: Losses, budget: nat)
    requires NonEmpty(done) && NonEmpty(rest) && rest != []
    ensures NonEmpty(done + rest)
    ensures budget == 2 * |done| ==>
      FlushedUntil(d, done + rest, losses, budget) == Flushed(d, done, losses, |done|)
    ensures budget == 2 * |done| + 1 ==>
      FlushedUntil(d, done + rest, losses, budget)
      == Stored(Flushed(d, done, losses, |done|), rest[0], |done|, losses)
  {
    FlushedPrefix(d, done, rest, losses);
    assert (done + rest)[|done|] == rest[0];
  }

  lemma FlushGoesOn(d: Disk, done: seq<seq<Tick>>, batch: seq<Tick>, losses: Losses)
    requires NonEmpty(done) && batch != []
    ensures NonEmpty(done + [batch])
    ensures Flushed(d, done + [batch], losses, |done| + 1)
         == Stored(Flushed(d, done, losses, |done|), batch, |done|, losses)
            .(record := Marked(d.record, LastTime(batch)))
    ensures Collected(done + [batch], losses, |done| + 1)
         == Collected(done, losses, |done|) + Counted(batch, |done|, losses)
  {
    OnlyPrefixMatters(d.rows, done, [batch], losses, |done|);
    assert (done + [batch])[|done|] == batch;
  }

  lemma NextTick(feed: seq<Tick>, i: nat, batch: seq<Tick>)
    requires i < |feed|
    ensures batch + ValidOnly(feed[i..])
         == (if Valid(feed[i]) then batch + [feed[i]] else batch) + ValidOnly(feed[i + 1..])
  {
    assert feed[i..][0] == feed[i] && feed[i..][1..] == feed[i + 1..];
  }

  /** `done` has been flushed and counted; `pending` is what remains of the run's ticks. */
  ghost predicate Midway(d: Disk, all: seq<seq<Tick>>, done: seq<seq<Tick>>, pending: seq<Tick>,
                         now: Disk, losses: Losses, collected: int) {
    && NonEmpty(done)
    && all == done + Split(pending)
    && now == Flushed(d, done, losses, |done|)
    && collected == Collected(done, losses, |done|)
  }

  lemma NextBatch(batch: seq<Tick>, rest: seq<Tick>, done: seq<seq<Tick>>)
    requires |batch| == BATCH || (0 < |batch| <= BATCH && rest == [])
    ensures done + Split(batch + rest) == done + ([batch] + Split(rest)) == (done + [batch]) + Split(rest)
  {
    if |batch| == BATCH { SplitFull(batch, rest); } else { assert batch + rest == batch; }
  }

  lemma FlushMidway(d: Disk, all: seq<seq<Tick>>, done: seq<seq<Tick>>, batch: seq<Tick>, rest: seq<Tick>,
                    now: Disk, losses: Losses, collected: int, budget: nat)
    requires Midway(d, all, done, batch + rest, now, losses, collected)
    requires |batch| == BATCH || (0 < |batch| <= BATCH && rest == [])
    ensures |done| + 1 <= |all| && NonEmpty(all)
    ensures budget == 2 * |done| ==> now == FlushedUntil(d, all, losses, budget)
    ensures var stored := Stored(now, batch, |done|, losses);
      && (budget == 2 * |done| + 1 ==> stored == FlushedUntil(d, all, losses, budget))
      && Midway(d, all, done + [batch], rest, stored.(record := Marked(d.record, LastTime(batch))), losses,
                collected + Counted(batch, |done|, losses))
  {
    NextBatch(batch, rest, done);
    FlushStops(d, done, [batch] + Split(rest), losses, budget);
    FlushGoesOn(d, done, batch, losses);
  }

  /** How `backfill_ticks` comes to an end: it returns, its process stops, or a checkpoint raises. */
  datatype Outcome = Returns | Stopped | Raised

  /** One insert and its checkpoint, unless the process stops before either or the checkpoint raises. */
  method FlushBatch(store: TickStore, tracker: ProgressTracker, batch: seq<Tick>, k: nat, losses: Losses, budget: nat,
                    collected: int, ghost d: Disk, ghost all: seq<seq<Tick>>, ghost done: seq<seq<Tick>>,
                    ghost rest: seq<Tick>)
    returns (total: int, outcome: Outcome)
    requires Midway(d, all, done, batch + rest, Disk(store.rows, tracker.record), losses, collected)
    requires |batch| == BATCH || (0 < |batch| <= BATCH && rest == [])
    requires k == |done| && 2 * k <= Reached(d.record, tracker.driver, budget)
    modifies store, tracker
    ensures k + 1 <= |all| && NonEmpty(all)
    ensures var reach := Reached(d.record, tracker.driver, budget); var now := Disk(store.rows, tracker.record);
      && (outcome.Returns? <==> reach >= 2 * (k + 1))
      && (outcome.Raised? <==> CheckpointRaises(d.record, tracker.driver) && budget > 1)
      && (!outcome.Returns? ==> now == FlushedUntil(d, all, losses, reach))
      && (outcome.Returns? ==> Midway(d, all, done + [batch], rest, now, losses, total))
  {
    ghost var reach := Reached(d.record, tracker.driver, budget);
    FlushMidway(d, all, done, batch, rest, Disk(store.rows, tracker.record), losses, collected, reach);
    if budget == 2 * k { return collected, Stopped; }
    var inserted := store.InsertBatch(batch, k, losses);
    if budget == 2 * k + 1 { return collected, Stopped; }
    var raised := tracker.UpdateProgress(LastTime(batch));
    if raised { return collected, Raised; }
    total, outcome := collected + inserted, Returns;
  }

  lemma AllFlushed(d: Disk, all: seq<seq<Tick>>, done: seq<seq<Tick>>, now: Disk, losses: Losses, collected: int)
    requires Midway(d, all, done, [], now, losses, collected)
    ensures all == done && NonEmpty(all)
    ensures forall budget :: budget >= 2 * |all| ==> now == FlushedUntil(d, all, losses, budget)
  {
    assert done + Split([]) == done;
  }

  /** What `backfill_ticks` leaves when it stops after `budget` inserts and checkpoints. */
  ghost predicate Leaves(now: Disk, d: Disk, batches: seq<seq<Tick>>, losses: Losses, driver: Driver, budget: nat,
                         outcome: Outcome) {
    && NonEmpty(batches)
    && var reach := Reached(d.record, driver, budget);
    && now == FlushedUntil(d, batches, losses, reach)
    && (outcome.Returns? <==> reach >= 2 * |batches|)
    && (outcome.Raised? <==> CheckpointRaises(d.record, driver) && budget > 1 && batches != [])
  }

  /** `backfill_ticks`, in a process that stops after `budget` inserts and checkpoints. */
  method BackfillTicks(store: TickStore, tracker: ProgressTracker, feed: seq<Tick>, losses: Losses, budget: nat)
    returns (collected: int, outcome: Outcome)
    modifies store, tracker
    ensures Leaves(Disk(store.rows, tracker.record), Disk(old(store.rows), old(tracker.record)), Split(ValidOnly(feed)),
                   losses, tracker.driver, budget, outcome)
    ensures outcome.Returns? ==> collected == Collected(Split(ValidOnly(feed)), losses, |Split(ValidOnly(feed))|)
  {
    ghost var d := Disk(store.rows, tracker.record);
    ghost var reach := Reached(d.record, tracker.driver, budget);
    ghost var done: seq<seq<Tick>> := [];
    ghost var all := Split(ValidOnly(feed));
    var tickBatch: seq<Tick> := [];
    var flushes := 0;
    collected, outcome := 0, Returns;
    assert feed[0..] == feed && tickBatch + ValidOnly(feed) == ValidOnly(feed) && done + all == all;
    for i := 0 to |feed|
      invariant |tickBatch| < BATCH && flushes == |done| && 2 * flushes <= reach && outcome.Returns?
      invariant Midway(d, all, done, tickBatch + ValidOnly(feed[i..]), Disk(store.rows, tracker.record), losses,
                       collected)
    {
      ghost var later := ValidOnly(feed[i + 1..]);
      NextTick(feed, i, tickBatch);
      if !Valid(feed[i]) { continue; }
      tickBatch := tickBatch + [feed[i]];
      if |tickBatch| >= BATCH {
        collected, outcome := FlushBatch(store, tracker, tickBatch, flushes, losses, budget, collected, d, all, done,
                                         later);
        if !outcome.Returns? { return; }
        done := done + [tickBatch];
        tickBatch := [];
        assert tickBatch + later == later;
        flushes := flushes + 1;
      }
    }
    assert tickBatch + ValidOnly(feed[|feed|..]) == tickBatch + [];
    if tickBatch != [] {
      collected, outcome := FlushBatch(store, tracker, tickBatch, flushes, losses, budget, collected, d, all, done, []);
      if !outcome.Returns? { return; }
      done := done + [tickBatch];
    }
    AllFlushed(d, all, done, Disk(store.rows, tracker.record), losses, collected);
  }

  /** The status that the script sets at the end, if it gets that far. */
  function Verdict(ending: Ending, outcome: Outcome): Option<Status> {
    if outcome.Raised? || ending.Raises? then Some(Failed)
    else if ending.Finishes? then Some(Completed)
    else None
  }

  lemma LeavesExecuted(job: Job, d: Disk, run: Run, now: Disk, outcome: Outcome)
    requires !Refuses(job, d, run)
    requires var batches := Batches(job, d, run);
      Leaves(now, Begun(d, run), batches, run.losses, job.driver, Budget(run, batches), outcome)
    ensures var verdict := Verdict(run.ending, outcome);
      && now.record.Some?
      && Execute(job, d, run) == if verdict.None? then now else Conclude(now, verdict.value, job.driver)
  {
    var batches := Batches(job, d, run);
    assert now == Written(job, d, run);
    assert outcome.Raised? <==> Stops(job, run, batches);
  }

  /** The record to work on and the time to start from. */
  method Prepare(store: TickStore, tracker: ProgressTracker, job: Job, run: Run) returns (start: int, resumed: bool)
    modifies tracker
    ensures var d := Disk(store.rows, old(tracker.record));
      && Disk(store.rows, tracker.record) == Begun(d, run)
      && start == StartPoint(job, d, run)
      && (resumed <==> Resumable(d, run))
  {
    start, resumed := job.start, false;
    if run.resume && tracker.record.Some? {
      var point := tracker.ResumePoint();
      if point.Some? { start, resumed := point.value, true; }
    } else {
      tracker.record := Some(Record(None, Pending));
    }
  }

  /** The whole script, from the record that it finds to the status that it leaves. */
  method Backfill(store: TickStore, tracker: ProgressTracker, job: Job, run: Run)
    requires tracker.driver == job.driver
    modifies store, tracker
    ensures var d := Disk(old(store.rows), old(tracker.record));
      Disk(store.rows, tracker.record) == if job.start < job.end then Execute(job, d, run) else d
  {
    if job.start >= job.end { return; }
    ghost var d := Disk(store.rows, tracker.record);
    var start, resumed := Prepare(store, tracker, job, run);
    if start >= job.end || (resumed && job.driver.zoned != job.zoned) {
      tracker.Mark(Failed);
      return;
    }
    var feed := Passing(Feed(job.source, start, job.end), run.gate);
    var budget := Budget(run, Split(ValidOnly(feed)));
    var collected, outcome := BackfillTicks(store, tracker, feed, run.losses, budget);
    LeavesExecuted(job, d, run, Disk(store.rows, tracker.record), outcome);
    var verdict := Verdict(run.ending, outcome);
    if verdict.Some? { tracker.Mark(verdict.value); }
  }
}

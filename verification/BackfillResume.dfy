/** Checkpointed backfill of ticks, with crashes and resumes.

A run reads the broker's history from its start point, inserts valid ticks in batches and records a
checkpoint after each batch. What survives a crash is the tick table and the progress record.
*/
module BackfillResume {
  import opened Options

  const BATCH := 100
  const DAY := 86400

  /** An event of the connector, with what the script finds under its keys `timestamp`, `bid` and `ask`; times are
  whole seconds, as the broker reports them. */
  datatype Tick = Tick(time: int, bid: Option<real>, ask: Option<real>)

  /** Python's `all([...])` drops a missing price and a price of zero. */
  predicate Valid(t: Tick) { t.bid.Some? && t.bid.value != 0.0 && t.ask.Some? && t.ask.value != 0.0 }

  datatype Status = Pending | InProgress | Completed | Failed

  datatype Record = Record(checkpoint: Option<int>, status: Status)

  /** The table has no unique key, so its rows are a multiset. */
  datatype Disk = Disk(rows: multiset<Tick>, record: Option<Record>)

  // ---- the connector ----

  predicate Ordered(ticks: seq<Tick>) {
    forall i, j :: 0 <= i < j < |ticks| ==> ticks[i].time <= ticks[j].time
  }

  /** The broker's answer to a range request, both ends included. */
  function Range(source: seq<Tick>, from: int, to: int): seq<Tick> {
    if source == [] then []
    else (if from <= source[0].time <= to then [source[0]] else []) + Range(source[1..], from, to)
  }

  /** The connector asks day by day, each request starting where the last one ended. */
  function Feed(source: seq<Tick>, from: int, end: int): seq<Tick>
    decreases end - from
  {
    if from >= end then []
    else
      var to := if from + DAY < end then from + DAY else end;
      Range(source, from, to) + Feed(source, to, end)
  }

  /** The ticks that the connector's own validation lets through. */
  function Passing(ticks: seq<Tick>, gate: Tick -> bool): seq<Tick> {
    if ticks == [] then []
    else (if gate(ticks[0]) then [ticks[0]] else []) + Passing(ticks[1..], gate)
  }

  function ValidOnly(ticks: seq<Tick>): seq<Tick> {
    if ticks == [] then []
    else (if Valid(ticks[0]) then [ticks[0]] else []) + ValidOnly(ticks[1..])
  }

  // ---- one run ----

  predicate NonEmpty(batches: seq<seq<Tick>>) { forall k :: 0 <= k < |batches| ==> batches[k] != [] }

  /** The batches that a run inserts; the last may be short. */
  function Split(ticks: seq<Tick>): (batches: seq<seq<Tick>>)
    ensures NonEmpty(batches)
  {
    if ticks == [] then []
    else if |ticks| <= BATCH then [ticks]
    else [ticks[..BATCH]] + Split(ticks[BATCH..])
  }

  /** Batches whose insert returns -1 without raising, and rows of other batches, by batch and place, that fail
  singly or find no currency pair; neither is reported to the caller. */
  datatype Losses = Losses(errors: set<nat>, rows: set<(nat, nat)>)

  const NO_LOSS := Losses({}, {})

  /** Those of the first `n` rows of batch `k` that do not fail. */
  function Surviving(batch: seq<Tick>, k: nat, rows: set<(nat, nat)>, n: nat): multiset<Tick>
    requires n <= |batch|
  {
    if n == 0 then multiset{}
    else Surviving(batch, k, rows, n - 1) + if (k, n - 1) in rows then multiset{} else multiset{batch[n - 1]}
  }

  function Inserted(batch: seq<Tick>, k: nat, losses: Losses): multiset<Tick> {
    if k in losses.errors then multiset{} else Surviving(batch, k, losses.rows, |batch|)
  }

  /** The rows that inserting batch `k` adds. */
  function Added(batches: seq<seq<Tick>>, losses: Losses, k: nat): multiset<Tick>
    requires k < |batches|
  {
    Inserted(batches[k], k, losses)
  }

  function RowsAfter(rows: multiset<Tick>, batches: seq<seq<Tick>>, losses: Losses, n: nat): multiset<Tick>
    requires n <= |batches|
  {
    if n == 0 then rows else RowsAfter(rows, batches, losses, n - 1) + Added(batches, losses, n - 1)
  }

  function LastTime(batch: seq<Tick>): int
    requires batch != []
  {
    batch[|batch| - 1].time
  }

  /** A checkpoint; without a record there is nothing to update. */
  function Marked(record: Option<Record>, time: int): Option<Record> {
    if record.None? then None else Some(Record(Some(time), InProgress))
  }

  /** What the disk holds once the first `n` batches have been inserted and checkpointed; the checkpoint of
  an insert that failed is recorded as usual. */
  function Flushed(d: Disk, batches: seq<seq<Tick>>, losses: Losses, n: nat): Disk
    requires n <= |batches| && NonEmpty(batches)
  {
    if n == 0 then d
    else Disk(RowsAfter(d.rows, batches, losses, n), Marked(d.record, LastTime(batches[n - 1])))
  }

  /** What the disk holds if only `budget` inserts and checkpoints happen. */
  function FlushedUntil(d: Disk, batches: seq<seq<Tick>>, losses: Losses, budget: nat): Disk
    requires NonEmpty(batches)
  {
    if budget >= 2 * |batches| then Flushed(d, batches, losses, |batches|)
    else
      var n := budget / 2;
      var e := Flushed(d, batches, losses, n);
      if budget % 2 == 0 then e else e.(rows := e.rows + Added(batches, losses, n))
  }

  /** How a run ends: it finishes, or after some number of inserts and checkpoints the process dies or an
  exception is caught and recorded. */
  datatype Ending = Finishes | Dies(effects: nat) | Raises(effects: nat)

  /** Each run has its own validation of the connector's events, since that looks at the clock. */
  datatype Run = Run(resume: bool, gate: Tick -> bool, losses: Losses, ending: Ending)

  /** What the database's driver does with the progress record: whether the times read back from it carry a zone, and
  whether a statement that returns no rows can be carried out by a call that fetches them; if not, it raises, and
  the statement is rolled back. */
  datatype Driver = Driver(zoned: bool, updates: bool)

  /** The backfill requested on the command line, with the broker's history; `zoned` says whether the given times carry
  a zone, as a date without a time of day does. The times of ticks carry one. Times with and without a zone cannot
  be compared or subtracted. */
  datatype Job = Job(source: seq<Tick>, start: int, end: int, zoned: bool, driver: Driver)

  predicate WellPosed(job: Job) { Ordered(job.source) && job.start < job.end }

  predicate Resumable(d: Disk, run: Run) {
    && run.resume
    && d.record.Some?
    && d.record.value.checkpoint.Some?
    && (d.record.value.status == Failed || d.record.value.status == InProgress)
  }

  function StartPoint(job: Job, d: Disk, run: Run): int {
    if Resumable(d, run) then d.record.value.checkpoint.value else job.start
  }

  /** Without `--resume`, or without a record to resume, a new record is created. */
  function Begun(d: Disk, run: Run): Disk {
    if run.resume && d.record.Some? then d else d.(record := Some(Record(None, Pending)))
  }

  function WithStatus(d: Disk, status: Status): Disk
    requires d.record.Some?
  {
    d.(record := Some(d.record.value.(status := status)))
  }

  function Budget(run: Run, batches: seq<seq<Tick>>): nat {
    match run.ending
    case Finishes => 2 * |batches|
    case Dies(n) => n
    case Raises(n) => n
  }

  function Pulled(job: Job, run: Run, from: int): seq<Tick> {
    ValidOnly(Passing(Feed(job.source, from, job.end), run.gate))
  }

  /** The connector raises unless its start lies before its end, and also if just one of them carries a zone. */
  predicate Refuses(job: Job, d: Disk, run: Run) {
    StartPoint(job, d, run) >= job.end || (Resumable(d, run) && job.driver.zoned != job.zoned)
  }

  /** A checkpoint first subtracts the start in the record from the time of the last tick, then updates the record. */
  predicate Records(driver: Driver) { driver.zoned && driver.updates }

  predicate CheckpointRaises(record: Option<Record>, driver: Driver) { record.Some? && !Records(driver) }

  /** The inserts and checkpoints that happen if `n` were to: the first checkpoint may raise. */
  function Reached(record: Option<Record>, driver: Driver, n: nat): nat {
    if CheckpointRaises(record, driver) && n > 1 then 1 else n
  }

  /** The first checkpoint of this run raises. */
  predicate Stops(job: Job, run: Run, batches: seq<seq<Tick>>) {
    !Records(job.driver) && batches != [] && Budget(run, batches) > 1
  }

  /** What a run inserts. */
  function Batches(job: Job, d: Disk, run: Run): (batches: seq<seq<Tick>>)
    ensures NonEmpty(batches)
  {
    Split(Pulled(job, run, StartPoint(job, d, run)))
  }

  /** The disk that a run leaves, but for its status. */
  function Written(job: Job, d: Disk, run: Run): (f: Disk)
    ensures f.record.Some?
  {
    var begun := Begun(d, run);
    if Refuses(job, d, run) then begun
    else
      var batches := Batches(job, d, run);
      FlushedUntil(begun, batches, run.losses, Reached(begun.record, job.driver, Budget(run, batches)))
  }

  /** A status is recorded by an update too; if that raises, the script ends all the same. */
  function Conclude(d: Disk, status: Status, driver: Driver): Disk
    requires d.record.Some?
  {
    if driver.updates then WithStatus(d, status) else d
  }

  function Execute(job: Job, d: Disk, run: Run): (e: Disk)
    ensures e.record.Some?
  {
    var written := Written(job, d, run);
    if Refuses(job, d, run) || Stops(job, run, Batches(job, d, run)) then Conclude(written, Failed, job.driver)
    else
      match run.ending
      case Finishes => Conclude(written, Completed, job.driver)
      case Dies(_) => written
      case Raises(_) => Conclude(written, Failed, job.driver)
  }

  predicate Succeeds(job: Job, d: Disk, run: Run) {
    && run.ending.Finishes? && !Refuses(job, d, run)
    && job.driver.updates && (job.driver.zoned || Batches(job, d, run) == [])
  }

  function History(job: Job, d: Disk, runs: seq<Run>): Disk {
    if runs == [] then d else Execute(job, History(job, d, runs[..|runs| - 1]), runs[|runs| - 1])
  }

  // ---- inserts ----

  predicate AllSurvive(k: nat, rows: set<(nat, nat)>, n: nat) { forall i :: 0 <= i < n ==> (k, i) !in rows }

  lemma {:induction false} SurvivingAll(batch: seq<Tick>, k: nat, rows: set<(nat, nat)>, n: nat)
    requires n <= |batch| && AllSurvive(k, rows, n)
    ensures Surviving(batch, k, rows, n) == multiset(batch[..n])
  {
    if n > 0 {
      SurvivingAll(batch, k, rows, n - 1);
      assert batch[..n] == batch[..n - 1] + [batch[n - 1]];
    }
  }

  lemma {:induction false} SurvivingSome(batch: seq<Tick>, k: nat, rows: set<(nat, nat)>, n: nat)
    requires n <= |batch|
    ensures Surviving(batch, k, rows, n) <= multiset(batch[..n])
  {
    if n > 0 {
      SurvivingSome(batch, k, rows, n - 1);
      assert batch[..n] == batch[..n - 1] + [batch[n - 1]];
    }
  }

  lemma {:induction false} SurvivingCount(batch: seq<Tick>, k: nat, rows: set<(nat, nat)>, n: nat)
    requires n <= |batch|
    ensures |Surviving(batch, k, rows, n)| <= n
    ensures |Surviving(batch, k, rows, n)| == n <==> AllSurvive(k, rows, n)
  {
    if n > 0 {
      SurvivingCount(batch, k, rows, n - 1);
      assert AllSurvive(k, rows, n) <==> AllSurvive(k, rows, n - 1) && (k, n - 1) !in rows;
    }
  }

  /** Every row of batch `k` is stored. */
  predicate Unharmed(batch: seq<Tick>, k: nat, losses: Losses) {
    k !in losses.errors && AllSurvive(k, losses.rows, |batch|)
  }

  lemma InsertedCount(batch: seq<Tick>, k: nat, losses: Losses)
    ensures |Inserted(batch, k, losses)| <= |batch| && Inserted(batch, k, losses) <= multiset(batch)
    ensures batch != [] ==> (|Inserted(batch, k, losses)| == |batch| <==> Unharmed(batch, k, losses))
    ensures Unharmed(batch, k, losses) ==> Inserted(batch, k, losses) == multiset(batch)
  {
    assert batch[..|batch|] == batch;
    SurvivingCount(batch, k, losses.rows, |batch|);
    SurvivingSome(batch, k, losses.rows, |batch|);
    if Unharmed(batch, k, losses) { SurvivingAll(batch, k, losses.rows, |batch|); }
  }

  lemma NothingLost(batch: seq<Tick>, k: nat)
    ensures Inserted(batch, k, NO_LOSS) == multiset(batch)
  {
    InsertedCount(batch, k, NO_LOSS);
  }

  // ---- batches ----

  /** The batches hold what was pulled, and a tick earlier than the end of batch `k` is in one up to `k`. */
  ghost predicate Batched(batches: seq<seq<Tick>>, ticks: seq<Tick>) {
    && NonEmpty(batches)
    && (forall j, t :: 0 <= j < |batches| && t in batches[j] ==> t in ticks)
    && (forall t :: t in ticks ==> InSome(batches, |batches|, t))
    && (forall k, t :: 0 <= k < |batches| && t in ticks && t.time < LastTime(batches[k]) ==> InSome(batches, k + 1, t))
  }

  /** `t` is in one of the first `n` batches. */
  ghost predicate InSome(batches: seq<seq<Tick>>, n: nat, t: Tick) {
    exists j :: 0 <= j < n && j < |batches| && t in batches[j]
  }

  lemma {:induction false} SplitIsBatched(ticks: seq<Tick>)
    requires Ordered(ticks)
    ensures Batched(Split(ticks), ticks)
  {
    if |ticks| > BATCH {
      SplitIsBatched(ticks[BATCH..]);
      PrependBatch(ticks[..BATCH], Split(ticks[BATCH..]), ticks[BATCH..]);
      assert ticks == ticks[..BATCH] + ticks[BATCH..];
    } else if ticks != [] {
      assert Split(ticks) == [ticks] && [ticks][0] == ticks;
    }
  }

  lemma PrependBatch(head: seq<Tick>, tail: seq<seq<Tick>>, rest: seq<Tick>)
    requires head != [] && Ordered(head + rest) && Batched(tail, rest)
    ensures Batched([head] + tail, head + rest)
  {
    var batches := [head] + tail;
    assert forall j :: 0 < j < |batches| ==> batches[j] == tail[j - 1];
    forall t | t in head + rest ensures InSome(batches, |batches|, t) {
      HeadOrTail(head, tail, |tail|, t);
    }
    forall k, t | 0 <= k < |batches| && t in head + rest && t.time < LastTime(batches[k])
      ensures InSome(batches, k + 1, t)
    {
      if k == 0 { BeforeLastOfHead(head, rest, t); }
      HeadOrTail(head, tail, k, t);
    }
  }

  lemma BeforeLastOfHead(head: seq<Tick>, rest: seq<Tick>, t: Tick)
    requires head != [] && Ordered(head + rest) && t in head + rest && t.time < LastTime(head)
    ensures t in head
  {
    var all := head + rest;
    var j :| 0 <= j < |all| && all[j] == t;
    assert all[|head| - 1] == head[|head| - 1];
  }

  lemma HeadOrTail(head: seq<Tick>, tail: seq<seq<Tick>>, n: nat, t: Tick)
    requires t in head || InSome(tail, n, t)
    ensures InSome([head] + tail, n + 1, t)
  {
    var batches := [head] + tail;
    if t in head {
      assert t in batches[0];
    } else {
      var j :| 0 <= j < n && j < |tail| && t in tail[j];
      assert t in batches[j + 1];
    }
  }

  // ---- what the connector yields ----

  lemma {:induction false} RangeContents(source: seq<Tick>, from: int, to: int, t: Tick)
    ensures t in Range(source, from, to) <==> t in source && from <= t.time <= to
  {
    if source != [] { RangeContents(source[1..], from, to, t); }
  }

  lemma {:induction false} RangeOrdered(source: seq<Tick>, from: int, to: int)
    requires Ordered(source)
    ensures Ordered(Range(source, from, to))
  {
    if source != [] {
      RangeOrdered(source[1..], from, to);
      forall t | t in Range(source[1..], from, to) ensures source[0].time <= t.time {
        RangeContents(source[1..], from, to, t);
      }
    }
  }

  lemma {:induction false} FeedContents(source: seq<Tick>, from: int, end: int, t: Tick)
    requires from < end
    ensures t in Feed(source, from, end) <==> t in source && from <= t.time <= end
    decreases end - from
  {
    var to := if from + DAY < end then from + DAY else end;
    RangeContents(source, from, to, t);
    if to < end { FeedContents(source, to, end, t); }
  }

  lemma {:induction false} FeedOrdered(source: seq<Tick>, from: int, end: int)
    requires Ordered(source)
    ensures Ordered(Feed(source, from, end))
    decreases end - from
  {
    if from < end {
      var to := if from + DAY < end then from + DAY else end;
      RangeOrdered(source, from, to);
      FeedOrdered(source, to, end);
      if to < end {
        forall a, b | a in Range(source, from, to) && b in Feed(source, to, end) ensures a.time <= b.time {
          RangeContents(source, from, to, a);
          FeedContents(source, to, end, b);
        }
      }
    }
  }

  lemma {:induction false} ValidOnlyContents(ticks: seq<Tick>, t: Tick)
    ensures t in ValidOnly(ticks) <==> t in ticks && Valid(t)
  {
    if ticks != [] { ValidOnlyContents(ticks[1..], t); }
  }

  lemma {:induction false} ValidOnlyOrdered(ticks: seq<Tick>)
    requires Ordered(ticks)
    ensures Ordered(ValidOnly(ticks))
  {
    if ticks != [] {
      ValidOnlyOrdered(ticks[1..]);
      forall t | t in ValidOnly(ticks[1..]) ensures ticks[0].time <= t.time {
        ValidOnlyContents(ticks[1..], t);
      }
    }
  }

  lemma {:induction false} PassingContents(ticks: seq<Tick>, gate: Tick -> bool, t: Tick)
    ensures t in Passing(ticks, gate) <==> t in ticks && gate(t)
  {
    if ticks != [] { PassingContents(ticks[1..], gate, t); }
  }

  lemma {:induction false} PassingOrdered(ticks: seq<Tick>, gate: Tick -> bool)
    requires Ordered(ticks)
    ensures Ordered(Passing(ticks, gate))
  {
    if ticks != [] {
      PassingOrdered(ticks[1..], gate);
      forall t | t in Passing(ticks[1..], gate) ensures ticks[0].time <= t.time {
        PassingContents(ticks[1..], gate, t);
      }
    }
  }

  /** A valid tick of the requested range. */
  predicate Wanted(job: Job, t: Tick) { t in job.source && Valid(t) && job.start <= t.time <= job.end }

  lemma PulledContents(job: Job, run: Run, from: int)
    requires Ordered(job.source) && from < job.end
    ensures Ordered(Pulled(job, run, from))
    ensures forall t :: t in Pulled(job, run, from) <==>
                        t in job.source && Valid(t) && run.gate(t) && from <= t.time <= job.end
  {
    var feed := Feed(job.source, from, job.end);
    FeedOrdered(job.source, from, job.end);
    PassingOrdered(feed, run.gate);
    ValidOnlyOrdered(Passing(feed, run.gate));
    forall t ensures t in Pulled(job, run, from) <==>
                     t in job.source && Valid(t) && run.gate(t) && from <= t.time <= job.end {
      FeedContents(job.source, from, job.end, t);
      PassingContents(feed, run.gate, t);
      ValidOnlyContents(Passing(feed, run.gate), t);
    }
  }
}

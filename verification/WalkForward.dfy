/** Walk-forward windows: which rows each window trains on and tests on, and what the windows cover together. */
module WalkForward {
  import opened Sorting

  type Time = int // nanoseconds, as pandas keeps them

  const DAY: int := 86_400_000_000_000

  datatype Row = Row(timestamp: Time, id: nat)

  const TIMESTAMP := (row: Row) => row.timestamp

  /** The sizes as durations, with the first and the last timestamp. */
  datatype Plan = Plan(first: Time, last: Time, train: int, test: int, step: int, expanding: bool)

  predicate Proper(p: Plan) { p.train > 0 && p.test > 0 && p.step > 0 }

  function TestStart(p: Plan, k: nat): Time {
    if k == 0 then p.first + p.train else TestStart(p, k - 1) + p.step
  }

  lemma {:induction false} TestStartClosedForm(p: Plan, k: nat)
    ensures TestStart(p, k) == p.first + p.train + k * p.step
  {
    if k > 0 {
      TestStartClosedForm(p, k - 1);
      assert k * p.step == (k - 1) * p.step + p.step;
    }
  }

  function TestEnd(p: Plan, k: nat): Time { TestStart(p, k) + p.test }

  function TrainStart(p: Plan, k: nat): Time { if p.expanding then p.first else TestStart(p, k) - p.train }

  /** The closed form of the number of candidate windows. */
  function Count(p: Plan): nat
    requires Proper(p)
  {
    var slack := p.last - p.first - p.train - p.test;
    if slack < 0 then 0 else slack / p.step + 1
  }

  function Within(rows: seq<Row>, lo: Time, hi: Time): seq<Row> {
    if rows == [] then []
    else
      var row := rows[|rows| - 1];
      Within(rows[..|rows| - 1], lo, hi) + if lo <= row.timestamp < hi then [row] else []
  }

  lemma {:induction false} InWithin(rows: seq<Row>, lo: Time, hi: Time)
    ensures forall row :: row in Within(rows, lo, hi) <==> row in rows && lo <= row.timestamp < hi
  {
    if rows != [] {
      InWithin(rows[..|rows| - 1], lo, hi);
      assert rows == rows[..|rows| - 1] + [rows[|rows| - 1]];
    }
  }

  function Train(p: Plan, rows: seq<Row>, k: nat): seq<Row> { Within(rows, TrainStart(p, k), TestStart(p, k)) }

  function Test(p: Plan, rows: seq<Row>, k: nat): seq<Row> { Within(rows, TestStart(p, k), TestEnd(p, k)) }

  datatype Window = Window(index: nat, trainStart: Time, testStart: Time, testEnd: Time, train: seq<Row>,
                           test: seq<Row>)

  /** The rows cut out for one window. */
  function Cut(rows: seq<Row>, index: nat, trainStart: Time, testStart: Time, testEnd: Time): Window {
    Window(index, trainStart, testStart, testEnd, Within(rows, trainStart, testStart), Within(rows, testStart, testEnd))
  }

  function WindowAt(p: Plan, rows: seq<Row>, k: nat): Window {
    Cut(rows, k, TrainStart(p, k), TestStart(p, k), TestEnd(p, k))
  }

  predicate Complete(w: Window) { w.train != [] && w.test != [] }

  predicate Usable(p: Plan, rows: seq<Row>, k: nat) { Complete(WindowAt(p, rows, k)) }

  function Recorded(p: Plan, rows: seq<Row>, n: nat): seq<Window> {
    if n == 0 then []
    else Recorded(p, rows, n - 1) + if Usable(p, rows, n - 1) then [WindowAt(p, rows, n - 1)] else []
  }

  ghost predicate IsRecorded(p: Plan, rows: seq<Row>, n: nat, w: Window) {
    w.index < n && Usable(p, rows, w.index) && w == WindowAt(p, rows, w.index)
  }

  ghost predicate Increasing(list: seq<Window>) {
    forall i, j :: 0 <= i < j < |list| ==> list[i].index < list[j].index
  }

  ghost predicate Records(p: Plan, rows: seq<Row>, n: nat, list: seq<Window>) {
    Increasing(list) && forall w :: w in list <==> IsRecorded(p, rows, n, w)
  }

  /** The recorded windows are those with both train and test rows, in increasing index. */
  lemma {:induction false} RecordedExactly(p: Plan, rows: seq<Row>, n: nat)
    ensures Records(p, rows, n, Recorded(p, rows, n))
  {
    if n > 0 {
      var k := n - 1;
      RecordedExactly(p, rows, k);
      OneMore(p, rows, k, Recorded(p, rows, k));
    }
  }

  lemma OneMore(p: Plan, rows: seq<Row>, k: nat, before: seq<Window>)
    requires Records(p, rows, k, before)
    ensures Records(p, rows, k + 1, before + if Usable(p, rows, k) then [WindowAt(p, rows, k)] else [])
  {
    assert forall i :: 0 <= i < |before| ==> before[i] in before && IsRecorded(p, rows, k, before[i]);
  }

  // ---- the count ----

  lemma QuotientBound(x: int, d: int, k: int)
    requires d > 0
    ensures k * d <= x <==> k <= x / d
  {
    var q, r := x / d, x % d;
    assert x == q * d + r;
    if k <= q { assert k * d <= q * d; } else { assert k * d >= (q + 1) * d; }
  }

  /** The loop condition holds for exactly the first `Count` windows. */
  lemma CountIsExact(p: Plan, k: nat)
    requires Proper(p)
    ensures k < Count(p) <==> TestEnd(p, k) <= p.last
  {
    var slack := p.last - p.first - p.train - p.test;
    TestStartClosedForm(p, k);
    assert k * p.step >= 0;
    if slack >= 0 { QuotientBound(slack, p.step, k); }
  }

  function MakePlan(rows: seq<Row>, train: int, test: int, step: int, expanding: bool): Plan
    requires rows != []
  {
    Plan(rows[0].timestamp, rows[|rows| - 1].timestamp, train * DAY, test * DAY, step * DAY, expanding)
  }

  function WholeDays(duration: int): int { duration / DAY }

  /** The length check, made on whole days, lets through exactly the data with at least one window. */
  lemma LengthCheckIffWindow(p: Plan, train: int, test: int)
    requires Proper(p) && p.train == train * DAY && p.test == test * DAY
    ensures WholeDays(p.last - p.first) >= train + test <==> Count(p) >= 1
  {
    QuotientBound(p.last - p.first, DAY, train + test);
    assert (train + test) * DAY == p.train + p.test;
  }

  // ---- the loop ----

  datatype Result =
    | Ok(windows: seq<Window>)
    | MissingTimestamp
    | UnknownWindowType
    | NonPositiveSize
    | InsufficientData
    | TemporalLeakage(index: int)
    | NoWindows

  predicate KnownType(windowType: string) { windowType == "expanding" || windowType == "rolling" }

  predicate Accepted(hasTimestamp: bool, train: int, test: int, step: int, windowType: string) {
    hasTimestamp && KnownType(windowType) && train > 0 && test > 0 && step > 0
  }

  /** Every usable window in order; the leakage error is not among the outcomes. */
  function Expected(p: Plan, rows: seq<Row>): Result
    requires Proper(p)
  {
    var windows := Recorded(p, rows, Count(p));
    if Count(p) == 0 then InsufficientData else if windows == [] then NoWindows else Ok(windows)
  }

  // ---- where the windows lie, in terms of the sizes asked for ----

  function Days(n: int): int { n * 24 * 60 * 60 * 1_000_000_000 }

  function Spread(rows: seq<Row>): int
    requires rows != []
  {
    rows[|rows| - 1].timestamp - rows[0].timestamp
  }

  /** Window `k` of these sizes, where the earliest timestamp is the first of `rows`. */
  ghost predicate IsWindow(w: Window, rows: seq<Row>, k: nat, train: int, test: int, step: int, expanding: bool)
    requires rows != []
  {
    var first := rows[0].timestamp;
    && w.index == k
    && w.testStart == first + Days(train + k * step)
    && w.testEnd == w.testStart + Days(test)
    && w.trainStart == (if expanding then first else w.testStart - Days(train))
    && (forall row :: row in w.train <==> row in rows && w.trainStart <= row.timestamp < w.testStart)
    && (forall row :: row in w.test <==> row in rows && w.testStart <= row.timestamp < w.testEnd)
  }

  /** There is a row with a timestamp from `lo` to before `hi`. */
  ghost predicate Somewhere(rows: seq<Row>, lo: Time, hi: Time) {
    exists row :: row in rows && lo <= row.timestamp < hi
  }

  /** Window `k` ends with the data, and there are rows to train on and rows to test. */
  ghost predicate HasWindow(rows: seq<Row>, k: nat, train: int, test: int, step: int, expanding: bool)
    requires rows != []
  {
    var testStart := rows[0].timestamp + Days(train + k * step);
    && testStart + Days(test) <= rows[|rows| - 1].timestamp
    && Somewhere(rows, if expanding then rows[0].timestamp else testStart - Days(train), testStart)
    && Somewhere(rows, testStart, testStart + Days(test))
  }

  /** Exactly the windows that end with the data and have rows, each where the sizes put it. */
  ghost predicate Placed(windows: seq<Window>, rows: seq<Row>, train: int, test: int, step: int, expanding: bool)
    requires rows != []
  {
    && (forall w :: w in windows ==> IsWindow(w, rows, w.index, train, test, step, expanding))
    && (forall k: nat :: HasWindow(rows, k, train, test, step, expanding) <==> exists w :: w in windows && w.index == k)
  }

  lemma StartIsPlaced(rows: seq<Row>, train: int, test: int, step: int, expanding: bool, k: nat)
    requires rows != []
    ensures TestStart(MakePlan(rows, train, test, step, expanding), k) == rows[0].timestamp + Days(train + k * step)
  {
    TestStartClosedForm(MakePlan(rows, train, test, step, expanding), k);
    DistributeDays(train, k, step);
  }

  lemma DistributeDays(train: int, k: nat, step: int)
    ensures train * DAY + k * (step * DAY) == Days(train + k * step)
  {
    assert k * (step * DAY) == (k * step) * DAY;
  }

  lemma WindowIsPlaced(rows: seq<Row>, train: int, test: int, step: int, expanding: bool, k: nat)
    requires rows != []
    ensures var p := MakePlan(rows, train, test, step, expanding);
      && IsWindow(WindowAt(p, rows, k), rows, k, train, test, step, expanding)
      && (Proper(p) ==> (k < Count(p) && Usable(p, rows, k) <==> HasWindow(rows, k, train, test, step, expanding)))
  {
    var p := MakePlan(rows, train, test, step, expanding);
    var w := WindowAt(p, rows, k);
    StartIsPlaced(rows, train, test, step, expanding, k);
    InWithin(rows, w.trainStart, w.testStart);
    InWithin(rows, w.testStart, w.testEnd);
    SomewhereIff(rows, w.trainStart, w.testStart);
    SomewhereIff(rows, w.testStart, w.testEnd);
    if Proper(p) { CountIsExact(p, k); }
  }

  lemma SomewhereIff(rows: seq<Row>, lo: Time, hi: Time)
    ensures Within(rows, lo, hi) != [] <==> Somewhere(rows, lo, hi)
  {
    InWithin(rows, lo, hi);
    if Within(rows, lo, hi) != [] { assert Within(rows, lo, hi)[0] in Within(rows, lo, hi); }
  }

  lemma WindowsArePlaced(rows: seq<Row>, train: int, test: int, step: int, expanding: bool)
    requires rows != [] && train > 0 && test > 0 && step > 0
    ensures var p := MakePlan(rows, train, test, step, expanding);
      && Placed(Recorded(p, rows, Count(p)), rows, train, test, step, expanding)
      && (WholeDays(p.last - p.first) < train + test <==> Spread(rows) < Days(train + test))
  {
    var p := MakePlan(rows, train, test, step, expanding);
    var windows := Recorded(p, rows, Count(p));
    RecordedExactly(p, rows, Count(p));
    QuotientBound(Spread(rows), DAY, train + test);
    forall w | w in windows ensures IsWindow(w, rows, w.index, train, test, step, expanding) {
      WindowIsPlaced(rows, train, test, step, expanding, w.index);
    }
    forall k: nat
      ensures HasWindow(rows, k, train, test, step, expanding) <==> exists w :: w in windows && w.index == k
    {
      WindowIsPlaced(rows, train, test, step, expanding, k);
      assert IsRecorded(p, rows, Count(p), WindowAt(p, rows, k)) <==> k < Count(p) && Usable(p, rows, k);
    }
  }

  /** `rows` is the table after `sort_values`; an empty table has no first and last timestamp, and the
  comparisons with the missing value are all false. */
  method WalkForwardValidation(hasTimestamp: bool, rows: seq<Row>, train: int, test: int, step: int, windowType: string)
    returns (result: Result)
    requires Sorted(rows, TIMESTAMP)
    ensures result.MissingTimestamp? <==> !hasTimestamp
    ensures result.UnknownWindowType? <==> hasTimestamp && !KnownType(windowType)
    ensures result.NonPositiveSize? <==> hasTimestamp && KnownType(windowType) && !(train > 0 && test > 0 && step > 0)
    ensures Accepted(hasTimestamp, train, test, step, windowType) && rows == [] ==> result == NoWindows
    ensures Accepted(hasTimestamp, train, test, step, windowType) && rows != [] ==>
      && result == Expected(MakePlan(rows, train, test, step, windowType == "expanding"), rows)
      && (result.InsufficientData? <==> Spread(rows) < Days(train + test))
      && (result.Ok? ==> Placed(result.windows, rows, train, test, step, windowType == "expanding"))
  {
    if !hasTimestamp { return MissingTimestamp; }
    if windowType != "expanding" && windowType != "rolling" { return UnknownWindowType; }
    if train <= 0 || test <= 0 || step <= 0 { return NonPositiveSize; }
    if rows == [] { return NoWindows; }

    var p := MakePlan(rows, train, test, step, windowType == "expanding");
    LengthCheckIffWindow(p, train, test);
    WindowsArePlaced(rows, train, test, step, windowType == "expanding");
    if WholeDays(p.last - p.first) < train + test { return InsufficientData; }
    result := GenerateWindows(p, rows);
  }

  /** Where the loop stands before window `index`. */
  ghost predicate Reached(p: Plan, rows: seq<Row>, index: nat, testStart: Time, windows: seq<Window>) {
    Proper(p) && index <= Count(p) && testStart == TestStart(p, index) && windows == Recorded(p, rows, index)
  }

  lemma OneWindow(p: Plan, rows: seq<Row>, index: nat, testStart: Time, windows: seq<Window>)
    requires Reached(p, rows, index, testStart, windows) && testStart + p.test <= p.last
    ensures var trainStart := if p.expanding then p.first else testStart - p.train;
            var window := Cut(rows, index, trainStart, testStart, testStart + p.test);
            !Leaks(window)
            && Reached(p, rows, index + 1, testStart + p.step, windows + if Complete(window) then [window] else [])
  {
    CountIsExact(p, index);
    TrainPrecedesTest(p, rows, index);
  }

  lemma LoopEnds(p: Plan, rows: seq<Row>, index: nat, testStart: Time, windows: seq<Window>)
    requires Reached(p, rows, index, testStart, windows) && !(testStart + p.test <= p.last)
    ensures windows == Recorded(p, rows, Count(p))
  {
    CountIsExact(p, index);
  }

  method GenerateWindows(p: Plan, rows: seq<Row>) returns (result: Result)
    requires Proper(p) && Count(p) >= 1
    ensures result == Expected(p, rows)
  {
    var windows := [];
    var currentTestStart := p.first + p.train;
    var index := 0;
    while currentTestStart + p.test <= p.last
      invariant Reached(p, rows, index, currentTestStart, windows)
      decreases p.last - currentTestStart
    {
      var trainStart := if p.expanding then p.first else currentTestStart - p.train;
      var window := Cut(rows, index, trainStart, currentTestStart, currentTestStart + p.test);
      OneWindow(p, rows, index, currentTestStart, windows);
      if Leaks(window) { return TemporalLeakage(index); }
      if Complete(window) { windows := windows + [window]; }
      currentTestStart := currentTestStart + p.step;
      index := index + 1;
    }
    LoopEnds(p, rows, index, currentTestStart, windows);
    return if windows == [] then NoWindows else Ok(windows);
  }

  function Latest(rows: seq<Row>): Time
    requires rows != []
  {
    var row := rows[|rows| - 1];
    if |rows| == 1 then row.timestamp
    else
      var before := Latest(rows[..|rows| - 1]);
      if before < row.timestamp then row.timestamp else before
  }

  function Earliest(rows: seq<Row>): Time
    requires rows != []
  {
    var row := rows[|rows| - 1];
    if |rows| == 1 then row.timestamp
    else
      var before := Earliest(rows[..|rows| - 1]);
      if row.timestamp < before then row.timestamp else before
  }

  lemma {:induction false} LatestBefore(rows: seq<Row>, bound: Time)
    requires rows != [] && forall i :: 0 <= i < |rows| ==> rows[i].timestamp < bound
    ensures Latest(rows) < bound
  {
    if |rows| > 1 { LatestBefore(rows[..|rows| - 1], bound); }
  }

  lemma {:induction false} EarliestAfter(rows: seq<Row>, bound: Time)
    requires rows != [] && forall i :: 0 <= i < |rows| ==> bound <= rows[i].timestamp
    ensures bound <= Earliest(rows)
  {
    if |rows| > 1 { EarliestAfter(rows[..|rows| - 1], bound); }
  }

  // ---- no leakage ----

  predicate Leaks(w: Window) { Complete(w) && Latest(w.train) >= Earliest(w.test) }

  /** Every train row precedes every test row, so the guard against leakage cannot fire. */
  lemma TrainPrecedesTest(p: Plan, rows: seq<Row>, k: nat)
    ensures forall a, b :: a in Train(p, rows, k) && b in Test(p, rows, k) ==> a.timestamp < b.timestamp
    ensures !Leaks(WindowAt(p, rows, k))
  {
    var w := WindowAt(p, rows, k);
    InWithin(rows, TrainStart(p, k), TestStart(p, k));
    InWithin(rows, TestStart(p, k), TestEnd(p, k));
    assert forall i :: 0 <= i < |w.train| ==> w.train[i] in w.train;
    assert forall i :: 0 <= i < |w.test| ==> w.test[i] in w.test;
    if Complete(w) {
      LatestBefore(w.train, TestStart(p, k));
      EarliestAfter(w.test, TestStart(p, k));
    }
  }

  lemma {:induction false} StepsGrow(p: Plan, j: nat, k: nat)
    requires Proper(p) && j <= k
    ensures TestStart(p, j) <= TestStart(p, k)
    ensures j < k ==> TestStart(p, j) + p.step <= TestStart(p, k)
    decreases k
  {
    if j < k { StepsGrow(p, j, k - 1); }
  }

  lemma {:induction false} TypeKeepsStarts(p: Plan, expanding: bool, k: nat)
    ensures TestStart(p.(expanding := expanding), k) == TestStart(p, k)
  {
    if k > 0 { TypeKeepsStarts(p, expanding, k - 1); }
  }

  /** Expanding train sets are nested and contain the rolling ones, and no rolling window starts before the
  data does. */
  lemma TrainSetsNest(p: Plan, rows: seq<Row>, j: nat, k: nat)
    requires Proper(p) && p.expanding && j <= k
    ensures forall row :: row in Train(p, rows, j) ==> row in Train(p, rows, k)
    ensures forall row :: row in Train(p.(expanding := false), rows, k) ==> row in Train(p, rows, k)
    ensures p.first <= TrainStart(p.(expanding := false), k)
  {
    StepsGrow(p, 0, k);
    StepsGrow(p, j, k);
    TypeKeepsStarts(p, false, k);
    InWithin(rows, p.first, TestStart(p, j));
    InWithin(rows, p.first, TestStart(p, k));
    InWithin(rows, TestStart(p, k) - p.train, TestStart(p, k));
  }

  // ---- coverage ----

  predicate InTest(p: Plan, k: nat, t: Time) { TestStart(p, k) <= t < TestEnd(p, k) }

  /** In how many of the first `n` windows the moment `t` is tested. */
  function TimesTested(p: Plan, t: Time, n: nat): nat {
    if n == 0 then 0 else TimesTested(p, t, n - 1) + if InTest(p, n - 1, t) then 1 else 0
  }

  ghost predicate Tested(p: Plan, t: Time, n: nat) { exists k: nat :: k < n && InTest(p, k, t) }

  lemma {:induction false} TestedIff(p: Plan, t: Time, n: nat)
    ensures TimesTested(p, t, n) > 0 <==> Tested(p, t, n)
  {
    if n > 0 { TestedIff(p, t, n - 1); }
  }

  lemma {:induction false} TestedAtMostOnce(p: Plan, t: Time, n: nat, only: nat)
    requires forall k: nat :: k < n && InTest(p, k, t) ==> k == only
    ensures TimesTested(p, t, n) <= 1
  {
    if n > 0 {
      TestedAtMostOnce(p, t, n - 1, only);
      TestedIff(p, t, n - 1);
    }
  }

  /** The last window to start by `t`, if the loop ran forever. */
  function LastStarted(p: Plan, t: Time): (k: nat)
    requires Proper(p) && TestStart(p, 0) <= t
    ensures TestStart(p, k) <= t < TestStart(p, k + 1)
    ensures t - TestStart(p, k) == (t - TestStart(p, 0)) % p.step
  {
    var u := t - TestStart(p, 0);
    assert u == u / p.step * p.step + u % p.step;
    assert u / p.step >= 0;
    TestStartClosedForm(p, u / p.step);
    u / p.step
  }

  lemma SameTester(p: Plan, t: Time, i: nat, j: nat)
    requires Proper(p) && p.step >= p.test && InTest(p, i, t) && TestStart(p, j) <= t < TestStart(p, j + 1)
    ensures i == j
  {
    if i < j { StepsGrow(p, i, j); } else if j < i { StepsGrow(p, j + 1, i); }
  }

  lemma CoveredWithoutGaps(p: Plan, t: Time, n: nat)
    requires Proper(p) && n >= 1 && p.step <= p.test && TestStart(p, 0) <= t < TestEnd(p, n - 1)
    ensures Tested(p, t, n)
  {
    var k := LastStarted(p, t);
    if k < n {
      assert InTest(p, k, t);
    } else {
      StepsGrow(p, n - 1, k);
      assert InTest(p, n - 1, t);
    }
  }

  lemma CoveredOffTheGaps(p: Plan, t: Time, n: nat)
    requires Proper(p) && n >= 1 && p.step >= p.test && TestStart(p, 0) <= t < TestEnd(p, n - 1)
    ensures TimesTested(p, t, n) <= 1
    ensures Tested(p, t, n) <==> (t - TestStart(p, 0)) % p.step < p.test
  {
    var k := LastStarted(p, t);
    forall i: nat | i < n && InTest(p, i, t) ensures i == k { SameTester(p, t, i, k); }
    TestedAtMostOnce(p, t, n, k);
    if t - TestStart(p, k) < p.test {
      if k >= n { StepsGrow(p, n - 1, k); }
      assert InTest(p, k, t);
    }
  }

  /** From the first test start to the last test end, a moment is tested at least once when the step is no
  longer than the test window, and at most once when it is no shorter; with gaps between the windows, exactly
  when its place in the stride falls inside the test window. */
  lemma TestCoverage(p: Plan, t: Time)
    requires Proper(p) && Count(p) >= 1
    requires TestStart(p, 0) <= t < TestEnd(p, Count(p) - 1)
    ensures p.step <= p.test ==> TimesTested(p, t, Count(p)) >= 1
    ensures p.step >= p.test ==> TimesTested(p, t, Count(p)) <= 1
    ensures p.step == p.test ==> TimesTested(p, t, Count(p)) == 1
    ensures p.step > p.test ==> (TimesTested(p, t, Count(p)) == 1 <==> (t - TestStart(p, 0)) % p.step < p.test)
  {
    TestedIff(p, t, Count(p));
    if p.step <= p.test { CoveredWithoutGaps(p, t, Count(p)); }
    if p.step >= p.test { CoveredOffTheGaps(p, t, Count(p)); }
  }

  /** Rows before the first test start, at the last timestamp or after the last test end are never tested;
  what is left over at the end is shorter than a step. */
  lemma UntestedEnds(p: Plan, t: Time)
    requires Proper(p) && Count(p) >= 1
    ensures TestEnd(p, Count(p) - 1) <= p.last < TestEnd(p, Count(p) - 1) + p.step
    ensures t < TestStart(p, 0) || t >= TestEnd(p, Count(p) - 1) ==> TimesTested(p, t, Count(p)) == 0
  {
    CountIsExact(p, Count(p) - 1);
    CountIsExact(p, Count(p));
    forall k: nat | k < Count(p) && InTest(p, k, t) ensures TestStart(p, 0) <= t < TestEnd(p, Count(p) - 1) {
      StepsGrow(p, 0, k);
      StepsGrow(p, k, Count(p) - 1);
    }
    TestedIff(p, t, Count(p));
  }

  // ---- rows ----

  lemma {:induction false} WithinSplit(rows: seq<Row>, a: Time, b: Time, c: Time)
    requires Sorted(rows, TIMESTAMP) && a <= b <= c
    ensures Within(rows, a, b) + Within(rows, b, c) == Within(rows, a, c)
  {
    if rows != [] {
      var front, row := rows[..|rows| - 1], rows[|rows| - 1];
      WithinSplit(front, a, b, c);
      assert Sorted(rows, TIMESTAMP) && TIMESTAMP(row) == row.timestamp;
      if row.timestamp < b {
        NothingLate(front, row.timestamp, b, c);
        assert Within(rows, b, c) == [];
        assert Within(front, a, b) == Within(front, a, c);
      }
    }
  }

  lemma NothingLate(rows: seq<Row>, t: Time, b: Time, c: Time)
    requires t < b && forall i :: 0 <= i < |rows| ==> rows[i].timestamp <= t
    ensures Within(rows, b, c) == []
  {
    InWithin(rows, b, c);
    assert forall row :: row !in Within(rows, b, c);
  }

  lemma {:induction false} NothingBetween(rows: seq<Row>, t: Time)
    ensures Within(rows, t, t) == []
  {
    if rows != [] { NothingBetween(rows[..|rows| - 1], t); }
  }

  function AllTested(p: Plan, rows: seq<Row>, n: nat): seq<Row> {
    if n == 0 then [] else AllTested(p, rows, n - 1) + Test(p, rows, n - 1)
  }

  /** When the step equals the test length, the test sets laid end to end are the tested part of the table,
  each row once and in order. */
  lemma {:induction false} TestSetsTile(p: Plan, rows: seq<Row>, n: nat)
    requires Proper(p) && p.step == p.test && Sorted(rows, TIMESTAMP)
    ensures AllTested(p, rows, n) == Within(rows, TestStart(p, 0), TestStart(p, n))
  {
    if n == 0 {
      NothingBetween(rows, TestStart(p, 0));
    } else {
      TestSetsTile(p, rows, n - 1);
      StepsGrow(p, 0, n - 1);
      TileStep(rows, TestStart(p, 0), TestStart(p, n - 1), TestStart(p, n), AllTested(p, rows, n - 1));
    }
  }

  lemma TileStep(rows: seq<Row>, a: Time, b: Time, c: Time, done: seq<Row>)
    requires Sorted(rows, TIMESTAMP) && a <= b <= c && done == Within(rows, a, b)
    ensures done + Within(rows, b, c) == Within(rows, a, c)
  {
    WithinSplit(rows, a, b, c);
  }

  /** And then each expanding window trains on what the window before it trained on, followed by what that
  window tested on. */
  lemma TrainAbsorbsTest(p: Plan, rows: seq<Row>, k: nat)
    requires Proper(p) && p.step == p.test && p.expanding && Sorted(rows, TIMESTAMP)
    ensures Train(p, rows, k + 1) == Train(p, rows, k) + Test(p, rows, k)
  {
    StepsGrow(p, 0, k);
    WithinSplit(rows, p.first, TestStart(p, k), TestStart(p, k + 1));
  }

  /** Expanding windows always have something to train on, so after the length check the run fails exactly
  when no row is ever tested. */
  lemma ExpandingFailsIff(p: Plan, rows: seq<Row>)
    requires Proper(p) && p.expanding && rows != [] && rows[0].timestamp == p.first
    ensures Recorded(p, rows, Count(p)) == []
       <==> forall row :: row in rows ==> TimesTested(p, row.timestamp, Count(p)) == 0
  {
    var n := Count(p);
    var list := Recorded(p, rows, n);
    RecordedExactly(p, rows, n);
    forall row | row in rows ensures TimesTested(p, row.timestamp, n) > 0 <==> Tested(p, row.timestamp, n) {
      TestedIff(p, row.timestamp, n);
    }
    forall k: nat | k < n && Usable(p, rows, k) ensures WindowAt(p, rows, k) in list {
      assert IsRecorded(p, rows, n, WindowAt(p, rows, k));
    }
    if list != [] {
      SomeRowTested(p, rows, n, list[0]);
    } else {
      forall row, k: nat | row in rows && k < n ensures !InTest(p, k, row.timestamp) {
        ExpandingUsableIff(p, rows, k);
      }
    }
  }

  lemma SomeRowTested(p: Plan, rows: seq<Row>, n: nat, w: Window)
    requires Proper(p) && p.expanding && rows != [] && rows[0].timestamp == p.first && IsRecorded(p, rows, n, w)
    ensures exists row :: row in rows && Tested(p, row.timestamp, n)
  {
    ExpandingUsableIff(p, rows, w.index);
    var row :| row in rows && InTest(p, w.index, row.timestamp);
    assert Tested(p, row.timestamp, n);
  }

  lemma ExpandingUsableIff(p: Plan, rows: seq<Row>, k: nat)
    requires Proper(p) && p.expanding && rows != [] && rows[0].timestamp == p.first
    ensures Usable(p, rows, k) <==> exists row :: row in rows && InTest(p, k, row.timestamp)
  {
    StepsGrow(p, 0, k);
    InWithin(rows, TrainStart(p, k), TestStart(p, k));
    InWithin(rows, TestStart(p, k), TestEnd(p, k));
    assert rows[0] in Train(p, rows, k);
    if Test(p, rows, k) != [] { assert Test(p, rows, k)[0] in rows; }
  }

  // ---- the sort ----

  lemma {:induction false} WithinCounts(rows: seq<Row>, lo: Time, hi: Time, x: Row)
    ensures multiset(Within(rows, lo, hi))[x] == if lo <= x.timestamp < hi then multiset(rows)[x] else 0
  {
    if rows != [] {
      var front := rows[..|rows| - 1];
      WithinCounts(front, lo, hi, x);
      assert rows == front + [rows[|rows| - 1]];
    }
  }

  lemma WithinOfPermutation(s: seq<Row>, t: seq<Row>, lo: Time, hi: Time)
    requires multiset(s) == multiset(t)
    ensures multiset(Within(s, lo, hi)) == multiset(Within(t, lo, hi))
  {
    forall x ensures multiset(Within(s, lo, hi))[x] == multiset(Within(t, lo, hi))[x] {
      WithinCounts(s, lo, hi, x);
      WithinCounts(t, lo, hi, x);
    }
  }

  predicate SameWindow(v: Window, w: Window) {
    && v.index == w.index && v.trainStart == w.trainStart && v.testStart == w.testStart && v.testEnd == w.testEnd
    && multiset(v.train) == multiset(w.train) && multiset(v.test) == multiset(w.test)
  }

  predicate SameWindows(v: seq<Window>, w: seq<Window>) {
    |v| == |w| && forall i :: 0 <= i < |v| ==> SameWindow(v[i], w[i])
  }

  /** How the sort orders equal timestamps changes neither the windows nor the rows in them. */
  lemma SortChoiceIsImmaterial(s: seq<Row>, t: seq<Row>, train: int, test: int, step: int, expanding: bool, n: nat)
    requires Sorted(s, TIMESTAMP) && Sorted(t, TIMESTAMP) && multiset(s) == multiset(t) && s != [] && t != []
    ensures MakePlan(s, train, test, step, expanding) == MakePlan(t, train, test, step, expanding)
    ensures var p := MakePlan(s, train, test, step, expanding); SameWindows(Recorded(p, s, n), Recorded(p, t, n))
  {
    SortsAgreeOnKeys(s, t, TIMESTAMP);
    assert Keys(s, TIMESTAMP)[0] == s[0].timestamp && Keys(t, TIMESTAMP)[0] == t[0].timestamp;
    var m := |s| - 1;
    assert Keys(s, TIMESTAMP)[m] == s[m].timestamp && Keys(t, TIMESTAMP)[m] == t[m].timestamp;
    SameRecorded(MakePlan(s, train, test, step, expanding), s, t, n);
  }

  lemma {:induction false} SameRecorded(p: Plan, s: seq<Row>, t: seq<Row>, n: nat)
    requires multiset(s) == multiset(t)
    ensures SameWindows(Recorded(p, s, n), Recorded(p, t, n))
    decreases n
  {
    if n > 0 {
      var k := n - 1;
      SameRecorded(p, s, t, k);
      SameRows(p, s, t, k);
      SameNext(p, s, t, k);
    }
  }

  lemma SameNext(p: Plan, s: seq<Row>, t: seq<Row>, k: nat)
    requires SameWindows(Recorded(p, s, k), Recorded(p, t, k))
    requires SameWindow(WindowAt(p, s, k), WindowAt(p, t, k)) && (Usable(p, s, k) <==> Usable(p, t, k))
    ensures SameWindows(Recorded(p, s, k + 1), Recorded(p, t, k + 1))
  {
    SameAppend(Recorded(p, s, k), Recorded(p, t, k), WindowAt(p, s, k), WindowAt(p, t, k));
  }

  lemma SameAppend(v: seq<Window>, w: seq<Window>, x: Window, y: Window)
    requires SameWindows(v, w) && SameWindow(x, y)
    ensures SameWindows(v + [x], w + [y]) && v + [] == v && w + [] == w
  {
  }

  lemma SameRows(p: Plan, s: seq<Row>, t: seq<Row>, k: nat)
    requires multiset(s) == multiset(t)
    ensures SameWindow(WindowAt(p, s, k), WindowAt(p, t, k)) && (Usable(p, s, k) <==> Usable(p, t, k))
  {
    WithinOfPermutation(s, t, TrainStart(p, k), TestStart(p, k));
    WithinOfPermutation(s, t, TestStart(p, k), TestEnd(p, k));
    SameEmptiness(Train(p, s, k), Train(p, t, k));
    SameEmptiness(Test(p, s, k), Test(p, t, k));
  }

  lemma SameEmptiness(s: seq<Row>, t: seq<Row>)
    requires multiset(s) == multiset(t)
    ensures s == [] <==> t == []
  {
    assert |multiset(s)| == |s| && |multiset(t)| == |t|;
  }
}

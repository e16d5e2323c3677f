/** What the trading loop guarantees under every interleaving of any number of loop threads. */
module TradingSafety {
  import opened TradingLoop

  predicate NobodyEnables(moves: seq<Move>) { forall m :: m in moves ==> m.choice != SetEnabled(true) }

  predicate NobodyResets(moves: seq<Move>) { forall m :: m in moves ==> m.choice != ResetKill }

  // ---- gates ----

  /** Up to nine first events of one iteration, every gate among them open. */
  predicate Clear(es: seq<Event>) {
    && |es| <= 9
    && (|es| > 0 ==> es[0] == Iteration)
    && (|es| > 1 ==> es[1].Reconciled?)
    && (|es| > 2 ==> es[2] == KillRead(false))
    && (|es| > 3 ==> es[3] == BreakerRead(true))
    && (|es| > 4 ==> es[4] == FeedRead(true))
    && (|es| > 5 ==> es[5].Proposed?)
    && (|es| > 6 ==> es[6].RiskRead?)
    && (|es| > 7 ==> es[7] == EnabledRead(true))
    && (|es| > 8 ==> es[8].PreTrade? && (es[8].needed ==> es[8].passed))
  }

  /** What the risk manager leaves of the agent's proposal. */
  function Chosen(es: seq<Event>): nat
    requires Clear(es) && |es| > 6
  {
    if es[6].canTrade then es[5].action else 0
  }

  /** The events of one iteration up to the hand-over of `action` to the executor. */
  predicate Gated(es: seq<Event>, action: nat) {
    |es| == 9 && Clear(es) && action == Chosen(es)
  }

  /** How many events of the current iteration the log holds when the loop stands at `pc`. */
  function Depth(pc: Pc): nat {
    match pc
    case Reconciling => 1
    case InAlert(_) => 2
    case KillCheck => 2
    case BreakerCheck => 3
    case FeedCheck => 4
    case Deciding => 5
    case RiskCheck(_) => 6
    case EnabledCheck(_) => 7
    case ReadingBalance(_) => 8
    case Validating(_) => 8
    case ReadingFlag(_) => 9
    case _ => 0
  }

  predicate Underway(es: seq<Event>, pc: Pc) {
    && |es| == Depth(pc)
    && Clear(es)
    && (pc.RiskCheck? ==> es[5].action == pc.action)
    && (pc.EnabledCheck? || pc.ReadingBalance? || pc.Validating? || pc.ReadingFlag? ==> Chosen(es) == pc.action)
  }

  predicate AllGated(log: seq<Event>) {
    forall i :: 0 <= i < |log| && log[i].Executed? ==> i >= 9 && Gated(log[i - 9..i], log[i].action)
  }

  predicate Guarded(trace: seq<Event>, pc: Pc) {
    && Depth(pc) <= |trace|
    && Underway(trace[|trace| - Depth(pc)..], pc)
    && AllGated(trace)
  }

  lemma AllGatedGrows(log: seq<Event>, e: Event)
    requires AllGated(log)
    requires e.Executed? ==> |log| >= 9 && Gated(log[|log| - 9..], e.action)
    ensures AllGated(log + [e])
  {
    var longer := log + [e];
    forall i | 0 <= i < |longer| && longer[i].Executed?
      ensures i >= 9 && Gated(longer[i - 9..i], longer[i].action)
    {
      assert longer[i - 9..i] == log[i - 9..i];
    }
  }

  predicate Extends(c: Parts, s: State, choice: Choice, es: seq<Event>) {
    var event := Emitted(c, s, choice);
    && (Depth(Next(c, s, choice).pc) == 0 || Underway(es + event, Next(c, s, choice).pc))
    && (event != [] && event[0].Executed? ==> Gated(es, event[0].action))
  }

  lemma GateEventExtends(c: Parts, s: State, choice: Choice, es: seq<Event>)
    requires choice.LoopStep? && Underway(es, s.pc)
    requires s.pc.Top? || s.pc.KillCheck? || s.pc.BreakerCheck? || s.pc.FeedCheck? || s.pc.Deciding?
    ensures Extends(c, s, choice, es)
  {
  }

  lemma ChoiceEventExtends(c: Parts, s: State, choice: Choice, es: seq<Event>)
    requires choice.LoopStep? && Underway(es, s.pc) && (s.pc.RiskCheck? || s.pc.EnabledCheck?)
    ensures Extends(c, s, choice, es)
  {
  }

  lemma ActionEventExtends(c: Parts, s: State, choice: Choice, es: seq<Event>)
    requires choice.LoopStep? && Underway(es, s.pc) && (s.pc.ReadingBalance? || s.pc.Validating? || s.pc.ReadingFlag?)
    ensures Extends(c, s, choice, es)
  {
    assert es + [] == es;
  }

  lemma OtherThreadExtends(c: Parts, s: State, choice: Choice, es: seq<Event>)
    requires !choice.LoopStep? && Underway(es, s.pc)
    ensures Extends(c, s, choice, es)
  {
    assert es + [] == es;
    var pc := Next(c, s, choice).pc;
    assert Depth(pc) == 0 || (pc == s.pc && Emitted(c, s, choice) == []);
  }

  lemma ReconcileExtends(c: Parts, s: State, choice: Choice, es: seq<Event>)
    requires choice.LoopStep? && Underway(es, s.pc) && (s.pc.Reconciling? || s.pc.InAlert?)
    ensures Extends(c, s, choice, es)
  {
    assert es + [] == es;
  }

  /** An event extends the iteration's prefix or ends the iteration; a step without one leaves it. */
  lemma EventExtends(c: Parts, s: State, choice: Choice, es: seq<Event>)
    requires Underway(es, s.pc)
    ensures Extends(c, s, choice, es)
  {
    if !choice.LoopStep? {
      OtherThreadExtends(c, s, choice, es);
    } else if s.pc.Top? || s.pc.KillCheck? || s.pc.BreakerCheck? || s.pc.FeedCheck? || s.pc.Deciding? {
      GateEventExtends(c, s, choice, es);
    } else if s.pc.RiskCheck? || s.pc.EnabledCheck? {
      ChoiceEventExtends(c, s, choice, es);
    } else if s.pc.ReadingBalance? || s.pc.Validating? || s.pc.ReadingFlag? {
      ActionEventExtends(c, s, choice, es);
    } else if s.pc.Reconciling? || s.pc.InAlert? {
      ReconcileExtends(c, s, choice, es);
    }
  }

  lemma GuardedGrows(trace: seq<Event>, pc: Pc, event: seq<Event>, next: Pc)
    requires Guarded(trace, pc) && |event| <= 1
    requires var es := trace[|trace| - Depth(pc)..];
      && (Depth(next) == 0 || Underway(es + event, next))
      && (event != [] && event[0].Executed? ==> Gated(es, event[0].action))
    ensures Guarded(trace + event, next)
  {
    var es := trace[|trace| - Depth(pc)..];
    GatedGrows(trace, es, event);
    if Depth(next) != 0 {
      SuffixGrows(trace, Depth(pc), event);
      assert |es + event| == Depth(next);
    } else {
      NothingUnderway(trace + event, next);
    }
  }

  lemma NothingUnderway(trace: seq<Event>, pc: Pc)
    requires Depth(pc) == 0
    ensures Underway(trace[|trace|..], pc)
  {
  }

  lemma GatedGrows(trace: seq<Event>, es: seq<Event>, event: seq<Event>)
    requires AllGated(trace) && |es| <= |trace| && es == trace[|trace| - |es|..] && |event| <= 1
    requires event != [] && event[0].Executed? ==> Gated(es, event[0].action)
    ensures AllGated(trace + event)
  {
    if event == [] {
      assert trace + event == trace;
    } else {
      AllGatedGrows(trace, event[0]);
      assert trace + event == trace + [event[0]];
    }
  }

  lemma SuffixGrows(trace: seq<Event>, n: nat, event: seq<Event>)
    requires n <= |trace|
    ensures (trace + event)[|trace| - n..] == trace[|trace| - n..] + event
  {
  }

  lemma GuardedStep(c: Parts, s: State, choice: Choice, trace: seq<Event>)
    requires Guarded(trace, s.pc)
    ensures Guarded(trace + Emitted(c, s, choice), Next(c, s, choice).pc)
  {
    EventExtends(c, s, choice, trace[|trace| - Depth(s.pc)..]);
    GuardedGrows(trace, s.pc, Emitted(c, s, choice), Next(c, s, choice).pc);
  }

  lemma LastMove(c: Parts, w: Crew, moves: seq<Move>, i: nat)
    requires moves != []
    ensures var front, last := moves[..|moves| - 1], moves[|moves| - 1];
      && Play(c, w, moves) == Act(c, Play(c, w, front), last)
      && Trace(c, w, moves) == Trace(c, w, front) + Shown(c, Play(c, w, front), last)
      && Log(c, w, moves, i)
         == Log(c, w, front, i) + if last.thread == i then Shown(c, Play(c, w, front), last) else []
  {
  }

  lemma {:induction false} CrewStays(c: Parts, w: Crew, moves: seq<Move>)
    ensures |Play(c, w, moves).loops| == |w.loops|
    decreases |moves|
  {
    if moves != [] { CrewStays(c, w, moves[..|moves| - 1]); }
  }

  lemma GuardedMove(c: Parts, w: Crew, m: Move, i: nat, log: seq<Event>)
    requires i < |w.loops| && Guarded(log, w.loops[i].pc)
    ensures Guarded(log + if m.thread == i then Shown(c, w, m) else [], Act(c, w, m).loops[i].pc)
  {
    if m.thread == i { GuardedStep(c, Seen(w, i), m.choice, log); } else { assert log + [] == log; }
  }

  /** Every action that a loop thread hands to the executor comes from an iteration of that thread which read
  the kill switch as inactive, the breaker as allowing, the feed as ready and trading as enabled; it is HOLD
  if the risk manager refused; and it passed pre-trade validation if it named a pair. */
  lemma {:induction false} ExecutedActionsAreGated(c: Parts, w: Crew, moves: seq<Move>, i: nat)
    requires i < |w.loops| && w.loops[i].pc == Idle
    ensures |Play(c, w, moves).loops| == |w.loops|
    ensures Guarded(Log(c, w, moves, i), Play(c, w, moves).loops[i].pc)
    decreases |moves|
  {
    CrewStays(c, w, moves);
    if moves == [] {
      assert Log(c, w, moves, i) == [] && Play(c, w, moves) == w;
    } else {
      var front := moves[..|moves| - 1];
      CrewStays(c, w, front);
      ExecutedActionsAreGated(c, w, front, i);
      LastMove(c, w, moves, i);
      GuardedMove(c, Play(c, w, front), moves[|moves| - 1], i, Log(c, w, front, i));
    }
  }

  // ---- counting loop threads ----

  /** How many loop threads stand at a place that passes the test. */
  function Count(loops: seq<Local>, test: Pc -> bool): nat {
    if loops == [] then 0
    else Count(loops[..|loops| - 1], test) + if test(loops[|loops| - 1].pc) then 1 else 0
  }

  lemma {:induction false} CountUpdate(loops: seq<Local>, test: Pc -> bool, i: nat, l: Local)
    requires i < |loops|
    ensures Count(loops[i := l], test) + (if test(loops[i].pc) then 1 else 0)
         == Count(loops, test) + (if test(l.pc) then 1 else 0)
  {
    var n := |loops| - 1;
    if i < n {
      CountUpdate(loops[..n], test, i, l);
      assert loops[i := l][..n] == loops[..n][i := l];
    } else {
      assert loops[i := l][..n] == loops[..n];
    }
  }

  lemma {:induction false} CountSome(loops: seq<Local>, test: Pc -> bool)
    ensures Count(loops, test) > 0 <==> exists i :: 0 <= i < |loops| && test(loops[i].pc)
  {
    if loops != [] { CountSome(loops[..|loops| - 1], test); }
  }

  lemma {:induction false} CountAtMostAll(loops: seq<Local>, test: Pc -> bool)
    ensures Count(loops, test) <= |loops|
  {
    if loops != [] { CountAtMostAll(loops[..|loops| - 1], test); }
  }

  // ---- kill overshoot ----

  /** An opening action was handed to the executor while trading was enabled and has not opened yet. */
  predicate InFlight(pc: Pc) { pc.Executing? && pc.flag && !pc.spent && Opens(pc.action) }

  const IN_FLIGHT := (pc: Pc) => InFlight(pc)

  /** Tickets opened between two states: only the executor issues tickets, and never one twice. */
  function Opened(s: State, t: State): set<Ticket> { t.issued - s.issued }

  lemma StepOvershoots(c: Parts, s: State, choice: Choice)
    requires !s.enabled && choice != SetEnabled(true)
    ensures var t := Next(c, s, choice);
      && !t.enabled
      && s.issued <= t.issued
      && (t.issued == s.issued ==> InFlight(t.pc) ==> InFlight(s.pc))
      && (t.issued != s.issued ==>
            InFlight(s.pc) && !InFlight(t.pc) && choice.ExecutorOpens? && Opened(s, t) == {choice.ticket})
  {
  }

  lemma MoveOvershoots(c: Parts, w: Crew, m: Move)
    requires !w.shared.enabled && m.choice != SetEnabled(true)
    ensures var v := Act(c, w, m);
      && !v.shared.enabled
      && w.shared.issued <= v.shared.issued
      && |Opened(w.shared, v.shared)| + Count(v.loops, IN_FLIGHT) <= Count(w.loops, IN_FLIGHT)
  {
    if m.thread < |w.loops| {
      var v := Act(c, w, m);
      StepOvershoots(c, Seen(w, m.thread), m.choice);
      CountUpdate(w.loops, IN_FLIGHT, m.thread, v.loops[m.thread]);
      if v.shared.issued == w.shared.issued { assert Opened(w.shared, v.shared) == {}; }
    } else {
      assert Opened(w.shared, w.shared) == {};
    }
  }

  lemma OpenedAdds(s: State, t: State, u: State)
    requires s.issued <= t.issued <= u.issued
    ensures |Opened(s, u)| == |Opened(s, t)| + |Opened(t, u)|
  {
    assert Opened(s, u) == Opened(s, t) + Opened(t, u);
    assert Opened(s, t) * Opened(t, u) == {};
  }

  /** Once the flag is down and nobody raises it, no more trades open than there are loop threads with an
  opening action in the executor's hands. A thread that has read the flag a first time, but not yet a
  second, opens none. */
  lemma {:induction false} OvershootAtMostInFlight(c: Parts, w: Crew, moves: seq<Move>)
    requires !w.shared.enabled && NobodyEnables(moves)
    ensures var v := Play(c, w, moves);
      && !v.shared.enabled
      && w.shared.issued <= v.shared.issued
      && |Opened(w.shared, v.shared)| + Count(v.loops, IN_FLIGHT) <= Count(w.loops, IN_FLIGHT)
    decreases |moves|
  {
    if moves == [] {
      assert Opened(w.shared, w.shared) == {};
    } else {
      var front := moves[..|moves| - 1];
      OvershootAtMostInFlight(c, w, front);
      MoveOvershoots(c, Play(c, w, front), moves[|moves| - 1]);
      OpenedAdds(w.shared, Play(c, w, front).shared, Play(c, w, moves).shared);
    }
  }

  /** The kill switch's bound of one trade: however the play goes on, at most one more trade opens. */
  ghost predicate AtMostOneOpens(c: Parts, w: Crew) {
    forall moves :: NobodyEnables(moves) ==> |Opened(w.shared, Play(c, w, moves).shared)| <= 1
  }

  lemma {:induction false} FreshTicket(issued: set<Ticket>) returns (ticket: Ticket)
    ensures forall t :: t in issued ==> t < ticket
  {
    if issued == {} {
      ticket := 0;
    } else {
      var t :| t in issued;
      var rest := FreshTicket(issued - {t});
      ticket := if rest > t then rest else t + 1;
      assert forall x :: x in issued ==> x == t || x in issued - {t};
    }
  }

  lemma PlayTwo(c: Parts, w: Crew, x: Move, y: Move)
    ensures Play(c, w, [x, y]) == Act(c, Act(c, w, x), y)
  {
    assert [x, y][..1] == [x] && [x][..0] == [];
    assert Play(c, w, [x]) == Act(c, w, x);
  }

  lemma TwoInFlightOpenTwo(c: Parts, w: Crew, i: nat, j: nat) returns (moves: seq<Move>)
    requires i < |w.loops| && j < |w.loops| && i != j && InFlight(w.loops[i].pc) && InFlight(w.loops[j].pc)
    ensures NobodyEnables(moves) && |Opened(w.shared, Play(c, w, moves).shared)| == 2
    ensures forall m :: m in moves ==> m.choice.ExecutorOpens?
  {
    var t := FreshTicket(w.shared.issued);
    var x, y := Move(i, ExecutorOpens(t, 0.0)), Move(j, ExecutorOpens(t + 1, 0.0));
    moves := [x, y];
    PlayTwo(c, w, x, y);
    assert Act(c, w, x).shared.issued == w.shared.issued + {t};
    assert Play(c, w, moves).shared.issued == w.shared.issued + {t} + {t + 1};
    assert Opened(w.shared, Play(c, w, moves).shared) == {t, t + 1};
  }

  lemma {:induction false} CountTwo(loops: seq<Local>, test: Pc -> bool) returns (i: nat, j: nat)
    requires Count(loops, test) >= 2
    ensures i < j < |loops| && test(loops[i].pc) && test(loops[j].pc)
  {
    var n := |loops| - 1;
    if test(loops[n].pc) {
      CountSome(loops[..n], test);
      var k :| 0 <= k < n && test(loops[..n][k].pc);
      i, j := k, n;
    } else {
      i, j := CountTwo(loops[..n], test);
    }
  }

  /** So with the flag down the bound of one holds if and only if at most one loop thread has an opening action
  in the executor's hands; a single loop thread meets it always. */
  lemma OvershootAtMostOneIff(c: Parts, w: Crew)
    requires !w.shared.enabled
    ensures AtMostOneOpens(c, w) <==> Count(w.loops, IN_FLIGHT) <= 1
    ensures |w.loops| == 1 ==> AtMostOneOpens(c, w)
  {
    CountAtMostAll(w.loops, IN_FLIGHT);
    if Count(w.loops, IN_FLIGHT) <= 1 {
      forall moves | NobodyEnables(moves) ensures |Opened(w.shared, Play(c, w, moves).shared)| <= 1 {
        OvershootAtMostInFlight(c, w, moves);
      }
    } else {
      var i, j := CountTwo(w.loops, IN_FLIGHT);
      var moves := TwoInFlightOpenTwo(c, w, i, j);
    }
  }

  /** The trades a running handler still accounts for. */
  predicate Accounted(s: State, since: set<Ticket>) {
    s.handler.Active? ==>
      match s.handler.phase
      case Closing(todo, failed) => s.open <= todo + failed + since
      case Closed(failed) => s.open <= failed + since
      case _ => true
  }

  lemma StepAccounts(c: Parts, s: State, choice: Choice, since: set<Ticket>)
    requires s.open <= s.issued && Accounted(s, since)
    ensures var t := Next(c, s, choice);
      && s.issued <= t.issued && t.open <= t.issued
      && t.open <= s.open + Opened(s, t)
      && Accounted(t, since + Opened(s, t))
  {
    match choice
    case HandlerStep(_, _, _) =>
    case ExecutorOpens(_, _) =>
    case ExecutorCloses(_, _) =>
    case _ =>
      var t := Next(c, s, choice);
      assert t.open == s.open && t.issued == s.issued;
  }

  /** When a handler ends, the trades left open are those whose close failed and those opened since it
  cleared the flag. */
  lemma {:induction false} HandlerAccountsForTrades(c: Parts, w: Crew, moves: seq<Move>)
    requires w.shared.open <= w.shared.issued
    requires Accounted(w.shared, {})
    ensures var s, t := w.shared, Play(c, w, moves).shared;
      s.issued <= t.issued && t.open <= t.issued && Accounted(t, Opened(s, t))
    decreases |moves|
  {
    if moves == [] {
      assert Opened(w.shared, w.shared) == {};
    } else {
      var front, last := moves[..|moves| - 1], moves[|moves| - 1];
      HandlerAccountsForTrades(c, w, front);
      var mid, end := Play(c, w, front), Play(c, w, moves);
      if last.thread < |mid.loops| {
        StepAccounts(c, Seen(mid, last.thread), last.choice, Opened(w.shared, mid.shared));
        assert Opened(w.shared, end.shared) == Opened(w.shared, mid.shared) + Opened(mid.shared, end.shared);
      }
    }
  }

  /** The kill switch's promise: let the handler have just cleared the flag, and let nobody raise it. When
  it has gone through its snapshot, everything still open either refused to close or is among the trades
  that were in flight, one for each such loop thread. */
  lemma KillLeavesOnlyInFlight(c: Parts, w: Crew, moves: seq<Move>)
    requires w.shared.open <= w.shared.issued
    requires w.shared.handler.Active? && w.shared.handler.phase == FlagCleared && !w.shared.enabled
    requires NobodyEnables(moves)
    requires var t := Play(c, w, moves).shared; t.handler.Active? && t.handler.phase.Closed?
    ensures var t := Play(c, w, moves).shared;
      && |t.open - t.handler.phase.failed| <= Count(w.loops, IN_FLIGHT)
      && t.open - t.handler.phase.failed <= Opened(w.shared, t)
  {
    var t := Play(c, w, moves).shared;
    OvershootAtMostInFlight(c, w, moves);
    HandlerAccountsForTrades(c, w, moves);
    assert t.open - t.handler.phase.failed <= Opened(w.shared, t);
    SubsetSize(t.open - t.handler.phase.failed, Opened(w.shared, t));
  }

  lemma {:induction false} SubsetSize<T>(a: set<T>, b: set<T>)
    requires a <= b
    ensures |a| <= |b|
  {
    if a != {} {
      var x :| x in a;
      SubsetSize(a - {x}, b - {x});
    }
  }

  // ---- what a cleared flag and a triggered switch still let through ----

  function Executions(trace: seq<Event>): nat {
    if trace == [] then 0
    else Executions(trace[..|trace| - 1]) + if trace[|trace| - 1].Executed? then 1 else 0
  }

  lemma ExecutionsOfStep(trace: seq<Event>, event: seq<Event>)
    requires |event| <= 1
    ensures Executions(trace + event) == Executions(trace) + Executions(event)
  {
    if event == [] {
      assert trace + event == trace;
    } else {
      assert (trace + event)[..|trace + event| - 1] == trace;
      assert event[..0] == [];
    }
  }

  /** Past the first read of the flag, before the second. */
  predicate Committed(pc: Pc) { pc.ReadingBalance? || pc.Validating? || pc.ReadingFlag? }

  const COMMITTED := (pc: Pc) => Committed(pc)

  /** Only the step that reads the flag the second time is an execution, and it records what it read. */
  lemma OnlyReadingFlagExecutes(c: Parts, s: State, choice: Choice)
    ensures Executions(Emitted(c, s, choice)) == if choice.LoopStep? && s.pc.ReadingFlag? then 1 else 0
    ensures forall e :: e in Emitted(c, s, choice) && e.Executed? ==> e.flag == s.enabled
  {
    if Emitted(c, s, choice) != [] { assert Emitted(c, s, choice)[..0] == []; }
  }

  lemma CommittedOnlyWhileEnabled(c: Parts, s: State, ok: bool, action: nat, known: bool)
    requires !Committed(s.pc) && !s.enabled
    ensures !Committed(LoopNext(c, s, ok, action, known).pc)
  {
    NotCommittedElsewhere(c, s, ok, action);
    assert InWindow(s.pc) || s.pc.Sleeping? ==> !Committed(ActNext(s, ok, known).pc);
  }

  lemma NotCommittedElsewhere(c: Parts, s: State, ok: bool, action: nat)
    requires !Committed(s.pc) && !s.enabled
    ensures !Committed(StartNext(c, s, ok).pc) && !Committed(StopNext(c, s).pc)
    ensures !Committed(ReconcileNext(c, s, ok).pc) && !Committed(GateNext(c, s, ok, action).pc)
  {
  }

  lemma OthersCommitNothing(c: Parts, s: State, choice: Choice)
    requires !choice.LoopStep? && Committed(Next(c, s, choice).pc)
    ensures Committed(s.pc)
  {
  }

  lemma StepWhileDisabled(c: Parts, s: State, choice: Choice)
    requires !s.enabled && choice != SetEnabled(true)
    ensures !Next(c, s, choice).enabled
    ensures Executions(Emitted(c, s, choice)) + (if Committed(Next(c, s, choice).pc) then 1 else 0)
         <= (if Committed(s.pc) then 1 else 0)
    ensures forall e :: e in Emitted(c, s, choice) && e.Executed? ==> !e.flag
  {
    OnlyReadingFlagExecutes(c, s, choice);
    if choice.LoopStep? {
      if !Committed(s.pc) { CommittedOnlyWhileEnabled(c, s, choice.ok, choice.action, choice.known); }
    } else if Committed(Next(c, s, choice).pc) {
      OthersCommitNothing(c, s, choice);
    }
  }

  lemma MoveWhileDisabled(c: Parts, w: Crew, m: Move)
    requires !w.shared.enabled && m.choice != SetEnabled(true)
    ensures !Act(c, w, m).shared.enabled
    ensures Executions(Shown(c, w, m)) + Count(Act(c, w, m).loops, COMMITTED) <= Count(w.loops, COMMITTED)
    ensures forall e :: e in Shown(c, w, m) && e.Executed? ==> !e.flag
  {
    if m.thread < |w.loops| {
      StepWhileDisabled(c, Seen(w, m.thread), m.choice);
      CountUpdate(w.loops, COMMITTED, m.thread, Act(c, w, m).loops[m.thread]);
    }
  }

  /** While the flag is down nothing is handed to the executor, except that an iteration which had already
  read it as up may still hand over its action, and then with the flag down. */
  lemma {:induction false} DisabledLoopExecutesNothing(c: Parts, w: Crew, moves: seq<Move>)
    requires !w.shared.enabled && NobodyEnables(moves)
    ensures !Play(c, w, moves).shared.enabled
    ensures Executions(Trace(c, w, moves)) + Count(Play(c, w, moves).loops, COMMITTED) <= Count(w.loops, COMMITTED)
    ensures forall e :: e in Trace(c, w, moves) && e.Executed? ==> !e.flag
    decreases |moves|
  {
    if moves != [] {
      var front := moves[..|moves| - 1];
      DisabledLoopExecutesNothing(c, w, front);
      MoveWhileDisabled(c, Play(c, w, front), moves[|moves| - 1]);
      ShownIsShort(c, Play(c, w, front), moves[|moves| - 1]);
      ExecutionsOfStep(Trace(c, w, front), Shown(c, Play(c, w, front), moves[|moves| - 1]));
    }
  }

  lemma ShownIsShort(c: Parts, w: Crew, m: Move)
    ensures |Shown(c, w, m)| <= 1
  {
  }

  // ---- the kill switch as a latch ----

  /** The switch is triggered and no `stop` has already decided to disarm it. */
  ghost predicate Latched(c: Parts, w: Crew) {
    && c.kill && w.shared.kill == Triggered && !w.shared.stopper.StopperDisarming?
    && forall i :: 0 <= i < |w.loops| ==> !w.loops[i].pc.Disarming?
  }

  /** Past the kill check of the current iteration, and not yet handed over. */
  predicate PastKillCheck(pc: Pc) {
    pc.BreakerCheck? || pc.FeedCheck? || pc.Deciding? || pc.RiskCheck? || pc.EnabledCheck? || Committed(pc)
  }

  const PAST_KILL_CHECK := (pc: Pc) => PastKillCheck(pc)

  lemma StepKeepsLatch(c: Parts, s: State, choice: Choice)
    requires c.kill && s.kill == Triggered && !s.pc.Disarming? && !s.stopper.StopperDisarming? && choice != ResetKill
    ensures var t := Next(c, s, choice);
      t.kill == Triggered && !t.pc.Disarming? && !t.stopper.StopperDisarming?
  {
  }

  lemma NothingPassesKillCheck(c: Parts, s: State, ok: bool, action: nat, known: bool)
    requires c.kill && s.kill == Triggered && !PastKillCheck(s.pc)
    ensures !PastKillCheck(LoopNext(c, s, ok, action, known).pc)
  {
    NotPastElsewhere(c, s, ok, action);
    assert InWindow(s.pc) || s.pc.Sleeping? ==> !PastKillCheck(ActNext(s, ok, known).pc);
  }

  lemma NotPastElsewhere(c: Parts, s: State, ok: bool, action: nat)
    requires c.kill && s.kill == Triggered && !PastKillCheck(s.pc)
    ensures !PastKillCheck(StartNext(c, s, ok).pc) && !PastKillCheck(StopNext(c, s).pc)
    ensures !PastKillCheck(ReconcileNext(c, s, ok).pc) && !PastKillCheck(GateNext(c, s, ok, action).pc)
  {
  }

  lemma OthersPassNothing(c: Parts, s: State, choice: Choice)
    requires !choice.LoopStep? && PastKillCheck(Next(c, s, choice).pc)
    ensures PastKillCheck(s.pc)
  {
  }

  lemma StepWhileLatched(c: Parts, s: State, choice: Choice)
    requires c.kill && s.kill == Triggered
    ensures Executions(Emitted(c, s, choice)) + (if PastKillCheck(Next(c, s, choice).pc) then 1 else 0)
         <= (if PastKillCheck(s.pc) then 1 else 0)
  {
    OnlyReadingFlagExecutes(c, s, choice);
    if choice.LoopStep? {
      if !PastKillCheck(s.pc) { NothingPassesKillCheck(c, s, choice.ok, choice.action, choice.known); }
    } else if PastKillCheck(Next(c, s, choice).pc) {
      OthersPassNothing(c, s, choice);
    }
  }

  lemma MoveWhileLatched(c: Parts, w: Crew, m: Move)
    requires Latched(c, w) && m.choice != ResetKill
    ensures Latched(c, Act(c, w, m))
    ensures Executions(Shown(c, w, m)) + Count(Act(c, w, m).loops, PAST_KILL_CHECK) <= Count(w.loops, PAST_KILL_CHECK)
  {
    if m.thread < |w.loops| {
      StepKeepsLatch(c, Seen(w, m.thread), m.choice);
      StepWhileLatched(c, Seen(w, m.thread), m.choice);
      CountUpdate(w.loops, PAST_KILL_CHECK, m.thread, Act(c, w, m).loops[m.thread]);
    }
  }

  /** A triggered switch stays triggered until somebody resets it, and no more actions reach the executor than
  there are loop threads already past their kill check. This needs no assumption on the flag: it holds even
  if somebody keeps enabling trading. */
  lemma {:induction false} KillSwitchLatches(c: Parts, w: Crew, moves: seq<Move>)
    requires Latched(c, w) && NobodyResets(moves)
    ensures Latched(c, Play(c, w, moves))
    ensures Executions(Trace(c, w, moves)) + Count(Play(c, w, moves).loops, PAST_KILL_CHECK)
         <= Count(w.loops, PAST_KILL_CHECK)
    decreases |moves|
  {
    if moves != [] {
      var front := moves[..|moves| - 1];
      var mid, last := Play(c, w, front), moves[|moves| - 1];
      KillSwitchLatches(c, w, front);
      MoveWhileLatched(c, mid, last);
      ShownIsShort(c, mid, last);
      ExecutionsOfStep(Trace(c, w, front), Shown(c, mid, last));
    }
  }

  /** `stop` means to leave a triggered switch alone, but its check and its disarm are two steps: some
  step other than a reset can undo a trigger exactly when a `stop` stands between them. */
  lemma LatchIsExact(c: Parts, w: Crew)
    requires c.kill && w.shared.kill == Triggered && w.shared.handler.Free? && w.loops != []
    ensures (exists m: Move :: m.choice != ResetKill && Act(c, w, m).shared.kill != Triggered) <==> !Latched(c, w)
  {
    if Latched(c, w) {
      forall m: Move | m.choice != ResetKill ensures Act(c, w, m).shared.kill == Triggered {
        MoveWhileLatched(c, w, m);
      }
    } else if w.shared.stopper.StopperDisarming? {
      assert Act(c, w, Move(0, StopperStep)).shared.kill != Triggered;
    } else {
      var i :| 0 <= i < |w.loops| && w.loops[i].pc.Disarming?;
      assert Act(c, w, Move(i, LoopStep(true, 0, false))).shared.kill != Triggered;
    }
  }

  // ---- critical mismatches ----

  /** A loop thread that finds a critical mismatch leaves the switch triggered, and goes to its kill check. */
  lemma MismatchTriggers(c: Parts, w: Crew, i: nat, action: nat, known: bool)
    requires i < |w.loops| && w.loops[i].pc == Reconciling && c.kill && c.oms
    ensures var m := Move(i, LoopStep(false, action, known)); var v := Act(c, w, m);
      if w.shared.handler.Active? then Shown(c, w, m) == [] && v.loops == w.loops
      else Shown(c, w, m) == [Reconciled(true)] && v.shared.kill == Triggered && Alerted(v.loops[i].pc)
  {
  }

  predicate Alerted(pc: Pc) { pc.InAlert? || pc.KillCheck? }

  lemma StepAfterMismatch(c: Parts, s: State, choice: Choice)
    requires c.kill && s.kill == Triggered && Alerted(s.pc)
    ensures var t := Next(c, s, choice);
      || (Emitted(c, s, choice) == [] && Alerted(t.pc))
      || Emitted(c, s, choice) == [KillRead(true)]
  {
  }

  lemma {:induction false} AlertedReadsKill(c: Parts, w: Crew, moves: seq<Move>, i: nat)
    requires i < |w.loops| && Latched(c, w) && Alerted(w.loops[i].pc) && NobodyResets(moves)
    ensures |Play(c, w, moves).loops| == |w.loops|
    ensures var log := Log(c, w, moves, i);
      if log == [] then Alerted(Play(c, w, moves).loops[i].pc) else log[0] == KillRead(true)
    decreases |moves|
  {
    CrewStays(c, w, moves);
    if moves != [] {
      var front, last := moves[..|moves| - 1], moves[|moves| - 1];
      AlertedReadsKill(c, w, front, i);
      KillSwitchLatches(c, w, front);
      LastMove(c, w, moves, i);
      if Log(c, w, front, i) == [] && last.thread == i {
        StepAfterMismatch(c, Seen(Play(c, w, front), i), last.choice);
      }
    }
  }

  /** A critical mismatch stops the iteration that found it: if no `stop` is about to disarm the switch and
  nobody resets it, the next thing this loop thread does is to read the switch as active. */
  lemma MismatchStopsIteration(c: Parts, w: Crew, i: nat, action: nat, known: bool, moves: seq<Move>)
    requires i < |w.loops| && w.loops[i].pc == Reconciling && c.kill && c.oms && w.shared.handler.Free?
    requires !w.shared.stopper.StopperDisarming? && forall j :: 0 <= j < |w.loops| ==> !w.loops[j].pc.Disarming?
    requires NobodyResets(moves)
    ensures var v := Act(c, w, Move(i, LoopStep(false, action, known)));
      && i < |v.loops| && |Play(c, v, moves).loops| == |v.loops|
      && var log := Log(c, v, moves, i);
         if log == [] then Alerted(Play(c, v, moves).loops[i].pc) else log[0] == KillRead(true)
  {
    MismatchTriggers(c, w, i, action, known);
    var v := Act(c, w, Move(i, LoopStep(false, action, known)));
    assert Latched(c, v);
    AlertedReadsKill(c, v, moves, i);
  }

  // ---- a start that fails ----

  predicate NobodyStops(moves: seq<Move>) { forall m :: m in moves ==> m.choice != CallStop && m.choice != TriggerKill }

  /** Nothing runs, but `is_running` is set. */
  ghost predicate Stranded(w: Crew) {
    && w.shared.running && w.shared.handler == Free && w.shared.stopper == NoStop
    && forall i :: 0 <= i < |w.loops| ==> w.loops[i].pc == Idle
  }

  lemma StepWhileStranded(c: Parts, s: State, choice: Choice)
    requires s.pc == Idle && s.running && s.handler == Free && s.stopper == NoStop
    requires choice != CallStop && choice != TriggerKill
    ensures var t := Next(c, s, choice); t.pc == Idle && t.running && t.handler == Free && t.stopper == NoStop
  {
  }

  /** An exception in `start` before the loop leaves `is_running` set with no loop behind it. */
  lemma FailedStartStrands(c: Parts, w: Crew, i: nat)
    requires i < |w.loops| && w.loops[i].pc == Arming
    requires w.shared.running && w.shared.handler == Free && w.shared.stopper == NoStop
    requires forall j :: 0 <= j < |w.loops| && j != i ==> w.loops[j].pc == Idle
    ensures Stranded(Act(c, w, Move(i, LoopRaises)))
  {
  }

  /** And then no number of starts, on any thread, begins a loop, until somebody stops the controller or
  triggers the kill switch. */
  lemma {:induction false} StrandedStays(c: Parts, w: Crew, moves: seq<Move>)
    requires Stranded(w) && NobodyStops(moves)
    ensures Stranded(Play(c, w, moves))
    decreases |moves|
  {
    if moves != [] {
      var front, last := moves[..|moves| - 1], moves[|moves| - 1];
      StrandedStays(c, w, front);
      var mid := Play(c, w, front);
      if last.thread < |mid.loops| { StepWhileStranded(c, Seen(mid, last.thread), last.choice); }
    }
  }

  // ---- running means that some thread is inside ----

  /** Inside `start` past setting `is_running`, and not yet past clearing it. */
  predicate Inside(pc: Pc) {
    !pc.Idle? && !pc.StartChecking? && !pc.Starting? && !pc.StopChecking? && !pc.Disarming?
  }

  ghost predicate SomeInside(loops: seq<Local>) { exists i :: 0 <= i < |loops| && Inside(loops[i].pc) }

  /** If `is_running` is set, some thread is there that runs the loop or will clear it. */
  ghost predicate Manned(w: Crew) { w.shared.running ==> SomeInside(w.loops) }

  /** The move is an exception between setting `is_running` and the loop, on the only thread inside. */
  ghost predicate Strands(w: Crew, m: Move) {
    && m.choice == LoopRaises && m.thread < |w.loops| && w.loops[m.thread].pc == Arming && w.shared.running
    && forall j :: 0 <= j < |w.loops| && j != m.thread ==> !Inside(w.loops[j].pc)
  }

  ghost predicate AlwaysManned(c: Parts, w: Crew, moves: seq<Move>)
    decreases |moves|
  {
    && Manned(Play(c, w, moves))
    && (moves != [] ==> AlwaysManned(c, w, moves[..|moves| - 1]))
  }

  ghost predicate NeverStrands(c: Parts, w: Crew, moves: seq<Move>)
    decreases |moves|
  {
    moves != [] ==>
      var front := moves[..|moves| - 1];
      NeverStrands(c, w, front) && !Strands(Play(c, w, front), moves[|moves| - 1])
  }

  /** `is_running` is set on the way in, and cleared before the way out. */
  predicate StaysInside(s: State, t: State) { t.running && (!s.running || Inside(s.pc)) ==> Inside(t.pc) }

  lemma EndsStayInside(c: Parts, s: State, ok: bool)
    ensures StaysInside(s, StartNext(c, s, ok)) && StaysInside(s, StopNext(c, s))
  {
  }

  lemma IterationStaysInside(c: Parts, s: State, ok: bool, action: nat, known: bool)
    requires Inside(s.pc)
    ensures Inside(ReconcileNext(c, s, ok).pc) && Inside(GateNext(c, s, ok, action).pc)
    ensures Inside(ActNext(s, ok, known).pc)
  {
  }

  lemma LoopStepInside(c: Parts, s: State, ok: bool, action: nat, known: bool)
    ensures StaysInside(s, LoopNext(c, s, ok, action, known))
  {
    EndsStayInside(c, s, ok);
    if Inside(s.pc) { IterationStaysInside(c, s, ok, action, known); }
  }

  /** Only that exception leaves `start` without clearing `is_running`. */
  lemma StepInside(c: Parts, s: State, choice: Choice)
    ensures var t := Next(c, s, choice);
      if choice == LoopRaises && s.pc == Arming then t.pc == Idle && t.running == s.running else StaysInside(s, t)
  {
    if choice.LoopStep? { LoopStepInside(c, s, choice.ok, choice.action, choice.known); }
  }

  lemma MoveMannedIff(c: Parts, w: Crew, m: Move)
    requires Manned(w)
    ensures Manned(Act(c, w, m)) <==> !Strands(w, m)
  {
    if m.thread < |w.loops| {
      var v := Act(c, w, m);
      StepInside(c, Seen(w, m.thread), m.choice);
      assert forall j :: 0 <= j < |w.loops| && j != m.thread ==> v.loops[j] == w.loops[j];
      if v.shared.running && !Strands(w, m) {
        if w.shared.running {
          var k := if exists j :: 0 <= j < |w.loops| && j != m.thread && Inside(w.loops[j].pc)
                   then OtherInside(w, m.thread) else m.thread;
          assert Inside(v.loops[k].pc);
        } else {
          assert Inside(v.loops[m.thread].pc);
        }
      }
    }
  }

  ghost function OtherInside(w: Crew, i: nat): (j: nat)
    requires exists j :: 0 <= j < |w.loops| && j != i && Inside(w.loops[j].pc)
    ensures j < |w.loops| && j != i && Inside(w.loops[j].pc)
  {
    var j :| 0 <= j < |w.loops| && j != i && Inside(w.loops[j].pc);
    j
  }

  /** For any number of threads: `is_running` always has a thread behind it if and only if no exception comes
  between setting it and the loop on the only thread inside. */
  lemma {:induction false} AlwaysMannedIff(c: Parts, w: Crew, moves: seq<Move>)
    requires Manned(w)
    ensures AlwaysManned(c, w, moves) <==> NeverStrands(c, w, moves)
    decreases |moves|
  {
    if moves != [] {
      var front := moves[..|moves| - 1];
      AlwaysMannedIff(c, w, front);
      if AlwaysManned(c, w, front) { MoveMannedIff(c, Play(c, w, front), moves[|moves| - 1]); }
    }
  }
}

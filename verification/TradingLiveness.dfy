/** The loop goes on: what ends it, in which order an iteration runs, and that it gets through. */
module TradingLiveness {
  import opened TradingLoop
  import opened TradingSafety

  // ---- what ends the loop ----

  /** Inside the `while` loop of `start`. */
  predicate InLoop(pc: Pc) {
    || pc.Top? || pc.Reconciling? || pc.InAlert? || pc.KillCheck? || pc.BreakerCheck? || pc.FeedCheck? || pc.Deciding?
    || pc.RiskCheck? || pc.EnabledCheck? || pc.ReadingBalance? || InWindow(pc) || pc.Sleeping?
  }

  /** Something is raised in the loop that `_execute_action` does not swallow. */
  predicate Escapes(s: State, choice: Choice) {
    || (choice.LoopRaises? && !InAction(s.pc) && CanRaise(s))
    || (choice.LoopStep? && s.pc.Recording? && !choice.ok)
  }

  /** The test of `is_running`, the kill check and the reconciliation, which catches its exceptions, do not raise. */
  predicate CanRaise(s: State) {
    InLoop(s.pc) && !s.pc.Reconciling? && !s.pc.InAlert? && !s.pc.KillCheck? && (s.pc.Top? ==> s.running)
  }

  /** The thread finds `is_running` cleared, finds the kill switch active, or raises. */
  predicate Ends(c: Parts, s: State, choice: Choice) {
    || (choice.LoopStep? && s.pc.Top? && !s.running)
    || KillRead(true) in Emitted(c, s, choice)
    || Escapes(s, choice)
  }

  lemma ActionStays(s: State, ok: bool, known: bool)
    requires InWindow(s.pc) || s.pc.Sleeping?
    ensures var t := ActNext(s, ok, known); if s.pc.Recording? && !ok then t.pc == Stopping else InLoop(t.pc)
  {
  }

  lemma GateStays(c: Parts, s: State, ok: bool, action: nat)
    requires InLoop(s.pc) && !InWindow(s.pc) && !s.pc.Sleeping? && !s.pc.Reconciling? && !s.pc.InAlert?
    ensures var t := GateNext(c, s, ok, action);
      if (s.pc.Top? && !s.running) || (s.pc.KillCheck? && c.kill && s.kill == Triggered) then t.pc == Stopping
      else InLoop(t.pc)
  {
  }

  lemma ReconcileStays(c: Parts, s: State, ok: bool)
    requires s.pc.Reconciling? || s.pc.InAlert?
    ensures InLoop(ReconcileNext(c, s, ok).pc)
  {
  }

  lemma OthersStay(c: Parts, s: State, choice: Choice)
    requires InLoop(s.pc) && !choice.LoopStep?
    ensures if Escapes(s, choice) then Next(c, s, choice).pc == Stopping else InLoop(Next(c, s, choice).pc)
    ensures Ends(c, s, choice) <==> Escapes(s, choice)
  {
  }

  /** A step takes a thread out of the loop, and into `stop`, exactly for one of these reasons. */
  lemma StepEndsIff(c: Parts, s: State, choice: Choice)
    requires InLoop(s.pc)
    ensures var t := Next(c, s, choice); if Ends(c, s, choice) then t.pc == Stopping else InLoop(t.pc)
  {
    if choice.LoopStep? {
      LoopStepEndsIff(c, s, choice.ok, choice.action, choice.known);
    } else {
      OthersStay(c, s, choice);
    }
  }

  lemma LoopStepEndsIff(c: Parts, s: State, ok: bool, action: nat, known: bool)
    requires InLoop(s.pc)
    ensures if Ends(c, s, LoopStep(ok, action, known)) then LoopNext(c, s, ok, action, known).pc == Stopping
            else InLoop(LoopNext(c, s, ok, action, known).pc)
  {
    if InWindow(s.pc) || s.pc.Sleeping? {
      assert LoopNext(c, s, ok, action, known) == ActNext(s, ok, known);
      ActionStays(s, ok, known);
    } else if s.pc.Reconciling? || s.pc.InAlert? {
      assert LoopNext(c, s, ok, action, known) == ReconcileNext(c, s, ok);
      ReconcileStays(c, s, ok);
    } else {
      assert LoopNext(c, s, ok, action, known) == GateNext(c, s, ok, action);
      GateStays(c, s, ok, action);
    }
  }

  predicate EndsLoop(c: Parts, w: Crew, m: Move, i: nat)
    requires i < |w.loops|
  {
    m.thread == i && Ends(c, Seen(w, i), m.choice)
  }

  predicate AlwaysInLoop(c: Parts, w: Crew, moves: seq<Move>, i: nat)
    requires i < |w.loops|
    decreases |moves|
  {
    && i < |Play(c, w, moves).loops| && InLoop(Play(c, w, moves).loops[i].pc)
    && (moves != [] ==> AlwaysInLoop(c, w, moves[..|moves| - 1], i))
  }

  predicate NeverEnds(c: Parts, w: Crew, moves: seq<Move>, i: nat)
    requires i < |w.loops|
    decreases |moves|
  {
    moves != [] ==>
      var front := moves[..|moves| - 1];
      && NeverEnds(c, w, front, i)
      && i < |Play(c, w, front).loops| && !EndsLoop(c, Play(c, w, front), moves[|moves| - 1], i)
  }

  lemma MoveEndsIff(c: Parts, w: Crew, m: Move, i: nat)
    requires i < |w.loops| && InLoop(w.loops[i].pc)
    ensures var v := Act(c, w, m);
      |v.loops| == |w.loops| && if EndsLoop(c, w, m, i) then v.loops[i].pc == Stopping else InLoop(v.loops[i].pc)
  {
    if m.thread == i { StepEndsIff(c, Seen(w, i), m.choice); }
  }

  /** Whatever the other threads do, a thread inside the loop stays there if and only if it never finds `is_running`
  cleared, never finds the kill switch active and raises nothing outside `_execute_action`. */
  lemma {:induction false} AlwaysInLoopIff(c: Parts, w: Crew, moves: seq<Move>, i: nat)
    requires i < |w.loops| && InLoop(w.loops[i].pc)
    ensures AlwaysInLoop(c, w, moves, i) <==> NeverEnds(c, w, moves, i)
    ensures NeverEnds(c, w, moves, i) ==>
      |Play(c, w, moves).loops| == |w.loops| && InLoop(Play(c, w, moves).loops[i].pc)
    decreases |moves|
  {
    CrewStays(c, w, moves);
    if moves != [] {
      var front := moves[..|moves| - 1];
      AlwaysInLoopIff(c, w, front, i);
      CrewStays(c, w, front);
      if NeverEnds(c, w, front, i) { MoveEndsIff(c, Play(c, w, front), moves[|moves| - 1], i); }
    }
  }

  // ---- the order of an iteration ----

  /** Which event comes after which, in a thread that stays in the loop. */
  predicate Follows(e: Event, f: Event) {
    match e
    case Iteration => f.Reconciled?
    case Reconciled(_) => f.KillRead?
    case KillRead(active) => !active && f.BreakerRead?
    case BreakerRead(allowed) => if allowed then f.FeedRead? else f.Iteration?
    case FeedRead(ready) => if ready then f.Proposed? else f.Iteration?
    case Proposed(_) => f.RiskRead?
    case RiskRead(_) => f.EnabledRead?
    case EnabledRead(enabled) => if enabled then f.PreTrade? || f.Swallowed? else f.Iteration?
    case PreTrade(needed, passed) => if needed && !passed then f.Reported? else f.Executed? || f.Swallowed?
    case Executed(_, _) => f.Reported? || f.Swallowed?
    case Swallowed => f.Reported?
    case Reported(_) => f.Iteration?
  }

  /** Where a thread stands whose last event was `e`. */
  predicate Stands(e: Event, pc: Pc) {
    match e
    case Iteration => pc.Reconciling?
    case Reconciled(_) => pc.InAlert? || pc.KillCheck?
    case KillRead(active) => !active && pc.BreakerCheck?
    case BreakerRead(allowed) => if allowed then pc.FeedCheck? else pc.Sleeping? || pc.Top?
    case FeedRead(ready) => if ready then pc.Deciding? else pc.Sleeping? || pc.Top?
    case Proposed(_) => pc.RiskCheck?
    case RiskRead(_) => pc.EnabledCheck?
    case EnabledRead(enabled) => if enabled then pc.ReadingBalance? || pc.Validating? else pc.Sleeping? || pc.Top?
    case PreTrade(needed, passed) => if needed && !passed then pc.Recording? else pc.ReadingFlag?
    case Executed(_, _) => pc.Executing? || pc.Recording?
    case Swallowed => pc.Recording?
    case Reported(_) => pc.Sleeping? || pc.Top?
  }

  predicate Continues(e: Event, event: seq<Event>, pc: Pc) {
    if event == [] then Stands(e, pc) else Follows(e, event[0]) && Stands(event[0], pc)
  }

  lemma ActionContinues(c: Parts, s: State, choice: Choice, e: Event)
    requires Stands(e, s.pc) && !Ends(c, s, choice) && choice.LoopStep? && (InWindow(s.pc) || s.pc.Sleeping?)
    ensures Continues(e, Emitted(c, s, choice), Next(c, s, choice).pc)
  {
    assert Next(c, s, choice) == ActNext(s, choice.ok, choice.known);
  }

  lemma GateContinues(c: Parts, s: State, choice: Choice, e: Event)
    requires Stands(e, s.pc) && !Ends(c, s, choice) && choice.LoopStep? && !InWindow(s.pc) && !s.pc.Sleeping?
    requires !s.pc.Reconciling? && !s.pc.InAlert?
    ensures Continues(e, Emitted(c, s, choice), Next(c, s, choice).pc)
  {
    assert Next(c, s, choice) == GateNext(c, s, choice.ok, choice.action);
  }

  lemma OtherContinues(c: Parts, s: State, choice: Choice, e: Event)
    requires Stands(e, s.pc) && !Ends(c, s, choice) && !choice.LoopStep?
    ensures Continues(e, Emitted(c, s, choice), Next(c, s, choice).pc)
  {
  }

  lemma StepContinues(c: Parts, s: State, choice: Choice, e: Event)
    requires Stands(e, s.pc) && !Ends(c, s, choice)
    ensures Continues(e, Emitted(c, s, choice), Next(c, s, choice).pc)
  {
    if !choice.LoopStep? {
      OtherContinues(c, s, choice, e);
    } else if InWindow(s.pc) || s.pc.Sleeping? {
      ActionContinues(c, s, choice, e);
    } else if !s.pc.Reconciling? && !s.pc.InAlert? {
      GateContinues(c, s, choice, e);
    }
  }

  predicate InOrder(log: seq<Event>) { forall k :: 0 < k < |log| ==> Follows(log[k - 1], log[k]) }

  lemma InOrderGrows(log: seq<Event>, event: seq<Event>)
    requires log != [] && InOrder(log) && |event| <= 1 && (event != [] ==> Follows(log[|log| - 1], event[0]))
    ensures InOrder(log + event)
  {
  }

  lemma MoveContinues(c: Parts, w: Crew, m: Move, i: nat, log: seq<Event>)
    requires i < |w.loops| && !EndsLoop(c, w, m, i)
    requires log != [] && InOrder(log) && Stands(log[|log| - 1], w.loops[i].pc)
    ensures var longer := log + if m.thread == i then Shown(c, w, m) else [];
      InOrder(longer) && Stands(longer[|longer| - 1], Act(c, w, m).loops[i].pc)
  {
    if m.thread == i {
      StepContinues(c, Seen(w, i), m.choice, log[|log| - 1]);
      InOrderGrows(log, Shown(c, w, m));
    } else {
      assert log + [] == log;
    }
  }

  /** While a thread stays in the loop, its events come in the order of an iteration: a closed breaker, a stale feed or
  disabled trading lead to the next iteration, open gates to the next gate, and whatever `_execute_action` does is
  followed by the report of its profit. `e` is its last event so far. */
  lemma {:induction false} IterationsInOrder(c: Parts, w: Crew, moves: seq<Move>, i: nat, e: Event)
    requires i < |w.loops| && InLoop(w.loops[i].pc) && Stands(e, w.loops[i].pc) && NeverEnds(c, w, moves, i)
    ensures |Play(c, w, moves).loops| == |w.loops|
    ensures var log := [e] + Log(c, w, moves, i);
      InOrder(log) && Stands(log[|log| - 1], Play(c, w, moves).loops[i].pc)
    decreases |moves|
  {
    CrewStays(c, w, moves);
    if moves != [] {
      var front, m := moves[..|moves| - 1], moves[|moves| - 1];
      IterationsInOrder(c, w, front, i, e);
      LastMove(c, w, moves, i);
      MoveContinues(c, Play(c, w, front), m, i, [e] + Log(c, w, front, i));
      assert [e] + Log(c, w, moves, i)
          == ([e] + Log(c, w, front, i)) + if m.thread == i then Shown(c, Play(c, w, front), m) else [];
    }
  }

  // ---- the loop gets through ----

  /** How many steps a thread is from its next iteration at most. */
  function Rank(pc: Pc): nat {
    match pc
    case Reconciling => 15
    case InAlert(_) => 14
    case KillCheck => 13
    case BreakerCheck => 12
    case FeedCheck => 11
    case Deciding => 10
    case RiskCheck(_) => 9
    case EnabledCheck(_) => 8
    case ReadingBalance(_) => 7
    case Validating(_) => 6
    case ReadingFlag(_) => 5
    case Executing(_, _, _) => 4
    case Recording => 3
    case Sleeping => 2
    case _ => 1
  }

  /** The step waits: with a critical mismatch for the kill switch's lock, or in an alert for its own handler to end. */
  predicate Waits(c: Parts, s: State, choice: Choice) {
    && s.handler.Active?
    && match s.pc
       case Reconciling => choice.LoopStep? && !choice.ok && c.oms && c.kill
       case InAlert(turn) => s.handler.turn == turn
       case _ => false
  }

  /** A step of the thread's own that does not wait. */
  predicate Advances(c: Parts, s: State, choice: Choice) { choice.LoopStep? && !Waits(c, s, choice) }

  function Advanced(c: Parts, w: Crew, moves: seq<Move>, i: nat): nat
    requires i < |w.loops|
    decreases |moves|
  {
    if moves == [] then 0
    else
      var front, m := moves[..|moves| - 1], moves[|moves| - 1];
      var mid := Play(c, w, front);
      Advanced(c, w, front, i)
      + if m.thread == i && i < |mid.loops| && Advances(c, Seen(mid, i), m.choice) then 1 else 0
  }

  function Iterations(log: seq<Event>): nat {
    if log == [] then 0 else Iterations(log[..|log| - 1]) + if log[|log| - 1].Iteration? then 1 else 0
  }

  lemma IterationsOfStep(log: seq<Event>, event: seq<Event>)
    requires |event| <= 1
    ensures Iterations(log + event) == Iterations(log) + Iterations(event)
  {
    if event == [] {
      assert log + event == log;
    } else {
      assert (log + event)[..|log + event| - 1] == log && event[..0] == [];
    }
  }

  predicate Gains(c: Parts, s: State, choice: Choice) {
    15 * Iterations(Emitted(c, s, choice)) + Rank(s.pc)
    >= (if Advances(c, s, choice) then 1 else 0) + Rank(Next(c, s, choice).pc)
  }

  lemma CountsIteration(es: seq<Event>)
    requires |es| <= 1
    ensures Iterations(es) == if es == [Iteration] then 1 else 0
  {
    if es != [] { assert es[..0] == []; }
  }

  lemma ActionGains(c: Parts, s: State, choice: Choice)
    requires choice.LoopStep? && (InWindow(s.pc) || s.pc.Sleeping?)
    ensures Gains(c, s, choice)
  {
    assert Next(c, s, choice) == ActNext(s, choice.ok, choice.known);
  }

  lemma GateGains(c: Parts, s: State, choice: Choice)
    requires choice.LoopStep? && InLoop(s.pc) && !InWindow(s.pc) && !s.pc.Sleeping? && !Ends(c, s, choice)
    ensures Gains(c, s, choice)
  {
    CountsIteration(Emitted(c, s, choice));
  }

  lemma StepGains(c: Parts, s: State, choice: Choice)
    requires InLoop(s.pc) && !Ends(c, s, choice)
    ensures Gains(c, s, choice)
  {
    if choice.LoopStep? {
      if InWindow(s.pc) || s.pc.Sleeping? { ActionGains(c, s, choice); } else { GateGains(c, s, choice); }
    }
  }

  /** In a play in which a thread stays in the loop, fifteen of its steps that do not wait begin a new iteration. */
  lemma {:induction false} LoopGetsThrough(c: Parts, w: Crew, moves: seq<Move>, i: nat)
    requires i < |w.loops| && InLoop(w.loops[i].pc) && NeverEnds(c, w, moves, i)
    ensures |Play(c, w, moves).loops| == |w.loops|
    ensures 15 * Iterations(Log(c, w, moves, i)) + Rank(w.loops[i].pc)
         >= Advanced(c, w, moves, i) + Rank(Play(c, w, moves).loops[i].pc)
    decreases |moves|
  {
    CrewStays(c, w, moves);
    if moves != [] {
      var front, m := moves[..|moves| - 1], moves[|moves| - 1];
      LoopGetsThrough(c, w, front, i);
      AlwaysInLoopIff(c, w, front, i);
      LastMove(c, w, moves, i);
      var mid := Play(c, w, front);
      ShownIsShort(c, mid, m);
      IterationsOfStep(Log(c, w, front, i), if m.thread == i then Shown(c, mid, m) else []);
      if m.thread == i { StepGains(c, Seen(mid, i), m.choice); }
    }
  }

  predicate GateCloses(e: Event) { e == BreakerRead(false) || e == FeedRead(false) || e == EnabledRead(false) }

  /** So a gate that is read as closed only skips the rest of its iteration: if the thread is not ended, its next event
  is a new iteration, and comes with its second step at the latest. */
  lemma ClosedGateOnlySkips(c: Parts, w: Crew, m: Move, moves: seq<Move>, i: nat, e: Event)
    requires i < |w.loops| && InLoop(w.loops[i].pc) && m.thread == i && Shown(c, w, m) == [e] && GateCloses(e)
    requires |Act(c, w, m).loops| == |w.loops| && NeverEnds(c, Act(c, w, m), moves, i)
    ensures var v := Act(c, w, m); var log := Log(c, v, moves, i);
      && (log != [] ==> log[0] == Iteration)
      && (Advanced(c, v, moves, i) >= 2 ==> log != [])
  {
    ClosedGateSleeps(c, Seen(w, i), m.choice, e);
    SleeperWakes(c, Act(c, w, m), moves, i, e);
  }

  lemma SleeperWakes(c: Parts, v: Crew, moves: seq<Move>, i: nat, e: Event)
    requires i < |v.loops| && v.loops[i].pc == Sleeping && GateCloses(e) && NeverEnds(c, v, moves, i)
    ensures var log := Log(c, v, moves, i);
      && (log != [] ==> log[0] == Iteration)
      && (Advanced(c, v, moves, i) >= 2 ==> log != [])
  {
    IterationsInOrder(c, v, moves, i, e);
    var log := Log(c, v, moves, i);
    if log != [] { assert ([e] + log)[1] == log[0] && ([e] + log)[0] == e; }
    LoopGetsThrough(c, v, moves, i);
  }

  lemma ClosedGateSleeps(c: Parts, s: State, choice: Choice, e: Event)
    requires InLoop(s.pc) && Emitted(c, s, choice) == [e] && GateCloses(e)
    ensures Next(c, s, choice).pc == Sleeping
  {
  }

  // ---- a triggered switch lets nobody in ----

  predicate Outside(pc: Pc) { pc.Idle? || pc.StartChecking? }

  lemma StepStaysOutside(c: Parts, s: State, choice: Choice)
    requires c.kill && s.kill == Triggered && Outside(s.pc)
    ensures Outside(Next(c, s, choice).pc)
  {
  }

  /** Until somebody resets a triggered switch, no start gets past its check, however often it is called. */
  lemma {:induction false} TriggeredRefusesStart(c: Parts, w: Crew, moves: seq<Move>, i: nat)
    requires i < |w.loops| && Latched(c, w) && NobodyResets(moves) && Outside(w.loops[i].pc)
    ensures |Play(c, w, moves).loops| == |w.loops| && Outside(Play(c, w, moves).loops[i].pc)
    decreases |moves|
  {
    CrewStays(c, w, moves);
    if moves != [] {
      var front, m := moves[..|moves| - 1], moves[|moves| - 1];
      TriggeredRefusesStart(c, w, front, i);
      KillSwitchLatches(c, w, front);
      if m.thread == i { StepStaysOutside(c, Seen(Play(c, w, front), i), m.choice); }
    }
  }
}

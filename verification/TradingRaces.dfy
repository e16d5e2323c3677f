/** Interleavings in which the controller does not do what its comments say. */
module TradingRaces {
  import opened TradingLoop
  import opened TradingSafety

  // ---- runs of one thread ----

  lemma {:induction false} RunAppend(c: Parts, s: State, xs: seq<Choice>, ys: seq<Choice>)
    ensures Run(c, s, xs + ys) == Run(c, Run(c, s, xs), ys)
    decreases |ys|
  {
    if ys == [] {
      assert xs + ys == xs;
    } else {
      var front := ys[..|ys| - 1];
      assert (xs + ys)[..|xs + ys| - 1] == xs + front;
      RunAppend(c, s, xs, front);
    }
  }

  lemma RunOne(c: Parts, s: State, choices: seq<Choice>, last: Choice)
    ensures Run(c, s, choices + [last]) == Next(c, Run(c, s, choices), last)
  {
    assert (choices + [last])[..|choices + [last]| - 1] == choices;
  }

  lemma RunTwo(c: Parts, s: State, x: Choice, y: Choice)
    ensures Run(c, s, [x, y]) == Next(c, Next(c, s, x), y)
  {
    RunOne(c, s, [], x);
    RunOne(c, s, [x], y);
    assert [] + [x] == [x] && [x] + [y] == [x, y];
  }

  // ---- the handler ----

  predicate HandlerOnly(choices: seq<Choice>) { forall x :: x in choices ==> x.HandlerStep? }

  lemma {:induction false} ClosingAlone(c: Parts, s: State, refuses: set<Ticket>) returns (choices: seq<Choice>)
    requires s.handler.Active? && s.handler.phase.Closing? && s.handler.phase.todo <= s.open
    ensures HandlerOnly(choices)
    ensures var todo, failed := s.handler.phase.todo, s.handler.phase.failed; var t := Run(c, s, choices);
      && t == s.(handler := t.handler, open := t.open)
      && t.handler == s.handler.(phase := Closed(failed + todo * refuses))
      && t.open == s.open - (todo - refuses)
    decreases s.handler.phase.todo
  {
    var todo := s.handler.phase.todo;
    var x := HandlerStep(0, false, 0.0);
    if todo != {} {
      var ticket :| ticket in todo;
      x := HandlerStep(ticket, ticket !in refuses, 0.0);
    }
    var mid := Next(c, s, x);
    assert [x][..0] == [] && Run(c, s, [x]) == mid;
    if todo == {} {
      choices := [x];
      assert s.handler.phase.failed + todo * refuses == s.handler.phase.failed;
      assert todo - refuses == {};
    } else {
      var failed, ticket := s.handler.phase.failed, x.ticket;
      var rest := ClosingAlone(c, mid, refuses);
      choices := [x] + rest;
      RunAppend(c, s, [x], rest);
      assert mid.handler.phase.failed + (todo - {ticket}) * refuses == failed + todo * refuses;
      assert mid.open - ((todo - {ticket}) - refuses) == s.open - (todo - refuses);
    }
  }

  /** A handler that runs without interruption stops the loop, lowers the flag and leaves open exactly the
  tickets that refuse to close. */
  lemma HandlerAlone(c: Parts, s: State, refuses: set<Ticket>) returns (choices: seq<Choice>)
    requires s.handler.Active? && s.handler.phase == Fired
    ensures HandlerOnly(choices)
    ensures Run(c, s, choices) == s.(handler := Free, running := false, enabled := false, open := s.open * refuses)
  {
    var x := HandlerStep(0, false, 0.0);
    var opening := [] + [x] + [x] + [x];
    RunOne(c, s, [], x);
    RunOne(c, s, [x], x);
    RunOne(c, s, [x] + [x], x);
    var mid := Run(c, s, opening);
    assert mid == s.(handler := s.handler.(phase := Closing(s.open, {})), running := false, enabled := false);
    var closing := ClosingAlone(c, mid, refuses);
    choices := opening + closing;
    RunAppend(c, s, opening, closing);
    RunOne(c, s, choices, x);
    choices := choices + [x];
    assert s.open - (s.open - refuses) == s.open * refuses;
  }

  // ---- a trigger during stop ----

  lemma TriggerDuringStop(c: Parts, s: State) returns (choices: seq<Choice>)
    requires c.kill && s.pc == StopChecking && s.kill == Armed && s.handler.Free?
    ensures choices == [LoopStep(true, 0, false), TriggerKill]
    ensures Run(c, s, choices)
         == s.(pc := Disarming, kill := Triggered, handler := Active(s.turns, Fired), turns := s.turns + 1)
  {
    choices := [LoopStep(true, 0, false), TriggerKill];
    RunTwo(c, s, LoopStep(true, 0, false), TriggerKill);
    assert Next(c, s, LoopStep(true, 0, false)) == s.(pc := Disarming);
  }

  lemma DisarmsAnyway(c: Parts, s: State)
    requires s.pc == Disarming && s.handler == Free
    ensures Next(c, s, LoopStep(true, 0, false)) == s.(pc := Idle, kill := Disabled)
  {
  }

  /** And a `stop` can come to stand there: the trigger arrives after its check, the handler runs to the
  end, and the disarm wipes the trigger out with nobody having reset it. */
  lemma TriggerLostInStop(c: Parts, s: State) returns (choices: seq<Choice>)
    requires c.kill && s.pc == StopChecking && s.kill == Armed && s.handler.Free?
    ensures ResetKill !in choices && TriggerKill in choices
    ensures Run(c, s, choices).pc == Idle && Run(c, s, choices).kill == Disabled
  {
    choices := TriggerDuringStop(c, s);
    var mid := Run(c, s, choices);
    var handling := HandlerAlone(c, mid, {});
    RunAppend(c, s, choices, handling);
    DisarmsAnyway(c, Run(c, mid, handling));
    RunOne(c, s, choices + handling, LoopStep(true, 0, false));
    choices := choices + handling + [LoopStep(true, 0, false)];
  }

  // ---- a loop thread on its way ----

  /** One step of a loop thread at which everything is in order. */
  function Go(action: nat): Choice { LoopStep(true, action, false) }

  function Times(x: Choice, n: nat): seq<Choice> { seq(n, i => x) }

  lemma TwoTimes(c: Parts, s: State, x: Choice)
    ensures Run(c, s, Times(x, 2)) == Next(c, Next(c, s, x), x)
  {
    RunTwo(c, s, x, x);
    assert Times(x, 2) == [x, x];
  }

  lemma MoreTimes(c: Parts, s: State, x: Choice, m: nat, n: nat)
    ensures Run(c, s, Times(x, m + n)) == Run(c, Run(c, s, Times(x, m)), Times(x, n))
  {
    RunAppend(c, s, Times(x, m), Times(x, n));
    assert Times(x, m + n) == Times(x, m) + Times(x, n);
  }

  lemma ThroughFirstGates(c: Parts, s: State, action: nat)
    requires s.pc == KillCheck && (c.kill ==> s.kill != Triggered)
    ensures Run(c, s, Times(Go(action), 2)) == s.(pc := FeedCheck)
  {
    TwoTimes(c, s, Go(action));
    assert Next(c, s, Go(action)) == s.(pc := BreakerCheck);
  }

  lemma ToProposal(c: Parts, s: State, action: nat)
    requires s.pc == FeedCheck
    ensures Run(c, s, Times(Go(action), 2)) == s.(pc := RiskCheck(action))
  {
    TwoTimes(c, s, Go(action));
    assert Next(c, s, Go(action)) == s.(pc := Deciding);
  }

  lemma ThroughLastGates(c: Parts, s: State, action: nat)
    requires s.pc == RiskCheck(action) && s.enabled
    ensures Run(c, s, Times(Go(action), 2)) == s.(pc := ReadingBalance(action))
  {
    TwoTimes(c, s, Go(action));
    assert Next(c, s, Go(action)) == s.(pc := EnabledCheck(action));
  }

  /** From the kill check to the first look at trading. */
  lemma ThroughGates(c: Parts, s: State, action: nat)
    requires s.pc == KillCheck && (c.kill ==> s.kill != Triggered) && s.enabled
    ensures Run(c, s, Times(Go(action), 6)) == s.(pc := ReadingBalance(action))
  {
    ThroughFirstGates(c, s, action);
    MoreTimes(c, s, Go(action), 2, 2);
    ToProposal(c, s.(pc := FeedCheck), action);
    MoreTimes(c, s, Go(action), 4, 2);
    ThroughLastGates(c, s.(pc := RiskCheck(action)), action);
  }

  lemma ToFlag(c: Parts, s: State, action: nat)
    requires s.pc == ReadingBalance(action)
    ensures Run(c, s, Times(Go(action), 2)) == s.(pc := ReadingFlag(action), previous := s.balance)
  {
    TwoTimes(c, s, Go(action));
    assert Next(c, s, Go(action)) == s.(pc := Validating(action), previous := s.balance);
  }

  lemma OneTime(c: Parts, s: State, x: Choice)
    ensures Run(c, s, Times(x, 1)) == Next(c, s, x)
  {
    assert Times(x, 1)[..0] == [];
  }

  lemma ToExecutor(c: Parts, s: State, action: nat)
    requires s.pc == ReadingBalance(action) && s.enabled
    ensures Run(c, s, Times(Go(action), 3)) == s.(pc := Executing(action, true, false), previous := s.balance)
  {
    ToFlag(c, s, action);
    MoreTimes(c, s, Go(action), 2, 1);
    OneTime(c, s.(pc := ReadingFlag(action), previous := s.balance), Go(action));
  }

  /** An iteration past its reconciliation can hand an action to the executor. */
  lemma KillCheckToExecutor(c: Parts, s: State, action: nat)
    requires s.pc == KillCheck && (c.kill ==> s.kill != Triggered) && s.enabled
    ensures Run(c, s, Times(Go(action), 6) + Times(Go(action), 3))
         == s.(pc := Executing(action, true, false), previous := s.balance)
  {
    ThroughGates(c, s, action);
    ToExecutor(c, s.(pc := ReadingBalance(action)), action);
    RunAppend(c, s, Times(Go(action), 6), Times(Go(action), 3));
  }

  // ---- a reset during an alert ----

  /** The proviso of `MismatchStopsIteration` is needed: after a reset between the alert and the kill check, the
  iteration that found the mismatch can hand any action to the executor, once somebody enables trading, although
  the handler has cleared `is_running`. */
  lemma ResetRevivesIteration(c: Parts, s: State, action: nat)
    requires c.kill && s.pc == KillCheck && s.kill == Triggered && s.handler.Free?
    ensures Run(c, s, [ResetKill, SetEnabled(true)] + (Times(Go(action), 6) + Times(Go(action), 3)))
         == s.(pc := Executing(action, true, false), kill := Armed, enabled := true, previous := s.balance)
  {
    var ready := s.(kill := Armed, enabled := true);
    RunTwo(c, s, ResetKill, SetEnabled(true));
    assert Next(c, s, ResetKill) == s.(kill := Armed);
    KillCheckToExecutor(c, ready, action);
    RunAppend(c, s, [ResetKill, SetEnabled(true)], Times(Go(action), 6) + Times(Go(action), 3));
  }

  // ---- a start during a stop ----

  lemma StopperAlone(c: Parts, s: State)
    requires s.running && s.stopper == NoStop && s.handler == Free && (c.kill ==> s.kill != Triggered)
    ensures Run(c, s, [CallStop, StopperStep] + [StopperStep, StopperStep])
         == s.(running := false, kill := if c.kill then Disabled else s.kill)
  {
    RunTwo(c, s, CallStop, StopperStep);
    assert Next(c, s, CallStop) == s.(stopper := StopperHalting);
    var mid := s.(stopper := StopperChecking, running := false);
    RunTwo(c, mid, StopperStep, StopperStep);
    assert Next(c, mid, StopperStep) == mid.(stopper := if c.kill then StopperDisarming else NoStop);
    RunAppend(c, s, [CallStop, StopperStep], [StopperStep, StopperStep]);
  }

  lemma ToStarting(c: Parts, s: State)
    requires s.pc == Idle && !s.running && (c.kill ==> s.kill != Triggered)
    ensures Run(c, s, Times(Go(0), 2)) == s.(pc := Starting)
  {
    TwoTimes(c, s, Go(0));
    assert Next(c, s, Go(0)) == s.(pc := StartChecking);
  }

  lemma StartAlone(c: Parts, s: State)
    requires s.pc == Idle && !s.running && s.handler == Free && (c.kill ==> s.kill != Triggered)
    ensures Run(c, s, Times(Go(0), 4)) == s.(pc := Top, running := true, kill := if c.kill then Armed else s.kill)
  {
    ToStarting(c, s);
    MoreTimes(c, s, Go(0), 2, 2);
    TwoTimes(c, s.(pc := Starting), Go(0));
    assert Next(c, s.(pc := Starting), Go(0)) == s.(pc := Arming, running := true);
  }

  lemma TopToExecutor(c: Parts, s: State, action: nat)
    requires s.pc == Top && s.running && s.enabled && (c.kill ==> s.kill != Triggered)
    ensures Run(c, s, Times(Go(0), 2) + (Times(Go(action), 6) + Times(Go(action), 3)))
         == s.(pc := Executing(action, true, false), previous := s.balance)
  {
    TwoTimes(c, s, Go(0));
    assert Next(c, s, Go(0)) == s.(pc := Reconciling);
    KillCheckToExecutor(c, s.(pc := KillCheck), action);
    RunAppend(c, s, Times(Go(0), 2), Times(Go(action), 6) + Times(Go(action), 3));
  }

  /** The same choices, all made by loop thread `i`. */
  function By(i: nat, choices: seq<Choice>): seq<Move> {
    seq(|choices|, k requires 0 <= k < |choices| => Move(i, choices[k]))
  }

  lemma {:induction false} OneThreadRuns(c: Parts, w: Crew, i: nat, choices: seq<Choice>)
    requires i < |w.loops|
    ensures var v := Play(c, w, By(i, choices));
      && |v.loops| == |w.loops| && Seen(v, i) == Run(c, Seen(w, i), choices)
      && forall j :: 0 <= j < |w.loops| && j != i ==> v.loops[j] == w.loops[j]
    decreases |choices|
  {
    if choices != [] {
      var front := choices[..|choices| - 1];
      OneThreadRuns(c, w, i, front);
      assert By(i, choices)[..|choices| - 1] == By(i, front);
    }
  }

  lemma {:induction false} PlayAppend(c: Parts, w: Crew, xs: seq<Move>, ys: seq<Move>)
    ensures Play(c, w, xs + ys) == Play(c, Play(c, w, xs), ys)
    decreases |ys|
  {
    if ys == [] {
      assert xs + ys == xs;
    } else {
      var front := ys[..|ys| - 1];
      assert (xs + ys)[..|xs + ys| - 1] == xs + front;
      PlayAppend(c, w, xs, front);
    }
  }

  /** Nothing is under way but loop threads, and trading is on. */
  predicate Calm(c: Parts, w: Crew) {
    && w.shared.enabled && w.shared.stopper == NoStop && w.shared.handler == Free
    && (c.kill ==> w.shared.kill != Triggered)
  }

  predicate OnlyMoved(w: Crew, v: Crew, i: nat) {
    |v.loops| == |w.loops| && forall j :: 0 <= j < |w.loops| && j != i ==> v.loops[j] == w.loops[j]
  }

  /** Nobody enables trading or resets the kill switch, and nothing raises. */
  predicate Harmless(choice: Choice) { !choice.SetEnabled? && choice != ResetKill && choice != LoopRaises }

  predicate Quiet(moves: seq<Move>) {
    forall m :: m in moves ==> Harmless(m.choice) && m.choice != TriggerKill
  }

  lemma StopStage(c: Parts, w: Crew, i: nat) returns (moves: seq<Move>)
    requires i < |w.loops| && Calm(c, w) && w.shared.running
    ensures Quiet(moves)
    ensures var v := Play(c, w, moves); Calm(c, v) && !v.shared.running && v.loops == w.loops
  {
    var choices := [CallStop, StopperStep] + [StopperStep, StopperStep];
    moves := By(i, choices);
    StopperAlone(c, Seen(w, i));
    OneThreadRuns(c, w, i, choices);
    SeenTells(c, Play(c, w, moves), i);
  }

  lemma SeenTells(c: Parts, v: Crew, i: nat)
    requires i < |v.loops|
    ensures var s := Seen(v, i);
      && v.shared.enabled == s.enabled && v.shared.stopper == s.stopper && v.shared.handler == s.handler
      && v.shared.kill == s.kill && v.shared.running == s.running
      && v.loops[i] == Local(s.pc, s.previous)
  {
  }

  lemma StartStage(c: Parts, w: Crew, j: nat) returns (moves: seq<Move>)
    requires j < |w.loops| && Calm(c, w) && !w.shared.running && w.loops[j].pc == Idle
    ensures Quiet(moves)
    ensures var v := Play(c, w, moves);
      Calm(c, v) && v.shared.running && OnlyMoved(w, v, j) && v.loops[j].pc == Top
  {
    moves := By(j, Times(Go(0), 4));
    StartAlone(c, Seen(w, j));
    OneThreadRuns(c, w, j, Times(Go(0), 4));
    SeenTells(c, Play(c, w, moves), j);
  }

  lemma WakeStage(c: Parts, w: Crew, i: nat) returns (moves: seq<Move>)
    requires i < |w.loops| && Calm(c, w) && w.shared.running && w.loops[i].pc == Sleeping
    ensures Quiet(moves)
    ensures var v := Play(c, w, moves);
      Calm(c, v) && v.shared.running && OnlyMoved(w, v, i) && v.loops[i].pc == Top
  {
    moves := By(i, Times(Go(0), 1));
    OneTime(c, Seen(w, i), Go(0));
    OneThreadRuns(c, w, i, Times(Go(0), 1));
    SeenTells(c, Play(c, w, moves), i);
  }

  lemma ActStage(c: Parts, w: Crew, i: nat, action: nat) returns (moves: seq<Move>)
    requires i < |w.loops| && Calm(c, w) && w.shared.running && w.loops[i].pc == Top
    ensures Quiet(moves)
    ensures var v := Play(c, w, moves);
      Calm(c, v) && v.shared.running && OnlyMoved(w, v, i) && v.loops[i].pc == Executing(action, true, false)
  {
    var choices := Times(Go(0), 2) + (Times(Go(action), 6) + Times(Go(action), 3));
    moves := By(i, choices);
    TopToExecutor(c, Seen(w, i), action);
    OneThreadRuns(c, w, i, choices);
    SeenTells(c, Play(c, w, moves), i);
  }

  lemma BothAct(c: Parts, w: Crew, i: nat, j: nat) returns (moves: seq<Move>)
    requires i < |w.loops| && j < |w.loops| && i != j && Calm(c, w) && w.shared.running
    requires w.loops[i].pc == Top && w.loops[j].pc == Top
    ensures Quiet(moves) && Calm(c, Play(c, w, moves)) && |Play(c, w, moves).loops| == |w.loops|
    ensures InFlight(Play(c, w, moves).loops[i].pc) && InFlight(Play(c, w, moves).loops[j].pc)
  {
    var buy := Encode(0, BUY);
    var first := ActStage(c, w, i, buy);
    var second := ActStage(c, Play(c, w, first), j, buy);
    moves := first + second;
    PlayAppend(c, w, first, second);
  }

  /** `start` checks `is_running` only once, and `stop` only clears it: if a controller is stopped and started on
  another thread while the first loop sleeps, the first loop wakes up and goes on as well, and both can have an
  opening action in the executor's hands at once. */
  lemma StopThenStartDoublesLoop(c: Parts, w: Crew, i: nat, j: nat) returns (moves: seq<Move>)
    requires i < |w.loops| && j < |w.loops| && i != j
    requires w.loops[i].pc == Sleeping && w.loops[j].pc == Idle && Calm(c, w) && w.shared.running
    ensures Quiet(moves) && Calm(c, Play(c, w, moves)) && |Play(c, w, moves).loops| == |w.loops|
    ensures InFlight(Play(c, w, moves).loops[i].pc) && InFlight(Play(c, w, moves).loops[j].pc)
  {
    var stop := StopStage(c, w, i);
    var stopped := Play(c, w, stop);
    var start := StartStage(c, stopped, j);
    var started := Play(c, stopped, start);
    var wake := WakeStage(c, started, i);
    var awake := Play(c, started, wake);
    var both := BothAct(c, awake, i, j);
    moves := stop + start + wake + both;
    PlayAppend(c, w, stop, start);
    PlayAppend(c, w, stop + start, wake);
    PlayAppend(c, w, stop + start + wake, both);
  }

  /** The kill switch fires and its handler runs to the end. */
  lemma KillStage(c: Parts, w: Crew, i: nat) returns (moves: seq<Move>)
    requires c.kill && i < |w.loops| && Calm(c, w)
    ensures forall m :: m in moves ==> m.choice == TriggerKill || m.choice.HandlerStep?
    ensures var v := Play(c, w, moves);
      && v.loops == w.loops && v.shared.kill == Triggered && v.shared.handler == Free
      && !v.shared.enabled && !v.shared.running && v.shared.open == {}
  {
    var s := Seen(w, i);
    var killed := Next(c, s, TriggerKill);
    var handling := HandlerAlone(c, killed, {});
    OneTime(c, s, TriggerKill);
    RunAppend(c, s, Times(TriggerKill, 1), handling);
    var choices := Times(TriggerKill, 1) + handling;
    moves := By(i, choices);
    OneThreadRuns(c, w, i, choices);
    SeenTells(c, Play(c, w, moves), i);
    assert killed.open * {} == {};
  }

  /** So from a single sleeping loop, without any exception, a stop, a start and a kill can leave two trades opened
  after the handler has stopped the loops, lowered the flag and closed everything. */
  lemma TwoTradesAfterKill(c: Parts, w: Crew, i: nat, j: nat) returns (before: seq<Move>, after: seq<Move>)
    requires c.kill && i < |w.loops| && j < |w.loops| && i != j
    requires w.loops[i].pc == Sleeping && w.loops[j].pc == Idle && Calm(c, w) && w.shared.running
    ensures forall m :: m in before + after ==> Harmless(m.choice)
    ensures var v := Play(c, w, before);
      && v.shared.kill == Triggered && v.shared.handler == Free && !v.shared.enabled && v.shared.open == {}
      && |Opened(v.shared, Play(c, v, after).shared)| == 2
  {
    var double := StopThenStartDoublesLoop(c, w, i, j);
    var doubled := Play(c, w, double);
    var kill := KillStage(c, doubled, i);
    before := double + kill;
    PlayAppend(c, w, double, kill);
    after := TwoInFlightOpenTwo(c, Play(c, w, before), i, j);
  }
}

/** What changes the kill switch, what a handler holds up, and what becomes of trades. */
module TradingLock {
  import opened TradingLoop
  import opened TradingSafety

  // ---- what changes the kill switch ----

  /** A handler holds the switch's lock while it runs. */
  predicate LockFree(s: State) { s.handler == Free }

  /** The step triggers the switch and starts its handler. */
  predicate Triggers(c: Parts, s: State, choice: Choice, t: State) {
    && c.kill && LockFree(s) && s.kill != Triggered
    && t.kill == Triggered && t.handler == Active(s.turns, Fired) && t.turns == s.turns + 1
    && (choice == TriggerKill || (choice.LoopStep? && s.pc == Reconciling && !choice.ok && c.oms))
  }

  /** The switch is triggered from any state but triggered, reset only from triggered, armed by a start unless
  triggered, and disarmed by a stop that has found it not triggered; every change takes the lock, and nothing else
  starts a handler. */
  lemma KillMoves(c: Parts, s: State, choice: Choice)
    ensures var t := Next(c, s, choice);
      && (t.kill != s.kill ==>
            || Triggers(c, s, choice, t)
            || (LockFree(s) && choice == ResetKill && s.kill == Triggered && t.kill == Armed)
            || (LockFree(s) && choice.LoopStep? && s.pc == Arming && s.kill != Triggered && t.kill == Armed)
            || (LockFree(s) && t.kill == Disabled
                && ((choice.LoopStep? && s.pc == Disarming) || (choice.StopperStep? && s.stopper == StopperDisarming))))
      && (t.turns != s.turns ==> Triggers(c, s, choice, t))
      && (t.handler.Active? && s.handler.Active? ==> t.handler.turn == s.handler.turn)
  {
    if choice.LoopStep? {
      LoopMovesKill(c, s, choice.ok, choice.action, choice.known);
    }
  }

  lemma LoopMovesKill(c: Parts, s: State, ok: bool, action: nat, known: bool)
    ensures var t := LoopNext(c, s, ok, action, known);
      && (t.kill != s.kill ==>
            || Triggers(c, s, LoopStep(ok, action, known), t)
            || (LockFree(s) && s.pc == Arming && s.kill != Triggered && t.kill == Armed)
            || (LockFree(s) && s.pc == Disarming && t.kill == Disabled))
      && (t.turns != s.turns || t.handler != s.handler ==> Triggers(c, s, LoopStep(ok, action, known), t))
  {
  }

  /** While a handler runs, nobody else changes the switch, not even a reset or a stop that is about to disarm it. */
  ghost predicate HandlerRuns(w: Crew, turn: nat) { w.shared.handler.Active? && w.shared.handler.turn == turn }

  ghost predicate AlwaysRuns(c: Parts, w: Crew, moves: seq<Move>, turn: nat)
    decreases |moves|
  {
    HandlerRuns(Play(c, w, moves), turn) && (moves != [] ==> AlwaysRuns(c, w, moves[..|moves| - 1], turn))
  }

  lemma {:induction false} HandlerHoldsLock(c: Parts, w: Crew, moves: seq<Move>, turn: nat)
    requires AlwaysRuns(c, w, moves, turn)
    ensures Play(c, w, moves).shared.kill == w.shared.kill && Play(c, w, moves).shared.turns == w.shared.turns
    decreases |moves|
  {
    if moves != [] {
      var front, m := moves[..|moves| - 1], moves[|moves| - 1];
      HandlerHoldsLock(c, w, front, turn);
      var mid := Play(c, w, front);
      if m.thread < |mid.loops| { KillMoves(c, Seen(mid, m.thread), m.choice); }
    }
  }

  lemma MoveTriggersOnce(c: Parts, w: Crew, m: Move)
    requires Latched(c, w) && m.choice != ResetKill
    ensures Act(c, w, m).shared.turns == w.shared.turns
  {
    if m.thread < |w.loops| { KillMoves(c, Seen(w, m.thread), m.choice); }
  }

  /** A triggered switch that nobody resets is not triggered again: its handler runs just once. */
  lemma {:induction false} OneHandlerPerTrigger(c: Parts, w: Crew, moves: seq<Move>)
    requires Latched(c, w) && NobodyResets(moves)
    ensures Play(c, w, moves).shared.turns == w.shared.turns
    decreases |moves|
  {
    if moves != [] {
      var front := moves[..|moves| - 1];
      OneHandlerPerTrigger(c, w, front);
      KillSwitchLatches(c, w, front);
      MoveTriggersOnce(c, Play(c, w, front), moves[|moves| - 1]);
    }
  }

  // ---- a thread in an alert ----

  lemma StepInAlert(c: Parts, s: State, choice: Choice, turn: nat)
    requires s.pc == InAlert(turn) && s.handler.Active? && s.handler.turn == turn
    ensures Next(c, s, choice).pc == InAlert(turn)
  {
  }

  /** A thread whose alert has triggered the switch runs the handler itself: it is in the alert until that handler has
  ended. */
  lemma {:induction false} AlertRunsHandler(c: Parts, w: Crew, moves: seq<Move>, i: nat, turn: nat)
    requires i < |w.loops| && w.loops[i].pc == InAlert(turn) && AlwaysRuns(c, w, moves, turn)
    ensures |Play(c, w, moves).loops| == |w.loops| && Play(c, w, moves).loops[i].pc == InAlert(turn)
    decreases |moves|
  {
    CrewStays(c, w, moves);
    if moves != [] {
      var front, m := moves[..|moves| - 1], moves[|moves| - 1];
      AlertRunsHandler(c, w, front, i, turn);
      AlwaysRunsBefore(c, w, front, turn);
      if m.thread == i { StepInAlert(c, Seen(Play(c, w, front), i), m.choice, turn); }
    }
  }

  lemma AlwaysRunsBefore(c: Parts, w: Crew, moves: seq<Move>, turn: nat)
    requires AlwaysRuns(c, w, moves, turn)
    ensures HandlerRuns(Play(c, w, moves), turn)
  {
  }

  // ---- stopping what has stopped ----

  /** Nothing runs and nothing is being stopped or handled; threads are outside or on their way into `stop`. */
  ghost predicate AtRest(w: Crew) {
    && !w.shared.running && w.shared.handler == Free && w.shared.stopper == NoStop
    && forall i :: 0 <= i < |w.loops| ==> w.loops[i].pc == Idle || w.loops[i].pc == Stopping
  }

  /** Calls of `stop`, steps in it, and the threads' own way out of it. */
  predicate OnlyStops(moves: seq<Move>) {
    forall m :: m in moves ==> m.choice == CallStop || m.choice == StopperStep || (m.choice.LoopStep? && !m.choice.ok)
  }

  /** Stopping is idempotent: at rest it changes neither the kill switch nor anything else, but that threads leave. */
  lemma {:induction false} StoppingAgainDoesNothing(c: Parts, w: Crew, moves: seq<Move>)
    requires AtRest(w) && OnlyStops(moves)
    ensures AtRest(Play(c, w, moves))
    ensures Play(c, w, moves).shared.(pc := w.shared.pc, previous := w.shared.previous) == w.shared
    decreases |moves|
  {
    if moves != [] {
      var front := moves[..|moves| - 1];
      StoppingAgainDoesNothing(c, w, front);
      assert moves[|moves| - 1] in moves;
    }
  }

  // ---- trades ----

  /** The step closes this ticket: a CLOSE in the executor's hands, or the handler on its way through its snapshot. */
  predicate Shuts(s: State, choice: Choice, ticket: Ticket) {
    && ticket in s.open
    && match choice
       case ExecutorCloses(t, _) => t == ticket && s.pc.Executing? && s.pc.action > 0 && s.pc.action % 3 == 0
       case HandlerStep(t, closed, _) =>
         t == ticket && closed && s.handler.Active? && s.handler.phase.Closing? && t in s.handler.phase.todo
       case _ => false
  }

  /** The step opens this ticket: a BUY or SELL in the executor's hands, handed over with the flag up, opens one. */
  predicate Launches(s: State, choice: Choice, ticket: Ticket) {
    && ticket !in s.issued
    && choice.ExecutorOpens? && choice.ticket == ticket
    && s.pc.Executing? && s.pc.action > 0 && s.pc.action % 3 != 0 && s.pc.flag && !s.pc.spent
  }

  function Ticket0(choice: Choice): Ticket {
    match choice
    case ExecutorOpens(t, _) => t
    case ExecutorCloses(t, _) => t
    case HandlerStep(t, _, _) => t
    case _ => 0
  }

  lemma ThreeActions(action: nat)
    requires action > 0
    ensures Closes(action) <==> action % 3 == 0
    ensures Opens(action) <==> action % 3 != 0
  {
    assert action == 3 * PairOf(action) + (OffsetOf(action) + 1);
  }

  lemma StepTrades(c: Parts, s: State, choice: Choice)
    ensures var t, x := Next(c, s, choice), Ticket0(choice);
      && t.open == (if Launches(s, choice, x) then s.open + {x}
                    else if Shuts(s, choice, x) then s.open - {x} else s.open)
      && t.issued == if Launches(s, choice, x) then s.issued + {x} else s.issued
  {
    if s.pc.Executing? && s.pc.action > 0 { ThreeActions(s.pc.action); }
    match choice
    case ExecutorOpens(_, _) =>
    case ExecutorCloses(_, _) =>
    case HandlerStep(_, _, _) =>
    case _ =>
  }

  /** The tickets opened in a play, and those closed. */
  function Launched(c: Parts, w: Crew, moves: seq<Move>): set<Ticket>
    decreases |moves|
  {
    if moves == [] then {}
    else
      var front, m := moves[..|moves| - 1], moves[|moves| - 1];
      var mid := Play(c, w, front);
      Launched(c, w, front)
      + if m.thread < |mid.loops| && Launches(Seen(mid, m.thread), m.choice, Ticket0(m.choice)) then {Ticket0(m.choice)}
        else {}
  }

  function Shut(c: Parts, w: Crew, moves: seq<Move>): set<Ticket>
    decreases |moves|
  {
    if moves == [] then {}
    else
      var front, m := moves[..|moves| - 1], moves[|moves| - 1];
      var mid := Play(c, w, front);
      Shut(c, w, front)
      + if m.thread < |mid.loops| && Shuts(Seen(mid, m.thread), m.choice, Ticket0(m.choice)) then {Ticket0(m.choice)}
        else {}
  }

  /** Over any play, what is open is what was open and what a BUY or SELL with the flag up has opened, without what a
  CLOSE or the handler has closed; and no ticket is issued twice. */
  lemma {:induction false} TradesAreConserved(c: Parts, w: Crew, moves: seq<Move>)
    requires w.shared.open <= w.shared.issued
    ensures var v := Play(c, w, moves);
      && v.shared.issued == w.shared.issued + Launched(c, w, moves)
      && Launched(c, w, moves) !! w.shared.issued
      && v.shared.open == (w.shared.open + Launched(c, w, moves)) - Shut(c, w, moves)
      && v.shared.open <= v.shared.issued && Shut(c, w, moves) <= v.shared.issued
    decreases |moves|
  {
    if moves != [] {
      var front, m := moves[..|moves| - 1], moves[|moves| - 1];
      TradesAreConserved(c, w, front);
      var mid := Play(c, w, front);
      if m.thread < |mid.loops| { StepTrades(c, Seen(mid, m.thread), m.choice); }
    }
  }
}

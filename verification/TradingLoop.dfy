/** The trading controller as a state machine over its threads.

Loop threads run `start`; the kill-switch callback, another thread in `stop`, the flag toggles and the broker
run beside them. A choice reads or writes at most one of the variables `is_running`, `trading_enabled` and
the kill switch's state; an operation of the kill switch holds its lock and is one choice, and a trade changes
the open tickets and the balance together. So a list of choices is one interleaving. `Run` executes it for a
single loop thread, and `Play` for any number of them: `start` looks at `is_running` only once, so a second
thread can enter while the first is still inside.
*/
module TradingLoop {

  type Ticket = nat

  /** Which of the optional safety components the controller was given. */
  datatype Parts = Parts(kill: bool, breaker: bool, oms: bool)

  datatype KillState = Disabled | Armed | Triggered

  /** Where the loop thread stands; an argument is a local variable of the Python code. */
  datatype Pc =
    | Idle
    | StartChecking
    | Starting
    | Arming
    | Top
    | Reconciling
    | InAlert(turn: nat)
    | KillCheck
    | BreakerCheck
    | FeedCheck
    | Deciding
    | RiskCheck(action: nat)
    | EnabledCheck(action: nat)
    | ReadingBalance(action: nat)
    | Validating(action: nat)
    | ReadingFlag(action: nat)
    | Executing(action: nat, flag: bool, spent: bool)
    | Recording
    | Sleeping
    | Stopping
    | Halting
    | StopChecking
    | Disarming

  /** The progress of `KillSwitch.trigger` and its callback; it holds the kill switch's lock throughout. */
  datatype Phase =
    | Fired
    | RunCleared
    | FlagCleared
    | Closing(todo: set<Ticket>, failed: set<Ticket>)
    | Closed(failed: set<Ticket>)

  /** Triggers are numbered; a loop thread that triggers the switch out of an OMS alert runs that handler itself
  and goes on when it has ended. */
  datatype Handler = Free | Active(turn: nat, phase: Phase)

  /** A second thread inside `stop`. */
  datatype Stopper = NoStop | StopperHalting | StopperChecking | StopperDisarming

  datatype State = State(
    pc: Pc,
    handler: Handler,
    turns: nat,
    stopper: Stopper,
    kill: KillState,
    running: bool,
    enabled: bool,
    open: set<Ticket>,
    issued: set<Ticket>,
    balance: real,
    previous: real)

  /** The scheduler's and the environment's choices. */
  datatype Choice =
    | LoopStep(ok: bool, action: nat, known: bool)
    | LoopRaises
    | ExecutorOpens(ticket: Ticket, profit: real)
    | ExecutorCloses(ticket: Ticket, profit: real)
    | HandlerStep(ticket: Ticket, closed: bool, profit: real)
    | TriggerKill
    | ResetKill
    | SetEnabled(value: bool)
    | CallStop
    | StopperStep
    | BalanceMoves(profit: real)

  // ---- the action code: 0 is HOLD, 1 + 3 * pair + offset otherwise ----

  const BUY := 0
  const SELL := 1
  const CLOSE := 2

  function Encode(pair: nat, offset: nat): nat { 1 + (pair * 3 + offset) }

  function PairOf(action: nat): nat requires action != 0 { (action - 1) / 3 }

  function OffsetOf(action: nat): nat requires action != 0 { (action - 1) % 3 }

  predicate Opens(action: nat) { action != 0 && OffsetOf(action) != CLOSE }

  predicate Closes(action: nat) { action != 0 && OffsetOf(action) == CLOSE }

  // ---- the loop thread ----

  function StartNext(c: Parts, s: State, called: bool): (t: State)
    ensures t == s.(pc := t.pc, running := t.running, kill := t.kill)
  {
    match s.pc
    case Idle => if called && !s.running then s.(pc := StartChecking) else s
    case StartChecking => s.(pc := if c.kill && s.kill == Triggered then Idle else Starting)
    case Starting => s.(pc := Arming, running := true)
    case Arming =>
      if !c.kill then s.(pc := Top)
      else if s.handler.Active? then s
      else s.(pc := Top, kill := if s.kill == Triggered then Triggered else Armed)
    case _ => s
  }

  /** A critical mismatch calls `trigger` on this thread: it waits for the lock, and returns at once when
  the switch has already been triggered. */
  function ReconcileNext(c: Parts, s: State, ok: bool): (t: State)
    ensures t == s.(pc := t.pc, handler := t.handler, turns := t.turns, kill := t.kill)
  {
    match s.pc
    case Reconciling =>
      if ok || !c.oms || !c.kill then s.(pc := KillCheck)
      else if s.handler.Active? then s
      else if s.kill == Triggered then s.(pc := KillCheck)
      else s.(pc := InAlert(s.turns), kill := Triggered, handler := Active(s.turns, Fired), turns := s.turns + 1)
    case InAlert(turn) => if s.handler.Active? && s.handler.turn == turn then s else s.(pc := KillCheck)
    case _ => s
  }

  function GateNext(c: Parts, s: State, ok: bool, action: nat): (t: State)
    ensures t == s.(pc := t.pc, previous := t.previous)
  {
    match s.pc
    case Top => s.(pc := if s.running then Reconciling else Stopping)
    case KillCheck => s.(pc := if c.kill && s.kill == Triggered then Stopping else BreakerCheck)
    case BreakerCheck => s.(pc := if c.breaker && !ok then Sleeping else FeedCheck)
    case FeedCheck => s.(pc := if ok then Deciding else Sleeping)
    case Deciding => s.(pc := RiskCheck(action))
    case RiskCheck(a) => s.(pc := EnabledCheck(if ok then a else 0))
    case EnabledCheck(a) => s.(pc := if s.enabled then ReadingBalance(a) else Sleeping)
    case ReadingBalance(a) => s.(pc := Validating(a), previous := s.balance)
    case _ => s
  }

  /** `_execute_action` and the report to the breaker. */
  function ActNext(s: State, ok: bool, known: bool): (t: State)
    ensures t == s.(pc := t.pc)
  {
    match s.pc
    case Validating(a) => s.(pc := if a != 0 && known && !ok then Recording else ReadingFlag(a))
    case ReadingFlag(a) => s.(pc := Executing(a, s.enabled, false))
    case Executing(_, _, _) => s.(pc := Recording)
    case Recording => s.(pc := if ok then Sleeping else Stopping)
    case Sleeping => s.(pc := Top)
    case _ => s
  }

  function StopNext(c: Parts, s: State): (t: State)
    ensures t == s.(pc := t.pc, running := t.running, kill := t.kill)
  {
    match s.pc
    case Stopping => s.(pc := if s.running then Halting else Idle)
    case Halting => s.(pc := StopChecking, running := false)
    case StopChecking => s.(pc := if c.kill && s.kill != Triggered then Disarming else Idle)
    case Disarming => if s.handler.Active? then s else s.(pc := Idle, kill := Disabled)
    case _ => s
  }

  function LoopNext(c: Parts, s: State, ok: bool, action: nat, known: bool): (t: State)
    ensures t.open == s.open && t.issued == s.issued && t.balance == s.balance && t.enabled == s.enabled
    ensures t.stopper == s.stopper
  {
    if s.pc.Idle? || s.pc.StartChecking? || s.pc.Starting? || s.pc.Arming? then StartNext(c, s, ok)
    else if s.pc.Reconciling? || s.pc.InAlert? then ReconcileNext(c, s, ok)
    else if s.pc.Stopping? || s.pc.Halting? || s.pc.StopChecking? || s.pc.Disarming? then StopNext(c, s)
    else if InWindow(s.pc) || s.pc.Sleeping? then ActNext(s, ok, known)
    else GateNext(c, s, ok, action)
  }

  /** An exception. Up to the executor's return `_execute_action` swallows it; elsewhere in the loop it leaves
  through `finally: self.stop()`; before the loop it leaves `start` at once. */
  function LoopFails(s: State): (t: State)
    ensures t == s.(pc := t.pc)
  {
    match s.pc
    case Validating(_) | ReadingFlag(_) | Executing(_, _, _) => s.(pc := Recording)
    case Top => if s.running then s.(pc := Stopping) else s
    case BreakerCheck | FeedCheck | Deciding | RiskCheck(_) | EnabledCheck(_) => s.(pc := Stopping)
    case ReadingBalance(_) | Recording | Sleeping => s.(pc := Stopping)
    case Arming => s.(pc := Idle)
    case _ => s
  }

  /** The loop has read `previous_balance` and not yet reported the new balance. */
  predicate InWindow(pc: Pc) { pc.Validating? || pc.ReadingFlag? || pc.Executing? || pc.Recording? }

  // ---- the other threads ----

  function HandlerNext(s: State, ticket: Ticket, closed: bool, profit: real): (t: State)
    ensures t == s.(handler := t.handler, running := t.running, enabled := t.enabled, open := t.open,
                    balance := t.balance)
    ensures t.open <= s.open && (s.enabled || !t.enabled) && (s.running || !t.running)
  {
    if s.handler.Free? then s else
    match s.handler.phase
    case Fired => s.(running := false, handler := s.handler.(phase := RunCleared))
    case RunCleared => s.(enabled := false, handler := s.handler.(phase := FlagCleared))
    case FlagCleared => s.(handler := s.handler.(phase := Closing(s.open, {})))
    case Closing(todo, failed) =>
      if todo == {} then s.(handler := s.handler.(phase := Closed(failed)))
      else if ticket !in todo then s
      else if closed && ticket in s.open then
        s.(balance := s.balance + profit,
           open := s.open - {ticket},
           handler := s.handler.(phase := Closing(todo - {ticket}, failed)))
      else s.(handler := s.handler.(phase := Closing(todo - {ticket}, failed + {ticket})))
    case Closed(_) => s.(handler := Free)
  }

  function StopperNext(c: Parts, s: State): (t: State)
    ensures t == s.(stopper := t.stopper, running := t.running, kill := t.kill)
  {
    match s.stopper
    case NoStop => s
    case StopperHalting => s.(stopper := StopperChecking, running := false)
    case StopperChecking => s.(stopper := if c.kill && s.kill != Triggered then StopperDisarming else NoStop)
    case StopperDisarming => if s.handler.Active? then s else s.(stopper := NoStop, kill := Disabled)
  }

  predicate CanOpen(s: State, ticket: Ticket) {
    s.pc.Executing? && Opens(s.pc.action) && s.pc.flag && !s.pc.spent && ticket !in s.issued
  }

  predicate CanClose(s: State, ticket: Ticket) {
    s.pc.Executing? && Closes(s.pc.action) && ticket in s.open
  }

  /** A choice that the state does not allow changes nothing. */
  function Next(c: Parts, s: State, choice: Choice): State {
    match choice
    case LoopStep(ok, action, known) => LoopNext(c, s, ok, action, known)
    case LoopRaises => LoopFails(s)
    case ExecutorOpens(t, profit) =>
      if CanOpen(s, t)
      then s.(balance := s.balance + profit, open := s.open + {t}, issued := s.issued + {t}, pc := s.pc.(spent := true))
      else s
    case ExecutorCloses(t, profit) =>
      if CanClose(s, t) then s.(balance := s.balance + profit, open := s.open - {t}) else s
    case HandlerStep(t, closed, profit) => HandlerNext(s, t, closed, profit)
    case TriggerKill =>
      if c.kill && s.handler.Free? && s.kill != Triggered
      then s.(kill := Triggered, handler := Active(s.turns, Fired), turns := s.turns + 1)
      else s
    case ResetKill =>
      if c.kill && s.handler.Free? && s.kill == Triggered then s.(kill := Armed) else s
    case SetEnabled(value) => s.(enabled := value)
    case CallStop =>
      if s.stopper.NoStop? && s.running then s.(stopper := StopperHalting) else s
    case StopperStep => StopperNext(c, s)
    case BalanceMoves(profit) => s.(balance := s.balance + profit)
  }

  function Run(c: Parts, s: State, choices: seq<Choice>): State
    decreases |choices|
  {
    if choices == [] then s
    else Next(c, Run(c, s, choices[..|choices| - 1]), choices[|choices| - 1])
  }

  /** A controller just constructed; tickets may already be open at the broker. */
  predicate Initial(s: State) {
    && s.pc == Idle
    && s.handler == Free
    && s.stopper == NoStop
    && s.kill != Triggered
    && !s.running
    && s.open <= s.issued
  }

  // ---- the trace ----

  /** What the loop thread sees and does, in order. */
  datatype Event =
    | Iteration
    | Reconciled(critical: bool)
    | KillRead(active: bool)
    | BreakerRead(allowed: bool)
    | FeedRead(ready: bool)
    | Proposed(action: nat)
    | RiskRead(canTrade: bool)
    | EnabledRead(enabled: bool)
    | PreTrade(needed: bool, passed: bool)
    | Executed(action: nat, flag: bool)
    | Swallowed
    | Reported(profit: real)

  /** `_execute_action` is under way; it swallows what is raised inside. */
  predicate InAction(pc: Pc) { pc.Validating? || pc.ReadingFlag? || pc.Executing? }

  /** The event of one step of the loop thread, if the step is an event. */
  function Emitted(c: Parts, s: State, choice: Choice): (es: seq<Event>)
    ensures |es| <= 1
  {
    if choice.LoopRaises? then if InAction(s.pc) then [Swallowed] else []
    else if !choice.LoopStep? then [] else
    match s.pc
    case Top => if s.running then [Iteration] else []
    case Reconciling =>
      if LoopNext(c, s, choice.ok, 0, false) == s then [] else [Reconciled(!choice.ok && c.oms && c.kill)]
    case KillCheck => [KillRead(c.kill && s.kill == Triggered)]
    case BreakerCheck => [BreakerRead(!c.breaker || choice.ok)]
    case FeedCheck => [FeedRead(choice.ok)]
    case Deciding => [Proposed(choice.action)]
    case RiskCheck(_) => [RiskRead(choice.ok)]
    case EnabledCheck(_) => [EnabledRead(s.enabled)]
    case Validating(a) => [PreTrade(a != 0 && choice.known, choice.ok)]
    case ReadingFlag(a) => [Executed(a, s.enabled)]
    case Recording => [Reported(s.balance - s.previous)]
    case _ => []
  }

  // ---- any number of loop threads ----

  /** The part of the state that a loop thread keeps to itself. */
  datatype Local = Local(pc: Pc, previous: real)

  /** `shared` without its own `pc` and `previous`. */
  datatype Crew = Crew(shared: State, loops: seq<Local>)

  /** The state as loop thread `i` sees it. */
  function Seen(w: Crew, i: nat): State
    requires i < |w.loops|
  {
    w.shared.(pc := w.loops[i].pc, previous := w.loops[i].previous)
  }

  /** A choice, with the loop thread that acts, if the choice is a loop thread's. */
  datatype Move = Move(thread: nat, choice: Choice)

  function Act(c: Parts, w: Crew, m: Move): Crew {
    if m.thread >= |w.loops| then w
    else
      var t := Next(c, Seen(w, m.thread), m.choice);
      Crew(t, w.loops[m.thread := Local(t.pc, t.previous)])
  }

  function Play(c: Parts, w: Crew, moves: seq<Move>): Crew
    decreases |moves|
  {
    if moves == [] then w else Act(c, Play(c, w, moves[..|moves| - 1]), moves[|moves| - 1])
  }

  function Shown(c: Parts, w: Crew, m: Move): seq<Event> {
    if m.thread >= |w.loops| then [] else Emitted(c, Seen(w, m.thread), m.choice)
  }

  /** What all loop threads see and do. */
  function Trace(c: Parts, w: Crew, moves: seq<Move>): seq<Event>
    decreases |moves|
  {
    if moves == [] then []
    else
      var front, last := moves[..|moves| - 1], moves[|moves| - 1];
      Trace(c, w, front) + Shown(c, Play(c, w, front), last)
  }

  /** What loop thread `i` sees and does. */
  function Log(c: Parts, w: Crew, moves: seq<Move>, i: nat): seq<Event>
    decreases |moves|
  {
    if moves == [] then []
    else
      var front, last := moves[..|moves| - 1], moves[|moves| - 1];
      Log(c, w, front, i) + if last.thread == i then Shown(c, Play(c, w, front), last) else []
  }

  /** One loop thread alone. */
  function Solo(s: State): Crew { Crew(s, [Local(s.pc, s.previous)]) }

  function Moves(choices: seq<Choice>): seq<Move> {
    seq(|choices|, i requires 0 <= i < |choices| => Move(0, choices[i]))
  }

  /** A run of one loop thread is the play of a crew of one. */
  lemma {:induction false} RunIsPlay(c: Parts, s: State, choices: seq<Choice>)
    ensures Play(c, Solo(s), Moves(choices)) == Solo(Run(c, s, choices))
    decreases |choices|
  {
    if choices != [] {
      var front := choices[..|choices| - 1];
      RunIsPlay(c, s, front);
      assert Moves(choices)[..|choices| - 1] == Moves(front);
      assert Seen(Solo(Run(c, s, front)), 0) == Run(c, s, front);
    }
  }
}

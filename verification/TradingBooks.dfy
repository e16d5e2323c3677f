/** The profits that the loop records with the circuit breaker, for a single loop thread. */
module TradingBooks {
  import opened TradingLoop

  function Sum(xs: seq<real>): real {
    if xs == [] then 0.0 else Sum(xs[..|xs| - 1]) + xs[|xs| - 1]
  }

  /** The breaker's books: the balance it was initialised with, the profits recorded since, and the last
  balance reported. */
  datatype Books = Books(base: real, recorded: seq<real>, reported: real)

  function Opening(s: State): Books { Books(s.balance, [], s.balance) }

  /** The breaker is told the profit since the loop read `previous_balance`, and the balance. */
  predicate Reports(c: Parts, s: State, choice: Choice) { s.pc.Recording? && choice.LoopStep? && c.breaker }

  function Entry(c: Parts, b: Books, s: State, choice: Choice): Books {
    if s.pc.Starting? && choice.LoopStep? then Opening(s)
    else if Reports(c, s, choice) then b.(recorded := b.recorded + [s.balance - s.previous], reported := s.balance)
    else b
  }

  function Account(c: Parts, s: State, choices: seq<Choice>): Books
    decreases |choices|
  {
    if choices == [] then Opening(s)
    else
      var front := choices[..|choices| - 1];
      Entry(c, Account(c, s, front), Run(c, s, front), choices[|choices| - 1])
  }

  /** The books explain the balance: the one at the start of the current window, if there is one, is the initial
  balance and all recorded profits, and so is the last one reported. */
  predicate Balanced(b: Books, s: State) {
    && (if InWindow(s.pc) then s.previous else s.balance) == b.base + Sum(b.recorded)
    && b.reported == b.base + Sum(b.recorded)
  }

  /** Outside a window the step leaves the balance alone, and a window is not left without its report if the
  balance has moved. */
  predicate Steady(c: Parts, s: State, choice: Choice) {
    var t := Next(c, s, choice);
    if !InWindow(s.pc) then t.balance == s.balance
    else InWindow(t.pc) || Reports(c, s, choice) || t.balance == s.previous
  }

  predicate WindowStep(s: State, t: State) {
    InWindow(t.pc) ==> if InWindow(s.pc) then t.previous == s.previous else t.previous == t.balance == s.balance
  }

  lemma LoopWindow(c: Parts, s: State, ok: bool, action: nat, known: bool)
    ensures var t := LoopNext(c, s, ok, action, known);
      WindowStep(s, t) && (s.pc.Starting? || s.pc.Recording? ==> t.balance == s.balance && !InWindow(t.pc))
  {
    if InWindow(s.pc) {
      assert LoopNext(c, s, ok, action, known) == ActNext(s, ok, known);
    } else if s.pc.ReadingBalance? {
      assert LoopNext(c, s, ok, action, known) == GateNext(c, s, ok, action);
    } else {
      NoWindowElsewhere(c, s, ok, action, known);
    }
  }

  lemma NoWindowAtEnds(c: Parts, s: State, called: bool)
    requires !InWindow(s.pc)
    ensures !InWindow(StartNext(c, s, called).pc) && !InWindow(StopNext(c, s).pc)
  {
  }

  lemma NoWindowBefore(c: Parts, s: State, ok: bool, action: nat)
    requires !InWindow(s.pc) && !s.pc.ReadingBalance?
    ensures !InWindow(ReconcileNext(c, s, ok).pc) && !InWindow(GateNext(c, s, ok, action).pc)
  {
  }

  lemma NoWindowElsewhere(c: Parts, s: State, ok: bool, action: nat, known: bool)
    requires !InWindow(s.pc) && !s.pc.ReadingBalance?
    ensures !InWindow(LoopNext(c, s, ok, action, known).pc)
  {
    NoWindowAtEnds(c, s, ok);
    NoWindowBefore(c, s, ok, action);
    assert s.pc.Sleeping? ==> ActNext(s, ok, known).pc == Top;
  }

  lemma OthersKeepWindow(c: Parts, s: State, choice: Choice)
    requires !choice.LoopStep?
    ensures WindowStep(s, Next(c, s, choice))
  {
    var t := Next(c, s, choice);
    assert t.previous == s.previous && (InWindow(t.pc) ==> InWindow(s.pc));
  }

  lemma WindowOpensAndCloses(c: Parts, s: State, choice: Choice)
    ensures WindowStep(s, Next(c, s, choice))
    ensures choice.LoopStep? && (s.pc.Starting? || s.pc.Recording?) ==>
      Next(c, s, choice).balance == s.balance && !InWindow(Next(c, s, choice).pc)
  {
    if choice.LoopStep? {
      LoopWindow(c, s, choice.ok, choice.action, choice.known);
    } else {
      OthersKeepWindow(c, s, choice);
    }
  }

  lemma EntryBalancesIff(c: Parts, b: Books, s: State, choice: Choice)
    requires Balanced(b, s)
    ensures Balanced(Entry(c, b, s, choice), Next(c, s, choice)) <==> Steady(c, s, choice)
  {
    WindowOpensAndCloses(c, s, choice);
    var profit := s.balance - s.previous;
    assert (b.recorded + [profit])[..|b.recorded|] == b.recorded;
    assert Sum(b.recorded + [profit]) == Sum(b.recorded) + profit;
  }

  /** After every step of the run. */
  predicate AlwaysBalanced(c: Parts, s: State, choices: seq<Choice>)
    decreases |choices|
  {
    && Balanced(Account(c, s, choices), Run(c, s, choices))
    && (choices != [] ==> AlwaysBalanced(c, s, choices[..|choices| - 1]))
  }

  predicate AlwaysSteady(c: Parts, s: State, choices: seq<Choice>)
    decreases |choices|
  {
    choices != [] ==>
      var front := choices[..|choices| - 1];
      AlwaysSteady(c, s, front) && Steady(c, Run(c, s, front), choices[|choices| - 1])
  }

  /** The books balance throughout a run if and only if the balance moves only between the loop's two reads of it
  and every window in which it moves is reported, whatever raises and is swallowed inside. Then the initial
  balance and all recorded profits make up the last balance reported. */
  lemma {:induction false} RecordedProfitTelescopesIff(c: Parts, s: State, choices: seq<Choice>)
    requires Initial(s)
    ensures AlwaysBalanced(c, s, choices) <==> AlwaysSteady(c, s, choices)
    ensures AlwaysSteady(c, s, choices) ==>
      var b := Account(c, s, choices); b.reported == b.base + Sum(b.recorded)
    decreases |choices|
  {
    if choices != [] {
      var front := choices[..|choices| - 1];
      RecordedProfitTelescopesIff(c, s, front);
      if AlwaysBalanced(c, s, front) {
        EntryBalancesIff(c, Account(c, s, front), Run(c, s, front), choices[|choices| - 1]);
      }
    }
  }

  // ---- errors ----

  /** The part of an iteration inside the loop's own `try`. */
  predicate Trading(pc: Pc) { pc.ReadingBalance? || InWindow(pc) }

  /** `_execute_action` has a handler of its own, which records the error and swallows it. */
  predicate InnerCatches(s: State, choice: Choice) { choice.LoopRaises? && InAction(s.pc) }

  /** What is raised after the trade has been reported. */
  predicate RaisesLate(s: State, choice: Choice) { choice.LoopStep? && s.pc.Recording? && !choice.ok }

  /** The handler around it records the error and raises it again. */
  predicate OuterCatches(s: State, choice: Choice) {
    (choice.LoopRaises? && (s.pc.ReadingBalance? || s.pc.Recording?)) || RaisesLate(s, choice)
  }

  /** How often the breaker is told of an error. */
  function ErrorsRecorded(c: Parts, s: State, choices: seq<Choice>): nat
    decreases |choices|
  {
    if choices == [] || !c.breaker then 0
    else
      var front, last := choices[..|choices| - 1], choices[|choices| - 1];
      var now := Run(c, s, front);
      ErrorsRecorded(c, s, front)
      + (if InnerCatches(now, last) then 1 else 0) + (if OuterCatches(now, last) then 1 else 0)
  }

  /** How often something raises while the loop trades. */
  function ErrorsRaised(c: Parts, s: State, choices: seq<Choice>): nat
    decreases |choices|
  {
    if choices == [] then 0
    else
      var front, last := choices[..|choices| - 1], choices[|choices| - 1];
      var now := Run(c, s, front);
      ErrorsRaised(c, s, front) + if (last.LoopRaises? && Trading(now.pc)) || RaisesLate(now, last) then 1 else 0
  }

  /** Over any run the breaker is told of each error exactly once, whichever handler meets it: the inner one lets the
  iteration go on to its report, and the outer one ends the loop. */
  lemma {:induction false} ErrorsRecordedOnce(c: Parts, s: State, choices: seq<Choice>)
    requires c.breaker
    ensures ErrorsRecorded(c, s, choices) == ErrorsRaised(c, s, choices)
    ensures choices != [] ==>
      var front, last := choices[..|choices| - 1], choices[|choices| - 1];
      && (InnerCatches(Run(c, s, front), last) ==> Run(c, s, choices).pc == Recording)
      && (OuterCatches(Run(c, s, front), last) ==> Run(c, s, choices).pc == Stopping)
    decreases |choices|
  {
    if choices != [] { ErrorsRecordedOnce(c, s, choices[..|choices| - 1]); }
  }
}

/** The component that creates trading controllers and switches live trading on and off for all of them. */
module TradingIntegration {
  import opened Options
  import TradingController

  type Login = nat

  /** The switch, the controller registered for each login, and the flag of every controller ever created. */
  datatype Desk = Desk(enabled: bool, registered: map<Login, nat>, flags: seq<bool>)

  datatype Event =
    | Initialize(login: Login, found: bool)
    | Switch(value: bool)

  function Empty(enabled: bool): Desk { Desk(enabled, map[], []) }

  predicate InUse(d: Desk, id: int) { id in d.registered.Values }

  /** The flags after all registered controllers have been set to `value`. */
  function SetAll(d: Desk, value: bool): seq<bool> {
    seq(|d.flags|, id requires 0 <= id < |d.flags| => if InUse(d, id) then value else d.flags[id])
  }

  /** A login that already has a controller, or that has no environment, gets none; a new controller takes the
  value of the switch. These controllers are built without a kill switch, so nothing else changes their flags. */
  function Next(d: Desk, e: Event): Desk {
    match e
    case Initialize(login, found) =>
      if login in d.registered || !found then d
      else d.(registered := d.registered[login := |d.flags|], flags := d.flags + [d.enabled])
    case Switch(value) => d.(enabled := value, flags := SetAll(d, value))
  }

  function Run(d: Desk, events: seq<Event>): Desk {
    if events == [] then d else Next(Run(d, events[..|events| - 1]), events[|events| - 1])
  }

  /** Every controller ever created is registered, under one login. */
  ghost predicate Whole(d: Desk) {
    && (forall id :: 0 <= id < |d.flags| ==> InUse(d, id))
    && (forall login :: login in d.registered ==> d.registered[login] < |d.flags|)
    && (forall l, m :: l in d.registered && m in d.registered && d.registered[l] == d.registered[m] ==> l == m)
  }

  /** Every controller's flag is the switch. */
  ghost predicate InStep(d: Desk) { forall id :: 0 <= id < |d.flags| ==> d.flags[id] == d.enabled }

  lemma InitializeKeepsWhole(d: Desk, login: Login)
    requires Whole(d) && login !in d.registered
    ensures Whole(Next(d, Initialize(login, true)))
  {
    var n := Next(d, Initialize(login, true));
    forall id | 0 <= id < |n.flags| ensures InUse(n, id) {
      if id < |d.flags| {
        assert InUse(d, id);
        var l :| l in d.registered && d.registered[l] == id;
        assert n.registered[l] == id;
      } else {
        assert n.registered[login] == id;
      }
    }
  }

  lemma StepKeepsDesk(d: Desk, e: Event)
    requires Whole(d) && InStep(d)
    ensures Whole(Next(d, e)) && InStep(Next(d, e))
  {
    if e.Initialize? && e.login !in d.registered && e.found {
      InitializeKeepsWhole(d, e.login);
    } else {
      forall id | 0 <= id < |Next(d, e).flags| ensures InUse(Next(d, e), id) { assert InUse(d, id); }
    }
  }

  /** Whatever is initialised and switched, in any order, every controller ever created stays registered under one
  login, and its flag is the switch. */
  lemma {:induction false} FlagsFollowSwitch(enabled: bool, events: seq<Event>)
    ensures Whole(Run(Empty(enabled), events)) && InStep(Run(Empty(enabled), events))
  {
    if events != [] {
      FlagsFollowSwitch(enabled, events[..|events| - 1]);
      StepKeepsDesk(Run(Empty(enabled), events[..|events| - 1]), events[|events| - 1]);
    }
  }

  /** A login has a controller if and only if it was ever initialised with an environment at hand. */
  lemma {:induction false} RegisteredIff(enabled: bool, events: seq<Event>, login: Login)
    ensures login in Run(Empty(enabled), events).registered <==> Initialize(login, true) in events
  {
    if events != [] {
      var front, last := events[..|events| - 1], events[|events| - 1];
      assert events == front + [last];
      RegisteredIff(enabled, front, login);
    }
  }

  class AITradingIntegration {
    var tradingEnabled: bool
    var controllers: map<Login, TradingController.Controller>

    constructor (tradingEnabled: bool)
      ensures this.tradingEnabled == tradingEnabled && controllers == map[]
    {
      this.tradingEnabled, controllers := tradingEnabled, map[];
    }

    /** A login gets at most one controller, and keeps it. */
    method InitializeAgentForAccount(login: Login, found: bool, account: TradingController.Account, connectors: nat,
                                     actionSize: nat)
      modifies `controllers
      ensures old(login in controllers) || !found ==> controllers == old(controllers)
      ensures old(login !in controllers) && found ==>
        && login in controllers && fresh(controllers[login])
        && controllers == old(controllers)[login := controllers[login]]
        && controllers[login].tradingEnabled == tradingEnabled && !controllers[login].isRunning
    {
      if login in controllers { return; }
      if !found { return; }
      var controller := new TradingController.Controller(account, null, connectors, actionSize, tradingEnabled);
      controllers := controllers[login := controller];
    }

    method SetTrading(value: bool)
      modifies `tradingEnabled, controllers.Values`tradingEnabled
      ensures tradingEnabled == value
      ensures forall c :: c in controllers.Values ==> c.tradingEnabled == value
    {
      tradingEnabled := value;
      var rest := controllers.Keys;
      while rest != {}
        invariant rest <= controllers.Keys
        invariant tradingEnabled == value
        invariant forall login :: login in controllers.Keys - rest ==> controllers[login].tradingEnabled == value
        decreases rest
      {
        var login :| login in rest;
        controllers[login].tradingEnabled := value;
        rest := rest - {login};
      }
    }

    method EnableTrading()
      modifies `tradingEnabled, controllers.Values`tradingEnabled
      ensures tradingEnabled && forall c :: c in controllers.Values ==> c.tradingEnabled
    {
      SetTrading(true);
    }

    method DisableTrading()
      modifies `tradingEnabled, controllers.Values`tradingEnabled
      ensures !tradingEnabled && forall c :: c in controllers.Values ==> !c.tradingEnabled
    {
      SetTrading(false);
    }
  }
}

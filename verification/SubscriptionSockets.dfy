/** How many sockets of the dashboard's client live at a time. */
module SubscriptionSockets {
  import opened Options
  import opened SubscriptionClient

  predicate Live(socket: Socket) { socket.ready == Connecting || socket.ready == Open }

  ghost predicate NoneLive(c: Client) { forall id :: 0 <= id < |c.sockets| ==> !Live(c.sockets[id]) }

  ghost predicate OneLive(c: Client) {
    forall i, j :: 0 <= i < j < |c.sockets| ==> !Live(c.sockets[i]) || !Live(c.sockets[j])
  }

  /** If the event creates a socket, no other is connecting or open. */
  ghost predicate Paced(c: Client, e: Event) { e == OnToken(true, true) && c.awaiting > 0 ==> NoneLive(c) }

  ghost predicate AlwaysOneLive(events: seq<Event>) {
    && OneLive(Run(FRESH, events))
    && (events != [] ==> AlwaysOneLive(events[..|events| - 1]))
  }

  ghost predicate AlwaysPaced(events: seq<Event>) {
    events != [] ==>
      var front := events[..|events| - 1];
      AlwaysPaced(front) && Paced(Run(FRESH, front), events[|events| - 1])
  }

  /** No socket comes to life. */
  ghost predicate NoneRevived(c: Client, d: Client) {
    && |c.sockets| == |d.sockets|
    && (forall id :: 0 <= id < |c.sockets| && Live(d.sockets[id]) ==> Live(c.sockets[id]))
  }

  lemma SendRevivesNone(c: Client, messages: seq<Message>)
    ensures NoneRevived(c, Send(c, messages))
  {
  }

  lemma SubscriptionsReviveNone(c: Client, channel: Channel, handler: Handler)
    ensures NoneRevived(c, Subscribe(c, channel, handler)) && NoneRevived(c, Release(c, channel, handler))
  {
    SendRevivesNone(Register(c, channel, handler), [Subscribing(channel)]);
    SendRevivesNone(Drop(c, channel), [Unsubscribing(channel)]);
  }

  lemma OpeningRevivesNone(c: Client, id: nat)
    ensures NoneRevived(c, SocketOpens(c, id))
  {
    if id < |c.sockets| && c.sockets[id].ready == Connecting {
      var d := Becomes(c, id, Open).(isConnecting := false, attempts := 0);
      SendRevivesNone(d, Subscriptions(d.channels));
    }
  }

  lemma EndingRevivesNone(c: Client, id: nat, rejected: bool)
    ensures NoneRevived(c, SocketLeaves(c, id)) && NoneRevived(c, SocketCloses(c, id, rejected))
  {
  }

  lemma OnlyTokensCreate(c: Client, e: Event)
    requires !(e == OnToken(true, true) && c.awaiting > 0)
    ensures NoneRevived(c, Next(c, e))
  {
    match e
    case CallSubscribe(channel, handler) => SubscriptionsReviveNone(c, channel, handler);
    case CallRelease(channel, handler) => SubscriptionsReviveNone(c, channel, handler);
    case OnOpen(id) => OpeningRevivesNone(c, id);
    case OnLeave(id) => EndingRevivesNone(c, id, false);
    case OnClose(id, rejected) => EndingRevivesNone(c, id, rejected);
    case CallDisconnect => if c.current.Some? { EndingRevivesNone(c, c.current.value, false); }
    case _ =>
  }

  lemma StepOneLiveIff(c: Client, e: Event)
    requires OneLive(c)
    ensures OneLive(Next(c, e)) <==> Paced(c, e)
  {
    var d := Next(c, e);
    if e == OnToken(true, true) && c.awaiting > 0 {
      var n := |c.sockets|;
      assert d.sockets == c.sockets + [Socket(Connecting, [])];
      if id :| 0 <= id < n && Live(c.sockets[id]) { assert Live(d.sockets[id]) && Live(d.sockets[n]); }
    } else {
      OnlyTokensCreate(c, e);
    }
  }

  /** In every run, at most one socket is ever connecting or open at a time if and only if no token creates a socket
  while another is connecting or open: that is what `connect` does not check again after its `await`. */
  lemma {:induction false} AlwaysOneLiveIff(events: seq<Event>)
    ensures AlwaysOneLive(events) <==> AlwaysPaced(events)
  {
    if events != [] {
      var front := events[..|events| - 1];
      AlwaysOneLiveIff(front);
      if AlwaysOneLive(front) { StepOneLiveIff(Run(FRESH, front), events[|events| - 1]); }
    }
  }

  lemma RunTwo(c: Client, d: Event, e: Event)
    ensures Run(c, [d, e]) == Next(Next(c, d), e)
  {
    assert [d, e][..1] == [d] && [d][..0] == [];
    assert Run(c, [d]) == Next(c, d);
  }

  lemma TwoCallsWait(c: Client)
    requires !CurrentOpen(c) && !c.isConnecting && c.hasTokenGetter
    ensures Run(c, [CallConnect, CallConnect]) == c.(awaiting := c.awaiting + 2)
  {
    RunTwo(c, CallConnect, CallConnect);
    assert Connect(c) == c.(awaiting := c.awaiting + 1);
  }

  lemma TwoTokensOpen(c: Client)
    requires c.awaiting >= 2
    ensures var d := Run(c, [OnToken(true, true), OnToken(true, true)]);
      && d.sockets == c.sockets + [Socket(Connecting, [])] + [Socket(Connecting, [])]
      && d.current == Some(|c.sockets| + 1)
  {
    RunTwo(c, OnToken(true, true), OnToken(true, true));
    var d := TokenArrives(c, true, true);
    assert d.sockets == c.sockets + [Socket(Connecting, [])] && d.awaiting >= 1;
  }

  /** Two calls of `connect` before the first token arrives both pass the check and open a socket each. */
  lemma TwoCallsTwoSockets(c: Client)
    requires !CurrentOpen(c) && !c.isConnecting && c.hasTokenGetter
    ensures var d := Run(Run(c, [CallConnect, CallConnect]), [OnToken(true, true), OnToken(true, true)]);
      && |d.sockets| == |c.sockets| + 2 && d.current == Some(|c.sockets| + 1)
      && forall id :: |c.sockets| <= id < |d.sockets| ==> d.sockets[id].ready == Connecting
  {
    TwoCallsWait(c);
    TwoTokensOpen(Run(c, [CallConnect, CallConnect]));
  }

  const CALL_AND_TOKEN := [CallConnect, OnToken(true, true)]

  lemma CallOpensOne(c: Client)
    requires !CurrentOpen(c) && !c.isConnecting && c.hasTokenGetter
    ensures var d := Run(c, CALL_AND_TOKEN);
      && d.sockets == c.sockets + [Socket(Connecting, [])] && d.current == Some(|c.sockets|) && d.hasTokenGetter
  {
    RunTwo(c, CallConnect, OnToken(true, true));
    assert Connect(c) == c.(awaiting := c.awaiting + 1);
  }

  lemma CloseLowersFlag(c: Client, id: nat)
    requires id < |c.sockets| && c.sockets[id].ready == Closing
    ensures var d := Next(c, OnClose(id, false));
      && !d.isConnecting && d.current == c.current && d.hasTokenGetter == c.hasTokenGetter
      && d.sockets == c.sockets[id := c.sockets[id].(ready := Closed)]
  {
  }

  /** Nor does it take two calls at once: when a socket's close is reported late, while the next one is connecting,
  it lowers the flag that the next one raised, and one more call opens a second socket. */
  lemma LateCloseTwoSockets(c: Client, closing: nat)
    requires closing < |c.sockets| && c.sockets[closing].ready == Closing
    requires !CurrentOpen(c) && !c.isConnecting && c.hasTokenGetter
    ensures var d := Run(Next(Run(c, CALL_AND_TOKEN), OnClose(closing, false)), CALL_AND_TOKEN);
      && |d.sockets| == |c.sockets| + 2
      && forall id :: |c.sockets| <= id < |d.sockets| ==> d.sockets[id].ready == Connecting
  {
    CallOpensOne(c);
    CloseLowersFlag(Run(c, CALL_AND_TOKEN), closing);
    CallOpensOne(Next(Run(c, CALL_AND_TOKEN), OnClose(closing, false)));
  }

  // ---- calls one at a time ----

  /** `connect` is called, by whatever event. */
  predicate Calls(e: Event) { e.CallConnect? || e.CallSubscribe? || e.OnTimer? }

  predicate SameSockets(c: Client, d: Client) {
    && |c.sockets| == |d.sockets| && c.current == d.current && c.isConnecting == d.isConnecting
    && forall id :: 0 <= id < |c.sockets| ==> c.sockets[id].ready == d.sockets[id].ready
  }

  lemma CallIsGuarded(c: Client, e: Event)
    requires c.awaiting == 0 && (CurrentOpen(c) || c.isConnecting) && Calls(e)
    ensures Next(c, e).awaiting == 0 && SameSockets(c, Next(c, e))
  {
    if e.CallSubscribe? {
      var d := Register(c, e.channel, e.handler);
      assert CurrentOpen(d) <==> CurrentOpen(c);
    }
  }

  /** A client that is open or connecting, and has no call waiting, makes no further socket, whichever way `connect` is
  called and whatever token then comes. */
  lemma GuardHolds(c: Client, e: Event, ok: bool, created: bool)
    requires c.awaiting == 0 && (CurrentOpen(c) || c.isConnecting) && Calls(e)
    ensures SameSockets(c, Next(Next(c, e), OnToken(ok, created)))
  {
    CallIsGuarded(c, e);
  }

  /** Every token arrives before the next event. */
  predicate AlwaysPrompt(events: seq<Event>) {
    events != [] ==>
      var front := events[..|events| - 1];
      AlwaysPrompt(front) && (Run(FRESH, front).awaiting > 0 ==> events[|events| - 1].OnToken?)
  }

  ghost predicate SomeConnecting(c: Client) { exists id :: 0 <= id < |c.sockets| && c.sockets[id].ready == Connecting }

  /** A close or an error lowers the flag while a socket is still connecting. */
  ghost predicate Lowers(c: Client, e: Event) {
    (e.OnClose? || e.OnError?) && c.isConnecting && !Next(c, e).isConnecting && SomeConnecting(Next(c, e))
  }

  ghost predicate NeverLowers(events: seq<Event>) {
    events != [] ==>
      var front := events[..|events| - 1];
      NeverLowers(front) && !Lowers(Run(FRESH, front), events[|events| - 1])
  }

  /** What a run with prompt tokens keeps: only the current socket lives, the flag is up while it connects, and nothing
  lives while a call waits for its token. */
  ghost predicate Single(c: Client) {
    && (forall id :: 0 <= id < |c.sockets| && Live(c.sockets[id]) ==> c.current == Some(id))
    && (SomeConnecting(c) ==> c.isConnecting)
    && (c.awaiting > 0 ==> c.awaiting == 1 && NoneLive(c) && !c.isConnecting)
  }

  lemma CallKeepsSingle(c: Client, e: Event)
    requires Single(c) && c.awaiting == 0 && Calls(e)
    ensures Single(Next(c, e))
  {
    if CurrentOpen(c) || c.isConnecting {
      CallIsGuarded(c, e);
    } else {
      assert NoneLive(c);
      assert e.CallSubscribe? ==> !CurrentOpen(Register(c, e.channel, e.handler));
    }
  }

  lemma TokenKeepsSingle(c: Client, ok: bool, created: bool)
    requires Single(c)
    ensures Single(TokenArrives(c, ok, created))
  {
  }

  lemma QuietKeepsSingle(c: Client, d: Client)
    requires Single(c) && SameSockets(c, d) && d.awaiting == c.awaiting
    ensures Single(d)
  {
  }

  lemma SubscribersKeepSingle(c: Client, channel: Channel, handler: Handler)
    requires Single(c)
    ensures Single(Release(c, channel, handler)) && Single(Unsubscribe(c, channel))
  {
    QuietKeepsSingle(c, Release(c, channel, handler));
    QuietKeepsSingle(c, Unsubscribe(c, channel));
  }

  lemma OpenKeepsSingle(c: Client, id: nat)
    requires Single(c) && c.awaiting == 0
    ensures Single(SocketOpens(c, id))
  {
    if id < |c.sockets| && c.sockets[id].ready == Connecting {
      assert Live(c.sockets[id]);
      var d := Becomes(c, id, Open).(isConnecting := false, attempts := 0);
      assert forall other :: 0 <= other < |c.sockets| && other != id ==> !Live(d.sockets[other]);
      QuietKeepsSingle(d, Send(d, Subscriptions(d.channels)));
    }
  }

  lemma EndKeepsSingle(c: Client, e: Event)
    requires Single(c) && c.awaiting == 0 && !Lowers(c, e) && (e.OnClose? || e.OnError? || e.OnLeave?)
    ensures Single(Next(c, e))
  {
    EndWakesNone(c, e);
    FewerStaySingle(c, Next(c, e));
  }

  /** Sockets only end, and the flag is not lowered while one is connecting. */
  ghost predicate OnlyEnds(c: Client, d: Client) {
    && |d.sockets| == |c.sockets| && d.current == c.current && d.awaiting == c.awaiting
    && (forall id :: 0 <= id < |c.sockets| && Live(d.sockets[id]) ==> d.sockets[id].ready == c.sockets[id].ready)
    && (SomeConnecting(d) && c.isConnecting ==> d.isConnecting)
  }

  lemma EndWakesNone(c: Client, e: Event)
    requires !Lowers(c, e) && (e.OnClose? || e.OnError? || e.OnLeave?)
    ensures OnlyEnds(c, Next(c, e))
  {
  }

  lemma FewerStaySingle(c: Client, d: Client)
    requires Single(c) && c.awaiting == 0 && OnlyEnds(c, d)
    ensures Single(d)
  {
    if SomeConnecting(d) {
      var id :| 0 <= id < |d.sockets| && d.sockets[id].ready == Connecting;
      assert c.sockets[id].ready == Connecting;
    }
  }

  lemma DisconnectKeepsSingle(c: Client)
    requires Single(c)
    ensures Single(Disconnect(c))
  {
    assert NoneLive(Disconnect(c));
  }

  lemma StepKeepsSingle(c: Client, e: Event)
    requires Single(c) && (c.awaiting > 0 ==> e.OnToken?) && !Lowers(c, e)
    ensures Single(Next(c, e))
  {
    match e
    case OnToken(ok, created) => TokenKeepsSingle(c, ok, created);
    case CallRelease(channel, handler) => SubscribersKeepSingle(c, channel, handler);
    case CallUnsubscribe(channel) => SubscribersKeepSingle(c, channel, 0);
    case CallSetTokenGetter => QuietKeepsSingle(c, Next(c, e));
    case OnOpen(id) => OpenKeepsSingle(c, id);
    case CallDisconnect => DisconnectKeepsSingle(c);
    case CallConnect => CallKeepsSingle(c, e);
    case CallSubscribe(_, _) => CallKeepsSingle(c, e);
    case OnTimer => CallKeepsSingle(c, e);
    case _ => EndKeepsSingle(c, e);
  }

  lemma {:induction false} PromptRunsAreSingle(events: seq<Event>)
    requires AlwaysPrompt(events) && NeverLowers(events)
    ensures Single(Run(FRESH, events)) && AlwaysOneLive(events)
  {
    if events != [] {
      var front := events[..|events| - 1];
      PromptRunsAreSingle(front);
      StepKeepsSingle(Run(FRESH, front), events[|events| - 1]);
    }
  }

  /** One more call, with its token. */
  function Probed(c: Client): Client {
    Next(Next(Next(c, CallSetTokenGetter), CallConnect), OnToken(true, true))
  }

  ghost predicate AlwaysProbed(events: seq<Event>) {
    && OneLive(Probed(Run(FRESH, events)))
    && (events != [] ==> AlwaysProbed(events[..|events| - 1]))
  }

  lemma ProbeOfSingle(c: Client)
    requires Single(c)
    ensures OneLive(Probed(c))
  {
    var d := Next(c, CallSetTokenGetter);
    QuietKeepsSingle(c, d);
    if c.awaiting == 0 {
      CallKeepsSingle(d, CallConnect);
      TokenKeepsSingle(Next(d, CallConnect), true, true);
    } else {
      assert !CurrentOpen(d) && Next(d, CallConnect) == d.(awaiting := d.awaiting + 1);
    }
  }

  lemma ProbeOfLowered(c: Client, e: Event)
    requires Single(c) && c.awaiting == 0 && Lowers(c, e)
    ensures !OneLive(Probed(Next(c, e)))
  {
    var d := Next(c, e);
    var id :| 0 <= id < |d.sockets| && d.sockets[id].ready == Connecting;
    assert c.sockets[id].ready == Connecting && Live(c.sockets[id]) && d.current == c.current == Some(id);
    var getter := Next(d, CallSetTokenGetter);
    assert !CurrentOpen(getter) && !getter.isConnecting;
    var p := Probed(d);
    assert p.sockets == d.sockets + [Socket(Connecting, [])];
    assert Live(p.sockets[id]) && Live(p.sockets[|d.sockets|]);
  }

  /** In a run in which every token arrives before the next event, one more call of `connect` leaves at most one socket
  connecting or open at every moment if and only if no close or error ever lowers the flag while a socket is still
  connecting. */
  lemma {:induction false} PromptCallsIff(events: seq<Event>)
    requires AlwaysPrompt(events)
    ensures AlwaysProbed(events) <==> NeverLowers(events)
    ensures NeverLowers(events) ==> AlwaysOneLive(events)
  {
    if NeverLowers(events) {
      PromptRunsAreSingle(events);
      ProbeOfSingle(Run(FRESH, events));
    }
    if events != [] {
      var front := events[..|events| - 1];
      PromptCallsIff(front);
      if NeverLowers(front) && !NeverLowers(events) {
        PromptRunsAreSingle(front);
        ProbeOfLowered(Run(FRESH, front), events[|events| - 1]);
      }
    }
  }

  // ---- what a close schedules ----

  /** A socket's close schedules an attempt, once, if and only if the token was not rejected, nobody has disconnected
  and fewer than ten attempts have been made since the last open. */
  lemma CloseSchedulesIff(c: Client, id: nat, rejected: bool)
    requires id < |c.sockets| && c.sockets[id].ready != Closed
    ensures var d := Next(c, OnClose(id, rejected));
      d.timers - c.timers == d.attempts - c.attempts
      == if !rejected && c.shouldReconnect && c.attempts < 10 then 1 else 0
  {
  }

  /** And so does a constructor that fails, at whatever attempt, unless somebody has disconnected. */
  lemma FailureSchedulesIff(c: Client)
    requires c.awaiting > 0
    ensures var d := Next(c, OnToken(true, false));
      d.sockets == c.sockets && !d.isConnecting
      && d.timers - c.timers == d.attempts - c.attempts == if c.shouldReconnect then 1 else 0
  {
  }

  // ---- a call gets through ----

  /** A client that is neither open nor connecting makes a socket at the next call, however it is called, if it has a
  token getter and gets a token; after an error, whatever it was doing, if no socket is open. */
  lemma CallGetsThrough(c: Client, e: Event)
    requires !CurrentOpen(c) && !c.isConnecting && c.hasTokenGetter
    requires e.CallConnect? || e.CallSubscribe? || (e.OnTimer? && c.timers > 0 && c.shouldReconnect)
    ensures var d := Next(Next(c, e), OnToken(true, true));
      |d.sockets| == |c.sockets| + 1 && d.current == Some(|c.sockets|) && d.sockets[|c.sockets|].ready == Connecting
  {
    if e.CallSubscribe? { assert !CurrentOpen(Register(c, e.channel, e.handler)); }
    assert Next(c, e).awaiting == c.awaiting + 1;
  }

  lemma ErrorLetsCallsThrough(c: Client, id: nat)
    requires !CurrentOpen(c) && c.hasTokenGetter
    ensures |Next(Next(Next(c, OnError(id)), CallConnect), OnToken(true, true)).sockets| == |c.sockets| + 1
  {
    CallGetsThrough(Next(c, OnError(id)), CallConnect);
  }

  lemma StepWithoutGetter(c: Client, e: Event)
    requires !c.hasTokenGetter && c.awaiting == 0 && c.sockets == [] && c.timers == 0 && !e.CallSetTokenGetter?
    ensures var d := Next(c, e); !d.hasTokenGetter && d.awaiting == 0 && d.sockets == [] && d.timers == 0
  {
  }

  /** Before a token getter is set, nothing ever connects. */
  lemma {:induction false} NothingWithoutGetter(events: seq<Event>)
    requires forall e :: e in events ==> !e.CallSetTokenGetter?
    ensures var c := Run(FRESH, events); !c.hasTokenGetter && c.awaiting == 0 && c.sockets == [] && c.timers == 0
  {
    if events != [] {
      NothingWithoutGetter(events[..|events| - 1]);
      StepWithoutGetter(Run(FRESH, events[..|events| - 1]), events[|events| - 1]);
    }
  }

  lemma StepKeepsReconnecting(c: Client, e: Event)
    requires c.shouldReconnect && !e.CallDisconnect?
    ensures Next(c, e).shouldReconnect
  {
  }

  /** Until somebody disconnects, every close but one with a rejected token or past the tenth attempt is followed by an
  attempt. */
  lemma {:induction false} ReconnectsUntilDisconnect(events: seq<Event>)
    requires forall e :: e in events ==> !e.CallDisconnect?
    ensures Run(FRESH, events).shouldReconnect
    ensures forall id: nat :: var c := Run(FRESH, events);
      id < |c.sockets| && c.sockets[id].ready != Closed && c.attempts < 10 ==>
        Next(c, OnClose(id, false)).timers == c.timers + 1
  {
    if events != [] {
      ReconnectsUntilDisconnect(events[..|events| - 1]);
      StepKeepsReconnecting(Run(FRESH, events[..|events| - 1]), events[|events| - 1]);
    }
    forall id: nat | id < |Run(FRESH, events).sockets| && Run(FRESH, events).sockets[id].ready != Closed {
      CloseSchedulesIff(Run(FRESH, events), id, false);
    }
  }
}

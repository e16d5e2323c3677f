/** Agreement with the server, live subscriptions, and bounds on reconnecting. */
module SubscriptionSafety {
  import opened Options
  import opened SubscriptionClient

  // ---- the server agrees with the client ----

  lemma OpenKeepsSync(c: Client, id: nat)
    requires Tidy(c)
    ensures InSync(c) ==> InSync(SocketOpens(c, id))
    ensures Covered(c) ==> Covered(SocketOpens(c, id))
  {
    if id < |c.sockets| && c.sockets[id].ready == Connecting {
      var d := Becomes(c, id, Open).(isConnecting := false, attempts := 0);
      if CurrentOpen(d) {
        ServedAppend(d.sockets[d.current.value].sent, d.channels);
        assert (set channel | channel in d.channels) == d.handlers.Keys;
      }
    }
  }

  lemma SendOne(c: Client, message: Message)
    requires Tidy(c)
    ensures var d := Send(c, [message]);
      && Tidy(d) && d.handlers == c.handlers
      && (CurrentOpen(d) <==> CurrentOpen(c))
      && (CurrentOpen(c) && message.Subscribing? ==> ServerView(d) == ServerView(c) + {message.channel})
      && (CurrentOpen(c) && message.Unsubscribing? ==> ServerView(d) == ServerView(c) - {message.channel})
  {
    if CurrentOpen(c) { ServedOne(c.sockets[c.current.value].sent, message); }
  }

  lemma SubscribeKeepsSync(c: Client, channel: Channel, handler: Handler)
    requires Tidy(c)
    ensures InSync(c) ==> InSync(Subscribe(c, channel, handler))
    ensures Covered(c) ==> Covered(Subscribe(c, channel, handler))
  {
    var d := Register(c, channel, handler);
    assert Tidy(d) && d.handlers.Keys == c.handlers.Keys + {channel};
    if CurrentOpen(d) { SendOne(d, Subscribing(channel)); }
  }

  lemma ReleaseKeepsSync(c: Client, channel: Channel, handler: Handler)
    requires Tidy(c)
    ensures InSync(c) ==> InSync(Release(c, channel, handler))
    ensures Covered(c) ==> Covered(Release(c, channel, handler))
  {
    if channel in c.handlers {
      var rest := c.handlers[channel] - {handler};
      if rest == {} {
        DropKeepsTidy(c, channel);
        SendOne(Drop(c, channel), Unsubscribing(channel));
      } else {
        KeepingSome(c, channel, rest);
      }
    }
  }

  lemma DropKeepsTidy(c: Client, channel: Channel)
    requires Tidy(c)
    ensures Tidy(Drop(c, channel)) && Drop(c, channel).handlers.Keys == c.handlers.Keys - {channel}
    ensures CurrentOpen(Drop(c, channel)) <==> CurrentOpen(c)
  {
  }

  lemma KeepingSome(c: Client, channel: Channel, rest: set<Handler>)
    requires Tidy(c) && channel in c.handlers && rest != {}
    ensures var d := c.(handlers := c.handlers[channel := rest]);
      (InSync(c) ==> InSync(d)) && (Covered(c) ==> Covered(d))
  {
    assert c.handlers[channel := rest].Keys == c.handlers.Keys;
  }

  lemma GoneKeepsSync(c: Client, id: nat, ready: Ready)
    requires Tidy(c) && id < |c.sockets| && (ready == Closing || ready == Closed)
    ensures InSync(c) ==> InSync(Becomes(c, id, ready))
    ensures Covered(c) ==> Covered(Becomes(c, id, ready))
  {
  }

  lemma TokenKeepsSync(c: Client, ok: bool, created: bool)
    requires Tidy(c)
    ensures InSync(c) ==> InSync(TokenArrives(c, ok, created))
    ensures Covered(c) ==> Covered(TokenArrives(c, ok, created))
  {
  }

  lemma CloseKeepsSync(c: Client, id: nat, rejected: bool)
    requires Tidy(c)
    ensures InSync(c) ==> InSync(SocketCloses(c, id, rejected))
    ensures Covered(c) ==> Covered(SocketCloses(c, id, rejected))
  {
    if id < |c.sockets| && c.sockets[id].ready != Closed {
      GoneKeepsSync(c, id, Closed);
      QuietKeepsSync(Becomes(c, id, Closed), SocketCloses(c, id, rejected));
    }
  }

  lemma LeaveKeepsSync(c: Client, id: nat)
    requires Tidy(c)
    ensures InSync(c) ==> InSync(SocketLeaves(c, id))
    ensures Covered(c) ==> Covered(SocketLeaves(c, id))
    ensures Tidy(SocketLeaves(c, id))
  {
    if id < |c.sockets| { GoneKeepsSync(c, id, Closing); }
  }

  /** The steps that touch neither sockets nor subscribers. */
  lemma QuietKeepsSync(c: Client, d: Client)
    requires d.sockets == c.sockets && d.current == c.current && d.channels == c.channels && d.handlers == c.handlers
    ensures InSync(c) ==> InSync(d)
    ensures Covered(c) ==> Covered(d)
  {
  }

  lemma DisconnectKeepsSync(c: Client)
    requires Tidy(c)
    ensures InSync(Disconnect(c)) && Covered(Disconnect(c))
  {
    if c.current.Some? { LeaveKeepsSync(c, c.current.value); }
  }

  lemma StepKeepsSync(c: Client, e: Event)
    requires Tidy(c)
    ensures InSync(c) && !e.CallUnsubscribe? ==> InSync(Next(c, e))
    ensures Covered(c) ==> Covered(Next(c, e))
  {
    match e
    case OnOpen(id) => OpenKeepsSync(c, id);
    case OnToken(ok, created) => TokenKeepsSync(c, ok, created);
    case CallSubscribe(channel, handler) => SubscribeKeepsSync(c, channel, handler);
    case CallRelease(channel, handler) => ReleaseKeepsSync(c, channel, handler);
    case CallUnsubscribe(channel) => if Covered(c) { UnsubscribeKeepsCover(c, channel); }
    case CallDisconnect => DisconnectKeepsSync(c);
    case OnClose(id, rejected) => CloseKeepsSync(c, id, rejected);
    case OnLeave(id) => LeaveKeepsSync(c, id);
    case _ => QuietKeepsSync(c, Next(c, e));
  }

  /** Whenever the socket is open, the server serves exactly the channels that have handlers: over any run
  of subscriptions, releases (stale or repeated ones included), failures, closes and reconnects, and
  whichever way the `await` in `connect` races with them. */
  lemma {:induction false} ServerAgrees(events: seq<Event>)
    requires forall e :: e in events ==> !e.CallUnsubscribe?
    ensures InSync(Run(FRESH, events))
  {
    if events != [] {
      var front, last := events[..|events| - 1], events[|events| - 1];
      ServerAgrees(front);
      StepKeepsSync(Run(FRESH, front), last);
    }
  }

  /** With the public `unsubscribe` too, the server serves at least the channels that have handlers. */
  lemma {:induction false} ServerCovers(events: seq<Event>)
    ensures Covered(Run(FRESH, events))
  {
    if events != [] {
      ServerCovers(events[..|events| - 1]);
      StepKeepsSync(Run(FRESH, events[..|events| - 1]), events[|events| - 1]);
    }
  }

  lemma RegisterKeepsCover(c: Client, channel: Channel, handler: Handler)
    requires Tidy(c) && !CurrentOpen(c)
    ensures Covered(Register(c, channel, handler)) && !CurrentOpen(Register(c, channel, handler))
  {
  }

  lemma UnsubscribeKeepsCover(c: Client, channel: Channel)
    requires Covered(c)
    ensures Covered(Unsubscribe(c, channel))
  {
    DropKeepsTidy(c, channel);
  }

  /** The public `unsubscribe` keeps the agreement exactly when there is nothing to unsubscribe, or no open
  socket to be out of step with. */
  lemma UnsubscribeKeepsSyncIff(c: Client, channel: Channel)
    requires InSync(c)
    ensures InSync(Unsubscribe(c, channel)) <==> channel !in c.handlers || !CurrentOpen(c)
  {
    if channel in c.handlers && CurrentOpen(c) {
      assert channel in ServerView(Unsubscribe(c, channel));
    }
  }

  // ---- live subscriptions ----

  predicate Registered(c: Client, s: (Channel, Handler)) { s.0 in c.handlers && s.1 in c.handlers[s.0] }

  /** Handlers are registered for exactly the subscriptions not yet released. */
  ghost predicate Honest(c: Client, made: seq<(Channel, Handler)>, live: set<nat>) {
    && (forall i :: i in live ==> i < |made|)
    && (forall s :: Registered(c, s) <==> exists i :: i in live && i < |made| && made[i] == s)
  }

  lemma SubscribeIsHonest(c: Client, channel: Channel, handler: Handler, made: seq<(Channel, Handler)>, live: set<nat>)
    requires Honest(c, made, live)
    ensures Honest(Subscribe(c, channel, handler), made + [(channel, handler)], live + {|made|})
  {
    var d, longer := Subscribe(c, channel, handler), made + [(channel, handler)];
    forall s ensures Registered(d, s) <==> exists i :: i in live + {|made|} && i < |longer| && longer[i] == s {
      if Registered(c, s) {
        var i :| i in live && i < |made| && made[i] == s;
        assert longer[i] == s;
      }
      if s == (channel, handler) { assert longer[|made|] == s; }
      assert Registered(d, s) <==> Registered(c, s) || s == (channel, handler);
    }
  }

  /** A closure, first call or repeated, withdraws just its own subscription exactly when no other live
  subscription has the same channel and handler: the set keeps only one copy for both. */
  lemma ReleaseIsHonestIff(c: Client, made: seq<(Channel, Handler)>, live: set<nat>, mine: nat)
    requires Honest(c, made, live) && mine < |made|
    ensures Honest(Release(c, made[mine].0, made[mine].1), made, live - {mine})
       <==> forall i :: i in live && i != mine ==> made[i] != made[mine]
  {
    var s := made[mine];
    var d := Release(c, s.0, s.1);
    ReleaseWithdraws(c, s);
    if exists i :: i in live && i != mine && made[i] == s {
      var i :| i in live && i != mine && made[i] == s;
      assert !Registered(d, s) && i in live - {mine};
    } else {
      forall t ensures Registered(d, t) <==> exists i :: i in live - {mine} && i < |made| && made[i] == t {
        if Registered(d, t) {
          var i :| i in live && i < |made| && made[i] == t;
          assert i in live - {mine};
        }
      }
    }
  }

  lemma ReleaseWithdraws(c: Client, s: (Channel, Handler))
    ensures forall t :: Registered(Release(c, s.0, s.1), t) <==> Registered(c, t) && t != s
  {
    var d := Release(c, s.0, s.1);
    forall t ensures Registered(d, t) <==> Registered(c, t) && t != s {
      if t.0 == s.0 && s.0 in c.handlers {
        assert t.1 in c.handlers[s.0] - {s.1} <==> t.1 in c.handlers[s.0] && t.1 != s.1;
        assert t == s <==> t.1 == s.1;
      }
    }
  }

  // ---- reconnecting ----

  /** An attempt scheduled by one event: its number, and whether a closed socket caused it. */
  datatype Schedule = Schedule(attempt: nat, onClose: bool)

  function Scheduled(c: Client, e: Event): seq<Schedule> {
    if Next(c, e).attempts == c.attempts + 1 then [Schedule(c.attempts + 1, e.OnClose?)] else []
  }

  function Schedules(c: Client, events: seq<Event>): seq<Schedule> {
    if events == [] then []
    else
      var front := events[..|events| - 1];
      Schedules(c, front) + Scheduled(Run(c, front), events[|events| - 1])
  }

  predicate NothingOpens(events: seq<Event>) { forall e :: e in events ==> !e.OnOpen? }

  lemma AttemptsCount(c: Client, e: Event)
    requires !e.OnOpen?
    ensures Next(c, e).attempts == c.attempts + |Scheduled(c, e)|
    ensures Scheduled(c, e) != [] && e.OnClose? ==> c.attempts < MAX_ATTEMPTS
  {
  }

  /** Between two successful opens the attempts are numbered 1, 2, 3 and so on, and a closed socket
  schedules none past the tenth. */
  lemma {:induction false} AttemptsAreNumbered(c: Client, events: seq<Event>)
    requires c.attempts == 0 && NothingOpens(events)
    ensures var list := Schedules(c, events);
      && Run(c, events).attempts == |list|
      && (forall k :: 0 <= k < |list| ==> list[k].attempt == k + 1 && (list[k].onClose ==> k + 1 <= MAX_ATTEMPTS))
  {
    if events != [] {
      var front, last := events[..|events| - 1], events[|events| - 1];
      AttemptsAreNumbered(c, front);
      AttemptsCount(Run(c, front), last);
    }
  }

  lemma {:induction false} Pow2Grows(m: nat, n: nat)
    requires m <= n
    ensures 1 <= Pow2(m) <= Pow2(n)
  {
    if m < n { Pow2Grows(m, n - 1); } else if m > 0 { Pow2Grows(m - 1, n - 1); }
  }

  /** The delays never shrink, and lie between one and thirty seconds. */
  lemma DelaysGrow(j: nat, k: nat)
    requires 0 < j <= k
    ensures FIRST_DELAY <= Delay(j) <= Delay(k) <= LONGEST_DELAY
  {
    Pow2Grows(j - 1, k - 1);
  }

  /** The waits caused by closed sockets, in milliseconds. */
  function ClosedWait(list: seq<Schedule>): nat
    requires forall k :: 0 <= k < |list| ==> list[k].attempt > 0
  {
    if list == [] then 0
    else
      var last := list[|list| - 1];
      ClosedWait(list[..|list| - 1]) + if last.onClose then Delay(last.attempt) else 0
  }

  function TotalDelay(n: nat): nat { if n == 0 then 0 else TotalDelay(n - 1) + Delay(n) }

  lemma {:induction false} ClosedWaitBound(list: seq<Schedule>)
    requires forall k :: 0 <= k < |list| ==> list[k].attempt == k + 1 && (list[k].onClose ==> k + 1 <= MAX_ATTEMPTS)
    ensures ClosedWait(list) <= TotalDelay(if |list| < MAX_ATTEMPTS then |list| else MAX_ATTEMPTS)
  {
    if list != [] { ClosedWaitBound(list[..|list| - 1]); }
  }

  lemma {:induction false} TotalDelayGrows(m: nat, n: nat)
    requires m <= n
    ensures TotalDelay(m) <= TotalDelay(n)
  {
    if m < n { TotalDelayGrows(m, n - 1); }
  }

  lemma TenDelays()
    ensures TotalDelay(MAX_ATTEMPTS) == 181000
  {
    assert Delay(5) == 16000 && Delay(6) == 30000 && Delay(7) == 30000 && Delay(8) == 30000;
    assert Delay(9) == 30000 && Delay(10) == 30000;
    assert TotalDelay(5) == 31000;
  }

  /** So between two successful opens closed sockets cause at most 181 seconds of waiting. A failing socket
  constructor is not counted: that path schedules without a cap. */
  lemma ReconnectWaitBound(c: Client, events: seq<Event>)
    requires c.attempts == 0 && NothingOpens(events)
    ensures forall k :: 0 <= k < |Schedules(c, events)| ==> Schedules(c, events)[k].attempt > 0
    ensures ClosedWait(Schedules(c, events)) <= 181000
  {
    var list := Schedules(c, events);
    AttemptsAreNumbered(c, events);
    ClosedWaitBound(list);
    TotalDelayGrows(if |list| < MAX_ATTEMPTS then |list| else MAX_ATTEMPTS, MAX_ATTEMPTS);
    TenDelays();
  }

  /** An event that uses up a timer. */
  function Fired(c: Client, e: Event): nat { if e.OnTimer? && c.timers > 0 then 1 else 0 }

  function TimersFired(c: Client, events: seq<Event>): nat {
    if events == [] then 0
    else
      var front := events[..|events| - 1];
      TimersFired(c, front) + Fired(Run(c, front), events[|events| - 1])
  }

  lemma TimerStep(c: Client, e: Event)
    ensures Next(c, e).timers + Fired(c, e) == c.timers + |Scheduled(c, e)|
  {
    if e.OnTimer? || e.OnToken? || e.OnClose? {
    } else {
      assert Next(c, e).timers == c.timers && Next(c, e).attempts <= c.attempts;
    }
  }

  /** Every scheduled attempt has a timer, which is pending or has fired. */
  lemma {:induction false} AttemptsHaveTimers(c: Client, events: seq<Event>)
    ensures Run(c, events).timers + TimersFired(c, events) == c.timers + |Schedules(c, events)|
  {
    if events != [] {
      AttemptsHaveTimers(c, events[..|events| - 1]);
      TimerStep(Run(c, events[..|events| - 1]), events[|events| - 1]);
    }
  }

  predicate Unsettled(socket: Socket) { socket.ready == Connecting || socket.ready == Closing }

  /** While the client thinks that it is connecting, some socket still has its close to report. */
  ghost predicate Pending(c: Client) {
    c.isConnecting ==> exists id :: 0 <= id < |c.sockets| && Unsettled(c.sockets[id])
  }

  /** No socket settles, and the flag is not raised. */
  ghost predicate StaysUnsettled(c: Client, d: Client) {
    && |c.sockets| <= |d.sockets|
    && (d.isConnecting ==> c.isConnecting)
    && (forall id :: 0 <= id < |c.sockets| && Unsettled(c.sockets[id]) ==> Unsettled(d.sockets[id]))
  }

  lemma UnsettledMeansPending(c: Client, d: Client)
    requires Pending(c) && StaysUnsettled(c, d)
    ensures Pending(d)
  {
  }

  lemma SendSettlesNothing(c: Client, messages: seq<Message>)
    ensures StaysUnsettled(c, Send(c, messages))
  {
  }

  lemma SubscriptionsSettleNothing(c: Client, channel: Channel, handler: Handler)
    ensures StaysUnsettled(c, Subscribe(c, channel, handler)) && StaysUnsettled(c, Release(c, channel, handler))
  {
    SendSettlesNothing(Register(c, channel, handler), [Subscribing(channel)]);
    SendSettlesNothing(Drop(c, channel), [Unsubscribing(channel)]);
  }

  lemma LeavingSettlesNothing(c: Client, id: nat)
    ensures StaysUnsettled(c, SocketLeaves(c, id)) && StaysUnsettled(c, Disconnect(c))
  {
  }

  lemma TokenStaysPending(c: Client, ok: bool, created: bool)
    requires Pending(c)
    ensures Pending(TokenArrives(c, ok, created))
  {
    var d := TokenArrives(c, ok, created);
    if |d.sockets| > |c.sockets| { assert Unsettled(d.sockets[|c.sockets|]); }
  }

  lemma StepStaysPending(c: Client, e: Event)
    requires Pending(c)
    ensures Pending(Next(c, e))
  {
    match e
    case OnToken(ok, created) => TokenStaysPending(c, ok, created);
    case OnOpen(id) => OpenLowersFlag(c, id);
    case OnError(_) =>
    case OnClose(id, rejected) =>
      assert SocketCloses(c, id, rejected) == c || !SocketCloses(c, id, rejected).isConnecting;
    case _ =>
      OthersSettleNothing(c, e);
      UnsettledMeansPending(c, Next(c, e));
  }

  lemma OpenLowersFlag(c: Client, id: nat)
    ensures SocketOpens(c, id) == c || !SocketOpens(c, id).isConnecting
  {
  }

  lemma OthersSettleNothing(c: Client, e: Event)
    requires !e.OnToken? && !e.OnOpen? && !e.OnError? && !e.OnClose?
    ensures StaysUnsettled(c, Next(c, e))
  {
    match e
    case CallSubscribe(channel, handler) => SubscriptionsSettleNothing(c, channel, handler);
    case CallRelease(channel, handler) => SubscriptionsSettleNothing(c, channel, handler);
    case OnLeave(id) => LeavingSettlesNothing(c, id);
    case CallDisconnect => LeavingSettlesNothing(c, 0);
    case _ =>
  }

  /** The flag that holds back new connections never sticks: in every reachable state, if it is up, the close
  of some socket is still to come and will lower it. */
  lemma {:induction false} ConnectingNeverSticks(events: seq<Event>)
    ensures Pending(Run(FRESH, events))
  {
    if events != [] {
      ConnectingNeverSticks(events[..|events| - 1]);
      StepStaysPending(Run(FRESH, events[..|events| - 1]), events[|events| - 1]);
    }
  }

  /** A lost connection: its close, the timer, the token and the open of the next socket. */
  function Reconnected(c: Client): Client
    requires CurrentOpen(c)
  {
    var lost := SocketCloses(c, c.current.value, false);
    SocketOpens(TokenArrives(TimerFires(lost), true, true), |c.sockets|)
  }

  /** When the open socket of a client is lost before ten attempts, and the next connection succeeds, the
  server serves every channel again and the attempts start over. */
  lemma ReconnectRestores(c: Client)
    requires Tidy(c) && CurrentOpen(c) && c.shouldReconnect && c.hasTokenGetter && c.attempts < MAX_ATTEMPTS
    ensures var d := Reconnected(c);
      CurrentOpen(d) && ServerView(d) == c.handlers.Keys && d.handlers == c.handlers && d.attempts == 0
  {
    var lost := SocketCloses(c, c.current.value, false);
    var waiting := TimerFires(lost);
    assert !CurrentOpen(lost) && lost.timers > 0 && waiting.awaiting > 0;
    var next := TokenArrives(waiting, true, true);
    assert next.sockets == lost.sockets + [Socket(Connecting, [])] && next.current == Some(|c.sockets|);
    var opening := Becomes(next, |c.sockets|, Open).(isConnecting := false, attempts := 0);
    assert CurrentOpen(opening) && opening.sockets[|c.sockets|].sent == [];
    ServedAppend([], c.channels);
    assert Served([]) == {} && (set channel | channel in c.channels) == c.handlers.Keys;
  }

  // ---- after disconnect ----

  /** Nobody connects or subscribes any more. */
  predicate Abandoned(events: seq<Event>) { forall e :: e in events ==> !e.CallConnect? && !e.CallSubscribe? }

  lemma QuietStep(c: Client, e: Event)
    requires !c.shouldReconnect && !e.CallConnect? && !e.CallSubscribe?
    ensures var d := Next(c, e);
      !d.shouldReconnect && |d.sockets| + d.awaiting <= |c.sockets| + c.awaiting && |c.sockets| <= |d.sockets|
  {
  }

  /** After `disconnect` no timer opens a socket: the only ones still created are those whose `connect` was
  already waiting for its token. */
  lemma {:induction false} DisconnectIsFinal(c: Client, events: seq<Event>)
    requires Abandoned(events)
    ensures var d := Disconnect(c); var e := Run(d, events);
      && !e.shouldReconnect
      && |d.sockets| <= |e.sockets|
      && |e.sockets| + e.awaiting <= |d.sockets| + d.awaiting
  {
    if events != [] {
      DisconnectIsFinal(c, events[..|events| - 1]);
      QuietStep(Run(Disconnect(c), events[..|events| - 1]), events[|events| - 1]);
    }
  }

  /** A socket can still appear after `disconnect` exactly when a `connect` was waiting for its token. */
  lemma LateSocketIff(c: Client)
    ensures (exists events :: Abandoned(events) && |Run(Disconnect(c), events).sockets| > |c.sockets|)
       <==> c.awaiting > 0
  {
    if c.awaiting > 0 {
      var events := [OnToken(true, true)];
      assert events[..0] == [];
      assert Abandoned(events) && |Run(Disconnect(c), events).sockets| > |c.sockets|;
    } else {
      forall events | Abandoned(events) ensures |Run(Disconnect(c), events).sockets| <= |c.sockets| {
        DisconnectIsFinal(c, events);
      }
    }
  }

  lemma StepNeverRearms(c: Client, e: Event)
    requires !c.shouldReconnect
    ensures !Next(c, e).shouldReconnect && Next(c, e).timers <= c.timers && Scheduled(c, e) == []
  {
  }

  /** `disconnect` is not undone by connecting or subscribing again: no attempt is ever scheduled afterwards,
  so a client that goes back online and then loses its socket stays offline. */
  lemma {:induction false} ReconnectingEndsForGood(c: Client, events: seq<Event>)
    ensures var d := Disconnect(c);
      && !Run(d, events).shouldReconnect
      && Run(d, events).timers <= c.timers
      && Schedules(d, events) == []
  {
    if events != [] {
      ReconnectingEndsForGood(c, events[..|events| - 1]);
      StepNeverRearms(Run(Disconnect(c), events[..|events| - 1]), events[|events| - 1]);
    }
  }
}

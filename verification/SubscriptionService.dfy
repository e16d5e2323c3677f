/** The service itself, field by field; every method is tied to its step of `SubscriptionClient`. */
module SubscriptionService {
  import opened Options
  import opened SubscriptionClient
  import opened SubscriptionSafety

  /** Who a message reaches; the empty channel name counts as no channel. */
  function Recipients(c: Client, channel: Option<Channel>): set<Handler> {
    if channel.Some? && channel.value != "" && channel.value in c.handlers then c.handlers[channel.value] else {}
  }

  /** A message reaches exactly the handlers subscribed to its channel and not yet released. */
  lemma MessageReachesLive(c: Client, made: seq<(Channel, Handler)>, live: set<nat>, channel: Channel, handler: Handler)
    requires Honest(c, made, live)
    ensures handler in Recipients(c, Some(channel))
       <==> channel != "" && exists i :: i in live && i < |made| && made[i] == (channel, handler)
  {
    assert Registered(c, (channel, handler)) <==> channel in c.handlers && handler in c.handlers[channel];
  }

  class WebSocketService {
    // The browser's side: every socket made so far, the waiting calls and the timers.
    var sockets: seq<Socket>
    var awaiting: nat
    var timers: nat
    // The service's own fields; `order` is the insertion order of the map.
    var ws: Option<nat>
    var order: seq<Channel>
    var subscribers: map<Channel, set<Handler>>
    var isConnecting: bool
    var shouldReconnect: bool
    var hasTokenGetter: bool
    var reconnectAttempts: nat

    ghost function View(): Client
      reads this
    {
      Client(sockets, ws, order, subscribers, isConnecting, shouldReconnect, hasTokenGetter, reconnectAttempts,
             awaiting, timers)
    }

    /** The server serves at least the channels that have handlers, while the socket is open. */
    ghost predicate Valid()
      reads this
    {
      Covered(View())
    }

    /** The server serves exactly those channels. */
    ghost predicate Agrees()
      reads this
    {
      InSync(View())
    }

    constructor ()
      ensures View() == FRESH && Valid() && Agrees()
    {
      sockets, awaiting, timers := [], 0, 0;
      ws, order, subscribers := None, [], map[];
      isConnecting, shouldReconnect, hasTokenGetter, reconnectAttempts := false, true, false, 0;
    }

    predicate IsConnected()
      reads this
    {
      ws.Some? && ws.value < |sockets| && sockets[ws.value].ready == Open
    }

    method Transmit(message: Message)
      modifies `sockets
      ensures View() == Send(old(View()), [message])
      ensures IsConnected() == old(IsConnected())
    {
      if IsConnected() {
        var socket := sockets[ws.value];
        sockets := sockets[ws.value := socket.(sent := socket.sent + [message])];
      }
    }

    method SetTokenGetter()
      requires Valid()
      modifies this
      ensures View() == Next(old(View()), CallSetTokenGetter)
      ensures Valid() && (old(Agrees()) ==> Agrees())
    {
      QuietKeepsSync(View(), Next(View(), CallSetTokenGetter));
      hasTokenGetter := true;
    }

    method Connect()
      requires Valid()
      modifies this
      ensures View() == SubscriptionClient.Connect(old(View()))
      ensures Valid() && (old(Agrees()) ==> Agrees())
    {
      QuietKeepsSync(View(), SubscriptionClient.Connect(View()));
      if IsConnected() || isConnecting || !hasTokenGetter { return; }
      awaiting := awaiting + 1;
    }

    method Schedule()
      modifies this
      ensures View() == ScheduleReconnect(old(View()))
    {
      reconnectAttempts := reconnectAttempts + 1;
      timers := timers + 1;
    }

    /** The rest of `connect`, once its token is there; `created` says whether the constructor succeeded. */
    method ResumeConnect(ok: bool, created: bool)
      requires Valid() && awaiting > 0
      modifies this
      ensures View() == TokenArrives(old(View()), ok, created)
      ensures Valid() && (old(Agrees()) ==> Agrees())
      ensures |old(sockets)| <= |sockets| && forall id :: |old(sockets)| <= id < |sockets| ==> sockets[id].sent == []
    {
      TokenKeepsSync(View(), ok, created);
      awaiting := awaiting - 1;
      if !ok { return; }
      isConnecting := true;
      if created {
        ws := Some(|sockets|);
        sockets := sockets + [Socket(Connecting, [])];
      } else {
        isConnecting := false;
        if shouldReconnect { Schedule(); }
      }
    }

    method OnTimer()
      requires Valid() && timers > 0
      modifies this
      ensures View() == TimerFires(old(View()))
      ensures Valid() && (old(Agrees()) ==> Agrees())
    {
      QuietKeepsSync(View(), TimerFires(View()));
      timers := timers - 1;
      if shouldReconnect { Connect(); }
    }

    method ResubscribeAll()
      modifies `sockets
      ensures View() == Send(old(View()), Subscriptions(order))
    {
      var i := 0;
      ghost var before := View();
      SendNothing(before, order);
      while i < |order|
        invariant 0 <= i <= |order|
        invariant View() == Send(before, Subscriptions(order[..i]))
      {
        SendMore(before, order, i);
        Transmit(Subscribing(order[i]));
        i := i + 1;
      }
      assert order[..|order|] == order;
    }

    /** The open handler of socket `id`, which need not be the current one any more. */
    method OnOpen(id: nat)
      requires Valid() && id < |sockets| && sockets[id].ready == Connecting
      modifies this
      ensures View() == SocketOpens(old(View()), id)
      ensures Valid() && (old(Agrees()) ==> Agrees())
    {
      OpenKeepsSync(View(), id);
      sockets := sockets[id := sockets[id].(ready := Open)];
      isConnecting, reconnectAttempts := false, 0;
      ResubscribeAll();
    }

    method OnError()
      requires Valid()
      modifies this
      ensures forall id: nat :: View() == SocketErrors(old(View()), id)
      ensures Valid() && (old(Agrees()) ==> Agrees())
    {
      isConnecting := false;
    }

    method OnClose(id: nat, code: int, reason: string)
      requires Valid() && id < |sockets| && sockets[id].ready != Closed
      modifies this
      ensures View() == SocketCloses(old(View()), id, code == 1008 && reason == "Invalid token")
      ensures Valid() && (old(Agrees()) ==> Agrees())
      ensures timers > old(timers) ==> reconnectAttempts <= MAX_ATTEMPTS
    {
      CloseKeepsSync(View(), id, code == 1008 && reason == "Invalid token");
      sockets := sockets[id := sockets[id].(ready := Closed)];
      isConnecting := false;
      if code == 1008 && reason == "Invalid token" { return; }
      if shouldReconnect && reconnectAttempts < MAX_ATTEMPTS { Schedule(); }
    }

    method Add(channel: Channel, handler: Handler)
      modifies `order, `subscribers
      ensures View() == Register(old(View()), channel, handler)
      ensures channel in subscribers && handler in subscribers[channel]
    {
      if channel !in subscribers {
        subscribers := subscribers[channel := {}];
        order := order + [channel];
      }
      subscribers := subscribers[channel := subscribers[channel] + {handler}];
      assert {} + {handler} == {handler};
    }

    method Subscribe(channel: Channel, handler: Handler)
      requires Valid()
      modifies this
      ensures View() == SubscriptionClient.Subscribe(old(View()), channel, handler)
      ensures Valid() && (old(Agrees()) ==> Agrees())
      ensures channel in subscribers && handler in subscribers[channel]
    {
      SubscribeKeepsSync(View(), channel, handler);
      Add(channel, handler);
      if IsConnected() {
        Transmit(Subscribing(channel));
      } else {
        RegisterKeepsCover(old(View()), channel, handler);
        Connect();
      }
    }

    method Forget(channel: Channel)
      modifies `order, `subscribers
      ensures View() == Drop(old(View()), channel)
    {
      order := Without(order, channel);
      subscribers := subscribers - {channel};
    }

    /** The closure returned by `Subscribe(channel, handler)`. */
    method Release(channel: Channel, handler: Handler)
      requires Valid()
      modifies this
      ensures View() == SubscriptionClient.Release(old(View()), channel, handler)
      ensures Valid() && (old(Agrees()) ==> Agrees())
      ensures !Registered(View(), (channel, handler))
    {
      ReleaseKeepsSync(View(), channel, handler);
      if channel in subscribers {
        var handlers := subscribers[channel] - {handler};
        if handlers == {} {
          Forget(channel);
          Transmit(Unsubscribing(channel));
        } else {
          subscribers := subscribers[channel := handlers];
        }
      }
    }

    /** Sends nothing, so the server goes on serving a channel that it served. */
    method Unsubscribe(channel: Channel)
      requires Valid()
      modifies this
      ensures View() == SubscriptionClient.Unsubscribe(old(View()), channel)
      ensures Valid()
      ensures old(Agrees()) ==> (Agrees() <==> channel !in old(subscribers) || !IsConnected())
    {
      UnsubscribeKeepsCover(View(), channel);
      if Agrees() { UnsubscribeKeepsSyncIff(View(), channel); }
      Forget(channel);
    }

    method Disconnect()
      requires Valid()
      modifies this
      ensures View() == SubscriptionClient.Disconnect(old(View()))
      ensures Valid() && Agrees() && !IsConnected() && subscribers == map[]
    {
      DisconnectKeepsSync(View());
      shouldReconnect := false;
      if ws.Some? {
        if ws.value < |sockets| && sockets[ws.value].ready != Closed {
          sockets := sockets[ws.value := sockets[ws.value].(ready := Closing)];
        }
        ws := None;
      }
      order, subscribers := [], map[];
    }

    /** Calls every handler of the channel once, whatever the others raise. */
    method HandleMessage(channel: Option<Channel>) returns (called: seq<Handler>)
      requires Valid()
      ensures forall h :: h in called <==> h in Recipients(View(), channel)
      ensures forall i, j :: 0 <= i < j < |called| ==> called[i] != called[j]
    {
      called := [];
      if channel.Some? && channel.value != "" && channel.value in subscribers {
        var rest := subscribers[channel.value];
        while rest != {}
          invariant rest <= subscribers[channel.value]
          invariant forall h :: h in called <==> h in subscribers[channel.value] - rest
          invariant forall i, j :: 0 <= i < j < |called| ==> called[i] != called[j]
          decreases rest
        {
          var handler :| handler in rest;
          assert handler !in called;
          called := called + [handler];
          rest := rest - {handler};
        }
      }
    }
  }

  lemma SendNothing(c: Client, channels: seq<Channel>)
    ensures Send(c, Subscriptions(channels[..0])) == c
  {
    assert Subscriptions(channels[..0]) == [];
    if CurrentOpen(c) {
      var socket := c.sockets[c.current.value];
      assert socket.sent + [] == socket.sent;
      assert c.sockets[c.current.value := socket] == c.sockets;
    }
  }

  lemma SendMore(c: Client, channels: seq<Channel>, i: nat)
    requires i < |channels|
    ensures Send(c, Subscriptions(channels[..i + 1]))
         == Send(Send(c, Subscriptions(channels[..i])), [Subscribing(channels[i])])
  {
    assert Subscriptions(channels[..i + 1]) == Subscriptions(channels[..i]) + [Subscribing(channels[i])];
    if CurrentOpen(c) {
      var id := c.current.value;
      var sent, more := c.sockets[id].sent, Subscriptions(channels[..i]);
      assert sent + (more + [Subscribing(channels[i])]) == (sent + more) + [Subscribing(channels[i])];
    }
  }
}

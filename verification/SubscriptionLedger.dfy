/** Which subscriptions are live, over whole runs, and who a message reaches. */
module SubscriptionLedger {
  import opened Options
  import opened SubscriptionClient
  import opened SubscriptionSafety
  import SubscriptionService

  /** A call of `subscribe`, of the closure that the call numbered `mine` returned, or any other event. */
  datatype Call = Make(channel: Channel, handler: Handler) | Withdraw(mine: nat) | Other(event: Event)

  /** Every subscription made so far, in order, and those still live. */
  datatype Ledger = Ledger(made: seq<(Channel, Handler)>, live: set<nat>)

  datatype Story = Story(client: Client, ledger: Ledger)

  predicate Proper(call: Call) { call.Other? ==> !call.event.CallSubscribe? && !call.event.CallRelease? }

  /** A closure can only be called once its subscription was made. The public `unsubscribe` ends the subscriptions
  of its channel, and `disconnect` ends them all. */
  function Tell(s: Story, call: Call): Story {
    var c, l := s.client, s.ledger;
    match call
    case Make(channel, handler) =>
      Story(Subscribe(c, channel, handler), Ledger(l.made + [(channel, handler)], l.live + {|l.made|}))
    case Withdraw(mine) =>
      if mine < |l.made|
      then Story(Release(c, l.made[mine].0, l.made[mine].1), l.(live := l.live - {mine}))
      else s
    case Other(CallUnsubscribe(channel)) =>
      Story(Unsubscribe(c, channel), l.(live := set i | i in l.live && i < |l.made| && l.made[i].0 != channel))
    case Other(CallDisconnect) => Story(Disconnect(c), l.(live := {}))
    case Other(event) => s.(client := Next(c, event))
  }

  function TellAll(calls: seq<Call>): Story {
    if calls == [] then Story(FRESH, Ledger([], {}))
    else Tell(TellAll(calls[..|calls| - 1]), calls[|calls| - 1])
  }

  ghost predicate IsHonest(s: Story) { Honest(s.client, s.ledger.made, s.ledger.live) }

  /** A closure is not called while another live subscription has its channel and handler. */
  predicate Apart(l: Ledger, call: Call) {
    call.Withdraw? && call.mine < |l.made| ==>
      forall i :: i in l.live && i < |l.made| && i != call.mine ==> l.made[i] != l.made[call.mine]
  }

  predicate AlwaysApart(calls: seq<Call>) {
    calls != [] ==>
      var front := calls[..|calls| - 1];
      AlwaysApart(front) && Apart(TellAll(front).ledger, calls[|calls| - 1])
  }

  ghost predicate AlwaysHonest(calls: seq<Call>) {
    IsHonest(TellAll(calls)) && (calls != [] ==> AlwaysHonest(calls[..|calls| - 1]))
  }

  lemma OthersKeepHandlers(c: Client, e: Event)
    requires !e.CallSubscribe? && !e.CallRelease? && !e.CallUnsubscribe? && !e.CallDisconnect?
    ensures Next(c, e).handlers == c.handlers
  {
  }

  lemma SameHandlersSameHonesty(c: Client, d: Client, made: seq<(Channel, Handler)>, live: set<nat>)
    requires c.handlers == d.handlers && Honest(c, made, live)
    ensures Honest(d, made, live)
  {
    assert forall s :: Registered(d, s) <==> Registered(c, s);
  }

  lemma UnsubscribeIsHonest(s: Story, channel: Channel)
    requires IsHonest(s)
    ensures IsHonest(Tell(s, Other(CallUnsubscribe(channel))))
  {
    var t := Tell(s, Other(CallUnsubscribe(channel)));
    var made := s.ledger.made;
    forall x ensures Registered(t.client, x) <==> exists i :: i in t.ledger.live && i < |made| && made[i] == x {
      assert Registered(t.client, x) <==> Registered(s.client, x) && x.0 != channel;
      if Registered(t.client, x) {
        var i :| i in s.ledger.live && i < |made| && made[i] == x;
        assert i in t.ledger.live;
      }
    }
  }

  lemma DisconnectIsHonest(s: Story)
    ensures IsHonest(Tell(s, Other(CallDisconnect)))
  {
  }

  lemma TellIsHonestIff(s: Story, call: Call)
    requires IsHonest(s) && Proper(call)
    ensures IsHonest(Tell(s, call)) <==> Apart(s.ledger, call)
  {
    var c, l := s.client, s.ledger;
    match call
    case Make(channel, handler) => SubscribeIsHonest(c, channel, handler, l.made, l.live);
    case Withdraw(mine) => if mine < |l.made| { ReleaseIsHonestIff(c, l.made, l.live, mine); }
    case Other(event) =>
      if event.CallUnsubscribe? {
        UnsubscribeIsHonest(s, event.channel);
      } else if event.CallDisconnect? {
        DisconnectIsHonest(s);
      } else {
        OthersKeepHandlers(c, event);
        SameHandlersSameHonesty(c, Next(c, event), l.made, l.live);
      }
  }

  /** Throughout a run, handlers are registered for exactly the live subscriptions, if and only if no closure is
  called, for the first time or again, while another live subscription has its channel and handler. */
  lemma {:induction false} AlwaysHonestIff(calls: seq<Call>)
    requires forall call :: call in calls ==> Proper(call)
    ensures AlwaysHonest(calls) <==> AlwaysApart(calls)
  {
    if calls != [] {
      var front, last := calls[..|calls| - 1], calls[|calls| - 1];
      AlwaysHonestIff(front);
      if AlwaysHonest(front) { TellIsHonestIff(TellAll(front), last); }
    }
  }

  /** In such a run a message reaches exactly the handlers of the live subscriptions to its channel, and none if
  the channel's name is empty. */
  lemma MessagesReachLiveSubscriptions(calls: seq<Call>, channel: Channel, handler: Handler)
    requires (forall call :: call in calls ==> Proper(call)) && AlwaysApart(calls)
    ensures var s := TellAll(calls);
      handler in SubscriptionService.Recipients(s.client, Some(channel))
      <==> channel != ""
           && exists i :: i in s.ledger.live && i < |s.ledger.made| && s.ledger.made[i] == (channel, handler)
  {
    AlwaysHonestIff(calls);
    var s := TellAll(calls);
    SubscriptionService.MessageReachesLive(s.client, s.ledger.made, s.ledger.live, channel, handler);
  }
}

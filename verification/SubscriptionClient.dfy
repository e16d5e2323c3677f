/** The dashboard's WebSocket client: its subscriptions, its connection attempts, and the server's view.

`Client` is the service's fields plus what lives outside it: the sockets it ever created, the `connect`
calls that wait for a token, and the timers not yet fired. Each function is one uninterrupted piece of
JavaScript.
*/
module SubscriptionClient {
  import opened Options

  type Channel = string
  type Handler = nat

  datatype Ready = Connecting | Open | Closing | Closed

  datatype Message = Subscribing(channel: Channel) | Unsubscribing(channel: Channel)

  /** A socket and the messages sent over it; each socket is a new session at the server. */
  datatype Socket = Socket(ready: Ready, sent: seq<Message>)

  datatype Client = Client(
    sockets: seq<Socket>,
    current: Option<nat>,
    channels: seq<Channel>,
    handlers: map<Channel, set<Handler>>,
    isConnecting: bool,
    shouldReconnect: bool,
    hasTokenGetter: bool,
    attempts: nat,
    awaiting: nat,
    timers: nat)

  const MAX_ATTEMPTS := 10
  const FIRST_DELAY := 1000
  const LONGEST_DELAY := 30000

  const FRESH := Client([], None, [], map[], false, true, false, 0, 0, 0)

  /** The channels a server session serves after these messages, applied in order. */
  function Served(sent: seq<Message>): set<Channel> {
    if sent == [] then {}
    else
      var before := Served(sent[..|sent| - 1]);
      match sent[|sent| - 1]
      case Subscribing(channel) => before + {channel}
      case Unsubscribing(channel) => before - {channel}
  }

  predicate CurrentOpen(c: Client) {
    c.current.Some? && c.current.value < |c.sockets| && c.sockets[c.current.value].ready == Open
  }

  function Send(c: Client, messages: seq<Message>): Client {
    if CurrentOpen(c)
    then
      var socket := c.sockets[c.current.value];
      c.(sockets := c.sockets[c.current.value := socket.(sent := socket.sent + messages)])
    else c
  }

  // ---- connecting ----

  /** `connect` up to its `await`. */
  function Connect(c: Client): Client {
    if CurrentOpen(c) || c.isConnecting || !c.hasTokenGetter then c else c.(awaiting := c.awaiting + 1)
  }

  /** `connect` from its `await` on; nothing is checked again. */
  function TokenArrives(c: Client, ok: bool, created: bool): Client {
    if c.awaiting == 0 then c
    else
      var d := c.(awaiting := c.awaiting - 1);
      if !ok then d
      else if created then
        d.(isConnecting := true, sockets := d.sockets + [Socket(Connecting, [])], current := Some(|d.sockets|))
      else
        var e := d.(isConnecting := false);
        if e.shouldReconnect then ScheduleReconnect(e) else e
  }

  function ScheduleReconnect(c: Client): Client { c.(attempts := c.attempts + 1, timers := c.timers + 1) }

  /** `1000 * 2 ** (attempt - 1)`, capped. */
  function Delay(attempt: nat): nat
    requires attempt > 0
  {
    var delay := FIRST_DELAY * Pow2(attempt - 1);
    if delay < LONGEST_DELAY then delay else LONGEST_DELAY
  }

  function Pow2(n: nat): nat { if n == 0 then 1 else 2 * Pow2(n - 1) }

  function TimerFires(c: Client): Client {
    if c.timers == 0 then c
    else
      var d := c.(timers := c.timers - 1);
      if d.shouldReconnect then Connect(d) else d
  }

  function Subscriptions(channels: seq<Channel>): seq<Message> {
    seq(|channels|, i requires 0 <= i < |channels| => Subscribing(channels[i]))
  }

  function Becomes(c: Client, id: nat, ready: Ready): Client
    requires id < |c.sockets|
  {
    c.(sockets := c.sockets[id := c.sockets[id].(ready := ready)])
  }

  function SocketOpens(c: Client, id: nat): Client {
    if id >= |c.sockets| || c.sockets[id].ready != Connecting then c
    else
      var d := Becomes(c, id, Open).(isConnecting := false, attempts := 0);
      Send(d, Subscriptions(d.channels))
  }

  function SocketErrors(c: Client, id: nat): Client { c.(isConnecting := false) }

  /** The server or the network starts to close a socket; no callback runs. */
  function SocketLeaves(c: Client, id: nat): Client {
    if id >= |c.sockets| || c.sockets[id].ready == Closed then c
    else Becomes(c, id, Closing)
  }

  /** `rejected`: code 1008 with the reason "Invalid token". */
  function SocketCloses(c: Client, id: nat, rejected: bool): Client {
    if id >= |c.sockets| || c.sockets[id].ready == Closed then c
    else
      var d := Becomes(c, id, Closed).(isConnecting := false);
      if !rejected && d.shouldReconnect && d.attempts < MAX_ATTEMPTS then ScheduleReconnect(d) else d
  }

  // ---- subscribing ----

  function Register(c: Client, channel: Channel, handler: Handler): Client {
    if channel in c.handlers then c.(handlers := c.handlers[channel := c.handlers[channel] + {handler}])
    else c.(channels := c.channels + [channel], handlers := c.handlers[channel := {handler}])
  }

  function Subscribe(c: Client, channel: Channel, handler: Handler): Client {
    var d := Register(c, channel, handler);
    if CurrentOpen(d) then Send(d, [Subscribing(channel)]) else Connect(d)
  }

  function Without(channels: seq<Channel>, channel: Channel): (r: seq<Channel>)
    ensures forall x :: x in r <==> x in channels && x != channel
  {
    if channels == [] then []
    else (if channels[0] == channel then [] else [channels[0]]) + Without(channels[1..], channel)
  }

  function Drop(c: Client, channel: Channel): Client {
    c.(channels := Without(c.channels, channel), handlers := c.handlers - {channel})
  }

  /** The closure that `subscribe` returns. */
  function Release(c: Client, channel: Channel, handler: Handler): Client {
    if channel !in c.handlers then c
    else
      var rest := c.handlers[channel] - {handler};
      if rest == {} then Send(Drop(c, channel), [Unsubscribing(channel)])
      else c.(handlers := c.handlers[channel := rest])
  }

  /** The public `unsubscribe`, which tells the server nothing. */
  function Unsubscribe(c: Client, channel: Channel): Client { Drop(c, channel) }

  function Disconnect(c: Client): Client {
    var d := if c.current.Some? then SocketLeaves(c, c.current.value) else c;
    d.(shouldReconnect := false, current := None, channels := [], handlers := map[])
  }

  // ---- runs ----

  datatype Event =
    | CallSetTokenGetter
    | CallConnect
    | CallSubscribe(channel: Channel, handler: Handler)
    | CallRelease(channel: Channel, handler: Handler)
    | CallUnsubscribe(channel: Channel)
    | CallDisconnect
    | OnToken(ok: bool, created: bool)
    | OnTimer
    | OnOpen(id: nat)
    | OnError(id: nat)
    | OnLeave(id: nat)
    | OnClose(id: nat, rejected: bool)

  function Next(c: Client, e: Event): Client {
    match e
    case CallSetTokenGetter => c.(hasTokenGetter := true)
    case CallConnect => Connect(c)
    case CallSubscribe(channel, handler) => Subscribe(c, channel, handler)
    case CallRelease(channel, handler) => Release(c, channel, handler)
    case CallUnsubscribe(channel) => Unsubscribe(c, channel)
    case CallDisconnect => Disconnect(c)
    case OnToken(ok, created) => TokenArrives(c, ok, created)
    case OnTimer => TimerFires(c)
    case OnOpen(id) => SocketOpens(c, id)
    case OnError(id) => SocketErrors(c, id)
    case OnLeave(id) => SocketLeaves(c, id)
    case OnClose(id, rejected) => SocketCloses(c, id, rejected)
  }

  function Run(c: Client, events: seq<Event>): Client {
    if events == [] then c else Next(Run(c, events[..|events| - 1]), events[|events| - 1])
  }

  // ---- the server agrees with the client ----

  lemma {:induction false} ServedAppend(sent: seq<Message>, channels: seq<Channel>)
    ensures Served(sent + Subscriptions(channels)) == Served(sent) + set channel | channel in channels
  {
    if channels == [] {
      assert sent + Subscriptions(channels) == sent;
    } else {
      var front := channels[..|channels| - 1];
      ServedAppend(sent, front);
      var messages := sent + Subscriptions(channels);
      assert messages[..|messages| - 1] == sent + Subscriptions(front);
    }
  }

  lemma ServedOne(sent: seq<Message>, message: Message)
    ensures Served(sent + [message]) ==
            if message.Subscribing? then Served(sent) + {message.channel} else Served(sent) - {message.channel}
  {
    assert (sent + [message])[..|sent|] == sent;
  }

  /** What every reachable state satisfies: the two views of the subscribers agree, no handler set is empty,
  and nothing has been sent over a socket that is still connecting. */
  ghost predicate Tidy(c: Client) {
    && (forall channel :: channel in c.channels <==> channel in c.handlers)
    && (forall channel :: channel in c.handlers ==> c.handlers[channel] != {})
    && (c.current.Some? ==> c.current.value < |c.sockets|)
    && (forall id :: 0 <= id < |c.sockets| && c.sockets[id].ready == Connecting ==> c.sockets[id].sent == [])
  }

  function ServerView(c: Client): set<Channel>
    requires CurrentOpen(c)
  {
    Served(c.sockets[c.current.value].sent)
  }

  ghost predicate InSync(c: Client) { Tidy(c) && (CurrentOpen(c) ==> ServerView(c) == c.handlers.Keys) }

  ghost predicate Covered(c: Client) { Tidy(c) && (CurrentOpen(c) ==> c.handlers.Keys <= ServerView(c)) }
}

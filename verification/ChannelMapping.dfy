/** What this repository's own server makes of the client's messages: it maps the channels of the dashboard to channels
of its own, several to one, and some to none. */
module ChannelMapping {
  import opened Options
  import opened SubscriptionClient

  type Backend = string

  /** The table and the patterns of the server. */
  type Mapping = Channel -> Option<Backend>

  /** The server's channels that a session has joined after one more message. */
  function Joining(joined: set<Backend>, message: Message, mapping: Mapping): set<Backend> {
    var backend := mapping(message.channel);
    if backend.None? then joined
    else if message.Subscribing? then joined + {backend.value}
    else joined - {backend.value}
  }

  function Joined(sent: seq<Message>, mapping: Mapping): set<Backend> {
    if sent == [] then {} else Joining(Joined(sent[..|sent| - 1], mapping), sent[|sent| - 1], mapping)
  }

  /** The server's loop over the messages of a session. */
  method Serve(sent: seq<Message>, mapping: Mapping) returns (subscribedChannels: set<Backend>)
    ensures subscribedChannels == Joined(sent, mapping)
  {
    subscribedChannels := {};
    for i := 0 to |sent|
      invariant subscribedChannels == Joined(sent[..i], mapping)
    {
      var backend := mapping(sent[i].channel);
      if sent[i].Subscribing? {
        if backend.Some? { subscribedChannels := subscribedChannels + {backend.value}; }
      } else if backend.Some? && backend.value in subscribedChannels {
        subscribedChannels := subscribedChannels - {backend.value};
      }
      assert sent[..i + 1][..i] == sent[..i];
    }
    assert sent[..|sent|] == sent;
  }

  /** The server's channels behind these channels of the client. */
  function Needed(channels: set<Channel>, mapping: Mapping): set<Backend> {
    set channel | channel in channels && mapping(channel).Some? :: mapping(channel).value
  }

  /** The session has joined what the client listens to. */
  predicate Faithful(sent: seq<Message>, mapping: Mapping) { Joined(sent, mapping) == Needed(Served(sent), mapping) }

  /** The client gives up no channel that shares its channel at the server with another one it still listens to. */
  predicate Apart(sent: seq<Message>, message: Message, mapping: Mapping) {
    message.Unsubscribing? && mapping(message.channel).Some? ==>
      forall other :: other in Served(sent) && other != message.channel ==> mapping(other) != mapping(message.channel)
  }

  predicate AlwaysFaithful(sent: seq<Message>, mapping: Mapping) {
    Faithful(sent, mapping) && (sent != [] ==> AlwaysFaithful(sent[..|sent| - 1], mapping))
  }

  predicate AlwaysApart(sent: seq<Message>, mapping: Mapping) {
    sent != [] ==>
      var front := sent[..|sent| - 1];
      AlwaysApart(front, mapping) && Apart(front, sent[|sent| - 1], mapping)
  }

  lemma NeededOneMore(channels: set<Channel>, channel: Channel, mapping: Mapping)
    ensures Needed(channels + {channel}, mapping)
         == Needed(channels, mapping) + if mapping(channel).Some? then {mapping(channel).value} else {}
  {
    var more := Needed(channels + {channel}, mapping);
    forall b ensures b in more <==>
                     b in Needed(channels, mapping) || (mapping(channel).Some? && b == mapping(channel).value) {
      if mapping(channel).Some? && b == mapping(channel).value { assert channel in channels + {channel}; }
      if b in Needed(channels, mapping) {
        var c :| c in channels && mapping(c).Some? && mapping(c).value == b;
        assert c in channels + {channel};
      }
    }
  }

  lemma NeededOneLess(channels: set<Channel>, channel: Channel, mapping: Mapping)
    requires mapping(channel).Some?
    ensures Needed(channels - {channel}, mapping) == Needed(channels, mapping) - {mapping(channel).value}
       <==> forall other :: other in channels && other != channel ==> mapping(other) != mapping(channel)
  {
    var b := mapping(channel).value;
    if other :| other in channels && other != channel && mapping(other) == mapping(channel) {
      assert other in channels - {channel} && b in Needed(channels - {channel}, mapping);
    } else {
      forall x ensures x in Needed(channels - {channel}, mapping) <==> x in Needed(channels, mapping) && x != b {
        if x in Needed(channels, mapping) && x != b {
          var c :| c in channels && mapping(c).Some? && mapping(c).value == x;
          assert c in channels - {channel};
        }
      }
    }
  }

  lemma NeededWithoutUnknown(channels: set<Channel>, channel: Channel, mapping: Mapping)
    requires mapping(channel).None?
    ensures Needed(channels - {channel}, mapping) == Needed(channels, mapping)
  {
    forall x | x in Needed(channels, mapping) ensures x in Needed(channels - {channel}, mapping) {
      var c :| c in channels && mapping(c).Some? && mapping(c).value == x;
      assert c in channels - {channel};
    }
  }

  lemma MessageFaithfulIff(sent: seq<Message>, message: Message, mapping: Mapping)
    requires Faithful(sent, mapping)
    ensures Faithful(sent + [message], mapping) <==> Apart(sent, message, mapping)
  {
    assert (sent + [message])[..|sent|] == sent;
    var served, channel := Served(sent), message.channel;
    if message.Subscribing? {
      NeededOneMore(served, channel, mapping);
    } else if mapping(channel).Some? {
      NeededOneLess(served, channel, mapping);
    } else {
      NeededWithoutUnknown(served, channel, mapping);
    }
  }

  /** Throughout a session the server has joined what the client listens to if and only if the client never gives up
  a channel while it still listens to another that is mapped to the same channel of the server. */
  lemma {:induction false} AlwaysFaithfulIff(sent: seq<Message>, mapping: Mapping)
    ensures AlwaysFaithful(sent, mapping) <==> AlwaysApart(sent, mapping)
  {
    if sent != [] {
      var front, last := sent[..|sent| - 1], sent[|sent| - 1];
      assert sent == front + [last];
      AlwaysFaithfulIff(front, mapping);
      if AlwaysFaithful(front, mapping) { MessageFaithfulIff(front, last, mapping); }
    }
  }

  /** A client in agreement with its messages is then served all that it listens to, but for channels that the server
  does not know. */
  lemma DashboardIsServed(c: Client, mapping: Mapping)
    requires InSync(c) && CurrentOpen(c) && AlwaysApart(c.sockets[c.current.value].sent, mapping)
    ensures Joined(c.sockets[c.current.value].sent, mapping) == Needed(c.handlers.Keys, mapping)
    ensures forall channel :: channel in c.handlers && mapping(channel).Some? ==>
              mapping(channel).value in Joined(c.sockets[c.current.value].sent, mapping)
  {
    AlwaysFaithfulIff(c.sockets[c.current.value].sent, mapping);
  }

  /** Two channels of the dashboard behind one of the server's: giving up one ends both. */
  lemma SharedChannelEndsBoth(one: Channel, other: Channel, mapping: Mapping)
    requires one != other && mapping(one).Some? && mapping(one) == mapping(other)
    ensures var sent := [Subscribing(one), Subscribing(other), Unsubscribing(one)];
      Served(sent) == {other} && Joined(sent, mapping) == {}
  {
    var sent := [Subscribing(one), Subscribing(other), Unsubscribing(one)];
    assert sent[..2] == [Subscribing(one), Subscribing(other)] && sent[..2][..1] == [Subscribing(one)];
    assert sent[..2][..1][..0] == [];
    assert Served(sent[..2][..1]) == {one} && Served(sent[..2]) == {one, other};
    assert Joined(sent[..2][..1], mapping) == {mapping(one).value} == Joined(sent[..2], mapping);
  }
}

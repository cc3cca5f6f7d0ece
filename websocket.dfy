/**
 * The channel registry behind the live scoreboard: channel names mapped to the
 * clients subscribed to them, and a broadcast that sends one message to every
 * client of a channel. Clients are opaque; a broadcast is the list of
 * deliveries it makes.
 */
module WebSocket {

  /** One message handed to one client. */
  datatype Delivery<R> = Delivery(client: R, message: string)

  /** The subscribers of a channel, in subscription order; none for an unknown channel. */
  function Subscribers<R>(inner: map<string, seq<R>>, channel: string): seq<R>
  {
    if channel in inner then inner[channel] else []
  }

  /** The registry after `client` subscribes to `channel`. */
  function Subscribed<R>(inner: map<string, seq<R>>, channel: string, client: R): map<string, seq<R>>
  {
    inner[channel := Subscribers(inner, channel) + [client]]
  }

  /** What a broadcast delivers: the message, once to each subscriber, in order. */
  function Fanout<R>(clients: seq<R>, message: string): (d: seq<Delivery<R>>)
    ensures |d| == |clients|
    ensures forall i :: 0 <= i < |clients| ==> d[i] == Delivery(clients[i], message)
  {
    if clients == [] then [] else Fanout(clients[..|clients| - 1], message) + [Delivery(clients[|clients| - 1], message)]
  }

  class Channels<R> {
    var inner: map<string, seq<R>>

    /** `new`: no channels. */
    constructor ()
      ensures inner == map[]
    {
      inner := map[];
    }

    /** `subscribe`: appends the client to the channel, creating the channel if needed. */
    method Subscribe(channel: string, client: R)
      modifies this
      ensures inner == Subscribed(old(inner), channel, client)
    {
      var clients := if channel in inner then inner[channel] else [];
      inner := inner[channel := clients + [client]];
    }

    /** `broadcast`: sends the message to each subscriber in turn; the registry is only read. */
    method Broadcast(channel: string, message: string) returns (deliveries: seq<Delivery<R>>)
      ensures deliveries == Fanout(Subscribers(inner, channel), message)
    {
      deliveries := [];
      if channel in inner {
        var clients := inner[channel];
        for i := 0 to |clients|
          invariant deliveries == Fanout(clients[..i], message)
        {
          assert clients[..i + 1][..i] == clients[..i];
          deliveries := deliveries + [Delivery(clients[i], message)];
        }
        assert clients[..|clients|] == clients;
      }
    }
  }

  /** A new subscriber goes to the end of its channel's list; no other channel changes. */
  lemma SubscribeAppends<R>(inner: map<string, seq<R>>, channel: string, client: R, other: string)
    ensures Subscribers(Subscribed(inner, channel, client), channel) == Subscribers(inner, channel) + [client]
    ensures other != channel ==> Subscribers(Subscribed(inner, channel, client), other) == Subscribers(inner, other)
    ensures channel !in inner ==> Subscribed(inner, channel, client)[channel] == [client]
  {
  }

  /** Broadcasting to a channel nobody joined delivers nothing. */
  lemma UnknownChannelDeliversNothing<R>(inner: map<string, seq<R>>, channel: string, message: string)
    requires channel !in inner
    ensures Fanout(Subscribers(inner, channel), message) == []
  {
  }

  /**
   * After a subscription, a broadcast on that channel reaches everyone it reached
   * before and then the new client; broadcasts on other channels are unaffected.
   */
  lemma {:induction false} BroadcastAfterSubscribe<R>(inner: map<string, seq<R>>, channel: string, client: R,
                                                      other: string, message: string)
    ensures Fanout(Subscribers(Subscribed(inner, channel, client), channel), message)
         == Fanout(Subscribers(inner, channel), message) + [Delivery(client, message)]
    ensures other != channel ==>
      Fanout(Subscribers(Subscribed(inner, channel, client), other), message)
      == Fanout(Subscribers(inner, other), message)
  {
    var before := Subscribers(inner, channel);
    assert Subscribers(Subscribed(inner, channel, client), channel) == before + [client];
    assert (before + [client])[..|before|] == before;
  }

  /** Each subscriber of the channel receives the message exactly as many times as it subscribed. */
  lemma {:induction false} DeliveredOncePerSubscription<R>(clients: seq<R>, message: string, client: R)
    ensures multiset(Fanout(clients, message))[Delivery(client, message)] == multiset(clients)[client]
  {
    if clients != [] {
      var n := |clients| - 1;
      DeliveredOncePerSubscription(clients[..n], message, client);
      assert clients == clients[..n] + [clients[n]];
    }
  }
}

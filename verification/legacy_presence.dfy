/**
 * The presence registry of the older client (`deepstream::Presence`,
 * src/presence.cpp): a list of subscriber callbacks, each held once, told
 * about every login and logout.
 */
module LegacyPresence {
  import opened Protocol
  import opened CoreClient

  function PresenceMessage(action: Action): Message
  {
    Make(Topic.PRESENCE, action, [])
  }

  /** A subscriber told about `user`; `isLogin` is false for a logout. */
  datatype Call = Call(fn: Callback, user: Buffer, isLogin: bool)

  /** Every subscriber, in order, told the same thing. */
  function Logins(subscribers: seq<Callback>, user: Buffer, isLogin: bool): (r: seq<Call>)
    ensures |r| == |subscribers|
    ensures forall k :: 0 <= k < |r| ==> r[k] == Call(subscribers[k], user, isLogin)
  {
    seq(|subscribers|, k requires 0 <= k < |subscribers| => Call(subscribers[k], user, isLogin))
  }

  /**
   * Telling a list of subscribers is telling its first part and then the
   * rest: the calls of the loop over a snapshot grow one subscriber at a time.
   */
  lemma LoginsConcat(a: seq<Callback>, b: seq<Callback>, user: Buffer, isLogin: bool)
    ensures Logins(a + b, user, isLogin) == Logins(a, user, isLogin) + Logins(b, user, isLogin)
  {
  }

  /**
   * The messages `notify_` accepts without failing an assertion: an
   * acknowledged (un)subscription, or a login or logout. The user is read
   * from the first argument only inside the loop over the subscribers, so
   * only then must there be one.
   */
  predicate Notifiable(m: Message, anySubscriber: bool)
  {
    && m.Topic() == Topic.PRESENCE
    && (if m.IsAck() then m.Action() in {SUBSCRIBE, UNSUBSCRIBE}
        else m.Action() in {PRESENCE_JOIN, PRESENCE_LEAVE} && (anySubscriber ==> |m.args| >= 1))
  }

  /** The subscriber list after `subscribe(p_f)`: appended unless already present. */
  function Subscribed(subscribers: seq<Callback>, f: Callback): seq<Callback>
  {
    if f in subscribers then subscribers else subscribers + [f]
  }

  /**
   * Subscribing keeps the subscribers distinct, adds exactly `f`, and a
   * second subscription of the same callback changes nothing.
   */
  lemma SubscribedContents(subscribers: seq<Callback>, f: Callback)
    requires NoDup(subscribers)
    ensures NoDup(Subscribed(subscribers, f))
    ensures forall g :: g in Subscribed(subscribers, f) <==> g in subscribers || g == f
    ensures Subscribed(Subscribed(subscribers, f), f) == Subscribed(subscribers, f)
  {
    if f !in subscribers {
      AppendFresh(subscribers, f);
    }
  }

  /** Unsubscribing a callback that was not subscribed before undoes its subscription. */
  lemma UnsubscribeUndoesSubscribe(subscribers: seq<Callback>, f: Callback)
    requires f !in subscribers
    ensures RemoveFirst(Subscribed(subscribers, f), f) == subscribers
  {
    RemoveFirstUndoesAppend(subscribers, f);
  }

  class Presence {
    /** `send_`: the send function the client hands over. */
    const link: Transport
    /** `subscribers_`: the subscribed callbacks in subscription order. */
    var subscribers: seq<Callback>
    /** Every user callback invoked so far. */
    var calls: seq<Call>

    constructor (link: Transport)
      ensures this.link == link && subscribers == [] && calls == []
      ensures Valid()
    {
      this.link := link;
      subscribers := [];
      calls := [];
    }

    /** No callback is subscribed twice. */
    predicate Valid()
      reads this
    {
      NoDup(subscribers)
    }

    /**
     * `subscribe(p_f)`: a callback already subscribed changes nothing;
     * otherwise it is appended, and SUBSCRIBE is sent when it is the first.
     */
    method Subscribe(f: Callback)
      requires Valid()
      modifies this`subscribers, link
      ensures Valid()
      ensures subscribers == Subscribed(old(subscribers), f)
      ensures link.log == old(link.log) + (if old(subscribers) == [] then [PresenceMessage(SUBSCRIBE)] else [])
    {
      SubscribedContents(subscribers, f);
      if Find(subscribers, f) != |subscribers| {
        return;
      }
      subscribers := subscribers + [f];
      if |subscribers| > 1 {
        return;
      }
      var _ := link.Send(PresenceMessage(SUBSCRIBE));
    }

    /**
     * `unsubscribe(p_f)`: an unknown callback changes nothing; otherwise it
     * is removed, and UNSUBSCRIBE is sent when the list becomes empty.
     */
    method Unsubscribe(f: Callback)
      requires Valid()
      modifies this`subscribers, link
      ensures Valid()
      ensures subscribers == RemoveFirst(old(subscribers), f)
      ensures link.log == old(link.log) + (if f in old(subscribers) && subscribers == [] then [PresenceMessage(UNSUBSCRIBE)] else [])
    {
      RemoveFirstContents(subscribers, f);
      var k := Find(subscribers, f);
      if k == |subscribers| {
        return;
      }
      subscribers := subscribers[..k] + subscribers[k + 1..];
      if subscribers != [] {
        return;
      }
      var _ := link.Send(PresenceMessage(UNSUBSCRIBE));
    }

    /**
     * `notify_`: acknowledgements are dropped. A login or logout calls every
     * subscriber, from a copy of the list made before the first call, with
     * the user name and whether it is a login.
     */
    method Notify(m: Message)
      requires Notifiable(m, subscribers != [])
      modifies this`calls
      ensures m.IsAck() || subscribers == [] ==> calls == old(calls)
      ensures !m.IsAck() && subscribers != [] ==>
        calls == old(calls) + Logins(subscribers, m.args[0], m.Action() == PRESENCE_JOIN)
    {
      if m.IsAck() {
        return;
      }
      var isLogin := m.Action() == PRESENCE_JOIN;
      var snapshot := subscribers;
      for i := 0 to |snapshot|
        invariant calls == old(calls) + (if i == 0 then [] else Logins(snapshot[..i], m.args[0], isLogin))
      {
        assert snapshot[..i + 1] == snapshot[..i] + [snapshot[i]];
        LoginsConcat(snapshot[..i], [snapshot[i]], m.args[0], isLogin);
        calls := calls + [Call(snapshot[i], m.args[0], isLogin)];
      }
      assert snapshot[..|snapshot|] == snapshot;
    }
  }
}

/**
 * The presence registry of the client (`deepstream::Presence`,
 * src/core/presence.cpp): subscriptions to logins and logouts, each a
 * callback under an id drawn from the counter shared with the event
 * registry, and the callbacks waiting for the answer to a query of all users.
 */
module CorePresence {
  import opened Protocol
  import opened CoreClient

  /** A message of topic PRESENCE, built as `MessageBuilder(Topic::PRESENCE, action)` does. */
  function PresenceMessage(action: Action, args: seq<Buffer>): Message
  {
    Make(Topic.PRESENCE, action, args)
  }

  /** The query request: QUERY with the single argument "Q". */
  function QueryRequest(): Message
  {
    PresenceMessage(QUERY, [Ascii("Q")])
  }

  /** An invocation of a user callback. */
  datatype Call =
    | LoginCall(fn: Callback, user: Buffer, isLogin: bool)
    | QueryCall(fn: Callback, users: seq<Buffer>)

  /** Every querent, in order, given the same list of users. */
  function Answers(querents: seq<Callback>, users: seq<Buffer>): (r: seq<Call>)
    ensures |r| == |querents|
    ensures forall k :: 0 <= k < |r| ==> r[k] == QueryCall(querents[k], users)
  {
    seq(|querents|, k requires 0 <= k < |querents| => QueryCall(querents[k], users))
  }

  /** Answering a list of querents is answering its first part and then the rest. */
  lemma AnswersConcat(a: seq<Callback>, b: seq<Callback>, users: seq<Buffer>)
    ensures Answers(a + b, users) == Answers(a, users) + Answers(b, users)
  {
  }

  /** The callback of every id, in order, told about `user`. */
  function Logins(ids: seq<nat>, fns: map<nat, Callback>, user: Buffer, isLogin: bool): (r: seq<Call>)
    requires forall id :: id in ids ==> id in fns
    ensures |r| == |ids|
    ensures forall k :: 0 <= k < |r| ==> r[k] == LoginCall(fns[ids[k]], user, isLogin)
  {
    seq(|ids|, k requires 0 <= k < |ids| => LoginCall(fns[ids[k]], user, isLogin))
  }

  /** Telling a list of subscribers is telling its first part and then the rest. */
  lemma LoginsConcat(a: seq<nat>, b: seq<nat>, fns: map<nat, Callback>, user: Buffer, isLogin: bool)
    requires forall id :: id in a + b ==> id in fns
    ensures Logins(a + b, fns, user, isLogin) == Logins(a, fns, user, isLogin) + Logins(b, fns, user, isLogin)
  {
  }

  /**
   * The messages `notify_` accepts without failing an assertion: presence
   * messages that acknowledge a (un)subscription, answer a query, or report
   * a login or logout. The user is read from the first argument only inside
   * the loop over the subscribers, so only then must there be one.
   */
  predicate Notifiable(m: Message, anySubscriber: bool)
  {
    && m.Topic() == Topic.PRESENCE
    && match m.Action()
       case SUBSCRIBE => m.IsAck()
       case UNSUBSCRIBE => m.IsAck()
       case QUERY => true
       case PRESENCE_JOIN => anySubscriber ==> |m.args| >= 1
       case PRESENCE_LEAVE => anySubscriber ==> |m.args| >= 1
       case _ => false
  }

  class Presence {
    /** `send_`: the send function handed over by the client. */
    const link: Transport
    /** The subscription counter shared with the event registry. */
    const counter: Counter

    /** `subscribe_fn_map_`: subscription id to its callback. */
    var callbacks: map<nat, Callback>
    /** `subscribers_`: the subscription ids in the order they were made. */
    var subscribers: seq<nat>
    /** `querents_`: the callbacks waiting for the answer to a query. */
    var querents: seq<Callback>
    /** Every user callback invoked so far. */
    var calls: seq<Call>

    /**
     * The ids of `subscribers_` are distinct and are exactly the keys of
     * `subscribe_fn_map_`, all drawn from the counter already.
     */
    ghost predicate Valid()
      reads this, counter
    {
      && NoDup(subscribers)
      && (forall id :: id in subscribers <==> id in callbacks)
      && (forall id :: id in callbacks ==> id < counter.next)
    }

    constructor (link: Transport, counter: Counter)
      ensures this.link == link && this.counter == counter
      ensures callbacks == map[] && subscribers == [] && querents == [] && calls == []
      ensures Valid()
    {
      this.link := link;
      this.counter := counter;
      callbacks := map[];
      subscribers := [];
      querents := [];
      calls := [];
    }

    /**
     * `subscribe`: the callback is stored under the counter's old value,
     * which is returned, and the id is appended; SUBSCRIBE is sent only when
     * there was no subscriber.
     */
    method Subscribe(fn: Callback) returns (id: nat)
      requires Valid()
      modifies this`callbacks, this`subscribers, counter, link
      ensures Valid()
      ensures id == old(counter.next) && counter.next == old(counter.next) + 1
      ensures id !in old(callbacks) && callbacks == old(callbacks)[id := fn]
      ensures subscribers == old(subscribers) + [id]
      ensures link.log == old(link.log) + (if old(subscribers) == [] then [PresenceMessage(SUBSCRIBE, [])] else [])
    {
      id := counter.PostIncrement();
      assert id !in callbacks;
      callbacks := callbacks[id := fn];
      if subscribers == [] {
        var _ := link.Send(PresenceMessage(SUBSCRIBE, []));
      }
      AppendFresh(subscribers, id);
      subscribers := subscribers + [id];
    }

    /**
     * `unsubscribe(id)`: an unknown id changes nothing. Otherwise the id and
     * its callback are removed, and UNSUBSCRIBE is sent when no subscriber
     * is left.
     */
    method Unsubscribe(id: nat)
      requires Valid()
      modifies this`callbacks, this`subscribers, link
      ensures Valid()
      ensures id !in old(subscribers) ==>
        subscribers == old(subscribers) && callbacks == old(callbacks) && link.log == old(link.log)
      ensures id in old(subscribers) ==>
        && subscribers == RemoveFirst(old(subscribers), id)
        && callbacks == old(callbacks) - {id}
        && link.log == old(link.log) + (if subscribers == [] then [PresenceMessage(UNSUBSCRIBE, [])] else [])
    {
      var k := Find(subscribers, id);
      if k == |subscribers| {
        return;
      }
      RemoveFirstContents(subscribers, id);
      subscribers := subscribers[..k] + subscribers[k + 1..];
      callbacks := callbacks - {id};
      if subscribers == [] {
        var _ := link.Send(PresenceMessage(UNSUBSCRIBE, []));
      }
    }

    /** `unsubscribe()`: forgets every subscription and always sends UNSUBSCRIBE. */
    method UnsubscribeAll()
      requires Valid()
      modifies this`callbacks, this`subscribers, link
      ensures Valid()
      ensures callbacks == map[] && subscribers == []
      ensures link.log == old(link.log) + [PresenceMessage(UNSUBSCRIBE, [])]
    {
      callbacks := map[];
      subscribers := [];
      var _ := link.Send(PresenceMessage(UNSUBSCRIBE, []));
    }

    /**
     * `get_all`: the callback joins the querents; the query is sent only
     * when it is the only one waiting.
     */
    method GetAll(fn: Callback)
      modifies this`querents, link
      ensures querents == old(querents) + [fn]
      ensures link.log == old(link.log) + (if old(querents) == [] then [QueryRequest()] else [])
    {
      querents := querents + [fn];
      if |querents| == 1 {
        var _ := link.Send(QueryRequest());
      }
    }

    /**
     * `notify_`: acknowledgements of (un)subscriptions are dropped. A query
     * answer hands all its arguments, in order, to every querent and then
     * forgets the querents. A login or logout calls every subscriber, from a
     * copy of the list made before the first call, with the user name and
     * whether it is a login.
     */
    method Notify(m: Message)
      requires Valid() && Notifiable(m, subscribers != [])
      modifies this`querents, this`calls
      ensures m.Action() in {SUBSCRIBE, UNSUBSCRIBE} ==> querents == old(querents) && calls == old(calls)
      ensures m.Action() == QUERY ==> querents == [] && calls == old(calls) + Answers(old(querents), m.args)
      ensures m.Action() in {PRESENCE_JOIN, PRESENCE_LEAVE} ==> querents == old(querents)
      ensures m.Action() in {PRESENCE_JOIN, PRESENCE_LEAVE} && subscribers == [] ==> calls == old(calls)
      ensures m.Action() in {PRESENCE_JOIN, PRESENCE_LEAVE} && subscribers != [] ==>
        calls == old(calls) + Logins(subscribers, callbacks, m.args[0], m.Action() == PRESENCE_JOIN)
    {
      if m.Action() == SUBSCRIBE && m.IsAck() {
        return;
      }
      if m.Action() == UNSUBSCRIBE && m.IsAck() {
        return;
      }
      if m.Action() == QUERY {
        var users := CollectUsers(m);
        AnswerQuerents(users);
        querents := [];
        return;
      }
      CallSubscribers(m);
    }

    /**
     * Calls the callback of every subscriber, in order, from a copy of the
     * list made before the first call.
     */
    method CallSubscribers(m: Message)
      requires Valid()
      requires subscribers != [] ==> |m.args| >= 1
      modifies this`calls
      ensures subscribers == [] ==> calls == old(calls)
      ensures subscribers != [] ==>
        calls == old(calls) + Logins(subscribers, callbacks, m.args[0], m.Action() == PRESENCE_JOIN)
    {
      var isLogin := m.Action() == PRESENCE_JOIN;
      var snapshot := subscribers;
      var i := 0;
      while i < |snapshot|
        modifies this`calls
        invariant i <= |snapshot|
        invariant calls == old(calls) + (if i == 0 then [] else Logins(snapshot[..i], callbacks, m.args[0], isLogin))
      {
        assert snapshot[i] in subscribers;
        assert snapshot[..i + 1] == snapshot[..i] + [snapshot[i]];
        LoginsConcat(snapshot[..i], [snapshot[i]], callbacks, m.args[0], isLogin);
        calls := calls + [LoginCall(callbacks[snapshot[i]], m.args[0], isLogin)];
        i := i + 1;
      }
      assert snapshot[..i] == snapshot;
    }

    /** The user list of a query answer: every argument, in order. */
    method CollectUsers(m: Message) returns (users: seq<Buffer>)
      ensures users == m.args
    {
      users := [];
      for i := 0 to |m.args|
        invariant users == m.args[..i]
      {
        users := users + [m.args[i]];
      }
    }

    /** Calls every querent, in order, with the user list. */
    method AnswerQuerents(users: seq<Buffer>)
      modifies this`calls
      ensures calls == old(calls) + Answers(querents, users)
    {
      for k := 0 to |querents|
        invariant calls == old(calls) + Answers(querents[..k], users)
      {
        assert querents[..k + 1] == querents[..k] + [querents[k]];
        AnswersConcat(querents[..k], [querents[k]], users);
        calls := calls + [QueryCall(querents[k], users)];
      }
      assert querents[..|querents|] == querents;
    }
  }

  /**
   * Subscribing and then unsubscribing the same id leaves the subscriber
   * list and the callbacks as they were.
   */
  lemma SubscribeUnsubscribeRestores(subscribers: seq<nat>, callbacks: map<nat, Callback>, id: nat, fn: Callback)
    requires id !in subscribers && id !in callbacks
    ensures RemoveFirst(subscribers + [id], id) == subscribers
    ensures callbacks[id := fn] - {id} == callbacks
  {
    RemoveFirstUndoesAppend(subscribers, id);
  }
}

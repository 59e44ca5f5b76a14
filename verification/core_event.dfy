/**
 * The event registry of the client (`deepstream::Event`, src/core/event.cpp):
 * subscriptions per event name, one listener per pattern, and a queue of
 * emitted events whose send failed, replayed when the connection opens.
 */
module CoreEvent {
  import opened Protocol
  import opened CoreClient
  import opened Order

  /** A message of topic EVENT, built as `MessageBuilder(Topic::EVENT, action)` does. */
  function EventMessage(action: Action, args: seq<Buffer>): Message
  {
    Make(Topic.EVENT, action, args)
  }

  /** One request per name, in the given order. */
  function Requests(action: Action, names: seq<Buffer>): (r: seq<Message>)
  {
    seq(|names|, i requires 0 <= i < |names| => EventMessage(action, [names[i]]))
  }

  /** An invocation of a user callback. */
  datatype Call =
    | SubscriberCall(fn: Callback, data: Buffer)
    | ListenerCall(fn: Callback, found: Buffer, isSubscribed: bool)

  /** The subscriber callbacks of `ids`, in order, each given `data`. */
  function Deliveries(ids: seq<nat>, fns: map<nat, Callback>, data: Buffer): seq<Call>
    requires forall id :: id in ids ==> id in fns
  {
    if ids == [] then []
    else Deliveries(ids[..|ids| - 1], fns, data) + [SubscriberCall(fns[ids[|ids| - 1]], data)]
  }

  function Elements(ids: seq<nat>): set<nat>
  {
    set id | id in ids
  }

  /** Walking a list without duplicates meets each id for the first time. */
  lemma ElementsStep(ids: seq<nat>, i: nat)
    requires NoDup(ids) && i < |ids|
    ensures ids[i] !in Elements(ids[..i])
    ensures Elements(ids[..i + 1]) == Elements(ids[..i]) + {ids[i]}
  {
    assert ids[..i + 1] == ids[..i] + [ids[i]];
  }

  /**
   * `owner` names, for every subscription id, the one event whose list holds
   * it; each list holds only ids it owns, and none twice.
   */
  ghost predicate Owned(subscribers: map<Buffer, seq<nat>>, owner: map<nat, Buffer>)
  {
    && (forall id :: id in owner ==> owner[id] in subscribers && id in subscribers[owner[id]])
    && (forall name :: name in subscribers ==> NoDup(subscribers[name]))
    && (forall name, id :: name in subscribers && id in subscribers[name] ==> id in owner && owner[id] == name)
  }

  /** Every id that occurs in some subscriber list. */
  ghost function AllIds(subscribers: map<Buffer, seq<nat>>): set<nat>
  {
    set name, id | name in subscribers && id in subscribers[name] :: id
  }

  /**
   * The registry's invariant, seen on values: subscription ids are pairwise
   * distinct across all subscriber lists, and they are exactly the ids that
   * have an owner (the keys of the callback map).
   */
  lemma {:induction false} OwnedIdsDistinct(subscribers: map<Buffer, seq<nat>>, owner: map<nat, Buffer>,
                                            n1: Buffer, i: nat, n2: Buffer, j: nat)
    requires Owned(subscribers, owner)
    requires n1 in subscribers && i < |subscribers[n1]|
    requires n2 in subscribers && j < |subscribers[n2]|
    requires subscribers[n1][i] == subscribers[n2][j]
    ensures n1 == n2 && i == j
    ensures AllIds(subscribers) == owner.Keys
  {
    var id := subscribers[n1][i];
    assert id in subscribers[n1] && id in subscribers[n2];
    assert n1 == owner[id] == n2;
    assert NoDup(subscribers[n1]);
    forall x | x in owner.Keys
      ensures x in AllIds(subscribers)
    {
      assert owner[x] in subscribers && x in subscribers[owner[x]];
    }
  }

  /** A fresh id appended to a name's list keeps the ownership invariant. */
  lemma {:induction false} OwnedAfterAdd(subscribers: map<Buffer, seq<nat>>, owner: map<nat, Buffer>,
                                         name: Buffer, id: nat)
    requires Owned(subscribers, owner) && id !in owner
    ensures var list := if name in subscribers then subscribers[name] else [];
      Owned(subscribers[name := list + [id]], owner[id := name])
  {
    var list := if name in subscribers then subscribers[name] else [];
    var subs, own := subscribers[name := list + [id]], owner[id := name];
    assert id !in list;
    forall x | x in own
      ensures own[x] in subs && x in subs[own[x]]
    {
      if x != id {
        assert x in subscribers[owner[x]];
        if owner[x] == name {
          assert subs[name][..|list|] == list;
        }
      }
    }
    forall n, x | n in subs && x in subs[n]
      ensures x in own && own[x] == n
    {
      if n == name && x != id {
        var k :| 0 <= k < |subs[n]| && subs[n][k] == x;
        assert k < |list| && list[k] == x;
      }
    }
  }

  /** Removing the k-th id of a name's list, and its owner entry, keeps the invariant. */
  lemma {:induction false} OwnedAfterErase(subscribers: map<Buffer, seq<nat>>, owner: map<nat, Buffer>,
                                           name: Buffer, k: nat)
    requires Owned(subscribers, owner)
    requires name in subscribers && k < |subscribers[name]|
    ensures var list := subscribers[name];
      && list[k] !in list[..k] + list[k + 1..]
      && Owned(subscribers[name := list[..k] + list[k + 1..]], owner - {list[k]})
  {
    var list := subscribers[name];
    var rest := list[..k] + list[k + 1..];
    var subs, own := subscribers[name := rest], owner - {list[k]};
    assert NoDup(list);
    assert forall j :: 0 <= j < |rest| ==> rest[j] == list[if j < k then j else j + 1];
    assert list[k] !in rest by {
      forall j | 0 <= j < |rest|
        ensures rest[j] != list[k]
      {
        assert rest[j] == list[if j < k then j else j + 1];
      }
    }
    assert NoDup(rest) by {
      forall i, j | 0 <= i < j < |rest|
        ensures rest[i] != rest[j]
      {
        assert rest[i] == list[if i < k then i else i + 1];
        assert rest[j] == list[if j < k then j else j + 1];
      }
    }
    forall x | x in own
      ensures own[x] in subs && x in subs[own[x]]
    {
      assert x in subscribers[owner[x]];
      if owner[x] == name {
        var j :| 0 <= j < |list| && list[j] == x;
        assert j != k;
        assert rest[if j < k then j else j - 1] == x;
      }
    }
    forall n, x | n in subs && x in subs[n]
      ensures x in own && own[x] == n
    {
      if n == name {
        var j :| 0 <= j < |rest| && rest[j] == x;
        assert rest[j] == list[if j < k then j else j + 1];
        assert x in list && x != list[k];
      } else {
        assert n in subscribers && x in subscribers[n];
        assert list[k] in subscribers[name] && owner[list[k]] == name;
      }
    }
  }

  /** Dropping a name and the owner entries of all its ids keeps the invariant. */
  lemma {:induction false} OwnedAfterDrop(subscribers: map<Buffer, seq<nat>>, owner: map<nat, Buffer>, name: Buffer)
    requires Owned(subscribers, owner) && name in subscribers
    ensures Owned(subscribers - {name}, owner - Elements(subscribers[name]))
  {
    var gone := Elements(subscribers[name]);
    var subs, own := subscribers - {name}, owner - gone;
    forall x | x in own
      ensures own[x] in subs && x in subs[own[x]]
    {
      assert x !in subscribers[name];
    }
    forall n, x | n in subs && x in subs[n]
      ensures x in own && own[x] == n
    {
      assert n in subscribers && x in subscribers[n];
      assert owner[x] == n;
      assert x !in subscribers[name];
      assert x !in gone;
    }
  }

  /**
   * The registry's invariant: ownership, the callback map holding exactly
   * the owned ids, and every id below the counter.
   */
  ghost predicate Registry(subscribers: map<Buffer, seq<nat>>, callbacks: map<nat, Callback>,
                           owner: map<nat, Buffer>, next: nat)
  {
    && Owned(subscribers, owner)
    && owner.Keys == callbacks.Keys
    && (forall id :: id in callbacks ==> id < next)
  }

  /** Every name outside `skip` has a subscriber. */
  ghost predicate NonEmptyExcept(subscribers: map<Buffer, seq<nat>>, skip: set<Buffer>)
  {
    forall n :: n in subscribers && n !in skip ==> subscribers[n] != []
  }

  /**
   * Erasing one subscription keeps the invariant; the list it leaves may be
   * empty, which `unsubscribe(name)` then removes.
   */
  lemma RegistryAfterErase(subscribers: map<Buffer, seq<nat>>, callbacks: map<nat, Callback>,
                           owner: map<nat, Buffer>, next: nat, name: Buffer, k: nat)
    requires Registry(subscribers, callbacks, owner, next) && NonEmptyExcept(subscribers, {})
    requires name in subscribers && k < |subscribers[name]|
    ensures var list := subscribers[name];
      var rest := list[..k] + list[k + 1..];
      var after := subscribers[name := rest];
      && Registry(after, callbacks - {list[k]}, owner - {list[k]}, next)
      && NonEmptyExcept(after, {name})
      && (rest != [] ==> NonEmptyExcept(after, {}))
  {
    OwnedAfterErase(subscribers, owner, name, k);
  }

  lemma RemoveNothing(m: map<nat, Callback>)
    ensures m - {} == m
  {
  }

  /** A fresh id added under a name keeps the invariant with the counter one higher. */
  lemma RegistryAfterAdd(subscribers: map<Buffer, seq<nat>>, callbacks: map<nat, Callback>,
                         owner: map<nat, Buffer>, next: nat, name: Buffer, fn: Callback)
    requires Registry(subscribers, callbacks, owner, next) && NonEmptyExcept(subscribers, {})
    ensures next !in callbacks
    ensures var list := if name in subscribers then subscribers[name] else [];
      && next !in list
      && Registry(subscribers[name := list + [next]], callbacks[next := fn], owner[next := name], next + 1)
      && NonEmptyExcept(subscribers[name := list + [next]], {})
  {
    OwnedAfterAdd(subscribers, owner, name, next);
  }

  /** Dropping a name with all its ids keeps the invariant. */
  lemma RegistryAfterDrop(subscribers: map<Buffer, seq<nat>>, callbacks: map<nat, Callback>,
                          owner: map<nat, Buffer>, next: nat, name: Buffer)
    requires Registry(subscribers, callbacks, owner, next) && NonEmptyExcept(subscribers, {name})
    requires name in subscribers
    ensures forall id :: id in subscribers[name] ==> id in callbacks
    ensures var gone := Elements(subscribers[name]);
      && Registry(subscribers - {name}, callbacks - gone, owner - gone, next)
      && NonEmptyExcept(subscribers - {name}, {})
  {
    OwnedAfterDrop(subscribers, owner, name);
  }

  /**
   * The preconditions `notify_` and the two handlers it dispatches to assert
   * of an incoming message.
   */
  predicate Notifiable(m: Message)
  {
    && m.Topic() == Topic.EVENT
    && match m.Action()
       case EVENT => |m.args| == (if m.IsAck() then 1 else 2)
       case SUBSCRIPTION_FOR_PATTERN_FOUND => !m.IsAck() && |m.args| == 2
       case SUBSCRIPTION_FOR_PATTERN_REMOVED => !m.IsAck() && |m.args| == 2
       case LISTEN => m.IsAck()
       case SUBSCRIBE => m.IsAck()
       case UNLISTEN => m.IsAck()
       case UNSUBSCRIBE => m.IsAck()
       case _ => false
  }

  lemma Associative(w: seq<Message>, x: seq<Message>, y: seq<Message>, z: seq<Message>)
    ensures w + (x + y + z) == w + x + y + z
  {
  }

  /**
   * Where the queue replay begins: after the attempted SUBSCRIBE requests
   * and then the attempted LISTEN requests.
   */
  function ReplayStart(reply: nat -> WsState, n0: nat, subs: seq<Message>, pats: seq<Message>): nat
  {
    var a := Attempted(reply, n0, |subs|);
    n0 + a + Attempted(reply, n0 + a, |pats|)
  }

  /** What reaches the socket when the connection opens, in order. */
  function ReplayedLog(reply: nat -> WsState, n0: nat, subs: seq<Message>, pats: seq<Message>,
                       q: seq<Message>): seq<Message>
  {
    var a := Attempted(reply, n0, |subs|);
    var b := Attempted(reply, n0 + a, |pats|);
    subs[..a] + pats[..b] + q[..Attempted(reply, ReplayStart(reply, n0, subs, pats), |q|)]
  }

  class Event {
    /** `send_`: the send function handed over by the client. */
    const link: Transport
    /** The subscription counter shared with presence. */
    const counter: Counter
    /** What a listener callback answers for a (match, is_subscribed) pair. */
    const verdict: (Callback, Buffer, bool) -> bool

    /** `subscriber_map_`: event name to the ids of its subscriptions. */
    var subscribers: map<Buffer, seq<nat>>
    /** `subscribe_fn_map_`: subscription id to its callback. */
    var callbacks: map<nat, Callback>
    /** `listener_map_`: pattern to its listener. */
    var listeners: map<Buffer, Callback>
    /** `send_queue_`: emitted events not yet delivered, front first. */
    var queue: seq<Message>
    /** Every user callback invoked so far. */
    var calls: seq<Call>
    ghost var owner: map<nat, Buffer>

    /** The invariant the source's assertions rely on, lists possibly empty. */
    ghost predicate Consistent()
      reads this, counter
    {
      Registry(subscribers, callbacks, owner, counter.next)
    }

    /** No event name is kept with an empty subscriber list. */
    ghost predicate Valid()
      reads this, counter
    {
      Consistent() && NonEmptyExcept(subscribers, {})
    }

    constructor (link: Transport, counter: Counter, verdict: (Callback, Buffer, bool) -> bool)
      ensures this.link == link && this.counter == counter && this.verdict == verdict
      ensures subscribers == map[] && callbacks == map[] && listeners == map[]
      ensures queue == [] && calls == []
      ensures Valid()
    {
      this.link := link;
      this.counter := counter;
      this.verdict := verdict;
      subscribers := map[];
      callbacks := map[];
      listeners := map[];
      queue := [];
      calls := [];
      owner := map[];
    }

    /**
     * `emit`: an empty name throws before anything happens. Otherwise the
     * event is sent, queued when the send fails, and handed to the local
     * subscribers of the name, if it has any.
     */
    method Emit(name: Buffer, data: Buffer) returns (r: Outcome<()>)
      requires Valid()
      modifies this`queue, this`calls, link
      ensures Valid()
      ensures name == [] ==>
        r == InvalidArgument("Empty event name") && queue == old(queue) && calls == old(calls)
        && link.log == old(link.log)
      ensures name != [] ==>
        && r == Returned(())
        && link.log == old(link.log) + [EventMessage(Action.EVENT, [name, data])]
        && queue == old(queue) + (if link.reply(|old(link.log)|) == OPEN then []
                                  else [EventMessage(Action.EVENT, [name, data])])
        && calls == old(calls) + (if name in subscribers then Deliveries(subscribers[name], callbacks, data)
                                  else [])
    {
      if name == [] {
        return InvalidArgument("Empty event name");
      }
      var message := EventMessage(Action.EVENT, [name, data]);
      var ok := link.Send(message);
      if !ok {
        queue := queue + [message];
      }
      r := Returned(());
      if name !in subscribers {
        return;
      }
      Notify(message);
    }

    /**
     * `subscribe`: an empty name throws before anything happens. Otherwise
     * the callback is stored under the counter's old value, which is
     * returned, and appended to the name's list; SUBSCRIBE is sent only for a
     * name that had no subscriber.
     */
    method Subscribe(name: Buffer, fn: Callback) returns (r: Outcome<nat>)
      requires Valid()
      modifies this`subscribers, this`callbacks, this`owner, counter, link
      ensures Valid()
      ensures name == [] ==>
        && r == InvalidArgument("Empty event subscription pattern")
        && subscribers == old(subscribers) && callbacks == old(callbacks)
        && counter.next == old(counter.next) && link.log == old(link.log)
      ensures name != [] ==>
        && r == Returned(old(counter.next))
        && counter.next == old(counter.next) + 1
        && old(counter.next) !in old(callbacks)
        && callbacks == old(callbacks)[old(counter.next) := fn]
        && subscribers == old(subscribers)[name := (if name in old(subscribers) then old(subscribers)[name] else [])
                                                   + [old(counter.next)]]
        && link.log == old(link.log) + (if name in old(subscribers) then []
                                        else [EventMessage(SUBSCRIBE, [name])])
    {
      if name == [] {
        return InvalidArgument("Empty event subscription pattern");
      }
      RegistryAfterAdd(subscribers, callbacks, owner, counter.next, name, fn);
      var id := counter.PostIncrement();
      assert id !in callbacks;
      callbacks := callbacks[id := fn];
      owner := owner[id := name];
      var list := if name in subscribers then subscribers[name] else [];
      if list == [] {
        var _ := link.Send(EventMessage(SUBSCRIBE, [name]));
      }
      assert id !in list;
      subscribers := subscribers[name := list + [id]];
      r := Returned(id);
    }

    /**
     * `unsubscribe(name)`: drops the name and every callback subscribed to
     * it. UNSUBSCRIBE is sent only when no event name is left at all.
     */
    method UnsubscribeAll(name: Buffer)
      requires Consistent() && NonEmptyExcept(subscribers, {name})
      modifies this`subscribers, this`callbacks, this`owner, link
      ensures Valid()
      ensures name !in old(subscribers) ==>
        subscribers == old(subscribers) && callbacks == old(callbacks) && link.log == old(link.log)
      ensures name in old(subscribers) ==>
        && subscribers == old(subscribers) - {name}
        && callbacks == old(callbacks) - Elements(old(subscribers)[name])
        && link.log == old(link.log) + (if subscribers == map[] then [EventMessage(UNSUBSCRIBE, [name])] else [])
    {
      if name !in subscribers {
        assert NonEmptyExcept(subscribers, {});
        return;
      }
      var ids := subscribers[name];
      RegistryAfterDrop(subscribers, callbacks, owner, counter.next, name);
      var i := 0;
      while i < |ids|
        modifies this`callbacks
        invariant i <= |ids|
        invariant callbacks == old(callbacks) - Elements(ids[..i])
      {
        ElementsStep(ids, i);
        assert ids[i] in callbacks;
        callbacks := callbacks - {ids[i]};
        i := i + 1;
      }
      assert ids[..i] == ids;
      assert callbacks == old(callbacks) - Elements(ids);
      owner := owner - Elements(ids);
      subscribers := subscribers - {name};
      if subscribers == map[] {
        var _ := link.Send(EventMessage(UNSUBSCRIBE, [name]));
      }
    }

    /**
     * `unsubscribe(name, id)`: removes that one subscription and its
     * callback, and the whole name once its list is empty. An unknown name or
     * id changes nothing. The source asserts that an id missing from the
     * name's list has no callback either.
     */
    method Unsubscribe(name: Buffer, id: nat)
      requires Valid()
      requires name in subscribers && id !in subscribers[name] ==> id !in callbacks
      modifies this`subscribers, this`callbacks, this`owner, link
      ensures Valid()
      ensures name !in old(subscribers) || id !in old(subscribers)[name] ==>
        subscribers == old(subscribers) && callbacks == old(callbacks) && link.log == old(link.log)
      ensures name in old(subscribers) && id in old(subscribers)[name] ==>
        var list := old(subscribers)[name];
        var k := Find(list, id);
        var rest := list[..k] + list[k + 1..];
        && callbacks == old(callbacks) - {id}
        && subscribers == (if rest == [] then old(subscribers) - {name} else old(subscribers)[name := rest])
        && link.log == old(link.log) + (if subscribers == map[] then [EventMessage(UNSUBSCRIBE, [name])] else [])
    {
      if name !in subscribers {
        return;
      }
      var list := subscribers[name];
      var k := Find(list, id);
      if k == |list| {
        return;
      }
      ghost var before, beforeFns := subscribers, callbacks;
      var rest := EraseAt(name, k);
      if rest == [] {
        ghost var mid := callbacks;
        UnsubscribeAll(name);
        assert Elements(rest) == {};
        RemoveNothing(mid);
        assert subscribers == before - {name} by {
          assert before[name := rest] - {name} == before - {name};
        }
      } else {
        assert name in subscribers;
      }
    }

    /**
     * Erases the k-th subscription of a name and its callback; the list may
     * be left empty.
     */
    method EraseAt(name: Buffer, k: nat) returns (rest: seq<nat>)
      requires Valid()
      requires name in subscribers && k < |subscribers[name]|
      modifies this`subscribers, this`callbacks, this`owner
      ensures Consistent() && NonEmptyExcept(subscribers, {name})
      ensures rest == old(subscribers)[name][..k] + old(subscribers)[name][k + 1..]
      ensures rest != [] ==> Valid()
      ensures callbacks == old(callbacks) - {old(subscribers)[name][k]}
      ensures subscribers == old(subscribers)[name := rest]
    {
      var list := subscribers[name];
      var id := list[k];
      rest := list[..k] + list[k + 1..];
      RegistryAfterErase(subscribers, callbacks, owner, counter.next, name, k);
      subscribers := subscribers[name := rest];
      callbacks := callbacks - {id};
      owner := owner - {id};
    }

    /**
     * `listen`: an empty pattern throws. A pattern already listened to keeps
     * its first listener and nothing is sent; otherwise the listener is
     * stored and LISTEN is sent.
     */
    method Listen(pattern: Buffer, fn: Callback) returns (r: Outcome<()>)
      modifies this`listeners, link
      ensures pattern == [] ==>
        r == InvalidArgument("Cannot listen for empty patterns") && listeners == old(listeners)
        && link.log == old(link.log)
      ensures pattern != [] && pattern in old(listeners) ==>
        r == Returned(()) && listeners == old(listeners) && link.log == old(link.log)
      ensures pattern != [] && pattern !in old(listeners) ==>
        && r == Returned(())
        && listeners == old(listeners)[pattern := fn]
        && link.log == old(link.log) + [EventMessage(LISTEN, [pattern])]
    {
      if pattern == [] {
        return InvalidArgument("Cannot listen for empty patterns");
      }
      r := Returned(());
      if pattern in listeners {
        return;
      }
      listeners := listeners[pattern := fn];
      var _ := link.Send(EventMessage(LISTEN, [pattern]));
    }

    /** `unlisten`: erases the listener and sends UNLISTEN, if there was one. */
    method Unlisten(pattern: Buffer)
      modifies this`listeners, link
      ensures listeners == old(listeners) - {pattern}
      ensures link.log == old(link.log) + (if pattern in old(listeners) then [EventMessage(UNLISTEN, [pattern])]
                                           else [])
    {
      if pattern !in listeners {
        return;
      }
      listeners := listeners - {pattern};
      var _ := link.Send(EventMessage(UNLISTEN, [pattern]));
    }

    /**
     * `notify_`: an EVENT goes to the subscribers, a pattern found or
     * removed to the listeners, and acknowledgements are dropped.
     */
    method Notify(m: Message)
      requires Valid() && Notifiable(m)
      modifies this`calls, link
      ensures m.Action() == Action.EVENT ==>
        link.log == old(link.log)
        && calls == old(calls) + (if !m.IsAck() && m.args[0] in subscribers
                                  then Deliveries(subscribers[m.args[0]], callbacks, m.args[1]) else [])
      ensures m.Action() in {SUBSCRIPTION_FOR_PATTERN_FOUND, SUBSCRIPTION_FOR_PATTERN_REMOVED} ==>
        calls == old(calls) + HeardBy(m) && link.log == old(link.log) + AnswerTo(m)
      ensures m.Action() !in {Action.EVENT, SUBSCRIPTION_FOR_PATTERN_FOUND, SUBSCRIPTION_FOR_PATTERN_REMOVED} ==>
        calls == old(calls) && link.log == old(link.log)
    {
      match m.Action()
      case EVENT =>
        NotifySubscribers(m);
      case SUBSCRIPTION_FOR_PATTERN_FOUND =>
        NotifyListeners(m);
      case SUBSCRIPTION_FOR_PATTERN_REMOVED =>
        NotifyListeners(m);
      case _ =>
    }

    /**
     * `notify_subscribers_`: every subscriber of the event, taken from a copy
     * of its list made before the first call, receives the data.
     * Acknowledgements and unknown names invoke nothing.
     */
    method NotifySubscribers(m: Message)
      requires Valid()
      requires m.Action() == Action.EVENT && |m.args| == (if m.IsAck() then 1 else 2)
      modifies this`calls
      ensures calls == old(calls) + (if !m.IsAck() && m.args[0] in subscribers
                                     then Deliveries(subscribers[m.args[0]], callbacks, m.args[1]) else [])
    {
      if m.IsAck() {
        return;
      }
      var name, data := m.args[0], m.args[1];
      if name !in subscribers {
        return;
      }
      var ids := subscribers[name];
      assert forall id :: id in ids ==> id in callbacks;
      var i := 0;
      while i < |ids|
        modifies this`calls
        invariant i <= |ids|
        invariant calls == old(calls) + Deliveries(ids[..i], callbacks, data)
      {
        assert ids[..i + 1][..i] == ids[..i];
        calls := calls + [SubscriberCall(callbacks[ids[i]], data)];
        i := i + 1;
      }
      assert ids[..i] == ids;
    }

    /** The listener call a pattern message causes, if the pattern has a listener. */
    function HeardBy(m: Message): seq<Call>
      reads this
      requires |m.args| == 2
    {
      var pattern, found := m.args[0], m.args[1];
      if pattern in listeners
      then [ListenerCall(listeners[pattern], found, m.Action() == SUBSCRIPTION_FOR_PATTERN_FOUND)]
      else []
    }

    /** The answer sent to a found pattern: accept or reject, as the listener says. */
    function AnswerTo(m: Message): seq<Message>
      reads this
      requires |m.args| == 2
    {
      var pattern, found := m.args[0], m.args[1];
      if pattern in listeners && m.Action() == SUBSCRIPTION_FOR_PATTERN_FOUND
      then [EventMessage(if verdict(listeners[pattern], found, true) then LISTEN_ACCEPT else LISTEN_REJECT,
                         [pattern, found])]
      else []
    }

    /**
     * `notify_listeners_`: the pattern's listener is told about the match;
     * for a found pattern its answer is sent back as LISTEN_ACCEPT or
     * LISTEN_REJECT, for a removed one nothing is sent.
     */
    method NotifyListeners(m: Message)
      requires m.Action() in {SUBSCRIPTION_FOR_PATTERN_FOUND, SUBSCRIPTION_FOR_PATTERN_REMOVED}
      requires !m.IsAck() && |m.args| == 2
      modifies this`calls, link
      ensures calls == old(calls) + HeardBy(m)
      ensures link.log == old(link.log) + AnswerTo(m)
    {
      var pattern, found := m.args[0], m.args[1];
      var isSubscribed := m.Action() == SUBSCRIPTION_FOR_PATTERN_FOUND;
      if pattern !in listeners {
        return;
      }
      var fn := listeners[pattern];
      calls := calls + [ListenerCall(fn, found, isSubscribed)];
      var accept := verdict(fn, found, isSubscribed);
      if m.Action() == SUBSCRIPTION_FOR_PATTERN_REMOVED {
        return;
      }
      var _ := link.Send(EventMessage(if accept then LISTEN_ACCEPT else LISTEN_REJECT, [pattern, found]));
    }

    /**
     * `on_connection_state_change_`: when the connection opens, SUBSCRIBE is
     * re-sent for every event name and LISTEN for every pattern, each in
     * key order, and then the queue is replayed front first; each of the
     * three stops at its first failed send, and a queued event leaves the
     * queue only once it was delivered.
     */
    method OnConnectionStateChange(isOpen: bool)
      modifies this`queue, link
      ensures !isOpen ==> queue == old(queue) && link.log == old(link.log)
      ensures isOpen ==>
        var subs := Requests(SUBSCRIBE, SortedKeys(subscribers.Keys));
        var pats := Requests(LISTEN, SortedKeys(listeners.Keys));
        && link.log == old(link.log) + ReplayedLog(link.reply, |old(link.log)|, subs, pats, old(queue))
        && queue == old(queue)[Delivered(link.reply, ReplayStart(link.reply, |old(link.log)|, subs, pats), |old(queue)|)..]
    {
      if !isOpen {
        return;
      }
      ghost var log0, q := link.log, queue;
      var names := SortKeys(subscribers.Keys);
      var subs := Requests(SUBSCRIBE, names);
      var a := ResendAll(subs);
      ghost var log1 := link.log;
      assert |log1| == |log0| + a;
      var patterns := SortKeys(listeners.Keys);
      var pats := Requests(LISTEN, patterns);
      var b := ResendAll(pats);
      ghost var log2 := link.log;
      assert |log2| == |log0| + a + b;
      assert log2 == log0 + subs[..a] + pats[..b];
      Drain();
      ghost var tail := q[..Attempted(link.reply, |log2|, |q|)];
      assert link.log == log2 + tail;
      assert |log2| == ReplayStart(link.reply, |log0|, subs, pats);
      assert ReplayedLog(link.reply, |log0|, subs, pats, q) == subs[..a] + pats[..b] + tail;
      Associative(log0, subs[..a], pats[..b], tail);
    }

    /**
     * Replays the queue front first until a send fails; an event leaves the
     * queue only once it was delivered.
     */
    method Drain()
      modifies this`queue, link
      ensures var n := |old(link.log)|;
        && queue == old(queue)[Delivered(link.reply, n, |old(queue)|)..]
        && link.log == old(link.log) + old(queue)[..Attempted(link.reply, n, |old(queue)|)]
    {
      ghost var start := |link.log|;
      ghost var q := queue;
      ghost var sent := 0;
      while queue != []
        modifies this`queue, link
        invariant sent <= |q| && queue == q[sent..]
        invariant sent <= Delivered(link.reply, start, |q|)
        invariant link.log == old(link.log) + q[..sent]
      {
        var ok := link.Send(queue[0]);
        assert q[..sent + 1] == q[..sent] + [queue[0]];
        if !ok {
          return;
        }
        queue := queue[1..];
        sent := sent + 1;
      }
    }

    /**
     * Sends each message in order until one send fails, and answers how many
     * were handed to the socket.
     */
    method ResendAll(msgs: seq<Message>) returns (count: nat)
      modifies link
      ensures count == Attempted(link.reply, |old(link.log)|, |msgs|)
      ensures link.log == old(link.log) + msgs[..count]
    {
      ghost var start := |link.log|;
      count := 0;
      while count < |msgs|
        modifies link
        invariant count <= Delivered(link.reply, start, |msgs|)
        invariant link.log == old(link.log) + msgs[..count]
      {
        var ok := link.Send(msgs[count]);
        assert msgs[..count + 1] == msgs[..count] + [msgs[count]];
        count := count + 1;
        if !ok {
          return;
        }
      }
    }
  }
}

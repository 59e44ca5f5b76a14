/**
 * The event registry of the older client (`deepstream::Event`,
 * src/event.cpp): a multimap from event name to subscriber callbacks and a
 * map from pattern to its listener. Requests go out through the client's
 * `send`, whose answer is ignored.
 *
 * Each request is built with `MessageBuilder::add_argument`, which throws on
 * a unit separator in the name; the registry has already changed by then.
 */
module LegacyEvent {
  import opened Protocol
  import opened CoreClient
  import opened MessageBuilding

  const EMPTY_PATTERN: string := "Empty event subscription pattern"

  /** The request `MessageBuilder(Topic::EVENT, action)` with the name as argument. */
  function Request(action: Action, name: Buffer): Message
  {
    Make(Topic.EVENT, action, [name])
  }

  /** The equal range of every name is non-empty and holds no callback twice. */
  predicate WellFormed(subscribers: map<Buffer, seq<Callback>>)
  {
    forall name :: name in subscribers ==> subscribers[name] != [] && NoDup(subscribers[name])
  }

  /** The callbacks subscribed to a name, in insertion order. */
  function RangeOf(subscribers: map<Buffer, seq<Callback>>, name: Buffer): seq<Callback>
  {
    if name in subscribers then subscribers[name] else []
  }

  /**
   * The multimap after `subscribe(name, f)`: a new name gets `f` alone; a
   * known name gets `f` at the end of its range unless the pair is present.
   */
  function Added(subscribers: map<Buffer, seq<Callback>>, name: Buffer, f: Callback): map<Buffer, seq<Callback>>
  {
    if name !in subscribers then subscribers[name := [f]]
    else if f in subscribers[name] then subscribers
    else subscribers[name := subscribers[name] + [f]]
  }

  /**
   * The multimap after `unsubscribe(name, f)`: a name with a single entry is
   * dropped whatever that entry is; otherwise only the entry `f`, if any.
   */
  function Removed(subscribers: map<Buffer, seq<Callback>>, name: Buffer, f: Callback): map<Buffer, seq<Callback>>
  {
    if name !in subscribers then subscribers
    else if |subscribers[name]| == 1 then subscribers - {name}
    else subscribers[name := RemoveFirst(subscribers[name], f)]
  }

  /** Subscribing keeps the multimap well formed and adds exactly the pair (name, f). */
  lemma AddedContents(subscribers: map<Buffer, seq<Callback>>, name: Buffer, f: Callback)
    requires WellFormed(subscribers)
    ensures var after := Added(subscribers, name, f);
      WellFormed(after)
      && after.Keys == subscribers.Keys + {name}
      && (forall n, g :: g in RangeOf(after, n) <==> g in RangeOf(subscribers, n) || (n, g) == (name, f))
  {
    var after := Added(subscribers, name, f);
    if name in subscribers && f !in subscribers[name] {
      var range := subscribers[name];
      AppendFresh(range, f);
      forall n, g
        ensures g in RangeOf(after, n) <==> g in RangeOf(subscribers, n) || (n, g) == (name, f)
      {
        if n == name {
          assert RangeOf(after, n) == range + [f];
        }
      }
    }
  }

  /** Subscribing a pair that is already present changes nothing. */
  lemma AddedIdempotent(subscribers: map<Buffer, seq<Callback>>, name: Buffer, f: Callback)
    ensures Added(Added(subscribers, name, f), name, f) == Added(subscribers, name, f)
  {
    var once := Added(subscribers, name, f);
    assert f in once[name];
  }

  /**
   * Unsubscribing keeps the multimap well formed. With several entries only
   * `f` goes; with a single entry the whole name goes, even when it is not `f`.
   */
  lemma RemovedContents(subscribers: map<Buffer, seq<Callback>>, name: Buffer, f: Callback)
    requires WellFormed(subscribers)
    ensures var after := Removed(subscribers, name, f);
      WellFormed(after)
      && (forall n :: n != name ==> RangeOf(after, n) == RangeOf(subscribers, n))
      && (|RangeOf(subscribers, name)| == 1 ==> name !in after)
      && (|RangeOf(subscribers, name)| > 1 ==>
            name in after && forall g :: g in RangeOf(after, name) <==> g in RangeOf(subscribers, name) && g != f)
  {
    if name in subscribers {
      RemoveFirstContents(subscribers[name], f);
    }
  }

  /** Unsubscribing a callback undoes subscribing it, when it was not subscribed before. */
  lemma RemovedUndoesAdded(subscribers: map<Buffer, seq<Callback>>, name: Buffer, f: Callback)
    requires WellFormed(subscribers)
    requires f !in RangeOf(subscribers, name)
    ensures Removed(Added(subscribers, name, f), name, f) == subscribers
  {
    if name in subscribers {
      RemoveFirstUndoesAppend(subscribers[name], f);
    }
  }

  /** The single-entry case drops another callback's subscription as well. */
  lemma RemovedDropsOtherSingleEntry()
    ensures var subscribers := map[[1] := [Callback(1)]];
      Removed(subscribers, [1], Callback(2)) == map[]
  {
    var subscribers := map[[1] := [Callback(1)]];
    assert subscribers - {[1]} == map[];
  }

  class Event {
    /** The client whose `send` carries the requests. */
    const link: Transport
    /** `subscriber_map_`: each name with its callbacks, in insertion order. */
    var subscribers: map<Buffer, seq<Callback>>
    /** `listener_map_`: each pattern with its listener. */
    var listeners: map<Buffer, Callback>

    constructor (link: Transport)
      ensures this.link == link && subscribers == map[] && listeners == map[]
      ensures Valid()
    {
      this.link := link;
      subscribers := map[];
      listeners := map[];
    }

    predicate Valid()
      reads this
    {
      WellFormed(subscribers)
    }

    /**
     * `subscribe(name, p_f)`: an empty name throws before anything changes. A
     * known name gets the callback appended, unless present, and nothing is
     * sent; a new name is inserted and one SUBSCRIBE goes out, unless the
     * name holds a unit separator, in which case the builder throws after
     * the insertion.
     */
    method Subscribe(name: Buffer, f: Callback) returns (r: Outcome<()>)
      requires Valid()
      modifies this`subscribers, link
      ensures Valid()
      ensures name == [] ==>
        r == InvalidArgument(EMPTY_PATTERN) && subscribers == old(subscribers) && link.log == old(link.log)
      ensures name != [] ==> subscribers == Added(old(subscribers), name, f)
      ensures name != [] && name in old(subscribers) ==> r == Returned(()) && link.log == old(link.log)
      ensures name != [] && name !in old(subscribers) && !Free(name, UNIT_SEPARATOR) ==>
        r == InvalidArgument(SEPARATOR_IN_PAYLOAD) && link.log == old(link.log)
      ensures name != [] && name !in old(subscribers) && Free(name, UNIT_SEPARATOR) ==>
        r == Returned(()) && link.log == old(link.log) + [Request(SUBSCRIBE, name)]
    {
      if name == [] {
        return InvalidArgument(EMPTY_PATTERN);
      }
      AddedContents(subscribers, name, f);
      if name in subscribers {
        var range := subscribers[name];
        if Find(range, f) == |range| {
          subscribers := subscribers[name := range + [f]];
        }
        return Returned(());
      }
      subscribers := subscribers[name := [f]];
      r := SendRequest(SUBSCRIBE, name);
    }

    /**
     * Builds the request for `name` and sends it; the builder refuses a name
     * holding a unit separator and nothing is sent.
     */
    method SendRequest(action: Action, name: Buffer) returns (r: Outcome<()>)
      modifies link
      ensures !Free(name, UNIT_SEPARATOR) ==> r == InvalidArgument(SEPARATOR_IN_PAYLOAD) && link.log == old(link.log)
      ensures Free(name, UNIT_SEPARATOR) ==> r == Returned(()) && link.log == old(link.log) + [Request(action, name)]
    {
      if Find(name, UNIT_SEPARATOR) != |name| {
        return InvalidArgument(SEPARATOR_IN_PAYLOAD);
      }
      var _ := link.Send(Request(action, name));
      r := Returned(());
    }

    /**
     * `unsubscribe(name)`: an unknown name changes nothing; otherwise every
     * entry of the name is erased and one UNSUBSCRIBE goes out.
     */
    method UnsubscribeAll(name: Buffer) returns (r: Outcome<()>)
      requires Valid()
      modifies this`subscribers, link
      ensures Valid()
      ensures subscribers == old(subscribers) - {name}
      ensures name !in old(subscribers) ==> r == Returned(()) && link.log == old(link.log)
      ensures name in old(subscribers) && !Free(name, UNIT_SEPARATOR) ==>
        r == InvalidArgument(SEPARATOR_IN_PAYLOAD) && link.log == old(link.log)
      ensures name in old(subscribers) && Free(name, UNIT_SEPARATOR) ==>
        r == Returned(()) && link.log == old(link.log) + [Request(UNSUBSCRIBE, name)]
    {
      if name !in subscribers {
        return Returned(());
      }
      subscribers := subscribers - {name};
      r := SendRequest(UNSUBSCRIBE, name);
    }

    /**
     * `unsubscribe(name, p_f)`: an unknown name changes nothing. A name with
     * a single entry is unsubscribed as a whole, whichever callback that
     * entry is; otherwise the entry `f`, if present, is erased and nothing
     * is sent.
     */
    method Unsubscribe(name: Buffer, f: Callback) returns (r: Outcome<()>)
      requires Valid()
      modifies this`subscribers, link
      ensures Valid()
      ensures subscribers == Removed(old(subscribers), name, f)
      ensures name in old(subscribers) && |old(subscribers)[name]| == 1 && Free(name, UNIT_SEPARATOR) ==>
        r == Returned(()) && link.log == old(link.log) + [Request(UNSUBSCRIBE, name)]
      ensures name in old(subscribers) && |old(subscribers)[name]| == 1 && !Free(name, UNIT_SEPARATOR) ==>
        r == InvalidArgument(SEPARATOR_IN_PAYLOAD) && link.log == old(link.log)
      ensures name !in old(subscribers) || |old(subscribers)[name]| > 1 ==>
        r == Returned(()) && link.log == old(link.log)
    {
      RemovedContents(subscribers, name, f);
      if name !in subscribers {
        return Returned(());
      }
      var range := subscribers[name];
      var k := Find(range, f);
      if |range| == 1 {
        r := UnsubscribeAll(name);
        return;
      }
      r := Returned(());
      if k != |range| {
        subscribers := subscribers[name := range[..k] + range[k + 1..]];
      }
    }

    /**
     * `listen`: a pattern already listened to keeps its first listener and
     * nothing is sent; otherwise the listener is stored and one LISTEN goes
     * out, unless the pattern holds a unit separator.
     */
    method Listen(pattern: Buffer, f: Callback) returns (r: Outcome<()>)
      modifies this`listeners, link
      ensures pattern in old(listeners) ==>
        r == Returned(()) && listeners == old(listeners) && link.log == old(link.log)
      ensures pattern !in old(listeners) ==> listeners == old(listeners)[pattern := f]
      ensures pattern !in old(listeners) && !Free(pattern, UNIT_SEPARATOR) ==>
        r == InvalidArgument(SEPARATOR_IN_PAYLOAD) && link.log == old(link.log)
      ensures pattern !in old(listeners) && Free(pattern, UNIT_SEPARATOR) ==>
        r == Returned(()) && link.log == old(link.log) + [Request(LISTEN, pattern)]
    {
      if pattern in listeners {
        return Returned(());
      }
      listeners := listeners[pattern := f];
      r := SendRequest(LISTEN, pattern);
    }

    /**
     * `unlisten`: an unknown pattern changes nothing; otherwise its listener
     * is erased and one UNLISTEN goes out, unless the pattern holds a unit
     * separator.
     */
    method Unlisten(pattern: Buffer) returns (r: Outcome<()>)
      modifies this`listeners, link
      ensures listeners == old(listeners) - {pattern}
      ensures pattern !in old(listeners) ==> r == Returned(()) && link.log == old(link.log)
      ensures pattern in old(listeners) && !Free(pattern, UNIT_SEPARATOR) ==>
        r == InvalidArgument(SEPARATOR_IN_PAYLOAD) && link.log == old(link.log)
      ensures pattern in old(listeners) && Free(pattern, UNIT_SEPARATOR) ==>
        r == Returned(()) && link.log == old(link.log) + [Request(UNLISTEN, pattern)]
    {
      if pattern !in listeners {
        return Returned(());
      }
      listeners := listeners - {pattern};
      r := SendRequest(UNLISTEN, pattern);
    }
  }
}

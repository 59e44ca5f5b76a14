/**
 * The pieces of `deepstream::Client` that the event and presence registries
 * see: the send function handed to them, and the subscription counter they
 * share.
 */
module CoreClient {
  import opened Protocol

  /** `websockets::State`, the answer of the websocket to a send. */
  datatype WsState = WS_ERROR | OPEN | CLOSED

  /**
   * The websocket as seen through `ClientImpl::send_`. Which state the socket
   * reports for the n-th message is not part of this model: it is the
   * constant stream `reply`. Every message handed to the socket is logged.
   */
  class Transport {
    const reply: nat -> WsState
    var log: seq<Message>

    constructor (reply: nat -> WsState)
      ensures this.reply == reply && log == []
    {
      this.reply := reply;
      log := [];
    }

    /** The outcome the socket reports for the message sent after `n` others. */
    function Outcome(n: nat): WsState
    {
      reply(n)
    }

    /**
     * The send function given to `event` and `presence`: it sends the
     * message and answers true exactly when the socket reports OPEN.
     */
    method Send(m: Message) returns (ok: bool)
      modifies this
      ensures log == old(log) + [m]
      ensures ok <==> Outcome(|old(log)|) == OPEN
    {
      var state := Outcome(|log|);
      log := log + [m];
      ok := state == OPEN;
    }
  }

  /** `SubscriptionId &subscription_counter_`, shared by event and presence. */
  class Counter {
    var next: nat

    constructor ()
      ensures next == 0
    {
      next := 0;
    }

    /** `subscription_counter_++`: the old value, then one more. */
    method PostIncrement() returns (id: nat)
      modifies this
      ensures id == old(next) && next == old(next) + 1
    {
      id := next;
      next := next + 1;
    }
  }

  /**
   * `std::find`: the index of the first occurrence of `x`, or `|xs|` when
   * there is none.
   */
  function Find<T(==)>(xs: seq<T>, x: T): (i: nat)
    ensures i <= |xs|
    ensures forall j :: 0 <= j < i ==> xs[j] != x
    ensures i < |xs| ==> xs[i] == x
    ensures i == |xs| <==> x !in xs
  {
    if xs == [] then 0
    else if xs[0] == x then 0
    else 1 + Find(xs[1..], x)
  }

  /** No element occurs twice. */
  predicate NoDup<T(==)>(xs: seq<T>)
  {
    forall i, j :: 0 <= i < j < |xs| ==> xs[i] != xs[j]
  }

  /** Appending an element that is not there yet keeps the elements distinct. */
  lemma AppendFresh<T>(xs: seq<T>, x: T)
    requires NoDup(xs) && x !in xs
    ensures NoDup(xs + [x])
  {
    forall i, j | 0 <= i < j < |xs + [x]|
      ensures (xs + [x])[i] != (xs + [x])[j]
    {
      if j == |xs| {
        assert xs[i] in xs;
      }
    }
  }

  /** `erase(std::find(first, last, x))`: the first occurrence of `x` goes, if there is one. */
  function RemoveFirst<T(==)>(xs: seq<T>, x: T): seq<T>
  {
    var k := Find(xs, x);
    if k == |xs| then xs else xs[..k] + xs[k + 1..]
  }

  /**
   * On distinct elements, removing `x` leaves every other element, in
   * order of appearance, and no duplicate.
   */
  lemma RemoveFirstContents<T>(xs: seq<T>, x: T)
    requires NoDup(xs)
    ensures NoDup(RemoveFirst(xs, x))
    ensures forall y :: y in RemoveFirst(xs, x) <==> y in xs && y != x
    ensures |RemoveFirst(xs, x)| == if x in xs then |xs| - 1 else |xs|
  {
    var k := Find(xs, x);
    if k < |xs| {
      var rest := xs[..k] + xs[k + 1..];
      assert forall i :: 0 <= i < |rest| ==> rest[i] == if i < k then xs[i] else xs[i + 1];
      forall y | y in xs && y != x
        ensures y in rest
      {
        var i :| 0 <= i < |xs| && xs[i] == y;
        if i < k {
          assert rest[i] == y;
        } else {
          assert rest[i - 1] == y;
        }
      }
    }
  }

  /** Removing what was just appended gives the sequence back. */
  lemma RemoveFirstUndoesAppend<T>(xs: seq<T>, x: T)
    requires x !in xs
    ensures RemoveFirst(xs + [x], x) == xs
  {
    var grown := xs + [x];
    assert grown[|xs|] == x;
    assert Find(grown, x) == |xs|;
    assert grown[..|xs|] + grown[|xs| + 1..] == xs;
  }

  /** A user callback (a `std::function`), known only by its identity. */
  datatype Callback = Callback(handle: nat)

  /**
   * The number of leading messages of a batch whose sends succeed when the
   * first of them is the socket's `start`-th send.
   */
  function Delivered(reply: nat -> WsState, start: nat, count: nat): (k: nat)
    ensures k <= count
    ensures forall n :: start <= n < start + k ==> reply(n) == OPEN
    ensures k < count ==> reply(start + k) != OPEN
    decreases count
  {
    if count == 0 || reply(start) != OPEN then 0
    else
      1 + Delivered(reply, start + 1, count - 1)
  }

  /**
   * The number of messages a loop that stops at its first failed send hands
   * to the socket: the delivered ones plus the failing one, if any.
   */
  function Attempted(reply: nat -> WsState, start: nat, count: nat): (k: nat)
    ensures k <= count
    ensures Delivered(reply, start, count) == count ==> k == count
    ensures Delivered(reply, start, count) < count ==> k == Delivered(reply, start, count) + 1
  {
    var d := Delivered(reply, start, count);
    if d == count then count else d + 1
  }
}

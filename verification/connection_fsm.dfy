/**
 * The connection handshake of the deepstream 2.x client: a total function
 * from (state, message, sender) to the next state. The same function appears
 * twice in the newer client (src/core/state.cpp and `client::transition` in
 * src/core/client.cpp); this module models it once.
 *
 * The entry assertions (the state is neither ERROR nor DISCONNECTED and the
 * argument count lies within `Message::num_arguments`) are preconditions. The
 * assertions inside a branch (`assert(!is_ack)`) are checks on the message the
 * function itself makes; a failing one aborts the program, modelled as the
 * outcome `AssertionFailure`.
 */
module ConnectionFsm {
  import opened Protocol

  datatype State =
    | ERROR
    | AWAIT_CONNECTION
    | CHALLENGING
    | CHALLENGING_WAIT
    | AWAIT_AUTHENTICATION
    | AUTHENTICATING
    | CONNECTED
    | DISCONNECTED

  /** The result of one transition: the next state, or an aborting assertion. */
  datatype Step = Next(state: State) | AssertionFailure

  /** A state from which `transition` may be called. */
  predicate Live(s: State)
  {
    s != State.ERROR && s != DISCONNECTED
  }

  /** `assert(!is_ack); return s;` */
  function Unacked(m: Message, s: State): Step
  {
    if m.IsAck() then AssertionFailure else Next(s)
  }

  function Transition(state: State, m: Message, sender: Sender, table: ArgTable): (r: Step)
    requires Live(state)
    requires ArgsWithin(table, m)
    ensures r == Next(CONNECTED) && state != CONNECTED ==>
      sender == SERVER && m.Topic() == AUTH && m.Action() == REQUEST && m.IsAck()
    ensures r == Next(DISCONNECTED) ==> sender == SERVER
    ensures r == AssertionFailure ==> m.IsAck()
  {
    var topic, action, ack := m.Topic(), m.Action(), m.IsAck();
    if topic == Topic.CONNECTION && action == PING && sender == SERVER then
      Unacked(m, state)
    else if topic == Topic.CONNECTION && action == PONG && sender == CLIENT then
      Unacked(m, state)
    else if state == AWAIT_CONNECTION && topic == Topic.CONNECTION && action == CHALLENGE && sender == SERVER then
      Unacked(m, CHALLENGING)
    else if state == CHALLENGING && topic == Topic.CONNECTION && action == CHALLENGE_RESPONSE && !ack && sender == CLIENT then
      Next(CHALLENGING_WAIT)
    else if state == CHALLENGING_WAIT && topic == Topic.CONNECTION && action == CHALLENGE_RESPONSE && ack && sender == SERVER then
      Next(AWAIT_AUTHENTICATION)
    else if state == CHALLENGING_WAIT && topic == Topic.CONNECTION && action == REDIRECT && sender == SERVER then
      Unacked(m, AWAIT_CONNECTION)
    else if state == CHALLENGING_WAIT && topic == Topic.CONNECTION && action == REJECT && sender == SERVER then
      Unacked(m, DISCONNECTED)
    else if state == AWAIT_AUTHENTICATION && topic == AUTH && action == REQUEST && !ack && sender == CLIENT then
      Next(AUTHENTICATING)
    else if state == AUTHENTICATING && topic == AUTH && action == REQUEST && ack && sender == SERVER then
      Next(CONNECTED)
    else if state == AUTHENTICATING && topic == AUTH && action == ERROR_TOO_MANY_AUTH_ATTEMPTS && sender == SERVER then
      Unacked(m, DISCONNECTED)
    else if state == AUTHENTICATING && topic == AUTH && action == ERROR_INVALID_AUTH_DATA && sender == SERVER then
      Unacked(m, AWAIT_AUTHENTICATION)
    else if state == AUTHENTICATING && topic == AUTH && action == ERROR_INVALID_AUTH_MSG && sender == SERVER then
      Unacked(m, DISCONNECTED)
    else if state == CONNECTED then
      Next(state)
    else
      Next(State.ERROR)
  }

  /** Heartbeats: a server PING or a client PONG keeps the state. */
  lemma HeartbeatKeepsState(state: State, m: Message, sender: Sender, table: ArgTable)
    requires Live(state) && ArgsWithin(table, m)
    requires m.Topic() == Topic.CONNECTION && !m.IsAck()
    requires (m.Action() == PING && sender == SERVER) || (m.Action() == PONG && sender == CLIENT)
    ensures Transition(state, m, sender, table) == Next(state)
  {
  }

  /**
   * CONNECTED is absorbing: every message from either sender keeps it; the
   * only other outcome is the aborting assertion on an acknowledged heartbeat.
   */
  lemma ConnectedIsAbsorbing(m: Message, sender: Sender, table: ArgTable)
    requires ArgsWithin(table, m)
    ensures Transition(CONNECTED, m, sender, table) == Next(CONNECTED)
         || (Transition(CONNECTED, m, sender, table) == AssertionFailure
             && m.IsAck() && m.Topic() == Topic.CONNECTION && m.Action() in {PING, PONG})
    ensures Transition(CONNECTED, m, sender, table) != Next(State.ERROR)
  {
  }

  /** DISCONNECTED comes only from a rejected challenge or a failed authentication. */
  lemma DisconnectedOrigins(state: State, m: Message, sender: Sender, table: ArgTable)
    requires Live(state) && ArgsWithin(table, m)
    ensures Transition(state, m, sender, table) == Next(DISCONNECTED) <==>
      sender == SERVER && !m.IsAck() &&
      ((state == CHALLENGING_WAIT && m.Topic() == Topic.CONNECTION && m.Action() == REJECT) ||
       (state == AUTHENTICATING && m.Topic() == AUTH &&
        m.Action() in {ERROR_TOO_MANY_AUTH_ATTEMPTS, ERROR_INVALID_AUTH_MSG}))
  {
  }

  /** The two transitions back: REDIRECT restarts, invalid auth data re-asks. */
  lemma BackwardTransitions(m: Message, table: ArgTable)
    requires ArgsWithin(table, m) && !m.IsAck()
    ensures m.Topic() == Topic.CONNECTION && m.Action() == REDIRECT ==>
      Transition(CHALLENGING_WAIT, m, SERVER, table) == Next(AWAIT_CONNECTION)
    ensures m.Topic() == AUTH && m.Action() == ERROR_INVALID_AUTH_DATA ==>
      Transition(AUTHENTICATING, m, SERVER, table) == Next(AWAIT_AUTHENTICATION)
  {
  }

  /**
   * Before CONNECTED, a client message other than PONG moves the machine only
   * for a challenge response in CHALLENGING or an auth request in
   * AWAIT_AUTHENTICATION (both unacknowledged); anything else is an ERROR.
   */
  lemma ClientMessagesBeforeConnected(state: State, m: Message, table: ArgTable)
    requires Live(state) && state != CONNECTED && ArgsWithin(table, m)
    requires !(m.Topic() == Topic.CONNECTION && m.Action() == PONG)
    ensures Transition(state, m, CLIENT, table) ==
      if state == CHALLENGING && m.Topic() == Topic.CONNECTION && m.Action() == CHALLENGE_RESPONSE && !m.IsAck()
      then Next(CHALLENGING_WAIT)
      else if state == AWAIT_AUTHENTICATION && m.Topic() == AUTH && m.Action() == REQUEST && !m.IsAck()
      then Next(AUTHENTICATING)
      else Next(State.ERROR)
  {
  }

  /** From CHALLENGING_WAIT the server decides: ack, redirect or reject. */
  lemma ChallengeWaitOutcomes(m: Message, table: ArgTable)
    requires ArgsWithin(table, m) && m.Topic() == Topic.CONNECTION
    ensures m.Action() == CHALLENGE_RESPONSE && m.IsAck() ==>
      Transition(CHALLENGING_WAIT, m, SERVER, table) == Next(AWAIT_AUTHENTICATION)
    ensures m.Action() == REDIRECT && !m.IsAck() ==>
      Transition(CHALLENGING_WAIT, m, SERVER, table) == Next(AWAIT_CONNECTION)
    ensures m.Action() == REJECT && !m.IsAck() ==>
      Transition(CHALLENGING_WAIT, m, SERVER, table) == Next(DISCONNECTED)
  {
  }

  /** From AUTHENTICATING: ack connects, two errors disconnect. */
  lemma AuthenticatingOutcomes(m: Message, table: ArgTable)
    requires ArgsWithin(table, m) && m.Topic() == AUTH
    ensures m.Action() == REQUEST && m.IsAck() ==>
      Transition(AUTHENTICATING, m, SERVER, table) == Next(CONNECTED)
    ensures m.Action() in {ERROR_TOO_MANY_AUTH_ATTEMPTS, ERROR_INVALID_AUTH_MSG} && !m.IsAck() ==>
      Transition(AUTHENTICATING, m, SERVER, table) == Next(DISCONNECTED)
  {
  }

  /** Every combination the if-chain does not list yields ERROR (or keeps CONNECTED). */
  lemma UnlistedIsError(state: State, m: Message, sender: Sender, table: ArgTable)
    requires Live(state) && ArgsWithin(table, m)
    requires m.Topic() !in {Topic.CONNECTION, AUTH}
    ensures Transition(state, m, sender, table) == Next(if state == CONNECTED then CONNECTED else State.ERROR)
  {
  }

  /** One message in a trace: who sent what. */
  datatype Exchange = Exchange(m: Message, sender: Sender)

  predicate TraceWithin(table: ArgTable, trace: seq<Exchange>)
  {
    forall i :: 0 <= i < |trace| ==> ArgsWithin(table, trace[i].m)
  }

  /**
   * Feeds a trace to the machine; it stops at an aborting assertion and at
   * ERROR or DISCONNECTED, from which `transition` may not be called.
   */
  function Run(state: State, trace: seq<Exchange>, table: ArgTable): Step
    requires TraceWithin(table, trace)
    decreases |trace|
  {
    if trace == [] || !Live(state) then Next(state)
    else
      match Transition(state, trace[0].m, trace[0].sender, table)
      case AssertionFailure => AssertionFailure
      case Next(s) => Run(s, trace[1..], table)
  }

  /** The handshake of the client tests, step by step. */
  function Handshake(challengeUrl: Buffer, credentials: Buffer): seq<Exchange>
  {
    [ Exchange(Make(Topic.CONNECTION, CHALLENGE, []), SERVER),
      Exchange(Make(Topic.CONNECTION, CHALLENGE_RESPONSE, [challengeUrl]), CLIENT),
      Exchange(Message(Header(Topic.CONNECTION, CHALLENGE_RESPONSE, true), []), SERVER),
      Exchange(Make(AUTH, REQUEST, [credentials]), CLIENT),
      Exchange(Message(Header(AUTH, REQUEST, true), []), SERVER) ]
  }

  lemma HandshakeConnects(url: Buffer, credentials: Buffer, table: ArgTable)
    requires TraceWithin(table, Handshake(url, credentials))
    ensures Run(AWAIT_CONNECTION, Handshake(url, credentials), table) == Next(CONNECTED)
  {
    var h := Handshake(url, credentials);
    assert Run(AWAIT_CONNECTION, h, table) == Run(CHALLENGING, h[1..], table);
    assert Run(CHALLENGING, h[1..], table) == Run(CHALLENGING_WAIT, h[2..], table);
    assert Run(CHALLENGING_WAIT, h[2..], table) == Run(AWAIT_AUTHENTICATION, h[3..], table);
    assert Run(AWAIT_AUTHENTICATION, h[3..], table) == Run(AUTHENTICATING, h[4..], table);
    assert Run(AUTHENTICATING, h[4..], table) == Run(CONNECTED, h[5..], table);
  }

  /** Once CONNECTED, no trace leaves CONNECTED, except by an aborting assertion. */
  lemma {:induction false} RunStaysConnected(trace: seq<Exchange>, table: ArgTable)
    requires TraceWithin(table, trace)
    ensures Run(CONNECTED, trace, table) in {Next(CONNECTED), AssertionFailure}
    decreases |trace|
  {
    if trace != [] {
      ConnectedIsAbsorbing(trace[0].m, trace[0].sender, table);
      RunStaysConnected(trace[1..], table);
    }
  }

  /** True when the server acknowledged an authentication request. */
  predicate AuthAcknowledged(x: Exchange)
  {
    x.sender == SERVER && x.m.Topic() == AUTH && x.m.Action() == REQUEST && x.m.IsAck()
  }

  /**
   * The machine reaches CONNECTED only through the server's acknowledgement
   * of an authentication request: a run that starts elsewhere and ends in
   * CONNECTED contains such a message.
   */
  lemma {:induction false} ConnectedNeedsAuthAck(state: State, trace: seq<Exchange>, table: ArgTable)
    requires TraceWithin(table, trace)
    requires state != CONNECTED
    requires Run(state, trace, table) == Next(CONNECTED)
    ensures exists i :: 0 <= i < |trace| && AuthAcknowledged(trace[i])
    decreases |trace|
  {
    var step := Transition(state, trace[0].m, trace[0].sender, table);
    if step == Next(CONNECTED) {
      assert AuthAcknowledged(trace[0]);
    } else {
      ConnectedNeedsAuthAck(step.state, trace[1..], table);
      var i :| 0 <= i < |trace[1..]| && AuthAcknowledged(trace[1..][i]);
      assert AuthAcknowledged(trace[i + 1]);
    }
  }
}

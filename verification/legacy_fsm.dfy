/**
 * The first handshake function of the client (`client::transition` in
 * src/client.cpp). Unlike the newer one it checks argument counts inside each
 * branch, knows no PING, PONG or REDIRECT, and has no rule for CONNECTED: a
 * message received there is an ERROR.
 *
 * The entry assertions are preconditions; an assertion inside a branch that
 * fails aborts the program (`AssertionFailure`).
 */
module LegacyFsm {
  import opened Protocol
  import opened ConnectionFsm

  /** `assert(is_ack == ack); assert(args ok); return s;` */
  function Checked(m: Message, ack: bool, argsOk: bool, s: State): Step
  {
    if m.IsAck() != ack || !argsOk then AssertionFailure else Next(s)
  }

  function LegacyTransition(state: State, m: Message, sender: Sender): (r: Step)
    requires Live(state)
    ensures r == AssertionFailure ==> m.Topic() in {Topic.CONNECTION, AUTH}
    ensures r.Next? && r.state == CONNECTED ==>
      state == AUTHENTICATING && m.Topic() == AUTH && m.Action() == REQUEST
      && m.IsAck() && sender == SERVER && |m.args| == 0
  {
    var topic, action, n := m.Topic(), m.Action(), |m.args|;
    if state == AWAIT_CONNECTION && topic == Topic.CONNECTION && action == CHALLENGE && sender == SERVER then
      Checked(m, false, n == 0, CHALLENGING)
    else if state == CHALLENGING && topic == Topic.CONNECTION && action == CHALLENGE_RESPONSE && sender == CLIENT then
      Checked(m, false, n == 1, CHALLENGING_WAIT)
    else if state == CHALLENGING_WAIT && topic == Topic.CONNECTION && action == CHALLENGE_RESPONSE && sender == SERVER then
      Checked(m, true, n == 0, AWAIT_AUTHENTICATION)
    else if state == CHALLENGING_WAIT && topic == Topic.CONNECTION && action == REJECT && sender == SERVER then
      Checked(m, false, n == 0 || n == 1, DISCONNECTED)
    else if state == AWAIT_AUTHENTICATION && topic == AUTH && action == REQUEST && sender == CLIENT then
      Checked(m, false, n == 2, AUTHENTICATING)
    else if state == AUTHENTICATING && topic == AUTH && action == REQUEST && sender == SERVER then
      Checked(m, true, n == 0, CONNECTED)
    else if state == AUTHENTICATING && topic == AUTH && action == ERROR_TOO_MANY_AUTH_ATTEMPTS && sender == SERVER then
      Checked(m, false, n == 0, DISCONNECTED)
    else if state == AUTHENTICATING && topic == AUTH && action == ERROR_INVALID_AUTH_DATA && sender == SERVER then
      Checked(m, false, n == 0, AWAIT_AUTHENTICATION)
    else
      Next(State.ERROR)
  }

  /** The three accepting steps of the client side and the server's opening. */
  lemma LegacyHandshakeSteps(m: Message)
    ensures m == Make(Topic.CONNECTION, CHALLENGE, []) ==>
      LegacyTransition(AWAIT_CONNECTION, m, SERVER) == Next(CHALLENGING)
    ensures m.header == Header(Topic.CONNECTION, CHALLENGE_RESPONSE, false) && |m.args| == 1 ==>
      LegacyTransition(CHALLENGING, m, CLIENT) == Next(CHALLENGING_WAIT)
    ensures m.header == Header(AUTH, REQUEST, false) && |m.args| == 2 ==>
      LegacyTransition(AWAIT_AUTHENTICATION, m, CLIENT) == Next(AUTHENTICATING)
  {
  }

  /** A challenge response with the wrong number of arguments aborts. */
  lemma LegacyArgumentCountChecked(m: Message)
    requires m.header == Header(Topic.CONNECTION, CHALLENGE_RESPONSE, false)
    ensures LegacyTransition(CHALLENGING, m, CLIENT) ==
      if |m.args| == 1 then Next(CHALLENGING_WAIT) else AssertionFailure
  {
  }

  /** From AUTHENTICATING: ack connects, too many attempts disconnects, bad data re-asks. */
  lemma LegacyAuthenticatingOutcomes(m: Message)
    requires m.Topic() == AUTH && |m.args| == 0
    ensures m.Action() == REQUEST && m.IsAck() ==>
      LegacyTransition(AUTHENTICATING, m, SERVER) == Next(CONNECTED)
    ensures m.Action() == ERROR_TOO_MANY_AUTH_ATTEMPTS && !m.IsAck() ==>
      LegacyTransition(AUTHENTICATING, m, SERVER) == Next(DISCONNECTED)
    ensures m.Action() == ERROR_INVALID_AUTH_DATA && !m.IsAck() ==>
      LegacyTransition(AUTHENTICATING, m, SERVER) == Next(AWAIT_AUTHENTICATION)
  {
  }

  /** A rejected challenge disconnects when it carries at most one argument. */
  lemma LegacyRejectDisconnects(m: Message)
    requires m.header == Header(Topic.CONNECTION, REJECT, false)
    ensures LegacyTransition(CHALLENGING_WAIT, m, SERVER) ==
      if |m.args| <= 1 then Next(DISCONNECTED) else AssertionFailure
  {
  }

  /**
   * No heartbeat, no redirect, and nothing is accepted once CONNECTED: every
   * message then yields ERROR.
   */
  lemma LegacyConnectedIsError(m: Message, sender: Sender)
    ensures LegacyTransition(CONNECTED, m, sender) == Next(State.ERROR)
  {
  }

  /** Where the newer function keeps the state on a heartbeat, this one fails. */
  lemma LegacyHasNoHeartbeat(state: State, sender: Sender, table: ArgTable)
    requires Live(state)
    requires ArgsWithin(table, Make(Topic.CONNECTION, PING, []))
    ensures LegacyTransition(state, Make(Topic.CONNECTION, PING, []), SERVER) == Next(State.ERROR)
    ensures Transition(state, Make(Topic.CONNECTION, PING, []), SERVER, table) == Next(state)
  {
  }

  /** Feeds a trace to the first handshake function. */
  function LegacyRun(state: State, trace: seq<Exchange>): Step
    decreases |trace|
  {
    if trace == [] || !Live(state) then Next(state)
    else
      match LegacyTransition(state, trace[0].m, trace[0].sender)
      case AssertionFailure => AssertionFailure
      case Next(s) => LegacyRun(s, trace[1..])
  }

  /** The lifetime test: the handshake with one challenge argument and two credentials. */
  lemma LegacyLifetimeConnects(url: Buffer, user: Buffer, password: Buffer)
    ensures LegacyRun(AWAIT_CONNECTION,
      [ Exchange(Make(Topic.CONNECTION, CHALLENGE, []), SERVER),
        Exchange(Make(Topic.CONNECTION, CHALLENGE_RESPONSE, [url]), CLIENT),
        Exchange(Message(Header(Topic.CONNECTION, CHALLENGE_RESPONSE, true), []), SERVER),
        Exchange(Make(AUTH, REQUEST, [user, password]), CLIENT),
        Exchange(Message(Header(AUTH, REQUEST, true), []), SERVER) ]) == Next(CONNECTED)
  {
    var h := [ Exchange(Make(Topic.CONNECTION, CHALLENGE, []), SERVER),
      Exchange(Make(Topic.CONNECTION, CHALLENGE_RESPONSE, [url]), CLIENT),
      Exchange(Message(Header(Topic.CONNECTION, CHALLENGE_RESPONSE, true), []), SERVER),
      Exchange(Make(AUTH, REQUEST, [user, password]), CLIENT),
      Exchange(Message(Header(AUTH, REQUEST, true), []), SERVER) ];
    assert LegacyRun(AWAIT_CONNECTION, h) == LegacyRun(CHALLENGING, h[1..]);
    assert LegacyRun(CHALLENGING, h[1..]) == LegacyRun(CHALLENGING_WAIT, h[2..]);
    assert LegacyRun(CHALLENGING_WAIT, h[2..]) == LegacyRun(AWAIT_AUTHENTICATION, h[3..]);
    assert LegacyRun(AWAIT_AUTHENTICATION, h[3..]) == LegacyRun(AUTHENTICATING, h[4..]);
    assert LegacyRun(AUTHENTICATING, h[4..]) == LegacyRun(CONNECTED, h[5..]);
  }

  /**
   * A run never passes through CONNECTED: once there, the next message is an
   * ERROR, so a trace that ends CONNECTED reaches it with its last message.
   */
  lemma {:induction false} LegacyConnectedOnlyAtEnd(state: State, trace: seq<Exchange>)
    requires LegacyRun(state, trace) == Next(CONNECTED)
    requires trace != []
    ensures Live(state) && state != CONNECTED
    ensures AuthAcknowledged(trace[|trace| - 1])
    decreases |trace|
  {
    var step := LegacyTransition(state, trace[0].m, trace[0].sender);
    if |trace| == 1 {
      assert LegacyRun(step.state, trace[1..]) == Next(step.state);
    } else {
      LegacyConnectedOnlyAtEnd(step.state, trace[1..]);
      assert trace[1..][|trace[1..]| - 1] == trace[|trace| - 1];
    }
  }
}

/**
 * The vocabulary of the deepstream wire protocol shared by every component:
 * topics, actions, senders, message headers, the two separator bytes and an
 * abstract message (header plus argument buffers).
 */
module Protocol {

  /** A C `char`, signed and eight bits wide. */
  const CHAR_MIN: int := -128
  const CHAR_MAX: int := 127
  type CChar = c: int | CHAR_MIN <= c <= CHAR_MAX

  /** A `Buffer` is a vector of chars. */
  type Buffer = seq<CChar>

  /** ASCII 30 ends a message, ASCII 31 precedes every argument. */
  const RECORD_SEPARATOR: CChar := 30
  const UNIT_SEPARATOR: CChar := 31

  datatype Topic = AUTH | CONNECTION | ERROR | EVENT | PRESENCE | RECORD | RPC

  datatype Action =
    | CHALLENGE
    | CHALLENGE_RESPONSE
    | CREATE_OR_READ
    | ERROR_INVALID_AUTH_DATA
    | ERROR_INVALID_AUTH_MSG
    | ERROR_TOO_MANY_AUTH_ATTEMPTS
    | EVENT
    | LISTEN
    | LISTEN_ACCEPT
    | LISTEN_REJECT
    | PING
    | PONG
    | PRESENCE_JOIN
    | PRESENCE_LEAVE
    | QUERY
    | REDIRECT
    | REJECT
    | REQUEST
    | SUBSCRIBE
    | SUBSCRIPTION_FOR_PATTERN_FOUND
    | SUBSCRIPTION_FOR_PATTERN_REMOVED
    | UNLISTEN
    | UNSUBSCRIBE

  datatype Sender = CLIENT | SERVER

  datatype Header = Header(topic: Topic, action: Action, isAck: bool)

  /** A message as every component sees it: a header and its arguments. */
  datatype Message = Message(header: Header, args: seq<Buffer>)
  {
    function Topic(): Topic { header.topic }
    function Action(): Action { header.action }
    function IsAck(): bool { header.isAck }
  }

  /** A message built from a header and arguments, as MessageBuilder does. */
  function Make(topic: Topic, action: Action, args: seq<Buffer>): Message
  {
    Message(Header(topic, action, false), args)
  }

  /**
   * What an operation that may throw `std::invalid_argument` ends with: a
   * returned value, or the exception and its message.
   */
  datatype Outcome<T> = Returned(value: T) | InvalidArgument(what: string)

  datatype Option<T> = None | Some(value: T)

  /** The inclusive bounds `Message::num_arguments` gives for a header. */
  datatype ArgBounds = ArgBounds(min: nat, max: nat)

  /**
   * The table behind `Message::num_arguments`; its contents are not part of
   * this model, so the operations that consult it receive it as a parameter.
   */
  type ArgTable = Header -> ArgBounds

  predicate ArgsWithin(table: ArgTable, m: Message)
  {
    table(m.header).min <= |m.args| <= table(m.header).max
  }

  /** True when no byte of `b` is `c`. */
  predicate Free(b: Buffer, c: CChar)
  {
    forall i :: 0 <= i < |b| ==> b[i] != c
  }

  /** The byte values of an ASCII string. */
  function Ascii(s: string): Buffer
    requires forall i :: 0 <= i < |s| ==> s[i] as int < 128
  {
    seq(|s|, i requires 0 <= i < |s| => s[i] as int)
  }

  /**
   * `Message::from_human_readable`: `|` becomes the unit separator, `+` the
   * record separator, every other character stays as it is.
   */
  function FromHumanReadable(s: string): Buffer
    requires forall i :: 0 <= i < |s| ==> s[i] as int < 128
  {
    seq(|s|, i requires 0 <= i < |s| =>
      if s[i] == '|' then UNIT_SEPARATOR
      else if s[i] == '+' then RECORD_SEPARATOR
      else s[i] as int)
  }
}

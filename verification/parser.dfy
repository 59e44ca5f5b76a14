/**
 * The parser step (src/parser.cpp). The scanner, which is not part of this
 * model, cuts the input into tokens and hands each one, with the length of
 * the text it matched, to `deepstream_parser_handle`. The handler advances
 * the byte offset, checks that the token suits the current mode (a header is
 * expected, or the payload of a message), records a message for every
 * header and an error for every token out of place.
 */
module Parsing {
  import opened Protocol

  /** `EOF` of `<cstdio>` and `UCHAR_MAX` of `<climits>`. */
  const EOF: int := -1
  const UCHAR_MAX: int := 255

  /** `enum deepstream_token`. */
  datatype Token =
    | TOKEN_EOF
    | TOKEN_UNKNOWN
    | TOKEN_PAYLOAD
    | TOKEN_RECORD_SEPARATOR
    | TOKEN_A_A
    | TOKEN_A_E_IAD
    | TOKEN_A_E_TMAA
    | TOKEN_A_REQ
    | TOKEN_E_A_L
    | TOKEN_E_A_S
    | TOKEN_E_L
    | TOKEN_E_S
    | TOKEN_E_US

  /** The value of each enumerator: EOF, then `UCHAR_MAX + 1` and on, one by one. */
  function Code(t: Token): int
  {
    match t
    case TOKEN_EOF => EOF
    case TOKEN_UNKNOWN => UCHAR_MAX + 1
    case TOKEN_PAYLOAD => UCHAR_MAX + 2
    case TOKEN_RECORD_SEPARATOR => UCHAR_MAX + 3
    case TOKEN_A_A => UCHAR_MAX + 4
    case TOKEN_A_E_IAD => UCHAR_MAX + 5
    case TOKEN_A_E_TMAA => UCHAR_MAX + 6
    case TOKEN_A_REQ => UCHAR_MAX + 7
    case TOKEN_E_A_L => UCHAR_MAX + 8
    case TOKEN_E_A_S => UCHAR_MAX + 9
    case TOKEN_E_L => UCHAR_MAX + 10
    case TOKEN_E_S => UCHAR_MAX + 11
    case TOKEN_E_US => UCHAR_MAX + 12
  }

  /** `is_header_token`: every enumerator from `TOKEN_A_A` on. */
  predicate IsHeaderToken(t: Token)
  {
    Code(t) >= Code(TOKEN_A_A)
  }

  /** The header of the message each header token starts, as the handler's switch builds it. */
  function HeaderOf(t: Token): Option<Header>
  {
    match t
    case TOKEN_A_A => Some(Header(AUTH, REQUEST, true))
    case TOKEN_A_E_IAD => Some(Header(AUTH, ERROR_INVALID_AUTH_DATA, true))
    case TOKEN_A_E_TMAA => Some(Header(AUTH, ERROR_TOO_MANY_AUTH_ATTEMPTS, true))
    case TOKEN_A_REQ => Some(Header(AUTH, REQUEST, false))
    case TOKEN_E_A_L => Some(Header(Topic.EVENT, LISTEN, true))
    case TOKEN_E_A_S => Some(Header(Topic.EVENT, SUBSCRIBE, true))
    case TOKEN_E_L => Some(Header(Topic.EVENT, LISTEN, false))
    case TOKEN_E_S => Some(Header(Topic.EVENT, SUBSCRIBE, false))
    case TOKEN_E_US => Some(Header(Topic.EVENT, UNSUBSCRIBE, false))
    case _ => None
  }

  /**
   * The comparison on enumerator values singles out exactly the tokens that
   * start a message; the separator, payload, unknown and end-of-file tokens
   * are not among them.
   */
  lemma HeaderTokens(t: Token)
    ensures IsHeaderToken(t) <==> HeaderOf(t).Some?
    ensures t in {TOKEN_EOF, TOKEN_UNKNOWN, TOKEN_PAYLOAD, TOKEN_RECORD_SEPARATOR} <==> !IsHeaderToken(t)
  {
  }

  /** Distinct enumerators have distinct values. */
  lemma CodeInjective(s: Token, t: Token)
    ensures Code(s) == Code(t) <==> s == t
  {
  }

  /** `parser::Error::Tag`. */
  datatype Tag = UNEXPECTED_TOKEN | UNEXPECTED_EOF | EMPTY_PAYLOAD

  /** A parse error: where the offending text starts, how long it is, and what is wrong. */
  datatype Error = Error(offset: nat, length: nat, tag: Tag)

  /** The mutable part of `deepstream_parser_state` as a value. */
  datatype Snapshot = Snapshot(tokenizingHeader: bool, offset: nat, messages: seq<Header>, errors: seq<Error>)

  /** What one call of the handler makes of the parser state. */
  function Handled(s: Snapshot, token: Token, matchlen: nat): Snapshot
  {
    var advanced := s.(offset := s.offset + matchlen);
    var header := IsHeaderToken(token);
    if (s.tokenizingHeader && !header) || (!s.tokenizingHeader && header) then
      advanced.(errors := s.errors + [Error(s.offset, matchlen, UNEXPECTED_TOKEN)])
    else
      var mode := if s.tokenizingHeader && header then false else s.tokenizingHeader;
      match token
      case TOKEN_EOF =>
        if !s.tokenizingHeader then
          advanced.(tokenizingHeader := mode, errors := s.errors + [Error(s.offset, matchlen, UNEXPECTED_EOF)])
        else advanced.(tokenizingHeader := mode)
      case TOKEN_UNKNOWN =>
        advanced.(tokenizingHeader := mode, errors := s.errors + [Error(s.offset, matchlen, UNEXPECTED_TOKEN)])
      case TOKEN_PAYLOAD => advanced.(tokenizingHeader := mode)
      case TOKEN_RECORD_SEPARATOR => advanced.(tokenizingHeader := true)
      case _ => advanced.(tokenizingHeader := mode, messages := s.messages + [HeaderOf(token).value])
  }

  /** The state a fresh parser starts in. */
  const Initial: Snapshot := Snapshot(true, 0, [], [])

  /**
   * Every call advances the offset by the matched length, only appends to
   * the message and error lists, and adds at most one entry to them in all.
   */
  lemma HandledAppends(s: Snapshot, token: Token, matchlen: nat)
    ensures var r := Handled(s, token, matchlen);
      r.offset == s.offset + matchlen
      && s.messages <= r.messages && s.errors <= r.errors
      && (|r.messages| - |s.messages|) + (|r.errors| - |s.errors|) <= 1
  {
  }

  /**
   * A token that does not suit the mode records one UNEXPECTED_TOKEN error
   * at the old offset and changes nothing else but the offset.
   */
  lemma OutOfPlaceToken(s: Snapshot, token: Token, matchlen: nat)
    requires s.tokenizingHeader != IsHeaderToken(token)
    ensures Handled(s, token, matchlen)
      == s.(offset := s.offset + matchlen, errors := s.errors + [Error(s.offset, matchlen, UNEXPECTED_TOKEN)])
  {
  }

  /**
   * A header token where a header is expected switches to the payload and
   * records one message with the token's header; for example `E|L` records
   * EVENT/LISTEN.
   */
  lemma HeaderStartsMessage(s: Snapshot, token: Token, matchlen: nat)
    requires s.tokenizingHeader && IsHeaderToken(token)
    ensures HeaderOf(token).Some?
    ensures Handled(s, token, matchlen)
      == s.(tokenizingHeader := false, offset := s.offset + matchlen,
            messages := s.messages + [HeaderOf(token).value])
    ensures token == TOKEN_E_L ==>
      Handled(s, token, matchlen).messages == s.messages + [Header(Topic.EVENT, LISTEN, false)]
  {
  }

  /**
   * In the payload: the record separator ends the message, a payload token
   * changes nothing, end of file and unknown text record an error.
   */
  lemma PayloadTokens(s: Snapshot, matchlen: nat)
    requires !s.tokenizingHeader
    ensures var next := s.(offset := s.offset + matchlen);
      Handled(s, TOKEN_RECORD_SEPARATOR, matchlen) == next.(tokenizingHeader := true)
      && Handled(s, TOKEN_PAYLOAD, matchlen) == next
      && Handled(s, TOKEN_EOF, matchlen) == next.(errors := s.errors + [Error(s.offset, matchlen, UNEXPECTED_EOF)])
      && Handled(s, TOKEN_UNKNOWN, matchlen) == next.(errors := s.errors + [Error(s.offset, matchlen, UNEXPECTED_TOKEN)])
  {
  }

  /**
   * Where a header is expected, end of file is not a header token, so the
   * handler records UNEXPECTED_TOKEN rather than reaching its EOF case.
   */
  lemma EndOfFileBetweenMessages(s: Snapshot, matchlen: nat)
    requires s.tokenizingHeader
    ensures Handled(s, TOKEN_EOF, matchlen).errors == s.errors + [Error(s.offset, matchlen, UNEXPECTED_TOKEN)]
    ensures Handled(s, TOKEN_EOF, matchlen).tokenizingHeader
  {
  }

  /** A token as the scanner hands it over, with the length of its text. */
  datatype Match = Match(token: Token, length: nat)

  /** The parser state after handling a sequence of matches in order. */
  function Run(s: Snapshot, matches: seq<Match>): Snapshot
    decreases |matches|
  {
    if matches == [] then s
    else Run(Handled(s, matches[0].token, matches[0].length), matches[1..])
  }

  /** The total length of the text of a sequence of matches. */
  function Length(matches: seq<Match>): nat
    decreases |matches|
  {
    if matches == [] then 0 else matches[0].length + Length(matches[1..])
  }

  lemma {:induction false} RunConcat(s: Snapshot, a: seq<Match>, b: seq<Match>)
    ensures Run(s, a + b) == Run(Run(s, a), b)
    ensures Length(a + b) == Length(a) + Length(b)
    decreases |a|
  {
    if a != [] {
      assert (a + b)[0] == a[0] && (a + b)[1..] == a[1..] + b;
      RunConcat(Handled(s, a[0].token, a[0].length), a[1..], b);
    } else {
      assert a + b == b;
    }
  }

  /** Payload tokens inside a message only advance the offset. */
  lemma {:induction false} PayloadRun(s: Snapshot, payload: seq<Match>)
    requires !s.tokenizingHeader
    requires forall i :: 0 <= i < |payload| ==> payload[i].token == TOKEN_PAYLOAD
    ensures Run(s, payload) == s.(offset := s.offset + Length(payload))
    decreases |payload|
  {
    if payload != [] {
      PayloadTokens(s, payload[0].length);
      PayloadRun(s.(offset := s.offset + payload[0].length), payload[1..]);
    }
  }

  /**
   * A well-formed record (a header token, payload tokens, a record
   * separator) read where a header is expected records exactly its message,
   * no error, and leaves the parser expecting the next header.
   */
  lemma RecordParses(s: Snapshot, header: Match, payload: seq<Match>, separator: Match)
    requires s.tokenizingHeader
    requires IsHeaderToken(header.token)
    requires forall i :: 0 <= i < |payload| ==> payload[i].token == TOKEN_PAYLOAD
    requires separator.token == TOKEN_RECORD_SEPARATOR
    ensures HeaderOf(header.token).Some?
    ensures Run(s, [header] + payload + [separator])
      == s.(offset := s.offset + Length([header] + payload + [separator]),
            messages := s.messages + [HeaderOf(header.token).value])
  {
    var inside := Handled(s, header.token, header.length);
    HeaderStartsMessage(s, header.token, header.length);
    RunConcat(s, [header], payload);
    RunConcat(s, [header] + payload, [separator]);
    assert Run(s, [header]) == inside;
    PayloadRun(inside, payload);
    PayloadTokens(Run(inside, payload), separator.length);
    assert Length([separator]) == separator.length;
    assert Length([header]) == header.length;
  }

  /** `deepstream_parser_state`: the buffer being parsed and the parser's progress. */
  class ParserState {
    const buffer: Buffer
    var tokenizingHeader: bool
    var offset: nat
    var messages: seq<Header>
    var errors: seq<Error>

    /** A parser over `buffer` starts expecting a header at offset zero. */
    constructor (buffer: Buffer)
      ensures this.buffer == buffer && Current() == Initial
    {
      this.buffer := buffer;
      tokenizingHeader := true;
      offset := 0;
      messages := [];
      errors := [];
    }

    function Current(): Snapshot
      reads this
    {
      Snapshot(tokenizingHeader, offset, messages, errors)
    }

    /** `deepstream_parser_handle`: handles one token and returns it. */
    method Handle(token: Token, matchlen: nat) returns (r: Token)
      requires matchlen > 0
      modifies this
      ensures r == token
      ensures Current() == Handled(old(Current()), token, matchlen)
    {
      var start := offset;
      var header := tokenizingHeader;
      offset := start + matchlen;
      if (header && !IsHeaderToken(token)) || (!header && IsHeaderToken(token)) {
        errors := errors + [Error(start, matchlen, UNEXPECTED_TOKEN)];
        return token;
      }
      if header && IsHeaderToken(token) {
        tokenizingHeader := false;
      }
      match token {
        case TOKEN_EOF =>
          if !header {
            errors := errors + [Error(start, matchlen, UNEXPECTED_EOF)];
          }
        case TOKEN_UNKNOWN =>
          errors := errors + [Error(start, matchlen, UNEXPECTED_TOKEN)];
        case TOKEN_PAYLOAD =>
        case TOKEN_RECORD_SEPARATOR =>
          tokenizingHeader := true;
        case _ =>
          messages := messages + [HeaderOf(token).value];
      }
      return token;
    }
  }
}

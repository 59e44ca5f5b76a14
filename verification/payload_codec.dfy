/**
 * The typed payload codec (include/deepstream/lib/type-serializer.hpp and
 * include/deepstream/lib/json-handler.hpp): a payload on the wire is one
 * prefix byte naming its type, followed for strings by the raw characters and
 * for objects, arrays and numbers by their JSON text.
 *
 * `TypeSerializer` and `JSONHandler` are the same code except in how they
 * handle JSON text that does not parse; `Codec` says which one is meant.
 * The JSON library's `parse` and `dump` are not part of this model: they are
 * the two functions of a `JsonLib`. Errors reported through the error
 * handler are collected in the result.
 */
module PayloadCodec {
  import opened Protocol

  /** A JSON value as the library holds it; numbers are integers only. */
  datatype Json =
    | JNull
    | JBool(b: bool)
    | JNumber(n: int)
    | JString(s: string)
    | JArray(elements: seq<Json>)
    | JObject(members: map<string, Json>)

  /** The library's text conversions: `parse` is `None` where it throws. */
  datatype JsonLib = JsonLib(dump: Json -> string, parse: string -> Option<Json>)

  datatype Codec = TypeSerializer | JSONHandler

  /** `PayloadType`, each with the prefix byte that stands for it. */
  datatype PayloadType = OBJECT | STRING | NUMBER | TRUE | FALSE | NULL_ | UNDEFINED
  {
    function Prefix(): char
    {
      match this
      case OBJECT => 'O'
      case STRING => 'S'
      case NUMBER => 'N'
      case TRUE => 'T'
      case FALSE => 'F'
      case NULL_ => 'L'
      case UNDEFINED => 'U'
    }
  }

  /** The payload type a prefix byte stands for, if any. */
  function TypeOf(c: char): (t: Option<PayloadType>)
    ensures t.Some? ==> t.value.Prefix() == c
  {
    match c
    case 'O' => Some(OBJECT)
    case 'S' => Some(STRING)
    case 'N' => Some(NUMBER)
    case 'T' => Some(TRUE)
    case 'F' => Some(FALSE)
    case 'L' => Some(NULL_)
    case 'U' => Some(UNDEFINED)
    case _ => None
  }

  /** Every payload type has its own prefix byte, and reading it back gives the type. */
  lemma PrefixRoundTrip(t: PayloadType, u: PayloadType)
    ensures TypeOf(t.Prefix()) == Some(t)
    ensures t.Prefix() == u.Prefix() ==> t == u
  {
  }

  /** A buffer the `switch` of `prefixed_to_json` returns from: empty, or with a known prefix. */
  predicate Dispatchable(buff: string)
  {
    buff == [] || TypeOf(buff[0]).Some?
  }

  const UNPREFIXED_EMPTY: string := "Received unprefixed empty buffer"
  const PARSE_FAILED: string := "failed to parse object: "

  /** A decoded value and the messages given to the error handler meanwhile. */
  datatype Decoded = Decoded(value: Json, errors: seq<string>)

  /**
   * `get_type`: objects and arrays are OBJECT, booleans TRUE or FALSE by
   * value; no value is UNDEFINED.
   */
  function GetType(v: Json): (t: PayloadType)
    ensures t == OBJECT <==> v.JObject? || v.JArray?
    ensures t == STRING <==> v.JString?
    ensures t == NUMBER <==> v.JNumber?
    ensures t == TRUE <==> v == JBool(true)
    ensures t == FALSE <==> v == JBool(false)
    ensures t == NULL_ <==> v.JNull?
    ensures t != UNDEFINED
  {
    match v
    case JObject(_) => OBJECT
    case JArray(_) => OBJECT
    case JString(_) => STRING
    case JNumber(_) => NUMBER
    case JBool(b) => if b then TRUE else FALSE
    case JNull => NULL_
  }

  /**
   * `to_prefixed_buffer`: the prefix of the value's type, then the raw
   * characters of a string, the JSON text of an object, array or number, and
   * nothing for the other types.
   */
  function ToPrefixedBuffer(lib: JsonLib, v: Json): (buff: string)
    ensures |buff| >= 1 && buff[0] == GetType(v).Prefix()
    ensures v.JString? ==> buff[1..] == v.s
    ensures (v.JObject? || v.JArray? || v.JNumber?) ==> buff[1..] == lib.dump(v)
    ensures (v.JNull? || v.JBool?) ==> |buff| == 1
  {
    var prefix := GetType(v);
    match prefix
    case OBJECT => [prefix.Prefix()] + lib.dump(v)
    case NUMBER => [prefix.Prefix()] + lib.dump(v)
    case STRING => [prefix.Prefix()] + v.s
    case _ => [prefix.Prefix()]
  }

  /**
   * `TypeSerializer::to_json(buff, offset)`: parses the bytes from `offset`
   * on; text that does not parse is reported, with those bytes, and gives null.
   */
  function SerializerToJson(lib: JsonLib, buff: string, offset: nat): (d: Decoded)
    requires offset <= |buff|
    ensures lib.parse(buff[offset..]).Some? ==> d == Decoded(lib.parse(buff[offset..]).value, [])
    ensures lib.parse(buff[offset..]).None? ==> d == Decoded(JNull, [PARSE_FAILED + buff[offset..]])
  {
    var str := buff[offset..];
    match lib.parse(str)
    case Some(v) => Decoded(v, [])
    case None => Decoded(JNull, [PARSE_FAILED + str])
  }

  /**
   * `JSONHandler::to_json(buff)`: parses the whole buffer and does not catch
   * a failure, so `None` here is the library's exception escaping.
   */
  function HandlerToJson(lib: JsonLib, buff: string): (r: Option<Json>)
    ensures r.Some? <==> lib.parse(buff).Some?
    ensures r.Some? ==> r.value == lib.parse(buff).value
  {
    lib.parse(buff)
  }

  /**
   * `prefixed_to_json`: dispatches on the prefix byte. Strings are the rest
   * verbatim; null, undefined and the booleans ignore the rest; objects and
   * numbers parse the rest, and `TypeSerializer` reports a failure with the
   * rest while `JSONHandler` reports it with the whole buffer.
   */
  function PrefixedToJson(codec: Codec, lib: JsonLib, buff: string): (d: Decoded)
    requires Dispatchable(buff)
    ensures buff == [] ==> d == Decoded(JNull, [UNPREFIXED_EMPTY])
    ensures |d.errors| <= 1
  {
    if |buff| < 1 then Decoded(JNull, [UNPREFIXED_EMPTY])
    else
      match TypeOf(buff[0]).value
      case STRING => Decoded(JString(buff[1..]), [])
      case NULL_ => Decoded(JNull, [])
      case UNDEFINED => Decoded(JNull, [])
      case TRUE => Decoded(JBool(true), [])
      case FALSE => Decoded(JBool(false), [])
      case OBJECT => ParsePayload(codec, lib, buff)
      case NUMBER => ParsePayload(codec, lib, buff)
  }

  /** The OBJECT and NUMBER arm of `prefixed_to_json`. */
  function ParsePayload(codec: Codec, lib: JsonLib, buff: string): Decoded
    requires |buff| >= 1
  {
    match codec
    case TypeSerializer => SerializerToJson(lib, buff, 1)
    case JSONHandler =>
      match lib.parse(buff[1..])
      case Some(v) => Decoded(v, [])
      case None => Decoded(JNull, [PARSE_FAILED + buff])
  }

  /** A string prefix gives back the rest of the buffer verbatim, whatever it looks like. */
  lemma StringIsVerbatim(codec: Codec, lib: JsonLib, rest: string)
    ensures PrefixedToJson(codec, lib, ['S'] + rest) == Decoded(JString(rest), [])
  {
    assert (['S'] + rest)[1..] == rest;
  }

  /** Null, undefined and the booleans are constants whatever follows the prefix. */
  lemma ConstantsIgnorePayload(codec: Codec, lib: JsonLib, rest: string)
    ensures PrefixedToJson(codec, lib, ['L'] + rest) == Decoded(JNull, [])
    ensures PrefixedToJson(codec, lib, ['U'] + rest) == Decoded(JNull, [])
    ensures PrefixedToJson(codec, lib, ['T'] + rest) == Decoded(JBool(true), [])
    ensures PrefixedToJson(codec, lib, ['F'] + rest) == Decoded(JBool(false), [])
  {
  }

  /**
   * Objects and numbers are the parse of the rest; when it does not parse,
   * the result is null with exactly one error, naming the rest
   * (`TypeSerializer`) or the whole buffer (`JSONHandler`).
   */
  lemma ParsedPayload(codec: Codec, lib: JsonLib, prefix: char, rest: string)
    requires prefix == 'O' || prefix == 'N'
    ensures var d := PrefixedToJson(codec, lib, [prefix] + rest);
      (lib.parse(rest).Some? ==> d == Decoded(lib.parse(rest).value, []))
      && (lib.parse(rest).None? ==>
            d.value == JNull
            && d.errors == [PARSE_FAILED + (if codec == TypeSerializer then rest else [prefix] + rest)])
  {
    assert ([prefix] + rest)[1..] == rest;
  }

  /** `TypeSerializer::prefixed_to_json` hands objects and numbers to `to_json(buff, 1)`. */
  lemma SerializerDelegates(lib: JsonLib, buff: string)
    requires |buff| >= 1 && (buff[0] == 'O' || buff[0] == 'N')
    ensures PrefixedToJson(TypeSerializer, lib, buff) == SerializerToJson(lib, buff, 1)
  {
  }

  /**
   * Decoding an encoded value gives it back with no error: always for null,
   * the booleans and strings, and for the other types whenever the library
   * parses its own dump back to the value.
   */
  lemma RoundTrip(codec: Codec, lib: JsonLib, v: Json)
    requires (v.JObject? || v.JArray? || v.JNumber?) ==> lib.parse(lib.dump(v)) == Some(v)
    ensures Dispatchable(ToPrefixedBuffer(lib, v))
    ensures PrefixedToJson(codec, lib, ToPrefixedBuffer(lib, v)) == Decoded(v, [])
  {
    var buff := ToPrefixedBuffer(lib, v);
    PrefixRoundTrip(GetType(v), GetType(v));
  }

  /** `JSONHandler::to_json` fails exactly where `prefixed_to_json` reports an error instead. */
  lemma HandlerToJsonDoesNotCatch(lib: JsonLib, rest: string)
    requires lib.parse(rest).None?
    ensures HandlerToJson(lib, rest).None?
    ensures PrefixedToJson(JSONHandler, lib, ['O'] + rest) == Decoded(JNull, [PARSE_FAILED + (['O'] + rest)])
  {
    ParsedPayload(JSONHandler, lib, 'O', rest);
  }

  /** The deserialisation and serialisation tests of the JSON handler. */
  lemma SerialTestCases(lib: JsonLib)
    requires lib.parse("").None? && lib.parse(".2.3").None?
    ensures PrefixedToJson(JSONHandler, lib, "") == Decoded(JNull, [UNPREFIXED_EMPTY])
    ensures PrefixedToJson(JSONHandler, lib, "Sfoo") == Decoded(JString("foo"), [])
    ensures PrefixedToJson(JSONHandler, lib, "S[1, 2, 3]") == Decoded(JString("[1, 2, 3]"), [])
    ensures PrefixedToJson(JSONHandler, lib, "Tunexpected payload") == Decoded(JBool(true), [])
    ensures |PrefixedToJson(JSONHandler, lib, "O").errors| == 1
    ensures |PrefixedToJson(JSONHandler, lib, "N.2.3").errors| == 1
    ensures ToPrefixedBuffer(lib, JString("ps\"st")) == "Sps\"st"
    ensures ToPrefixedBuffer(lib, JString("")) == "S"
    ensures ToPrefixedBuffer(lib, JNull) == "L"
    ensures ToPrefixedBuffer(lib, JBool(true)) == "T" && ToPrefixedBuffer(lib, JBool(false)) == "F"
  {
    StringIsVerbatim(JSONHandler, lib, "foo");
    assert "Sfoo" == ['S'] + "foo";
    StringIsVerbatim(JSONHandler, lib, "[1, 2, 3]");
    assert "S[1, 2, 3]" == ['S'] + "[1, 2, 3]";
    ConstantsIgnorePayload(JSONHandler, lib, "unexpected payload");
    assert "Tunexpected payload" == ['T'] + "unexpected payload";
    ParsedPayload(JSONHandler, lib, 'O', "");
    assert "O" == ['O'] + "";
    ParsedPayload(JSONHandler, lib, 'N', ".2.3");
    assert "N.2.3" == ['N'] + ".2.3";
  }
}

/**
 * The random message generator used by the tests (src/random.cpp): random
 * headers, random arguments that never hold a separator byte, and random
 * messages with an admissible number of arguments.
 *
 * The Mersenne Twister and the way `std::uniform_int_distribution` maps its
 * output onto a range are not part of this model: an engine here yields a
 * fixed stream of numbers, and a draw reduces the next one into the range.
 */
module Random {
  import opened Protocol
  import opened MessageBuilding

  /** The default bounds of `make_argument`'s length. */
  const DEFAULT_MIN_SIZE: nat := 1
  const DEFAULT_MAX_SIZE: nat := 100

  /** `random::Engine` together with the distributions drawing from it. */
  class Engine {
    const stream: nat -> nat
    var drawn: nat

    constructor (stream: nat -> nat)
      ensures this.stream == stream && drawn == 0
    {
      this.stream := stream;
      drawn := 0;
    }

    /** A draw of `std::uniform_int_distribution(lo, hi)`: a value in `[lo, hi]`. */
    method Uniform(lo: int, hi: int) returns (x: int)
      requires lo <= hi
      modifies this
      ensures lo <= x <= hi
      ensures drawn == old(drawn) + 1
    {
      x := lo + stream(drawn) % (hi - lo + 1);
      drawn := drawn + 1;
    }
  }

  /**
   * The byte remap of `make_argument`: draws lie in
   * `[CHAR_MIN, CHAR_MAX - 2]`; those from the record separator on move up
   * by two, past both separators.
   */
  function Remap(c: int): (d: CChar)
    requires CHAR_MIN <= c <= CHAR_MAX - 2
    ensures d != RECORD_SEPARATOR && d != UNIT_SEPARATOR
  {
    if c < RECORD_SEPARATOR then c else c + 2
  }

  /** No two draws map to the same byte. */
  lemma RemapInjective(c: int, e: int)
    requires CHAR_MIN <= c <= CHAR_MAX - 2 && CHAR_MIN <= e <= CHAR_MAX - 2
    ensures Remap(c) == Remap(e) ==> c == e
  {
  }

  /** Every byte but the two separators is the image of some draw. */
  lemma RemapOnto(d: CChar)
    requires d != RECORD_SEPARATOR && d != UNIT_SEPARATOR
    ensures exists c :: CHAR_MIN <= c <= CHAR_MAX - 2 && Remap(c) == d
  {
    var c := if d < RECORD_SEPARATOR then d else d - 2;
    assert Remap(c) == d;
  }

  /**
   * `make_argument`: a buffer of a length drawn from `[minSize, maxSize]`,
   * filled with remapped draws, so it holds neither separator.
   */
  method MakeArgument(engine: Engine, minSize: nat, maxSize: nat) returns (arg: Buffer)
    requires minSize <= maxSize
    modifies engine
    ensures minSize <= |arg| <= maxSize
    ensures Free(arg, RECORD_SEPARATOR) && Free(arg, UNIT_SEPARATOR)
  {
    var size := engine.Uniform(minSize, maxSize);
    var buffer := new CChar[size](_ => 0);
    for i := 0 to size
      invariant forall k :: 0 <= k < i ==> buffer[k] != RECORD_SEPARATOR && buffer[k] != UNIT_SEPARATOR
    {
      var c := engine.Uniform(CHAR_MIN, CHAR_MAX - 2);
      buffer[i] := Remap(c);
    }
    arg := buffer[..];
  }

  /** `make_header`: one of the headers `Message::Header::all()` lists. */
  method MakeHeader(engine: Engine, all: seq<Header>) returns (header: Header)
    requires |all| > 0
    modifies engine
    ensures header in all
  {
    var i := engine.Uniform(0, |all| - 1);
    header := all[i];
  }

  /**
   * `make_message(engine, header)`: a builder for `header` with a number of
   * random arguments within the bounds `Message::num_arguments` gives;
   * `add_argument` never refuses one of them.
   */
  method MakeMessage(engine: Engine, header: Header, table: ArgTable, encode: Header -> Buffer)
    returns (builder: MessageBuilder)
    requires table(header).min <= table(header).max
    modifies engine
    ensures fresh(builder)
    ensures builder.header == header && builder.headerBinary == encode(header)
    ensures table(header).min <= |builder.arguments| <= table(header).max
    ensures builder.Valid()
    ensures forall i :: 0 <= i < |builder.arguments| ==>
      DEFAULT_MIN_SIZE <= |builder.arguments[i]| <= DEFAULT_MAX_SIZE
      && Free(builder.arguments[i], RECORD_SEPARATOR)
  {
    builder := new MessageBuilder(header, encode(header));
    var count := engine.Uniform(table(header).min, table(header).max);
    for i := 0 to count
      invariant |builder.arguments| == i
      invariant builder.Valid()
      invariant forall k :: 0 <= k < i ==>
        DEFAULT_MIN_SIZE <= |builder.arguments[k]| <= DEFAULT_MAX_SIZE
        && Free(builder.arguments[k], RECORD_SEPARATOR)
    {
      var arg := MakeArgument(engine, DEFAULT_MIN_SIZE, DEFAULT_MAX_SIZE);
      var r := builder.AddArgument(arg);
      assert r.Returned?;
    }
  }

  /** `make_message(engine)`: a random header from `all`, then its arguments. */
  method MakeRandomMessage(engine: Engine, all: seq<Header>, table: ArgTable, encode: Header -> Buffer)
    returns (builder: MessageBuilder)
    requires |all| > 0
    requires forall h :: h in all ==> table(h).min <= table(h).max
    modifies engine
    ensures fresh(builder)
    ensures builder.header in all
    ensures ArgsWithin(table, Message(builder.header, builder.arguments))
    ensures builder.Valid()
  {
    var header := MakeHeader(engine, all);
    builder := MakeMessage(engine, header, table, encode);
  }
}

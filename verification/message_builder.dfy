/**
 * `MessageBuilder` (src/message_builder.cpp): collects the arguments of an
 * outgoing message and serialises it as the header's bytes, then every
 * argument preceded by a unit separator, then one record separator.
 *
 * `Message::Header::to_binary` is not part of this model: a builder is given
 * the header's bytes together with the header, and the header's size is the
 * length of those bytes.
 */
module MessageBuilding {
  import opened Protocol
  import opened CoreClient

  const SEPARATOR_IN_PAYLOAD: string := "ASCII unit separator in payload detected"

  /** The argument part of a serialised message. */
  function Frame(args: seq<Buffer>): Buffer
  {
    if args == [] then [] else [UNIT_SEPARATOR] + args[0] + Frame(args[1..])
  }

  /** The sum `std::accumulate` folds over the argument sizes. */
  function TotalLength(args: seq<Buffer>): nat
  {
    if args == [] then 0 else |args[0]| + TotalLength(args[1..])
  }

  /** A whole message on the wire. */
  function Serialize(headerBinary: Buffer, args: seq<Buffer>): Buffer
  {
    headerBinary + Frame(args) + [RECORD_SEPARATOR]
  }

  /**
   * Reads the argument part back: each argument starts after a separator and
   * runs to the next unit separator or to the end.
   */
  function SplitArgs(b: Buffer): seq<Buffer>
    decreases |b|
  {
    if b == [] then []
    else
      var rest := b[1..];
      var k := Find(rest, UNIT_SEPARATOR);
      [rest[..k]] + SplitArgs(rest[k..])
  }

  lemma {:induction false} FrameConcat(a: seq<Buffer>, b: seq<Buffer>)
    ensures Frame(a + b) == Frame(a) + Frame(b)
    ensures TotalLength(a + b) == TotalLength(a) + TotalLength(b)
    decreases |a|
  {
    if a == [] {
      assert a + b == b;
    } else {
      assert (a + b)[1..] == a[1..] + b;
      FrameConcat(a[1..], b);
    }
  }

  /** One separator per argument plus the argument bytes. */
  lemma {:induction false} FrameLength(args: seq<Buffer>)
    ensures |Frame(args)| == |args| + TotalLength(args)
    decreases |args|
  {
    if args != [] {
      FrameLength(args[1..]);
    }
  }

  /** The first separator after a separator-free argument is the one right after it. */
  lemma FindAfterArgument(arg: Buffer, tail: Buffer)
    requires Free(arg, UNIT_SEPARATOR)
    requires tail == [] || tail[0] == UNIT_SEPARATOR
    ensures Find(arg + tail, UNIT_SEPARATOR) == |arg|
  {
    var rest := arg + tail;
    if tail == [] {
      assert UNIT_SEPARATOR !in rest;
    } else {
      assert rest[|arg|] == UNIT_SEPARATOR;
    }
  }

  /**
   * The arguments come back from the wire unchanged, provided none of them
   * holds a unit separator.
   */
  lemma {:induction false} FrameRoundTrip(args: seq<Buffer>)
    requires forall i :: 0 <= i < |args| ==> Free(args[i], UNIT_SEPARATOR)
    ensures SplitArgs(Frame(args)) == args
    decreases |args|
  {
    if args != [] {
      var tail := Frame(args[1..]);
      var rest := args[0] + tail;
      assert Frame(args)[1..] == rest;
      FindAfterArgument(args[0], tail);
      assert rest[..|args[0]|] == args[0] && rest[|args[0]|..] == tail;
      FrameRoundTrip(args[1..]);
    }
  }

  /** Two argument lists that the wire cannot tell apart: why a separator is refused. */
  lemma SeparatorBreaksFraming()
    ensures [[UNIT_SEPARATOR]] != [[], []]
    ensures Frame([[UNIT_SEPARATOR]]) == Frame([[], []])
  {
  }

  /**
   * A serialised message starts with the header's bytes, ends with a record
   * separator, and its arguments are read back from the bytes in between.
   */
  lemma ArgumentsReadBack(headerBinary: Buffer, args: seq<Buffer>)
    requires forall i :: 0 <= i < |args| ==> Free(args[i], UNIT_SEPARATOR)
    ensures var b := Serialize(headerBinary, args);
      |headerBinary| < |b| && b[..|headerBinary|] == headerBinary
      && b[|b| - 1] == RECORD_SEPARATOR
      && SplitArgs(b[|headerBinary|..|b| - 1]) == args
  {
    var b := Serialize(headerBinary, args);
    assert b[|headerBinary|..|b| - 1] == Frame(args);
    FrameRoundTrip(args);
  }

  lemma FrameOfTwo(a: Buffer, b: Buffer)
    ensures Frame([a, b]) == [UNIT_SEPARATOR] + a + [UNIT_SEPARATOR] + b
  {
    var both: seq<Buffer>, last: seq<Buffer> := [a, b], [b];
    assert both[1..] == last && last[1..] == [];
    assert Frame(last) == [UNIT_SEPARATOR] + b;
  }

  /** The expected bytes of the builder test, taken apart. */
  lemma AuthRequestBytes()
    ensures FromHumanReadable("A|REQ|user|password+")
      == FromHumanReadable("A|REQ") + [UNIT_SEPARATOR] + Ascii("user")
         + [UNIT_SEPARATOR] + Ascii("password") + [RECORD_SEPARATOR]
  {
  }

  /** The builder test: AUTH/REQUEST with a user name and a password. */
  lemma AuthRequestExample()
    ensures Serialize(FromHumanReadable("A|REQ"), [Ascii("user"), Ascii("password")])
      == FromHumanReadable("A|REQ|user|password+")
  {
    FrameOfTwo(Ascii("user"), Ascii("password"));
    AuthRequestBytes();
  }

  /** Moving one argument from the part still to write to the part written. */
  lemma FrameStep(headerBinary: Buffer, args: seq<Buffer>, i: nat)
    requires i < |args|
    ensures headerBinary + Frame(args[..i + 1])
      == headerBinary + Frame(args[..i]) + [UNIT_SEPARATOR] + args[i]
    ensures |Frame(args[i..])| == 1 + |args[i]| + |Frame(args[i + 1..])|
  {
    assert args[i..][0] == args[i] && args[i..][1..] == args[i + 1..];
    FrameConcat(args[..i], [args[i]]);
    assert args[..i + 1] == args[..i] + [args[i]];
  }

  /** `std::copy`: writes `src` into `buffer` from `out` on and returns the position after it. */
  method Copy(src: Buffer, buffer: array<CChar>, out: nat) returns (end: nat)
    requires out + |src| <= buffer.Length
    modifies buffer
    ensures end == out + |src|
    ensures buffer[..end] == old(buffer[..out]) + src
  {
    end := out;
    for j := 0 to |src|
      invariant end == out + j
      invariant buffer[..end] == old(buffer[..out]) + src[..j]
    {
      buffer[end] := src[j];
      end := end + 1;
    }
    assert src[..|src|] == src;
  }

  class MessageBuilder {
    const header: Header
    /** The bytes of `header`, as `Message::Header::to_binary` gives them. */
    const headerBinary: Buffer
    var arguments: seq<Buffer>

    constructor (header: Header, headerBinary: Buffer)
      ensures this.header == header && this.headerBinary == headerBinary
      ensures arguments == []
    {
      this.header := header;
      this.headerBinary := headerBinary;
      arguments := [];
    }

    /** No stored argument holds a unit separator. */
    predicate Valid()
      reads this
    {
      forall i :: 0 <= i < |arguments| ==> Free(arguments[i], UNIT_SEPARATOR)
    }

    /**
     * `add_argument`: an argument holding a unit separator is refused and
     * nothing changes; any other one, record separators included, is appended.
     */
    method AddArgument(arg: Buffer) returns (r: Outcome<()>)
      modifies this
      ensures r.InvalidArgument? <==> !Free(arg, UNIT_SEPARATOR)
      ensures r.InvalidArgument? ==> r.what == SEPARATOR_IN_PAYLOAD && arguments == old(arguments)
      ensures r.Returned? ==> arguments == old(arguments) + [arg]
      ensures old(Valid()) ==> Valid()
    {
      var it := Find(arg, UNIT_SEPARATOR);
      if it != |arg| {
        return InvalidArgument(SEPARATOR_IN_PAYLOAD);
      }
      arguments := arguments + [arg];
      r := Returned(());
    }

    /** `size()`: the length of the serialised message. */
    function Size(): (n: nat)
      reads this
      ensures n == |Serialize(headerBinary, arguments)|
    {
      FrameLength(arguments);
      |headerBinary| + |arguments| + TotalLength(arguments) + 1
    }

    /** `num_arguments()`: as many arguments as a reader finds on the wire. */
    function NumArguments(): (n: nat)
      reads this
      ensures Valid() ==> n == |SplitArgs(Frame(arguments))|
    {
      if Valid() then FrameRoundTrip(arguments); |arguments|
      else |arguments|
    }

    /** `get_impl_(i)`: the argument a reader finds at position `i`. */
    function Get(i: nat): (arg: Buffer)
      reads this
      requires i < |arguments|
      ensures Valid() ==> i < |SplitArgs(Frame(arguments))| && arg == SplitArgs(Frame(arguments))[i]
    {
      if Valid() then FrameRoundTrip(arguments); arguments[i]
      else arguments[i]
    }

    /**
     * `to_binary()`: fills a buffer of `Size()` bytes front to back; the last
     * byte written is the buffer's last.
     */
    method ToBinary() returns (buffer: array<CChar>)
      ensures buffer.Length == Size()
      ensures buffer[..] == Serialize(headerBinary, arguments)
    {
      var size := Size();
      buffer := new CChar[size](_ => 0);
      var out: nat := Copy(headerBinary, buffer, 0);
      assert arguments[0..] == arguments;
      for i := 0 to |arguments|
        invariant out + |Frame(arguments[i..])| + 1 == buffer.Length
        invariant buffer[..out] == headerBinary + Frame(arguments[..i])
      {
        FrameStep(headerBinary, arguments, i);
        ghost var done := buffer[..out];
        buffer[out] := UNIT_SEPARATOR;
        assert buffer[..out + 1] == done + [UNIT_SEPARATOR];
        out := Copy(arguments[i], buffer, out + 1);
      }
      assert arguments[..|arguments|] == arguments;
      buffer[out] := RECORD_SEPARATOR;
      assert buffer[..] == buffer[..out] + [buffer[out]];
    }
  }
}

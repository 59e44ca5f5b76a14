/**
 * `parser::MessageProxy` (src/message_proxy.cpp): a message that does not
 * own its bytes. It points into the buffer the parser reads (`base_`),
 * remembers where its header starts (`offset_`) and where each argument lies
 * in that buffer, and copies bytes out only when asked.
 *
 * The proxy is a value: nothing changes it after construction except the
 * parser filling in `size_` and the argument locations, which here are the
 * fields of a new value.
 */
module MessageProxying {
  import opened Protocol
  import opened MessageBuilding

  /** Where a piece of the buffer lies: its first byte and its length. */
  datatype Location = Location(offset: nat, size: nat)

  datatype MessageProxy = MessageProxy(
    base: Buffer, offset: nat, size: nat, header: Header, arguments: seq<Location>)
  {
    /** The location lies inside the buffer the proxy points into. */
    predicate Within(loc: Location)
    {
      loc.offset + loc.size <= |base|
    }

    /** `num_arguments()`. */
    function NumArguments(): nat
    {
      |arguments|
    }

    /** `get_impl_(i)`: the bytes the i-th location covers, copied out. */
    function Get(i: nat): (arg: Buffer)
      requires i < |arguments| && Within(arguments[i])
      ensures |arg| == arguments[i].size
      ensures forall k :: 0 <= k < |arg| ==> arg[k] == base[arguments[i].offset + k]
    {
      base[arguments[i].offset .. arguments[i].offset + arguments[i].size]
    }

    /** `to_binary_impl_()` as written: the first `size_` bytes of the buffer. */
    function ToBinaryAsWritten(): (b: Buffer)
      requires size <= |base|
      ensures |b| == size && b <= base
    {
      base[..size]
    }

    /** `to_binary_impl_()` as intended: the `size_` bytes from the proxy's own offset. */
    function ToBinary(): (b: Buffer)
      requires offset + size <= |base|
      ensures |b| == size
      ensures forall k :: 0 <= k < size ==> b[k] == base[offset + k]
    {
      base[offset .. offset + size]
    }
  }

  /**
   * The constructor: a proxy at `offset` of `base` for a header whose
   * serialised form is `headerSize` bytes long, with no arguments yet.
   */
  function NewProxy(base: Buffer, offset: nat, header: Header, headerSize: nat): MessageProxy
  {
    MessageProxy(base, offset, headerSize, header, [])
  }

  /** A new proxy keeps what it was given, has no arguments and spans its header. */
  lemma NewProxyIsEmpty(base: Buffer, offset: nat, header: Header, headerBinary: Buffer)
    requires offset + |headerBinary| <= |base|
    requires base[offset .. offset + |headerBinary|] == headerBinary
    ensures var p := NewProxy(base, offset, header, |headerBinary|);
      p.base == base && p.offset == offset && p.header == header
      && p.NumArguments() == 0 && p.ToBinary() == headerBinary
  {
  }

  /**
   * The locations of the arguments of a framed argument list whose first
   * byte lies at `start`: each argument begins right after its separator.
   */
  function Locations(start: nat, args: seq<Buffer>): (locs: seq<Location>)
    ensures |locs| == |args|
    decreases |args|
  {
    if args == [] then []
    else [Location(start + 1, |args[0]|)] + Locations(start + 1 + |args[0]|, args[1..])
  }

  /** The i-th argument begins after the frame of those before it and its separator. */
  lemma {:induction false} LocationAt(start: nat, args: seq<Buffer>, i: nat)
    requires i < |args|
    ensures Locations(start, args)[i] == Location(start + |Frame(args[..i])| + 1, |args[i]|)
    decreases i
  {
    if i > 0 {
      var next := start + 1 + |args[0]|;
      LocationAt(next, args[1..], i - 1);
      assert args[1..][..i - 1] == args[1..i];
      var head: seq<Buffer> := [args[0]];
      assert args[..i] == head + args[1..i] && head[1..] == [];
      FrameConcat(head, args[1..i]);
    }
  }

  /** A slice of a buffer that holds `f` at `start` is the matching slice of `f`. */
  lemma SliceOfSlice(b: Buffer, start: nat, f: Buffer, lo: nat, hi: nat)
    requires start + |f| <= |b| && b[start .. start + |f|] == f
    requires lo <= hi <= |f|
    ensures b[start + lo .. start + hi] == f[lo .. hi]
  {
    forall k | 0 <= k < hi - lo
      ensures b[start + lo .. start + hi][k] == f[lo .. hi][k]
    {
      assert f[lo + k] == b[start .. start + |f|][lo + k];
    }
  }

  /** The location of an argument of a framed argument list covers exactly that argument. */
  lemma LocationCovers(b: Buffer, start: nat, args: seq<Buffer>, i: nat)
    requires i < |args|
    requires start + |Frame(args)| <= |b|
    requires b[start .. start + |Frame(args)|] == Frame(args)
    ensures var loc := Locations(start, args)[i];
      loc.offset + loc.size <= |b| && b[loc.offset .. loc.offset + loc.size] == args[i]
  {
    LocationAt(start, args, i);
    var rest := args[i..];
    assert args[..i] + rest == args;
    FrameConcat(args[..i], rest);
    assert rest[0] == args[i];
    var before := Frame(args[..i]);
    var f := Frame(args);
    assert f == before + ([UNIT_SEPARATOR] + args[i] + Frame(rest[1..]));
    var off := |before| + 1;
    assert f[off .. off + |args[i]|] == args[i];
    SliceOfSlice(b, start, f, off, off + |args[i]|);
  }

  /**
   * A proxy over a serialised message that sits after `before` in the
   * buffer, with the message's size and its argument locations filled in,
   * reads back the builder's arguments and the message's own bytes.
   */
  lemma ProxyReadsMessage(before: Buffer, headerBinary: Buffer, header: Header, args: seq<Buffer>)
    ensures var message := Serialize(headerBinary, args);
      var p := MessageProxy(before + message, |before|, |message|, header,
                            Locations(|before| + |headerBinary|, args));
      p.NumArguments() == |args|
      && (forall i :: 0 <= i < |args| ==> p.Within(p.arguments[i]) && p.Get(i) == args[i])
      && |before| + |message| <= |p.base| && p.ToBinary() == message
  {
    var message := Serialize(headerBinary, args);
    var base := before + message;
    var start := |before| + |headerBinary|;
    assert base[start .. start + |Frame(args)|] == Frame(args);
    forall i | 0 <= i < |args|
      ensures var loc := Locations(start, args)[i];
        loc.offset + loc.size <= |base| && base[loc.offset .. loc.offset + loc.size] == args[i]
    {
      LocationCovers(base, start, args, i);
    }
    assert base[|before| .. |before| + |message|] == message;
  }

  /**
   * `to_binary` as written ignores `offset_`: for the second message of a
   * buffer it returns bytes of the first.
   */
  lemma ToBinaryIgnoresOffset()
    ensures var first, second := Serialize([66], []), Serialize([65], []);
      var p := MessageProxy(first + second, |first|, |second|, Header(Topic.EVENT, Action.EVENT, false), []);
      p.ToBinaryAsWritten() == first && p.ToBinary() == second && first != second
  {
    var first, second := Serialize([66], []), Serialize([65], []);
    assert first == [66, RECORD_SEPARATOR] && second == [65, RECORD_SEPARATOR];
  }
}

/**
 * The JSON stringifier for `deepstream::Value` (src/json-variant-visitor.cpp):
 * a visitor with one arm per alternative of the variant, a `quote_str` that
 * wraps a string in double quotes without escaping anything, and a `join`
 * that puts a delimiter between consecutive strings.
 */
module JsonVariant {

  /** A C++ `int`. */
  type Int32 = i: int | -0x8000_0000 <= i < 0x8000_0000

  /**
   * `deepstream::Value` without its `double` alternative. An object's members
   * appear in the order the `std::unordered_map` visits them.
   */
  datatype Value =
    | Int(i: Int32)
    | Bool(b: bool)
    | Null
    | Str(s: string)
    | Arr(values: seq<Value>)
    | Obj(members: seq<Member>)

  datatype Member = Member(key: string, value: Value)

  /** `quote_str`: the string between double quotes, nothing escaped. */
  function QuoteStr(s: string): (q: string)
    ensures |q| == |s| + 2 && q[0] == '"' && q[|q| - 1] == '"' && q[1..|q| - 1] == s
  {
    "\"" + s + "\""
  }

  const DELIMITER: string := ", "

  /**
   * `join`: the strings in order, with the delimiter between consecutive
   * ones only.
   */
  function Join(xs: seq<string>, delimiter: string): string
    decreases |xs|
  {
    if xs == [] then ""
    else if |xs| == 1 then xs[0]
    else xs[0] + delimiter + Join(xs[1..], delimiter)
  }

  /** The total length of a sequence of strings. */
  function TotalLength(xs: seq<string>): nat
    decreases |xs|
  {
    if xs == [] then 0 else |xs[0]| + TotalLength(xs[1..])
  }

  /** Appending one string adds one delimiter and that string. */
  lemma {:induction false} JoinSnoc(xs: seq<string>, y: string, delimiter: string)
    requires xs != []
    ensures Join(xs + [y], delimiter) == Join(xs, delimiter) + delimiter + y
    decreases |xs|
  {
    if |xs| == 1 {
      assert xs + [y] == [xs[0], y];
      assert [xs[0], y][1..] == [y];
    } else {
      assert (xs + [y])[1..] == xs[1..] + [y];
      JoinSnoc(xs[1..], y, delimiter);
    }
  }

  /** n strings joined hold n - 1 delimiters. */
  lemma {:induction false} JoinLength(xs: seq<string>, delimiter: string)
    requires xs != []
    ensures |Join(xs, delimiter)| == TotalLength(xs) + (|xs| - 1) * |delimiter|
    decreases |xs|
  {
    if |xs| > 1 {
      JoinLength(xs[1..], delimiter);
    } else {
      assert xs[1..] == [];
    }
  }

  /** Joining nothing gives the empty string, joining one string gives it back. */
  lemma JoinSmall(x: string, delimiter: string)
    ensures Join([], delimiter) == ""
    ensures Join([x], delimiter) == x
  {
  }

  /** `join` as written: an index loop appending each string and, unless it is the last, the delimiter. */
  method JoinLoop(container: seq<string>, delimiter: string) returns (s: string)
    ensures s == Join(container, delimiter)
  {
    s := "";
    var n := |container|;
    for i := 0 to n
      invariant s == Join(container[..i], delimiter) + (if 0 < i < n then delimiter else "")
    {
      if i > 0 {
        JoinSnoc(container[..i], container[i], delimiter);
      }
      assert container[..i + 1] == container[..i] + [container[i]];
      s := s + container[i];
      if i + 1 < n {
        s := s + delimiter;
      }
    }
    assert container[..n] == container;
  }

  /** The decimal digits of a natural number, most significant first. */
  function Digits(n: nat): (s: string)
    ensures |s| > 0
    ensures forall k :: 0 <= k < |s| ==> '0' <= s[k] <= '9'
    decreases n
  {
    if n < 10 then [('0' as int + n) as char]
    else Digits(n / 10) + [('0' as int + n % 10) as char]
  }

  /** `std::to_string(int)`: a minus sign for negatives, then the digits. */
  function IntToString(i: Int32): string
  {
    if i < 0 then "-" + Digits(-(i as int)) else Digits(i)
  }

  /** The number a string of decimal digits denotes. */
  function DigitsValue(s: string): nat
    requires forall k :: 0 <= k < |s| ==> '0' <= s[k] <= '9'
    decreases |s|
  {
    if s == [] then 0
    else 10 * DigitsValue(s[..|s| - 1]) + (s[|s| - 1] as int - '0' as int)
  }

  /** Reading the digits back gives the number. */
  lemma {:induction false} DigitsRoundTrip(n: nat)
    ensures DigitsValue(Digits(n)) == n
    decreases n
  {
    if n >= 10 {
      DigitsRoundTrip(n / 10);
      var s := Digits(n);
      assert s[..|s| - 1] == Digits(n / 10);
    }
  }

  /** The rendering of an `int` determines the `int`. */
  lemma IntToStringInjective(i: Int32, j: Int32)
    requires IntToString(i) == IntToString(j)
    ensures i == j
  {
    if i < 0 {
      NegativeRendering(i, j);
    } else if j < 0 {
      NegativeRendering(j, i);
    } else {
      DigitsRoundTrip(i);
      DigitsRoundTrip(j);
    }
  }

  /** A rendering starts with a minus sign exactly when the number is negative. */
  lemma RenderingSign(i: Int32)
    ensures |IntToString(i)| > 0
    ensures IntToString(i)[0] == '-' <==> i < 0
  {
    if i >= 0 {
      assert '0' <= Digits(i)[0] <= '9';
    }
  }

  lemma NegativeRendering(i: Int32, j: Int32)
    requires i < 0 && IntToString(i) == IntToString(j)
    ensures i == j
  {
    var s := IntToString(i);
    RenderingSign(i);
    RenderingSign(j);
    assert Digits(-(i as int)) == s[1..] == Digits(-(j as int));
    DigitsRoundTrip(-(i as int));
    DigitsRoundTrip(-(j as int));
  }

  /** `toJSON`: the visitor's rendering of a value. */
  function ToJson(v: Value): string
    decreases v, 1
  {
    match v
    case Int(i) => IntToString(i)
    case Bool(b) => if b then "true" else "false"
    case Null => "null"
    case Str(s) => QuoteStr(s)
    case Arr(values) => "[" + Join(Elements(v), DELIMITER) + "]"
    case Obj(members) => "{" + Join(Entries(v), DELIMITER) + "}"
  }

  /** The renderings of an array's elements, in order. */
  function Elements(v: Value): (out: seq<string>)
    requires v.Arr?
    ensures |out| == |v.values|
    decreases v, 0
  {
    seq(|v.values|, k requires 0 <= k < |v.values| => ToJson(v.values[k]))
  }

  /** The renderings `"key": value` of an object's members, in order. */
  function Entries(v: Value): (out: seq<string>)
    requires v.Obj?
    ensures |out| == |v.members|
    decreases v, 0
  {
    seq(|v.members|, k requires 0 <= k < |v.members| =>
      assert v.members[k] in v.members;
      QuoteStr(v.members[k].key) + ": " + ToJson(v.members[k].value))
  }

  /** Arrays render between brackets, objects between braces; empty ones as `[]` and `{}`. */
  lemma ContainerBrackets(v: Value)
    requires v.Arr? || v.Obj?
    ensures var j := ToJson(v);
      |j| >= 2
      && (v.Arr? ==> j[0] == '[' && j[|j| - 1] == ']')
      && (v.Obj? ==> j[0] == '{' && j[|j| - 1] == '}')
    ensures ToJson(Arr([])) == "[]" && ToJson(Obj([])) == "{}"
  {
  }

  /** One-element containers: the element alone, no delimiter. */
  lemma SingletonContainers(x: Value, key: string)
    ensures ToJson(Arr([x])) == "[" + ToJson(x) + "]"
    ensures ToJson(Obj([Member(key, x)])) == "{" + QuoteStr(key) + ": " + ToJson(x) + "}"
  {
    assert Elements(Arr([x])) == [ToJson(x)];
    assert Elements(Arr([x]))[0] == ToJson(x);
    assert Entries(Obj([Member(key, x)])) == [QuoteStr(key) + ": " + ToJson(x)];
  }

  /**
   * Strings are not escaped, so the rendering does not determine the value:
   * one string holding a quote, a comma and a space renders like two strings.
   */
  lemma QuotesAreNotEscaped()
    ensures Arr([Str("a\", \"b")]) != Arr([Str("a"), Str("b")])
    ensures ToJson(Arr([Str("a\", \"b")])) == ToJson(Arr([Str("a"), Str("b")]))
  {
    var one, two := Arr([Str("a\", \"b")]), Arr([Str("a"), Str("b")]);
    assert Elements(one)[0] == ToJson(Str("a\", \"b")) == "\"a\", \"b\"";
    assert Elements(one) == ["\"a\", \"b\""];
    assert Elements(two)[0] == ToJson(Str("a")) == "\"a\"";
    assert Elements(two)[1] == ToJson(Str("b")) == "\"b\"";
    assert Elements(two) == ["\"a\"", "\"b\""];
    assert Elements(two)[1..] == ["\"b\""];
  }

  /**
   * The visitor as written: the array and object arms render their parts
   * one by one into a vector, then join it.
   */
  method Stringify(v: Value) returns (s: string)
    ensures s == ToJson(v)
    decreases v
  {
    match v {
      case Int(i) =>
        s := IntToString(i);
      case Bool(b) =>
        s := if b then "true" else "false";
      case Null =>
        s := "null";
      case Str(str) =>
        s := QuoteStr(str);
      case Arr(values) =>
        var out: seq<string> := [];
        for k := 0 to |values|
          invariant out == Elements(v)[..k]
        {
          var x := Stringify(values[k]);
          out := out + [x];
        }
        assert out == Elements(v);
        var joined := JoinLoop(out, DELIMITER);
        s := "[" + joined + "]";
      case Obj(members) =>
        var out: seq<string> := [];
        for k := 0 to |members|
          invariant out == Entries(v)[..k]
        {
          assert members[k] in members;
          var x := Stringify(members[k].value);
          out := out + [QuoteStr(members[k].key) + ": " + x];
        }
        assert out == Entries(v);
        var joined := JoinLoop(out, DELIMITER);
        s := "{" + joined + "}";
    }
  }
}

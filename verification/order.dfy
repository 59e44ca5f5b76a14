/**
 * The order in which a `std::map` keyed by buffers visits its entries:
 * `std::vector<char>`'s `operator<`, a lexicographical comparison of signed
 * chars.
 */
module Order {
  import opened Protocol

  /** `std::lexicographical_compare` on two buffers. */
  predicate LexLess(a: Buffer, b: Buffer)
    decreases |a|
  {
    if a == [] then b != []
    else if b == [] then false
    else a[0] < b[0] || (a[0] == b[0] && LexLess(a[1..], b[1..]))
  }

  predicate LexLessEq(a: Buffer, b: Buffer)
  {
    a == b || LexLess(a, b)
  }

  lemma {:induction false} LexIrreflexive(a: Buffer)
    ensures !LexLess(a, a)
    decreases |a|
  {
    if a != [] {
      LexIrreflexive(a[1..]);
    }
  }

  /** Exactly one of `a < b`, `a == b`, `b < a` holds. */
  lemma {:induction false} LexTrichotomy(a: Buffer, b: Buffer)
    ensures LexLess(a, b) || a == b || LexLess(b, a)
    ensures !(LexLess(a, b) && LexLess(b, a))
    decreases |a|
  {
    if a != [] && b != [] {
      LexTrichotomy(a[1..], b[1..]);
      if a[0] == b[0] && a[1..] == b[1..] {
        assert a == [a[0]] + a[1..] && b == [b[0]] + b[1..];
      }
    }
  }

  lemma {:induction false} LexTransitive(a: Buffer, b: Buffer, c: Buffer)
    requires LexLess(a, b) && LexLess(b, c)
    ensures LexLess(a, c)
    decreases |a|
  {
    if a != [] && b != [] && c != [] && a[0] == b[0] == c[0] {
      LexTransitive(a[1..], b[1..], c[1..]);
    }
  }

  predicate IsLeast(x: Buffer, s: set<Buffer>)
  {
    x in s && forall y :: y in s ==> LexLessEq(x, y)
  }

  /** Every finite non-empty set of buffers has a least element. */
  lemma {:induction false} LeastExists(s: set<Buffer>)
    requires s != {}
    ensures exists x :: IsLeast(x, s)
    decreases |s|
  {
    var y :| y in s;
    if s == {y} {
      assert IsLeast(y, s);
    } else {
      LeastExists(s - {y});
      var x :| IsLeast(x, s - {y});
      LexTrichotomy(x, y);
      if LexLess(x, y) {
        assert IsLeast(x, s);
      } else {
        forall z | z in s
          ensures LexLessEq(y, z)
        {
          if z != y {
            if x != y {
              assert LexLess(y, x);
              if z != x {
                assert z in s - {y};
                LexTransitive(y, x, z);
              }
            }
          }
        }
        assert IsLeast(y, s);
      }
    }
  }

  lemma LeastUnique(x: Buffer, y: Buffer, s: set<Buffer>)
    requires IsLeast(x, s) && IsLeast(y, s)
    ensures x == y
  {
    LexTrichotomy(x, y);
  }

  ghost function Least(s: set<Buffer>): (x: Buffer)
    requires s != {}
    ensures IsLeast(x, s)
  {
    LeastExists(s);
    var x :| IsLeast(x, s); x
  }

  predicate StrictlyIncreasing(ks: seq<Buffer>)
  {
    forall i, j :: 0 <= i < j < |ks| ==> LexLess(ks[i], ks[j])
  }

  /** The keys of a map in the order a `std::map` iterates over them. */
  ghost function SortedKeys(s: set<Buffer>): (ks: seq<Buffer>)
    ensures |ks| == |s|
    ensures forall k :: k in s <==> k in ks
    ensures StrictlyIncreasing(ks)
    decreases |s|
  {
    if s == {} then []
    else
      var x := Least(s);
      var rest := SortedKeys(s - {x});
      assert forall j :: 0 <= j < |rest| ==> LexLess(x, rest[j]) by {
        forall j | 0 <= j < |rest|
          ensures LexLess(x, rest[j])
        {
          assert rest[j] in s - {x};
        }
      }
      [x] + rest
  }

  /** Taking the least key first leaves the rest to enumerate. */
  lemma SortedKeysStep(prefix: seq<Buffer>, s: set<Buffer>, x: Buffer)
    requires IsLeast(x, s)
    ensures SortedKeys(s) == [x] + SortedKeys(s - {x})
    ensures prefix + SortedKeys(s) == (prefix + [x]) + SortedKeys(s - {x})
    ensures |s - {x}| < |s|
  {
    LeastUnique(x, Least(s), s);
  }

  /** Enumerates a key set in `std::map` order, one least key at a time. */
  method SortKeys(s: set<Buffer>) returns (ks: seq<Buffer>)
    ensures ks == SortedKeys(s)
  {
    ks := [];
    var rest := s;
    while rest != {}
      invariant ks + SortedKeys(rest) == SortedKeys(s)
      decreases |rest|
    {
      LeastExists(rest);
      var x :| IsLeast(x, rest);
      SortedKeysStep(ks, rest, x);
      ks := ks + [x];
      rest := rest - {x};
    }
  }
}

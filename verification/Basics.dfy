/** What several components share: optional values and machine word bounds. */
module Basics {
  datatype Option<+T> = None | Some(value: T)

  const TWO_63: int := 0x8000_0000_0000_0000
  const TWO_64: int := 0x1_0000_0000_0000_0000

  predicate Fits(x: int) {
    -TWO_63 <= x < TWO_63
  }

  /** The value of an integer expression in 64-bit two's complement. */
  function Wrap(x: int): int {
    (x + TWO_63) % TWO_64 - TWO_63
  }

  lemma WrapAdd(a: int, b: int)
    ensures Wrap(Wrap(a) + b) == Wrap(a + b)
  {
  }

  lemma WrapBelow(x: int)
    requires x >= 0
    ensures Fits(Wrap(x)) && Wrap(x) <= x && (Wrap(x) == x <==> Fits(x))
  {
  }
}

/** Facts about sizes of finite sets. */
module Counting {

  /** A one-to-one map from a onto b makes them equally large. */
  lemma {:induction false} SameSize<A, B>(a: set<A>, b: set<B>, f: map<A, B>)
    requires f.Keys == a && f.Values == b
    requires forall x, y | x in f && y in f && f[x] == f[y] :: x == y
    ensures |a| == |b|
    decreases a
  {
    if a != {} {
      var x :| x in a;
      var rest := f - {x};
      assert f[x] in b;
      assert rest.Values == b - {f[x]} by {
        forall y | y in b - {f[x]}
          ensures y in rest.Values
        {
          var z :| z in f && f[z] == y;
          assert rest[z] == y;
        }
      }
      SameSize(a - {x}, b - {f[x]}, rest);
    } else {
      assert b == {};
    }
  }

  /** The integers from lo up to, not including, hi. */
  function Interval(lo: int, hi: int): (r: set<int>)
    requires lo <= hi
    ensures forall k :: k in r <==> lo <= k < hi
    ensures |r| == hi - lo
    decreases hi - lo
  {
    if lo == hi then {} else Interval(lo, hi - 1) + {hi - 1}
  }

  lemma SubsetSize<A>(a: set<A>, b: set<A>)
    requires a <= b
    ensures |a| <= |b|
  {
    assert b == a + (b - a);
  }
}

/** Small shared vocabulary. */
module Common {

  datatype Option<+T> = None | Some(value: T)

  datatype Result<+T, +E> = Success(value: T) | Failure(error: E)
}

/** Sequences of indices, windows, and concatenation. */
module Sequences {

  function Range(n: nat): seq<nat> {
    seq(n, i requires 0 <= i < n => i)
  }

  ghost predicate Increasing(xs: seq<nat>) {
    forall i, j :: 0 <= i < j < |xs| ==> xs[i] < xs[j]
  }

  /** The last `n` elements of `s`, or all of `s` when it is shorter. */
  function LastN<X>(s: seq<X>, n: nat): (w: seq<X>)
    ensures |w| == if |s| < n then |s| else n
  {
    if |s| < n then s else s[|s| - n..]
  }

  /** What `deque(maxlen = n).append` does to a window. */
  function Append<X>(w: seq<X>, x: X, n: nat): seq<X> {
    LastN(w + [x], n)
  }

  lemma AppendKeepsLastN<X>(s: seq<X>, x: X, n: nat)
    ensures Append(LastN(s, n), x, n) == LastN(s + [x], n)
  {
  }

  lemma Associate<X>(x: seq<X>, y: seq<X>, z: seq<X>)
    ensures x + (y + z) == x + y + z
  {
  }
}

/** Sums over finite sets. */
module Sums {

  /** Some element of a set: an iteration order left open. */
  method Pick<K>(s: set<K>) returns (x: K)
    requires s != {}
    ensures x in s
  {
    x :| x in s;
  }

  ghost function SumOver<K(!new)>(s: set<K>, f: K -> int): int {
    if s == {} then 0 else var k :| k in s; f(k) + SumOver(s - {k}, f)
  }

  lemma {:induction false} SumRemove<K(!new)>(s: set<K>, f: K -> int, x: K)
    requires x in s
    ensures SumOver(s, f) == f(x) + SumOver(s - {x}, f)
  {
    var k :| k in s && SumOver(s, f) == f(k) + SumOver(s - {k}, f);
    if k != x {
      SumRemove(s - {k}, f, x);
      SumRemove(s - {x}, f, k);
      assert s - {k} - {x} == s - {x} - {k};
    }
  }

  lemma SumAdd<K(!new)>(s: set<K>, f: K -> int, x: K)
    requires x !in s
    ensures SumOver(s + {x}, f) == f(x) + SumOver(s, f)
  {
    SumRemove(s + {x}, f, x);
    assert s + {x} - {x} == s;
  }

  lemma {:induction false} SumCongruence<K(!new)>(s: set<K>, f: K -> int, g: K -> int)
    requires forall k :: k in s ==> f(k) == g(k)
    ensures SumOver(s, f) == SumOver(s, g)
  {
    if s != {} {
      var k :| k in s;
      SumRemove(s, f, k);
      SumRemove(s, g, k);
      SumCongruence(s - {k}, f, g);
    }
  }

  /** Changing one summand. */
  lemma SumChange<K(!new)>(s: set<K>, f: K -> int, g: K -> int, x: K)
    requires x in s
    requires forall k :: k in s && k != x ==> f(k) == g(k)
    ensures SumOver(s, g) == SumOver(s, f) - f(x) + g(x)
  {
    SumRemove(s, f, x);
    SumRemove(s, g, x);
    SumCongruence(s - {x}, f, g);
  }

  /** A sum of differences is the difference of sums. */
  lemma {:induction false} SumDifference<K(!new)>(s: set<K>, f: K -> int, g: K -> int, h: K -> int)
    requires forall k :: k in s ==> h(k) == f(k) - g(k)
    ensures SumOver(s, h) == SumOver(s, f) - SumOver(s, g)
  {
    if s != {} {
      var k :| k in s;
      SumRemove(s, f, k);
      SumRemove(s, g, k);
      SumRemove(s, h, k);
      SumDifference(s - {k}, f, g, h);
    }
  }

  /** Summing an indicator counts a subset. */
  lemma {:induction false} SumIndicator<K(!new)>(s: set<K>, f: K -> int, p: set<K>)
    requires p <= s
    requires forall k :: k in s ==> f(k) == if k in p then 1 else 0
    ensures SumOver(s, f) == |p|
  {
    if s != {} {
      var k :| k in s;
      SumRemove(s, f, k);
      SumIndicator(s - {k}, f, p - {k});
    }
  }
}

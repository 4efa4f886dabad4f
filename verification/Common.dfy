/** Types and small facts shared by every component model. */
module Common {

  datatype Option<+T> = None | Some(value: T)

  function MaxInt(a: int, b: int): int {
    if a >= b then a else b
  }

  function MinInt(a: int, b: int): int {
    if a <= b then a else b
  }

  function MaxReal(a: real, b: real): real {
    if a >= b then a else b
  }

  function AbsReal(a: real): real {
    if a >= 0.0 then a else -a
  }

  /** `math.ceil` on a real. */
  function Ceil(x: real): int {
    -((-x).Floor)
  }

  const MICROSECONDS_PER_DAY := 86_400_000_000

  /** A product, named so that proofs can treat it as one term. */
  function Times(a: real, b: real): real {
    a * b
  }

  /** A quotient of prices, which are positive: the guard only makes it total. */
  function Ratio(a: real, b: real): real {
    if b == 0.0 then 0.0 else a / b
  }

  function Elements<T>(s: seq<T>): set<T> {
    set x | x in s
  }

  /** The last `n` elements, or all of them when there are fewer. */
  function LastN<T>(s: seq<T>, n: nat): seq<T> {
    if |s| > n then s[|s| - n..] else s
  }

  lemma ZeroTimes(a: real)
    ensures Times(a, 0.0) == 0.0 == Times(0.0, a)
  {
  }

  lemma QuotientUnique(x: real, d: real, q: real)
    requires d > 0.0 && q * d == x
    ensures x / d == q
  {
  }

  lemma SubsetSize<T>(a: set<T>, b: set<T>)
    requires a <= b
    ensures |a| <= |b|
  {
    assert b == a + (b - a);
  }

  function Sum(s: seq<real>): real {
    if s == [] then 0.0 else s[0] + Sum(s[1..])
  }

  lemma {:induction false} SumConcat(a: seq<real>, b: seq<real>)
    ensures Sum(a + b) == Sum(a) + Sum(b)
  {
    if a == [] {
      assert a + b == b;
    } else {
      assert (a + b)[1..] == a[1..] + b;
      SumConcat(a[1..], b);
    }
  }

  /** The sum of `f` over a finite set; `SumOverPick` shows the order never matters. */
  ghost function SumOver<K(!new)>(s: set<K>, f: K -> real): real {
    if s == {} then 0.0 else
      var k :| k in s;
      f(k) + SumOver(s - {k}, f)
  }

  lemma {:induction false} SumOverPick<K(!new)>(s: set<K>, k: K, f: K -> real)
    requires k in s
    ensures SumOver(s, f) == f(k) + SumOver(s - {k}, f)
  {
    var p :| p in s && SumOver(s, f) == f(p) + SumOver(s - {p}, f);
    if p != k {
      SumOverPick(s - {p}, k, f);
      SumOverPick(s - {k}, p, f);
      assert s - {p} - {k} == s - {k} - {p};
    }
  }

  lemma {:induction false} SumOverCong<K(!new)>(s: set<K>, f: K -> real, g: K -> real)
    requires forall k | k in s :: f(k) == g(k)
    ensures SumOver(s, f) == SumOver(s, g)
  {
    if s != {} {
      var p :| p in s;
      SumOverPick(s, p, f);
      SumOverPick(s, p, g);
      SumOverCong(s - {p}, f, g);
    }
  }

  lemma {:induction false} SumOverAdd<K(!new)>(s: set<K>, k: K, f: K -> real)
    requires k !in s
    ensures SumOver(s + {k}, f) == f(k) + SumOver(s, f)
  {
    SumOverPick(s + {k}, k, f);
    assert s + {k} - {k} == s;
  }
}

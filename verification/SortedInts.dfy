/** `sorted(set(...))` on integers: sessions, instants and bar timestamps. */
module SortedInts {

  ghost predicate Increasing(s: seq<int>) {
    forall i, j | 0 <= i < j < |s| :: s[i] < s[j]
  }

  ghost predicate IsMin(m: int, s: set<int>) {
    m in s && forall k | k in s :: m <= k
  }

  lemma SomeElement(s: set<int>)
    ensures s == {} || exists x: int :: x in s
  {
    if forall x: int :: x !in s {
      assert s == {};
    }
  }

  lemma {:induction false} ThereIsMin(s: set<int>)
    requires s != {}
    ensures exists m :: IsMin(m, s)
  {
    SomeElement(s);
    var x: int :| x in s;
    if s == {x} {
      assert IsMin(x, s);
    } else {
      ThereIsMin(s - {x});
      var m :| IsMin(m, s - {x});
      assert s == (s - {x}) + {x};
      assert IsMin(if x < m then x else m, s);
    }
  }

  function Min(s: set<int>): (m: int)
    requires s != {}
    ensures IsMin(m, s)
  {
    ThereIsMin(s);
    var m :| m in s && forall k | k in s :: m <= k;
    m
  }

  function SortedSet(s: set<int>): (r: seq<int>)
    ensures Increasing(r)
    ensures |r| == |s|
    ensures forall x :: x in r <==> x in s
  {
    if s == {} then [] else
      var m := Min(s);
      [m] + SortedSet(s - {m})
  }

  lemma FirstIsElement(s: seq<int>)
    ensures s == [] || s[0] in s
  {
  }

  /** An increasing sequence is determined by its elements. */
  lemma {:induction false} IncreasingUnique(a: seq<int>, b: seq<int>)
    requires Increasing(a) && Increasing(b) && forall x :: x in a <==> x in b
    ensures a == b
  {
    if a == [] || b == [] {
      FirstIsElement(a);
      FirstIsElement(b);
    } else {
      assert a[0] in b && b[0] in a;
      forall x ensures x in a[1..] <==> x in b[1..] {
        assert x in a[1..] <==> x in a && x != a[0];
        assert x in b[1..] <==> x in b && x != b[0];
      }
      IncreasingUnique(a[1..], b[1..]);
    }
  }
}

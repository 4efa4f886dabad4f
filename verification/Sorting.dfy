/**
 The stable sort every component relies on (`sorted`, `np.argsort(kind="mergesort")`), as an insertion
 sort, with the three facts a caller uses: it permutes, it orders, and it keeps ties in input order.
 */
module Sorting {

  ghost predicate TotalPreorder<T(!new)>(leq: (T, T) -> bool) {
    && (forall a, b :: leq(a, b) || leq(b, a))
    && (forall a, b, c :: leq(a, b) && leq(b, c) ==> leq(a, c))
  }

  ghost predicate SortedBy<T>(s: seq<T>, leq: (T, T) -> bool) {
    forall i, j | 0 <= i < j < |s| :: leq(s[i], s[j])
  }

  /** Insert before the first element not smaller than `x`: `x` came earlier in the input. */
  function Insert<T>(x: T, s: seq<T>, leq: (T, T) -> bool): (r: seq<T>)
    ensures multiset(r) == multiset([x]) + multiset(s)
  {
    if s == [] then [x]
    else if leq(x, s[0]) then
      [x] + s
    else
      var r := [s[0]] + Insert(x, s[1..], leq);
      assert s == [s[0]] + s[1..];
      r
  }

  function StableSort<T>(s: seq<T>, leq: (T, T) -> bool): (r: seq<T>)
    ensures multiset(r) == multiset(s)
  {
    if s == [] then [] else
      assert s == [s[0]] + s[1..];
      Insert(s[0], StableSort(s[1..], leq), leq)
  }

  /** `s` with position `k` taken out. */
  function Without<T>(s: seq<T>, k: nat): (r: seq<T>)
    requires k < |s|
    ensures |r| == |s| - 1
  {
    s[..k] + s[k + 1..]
  }

  lemma WithoutMultiset<T>(s: seq<T>, k: nat)
    requires k < |s|
    ensures multiset(s) == multiset(Without(s, k)) + multiset{s[k]}
  {
    assert s == s[..k] + [s[k]] + s[k + 1..];
  }

  lemma RestoreElement<T>(a: seq<T>, i: nat, b: seq<T>, j: nat)
    requires i < |a| && j < |b| && a[i] == b[j]
    requires multiset(Without(a, i)) == multiset(Without(b, j))
    ensures multiset(a) == multiset(b)
  {
    WithoutMultiset(a, i);
    WithoutMultiset(b, j);
  }

  lemma MultisetSize<T>(a: seq<T>, b: seq<T>)
    requires multiset(a) == multiset(b)
    ensures |a| == |b|
    ensures forall x :: x in a <==> x in b
  {
    assert |multiset(a)| == |a| && |multiset(b)| == |b|;
    forall x ensures x in a <==> x in b {
      assert x in multiset(a) <==> x in multiset(b);
    }
  }

  lemma {:induction false} InsertSorts<T(!new)>(x: T, s: seq<T>, leq: (T, T) -> bool)
    requires TotalPreorder(leq) && SortedBy(s, leq)
    ensures SortedBy(Insert(x, s, leq), leq)
  {
    if s != [] {
      if leq(x, s[0]) {
      } else {
        InsertSorts(x, s[1..], leq);
        var t := Insert(x, s[1..], leq);
        forall y | y in t ensures leq(s[0], y) {
          assert y in multiset(t);
          assert y == x || y in s[1..];
        }
      }
    }
  }

  lemma {:induction false} StableSortSorts<T(!new)>(s: seq<T>, leq: (T, T) -> bool)
    requires TotalPreorder(leq)
    ensures SortedBy(StableSort(s, leq), leq)
  {
    if s != [] {
      StableSortSorts(s[1..], leq);
      InsertSorts(s[0], StableSort(s[1..], leq), leq);
    }
  }

  predicate Tied<T>(a: T, b: T, leq: (T, T) -> bool) {
    leq(a, b) && leq(b, a)
  }

  /** The elements of `s` tied with `pivot`, in order. */
  function Ties<T>(s: seq<T>, pivot: T, leq: (T, T) -> bool): seq<T> {
    if s == [] then [] else TieHead(s[0], pivot, leq) + Ties(s[1..], pivot, leq)
  }

  function TieHead<T>(x: T, pivot: T, leq: (T, T) -> bool): seq<T> {
    if Tied(x, pivot, leq) then [x] else []
  }

  lemma TiesCons<T>(x: T, s: seq<T>, pivot: T, leq: (T, T) -> bool)
    ensures Ties([x] + s, pivot, leq) == TieHead(x, pivot, leq) + Ties(s, pivot, leq)
  {
    assert ([x] + s)[1..] == s;
  }

  ghost predicate TiesAgree<T(!new)>(pivot: T, leq: (T, T) -> bool) {
    forall a, b :: Tied(a, pivot, leq) && Tied(b, pivot, leq) ==> leq(a, b)
  }

  lemma HeadsSwap<T>(a: seq<T>, b: seq<T>, t: seq<T>)
    requires a == [] || b == []
    ensures a + (b + t) == b + (a + t)
  {
  }

  lemma {:induction false} InsertKeepsTies<T(!new)>(x: T, s: seq<T>, pivot: T, leq: (T, T) -> bool)
    requires TiesAgree(pivot, leq)
    ensures Ties(Insert(x, s, leq), pivot, leq) == TieHead(x, pivot, leq) + Ties(s, pivot, leq)
  {
    if s == [] || leq(x, s[0]) {
      TiesCons(x, s, pivot, leq);
      assert [x] + s == Insert(x, s, leq);
    } else {
      TiesCons(s[0], Insert(x, s[1..], leq), pivot, leq);
      InsertKeepsTies(x, s[1..], pivot, leq);
      HeadsSwap(TieHead(x, pivot, leq), TieHead(s[0], pivot, leq), Ties(s[1..], pivot, leq));
    }
  }

  lemma {:induction false} StableSortKeepsTies<T(!new)>(s: seq<T>, pivot: T, leq: (T, T) -> bool)
    requires TiesAgree(pivot, leq)
    ensures Ties(StableSort(s, leq), pivot, leq) == Ties(s, pivot, leq)
  {
    if s != [] {
      StableSortKeepsTies(s[1..], pivot, leq);
      InsertKeepsTies(s[0], StableSort(s[1..], leq), pivot, leq);
    }
  }

  /** `np.argsort(key)`: the indices `0..|key|` stably ordered by `key`. */
  function KeyAt(key: seq<real>, i: nat): real {
    if i < |key| then key[i] else 0.0
  }

  function Indices(n: nat): (r: seq<nat>)
    ensures |r| == n && forall i | 0 <= i < n :: r[i] == i
  {
    seq(n, i requires 0 <= i < n => i)
  }

  function ArgSort(key: seq<real>): seq<nat> {
    StableSort(Indices(|key|), (i: nat, j: nat) => KeyAt(key, i) <= KeyAt(key, j))
  }

  /** The indices come out once each, in non-decreasing key order. */
  ghost predicate IsOrderOf(order: seq<nat>, key: seq<real>) {
    && |order| == |key|
    && (forall i | 0 <= i < |order| :: order[i] < |key|)
    && (forall i, j | 0 <= i < j < |order| :: order[i] != order[j])
    && (forall i | 0 <= i < |key| :: i in order)
    && (forall i, j | 0 <= i < j < |order| :: key[order[i]] <= key[order[j]])
  }

  lemma UniqueElements<T>(a: seq<T>, b: seq<T>)
    requires multiset(a) == multiset(b)
    requires forall i, j | 0 <= i < j < |a| :: a[i] != a[j]
    ensures forall i, j | 0 <= i < j < |b| :: b[i] != b[j]
  {
    forall i, j | 0 <= i < j < |b| ensures b[i] != b[j] {
      if b[i] == b[j] {
        assert b == b[..i] + [b[i]] + b[i + 1..j] + [b[j]] + b[j + 1..];
        assert multiset(b)[b[i]] >= 2;
        OnceAtMost(a, b[i]);
      }
    }
  }

  lemma {:induction false} OnceAtMost<T>(a: seq<T>, x: T)
    requires forall i, j | 0 <= i < j < |a| :: a[i] != a[j]
    ensures multiset(a)[x] <= 1
  {
    if a != [] {
      assert a == [a[0]] + a[1..];
      OnceAtMost(a[1..], x);
      if a[0] == x {
        assert x !in a[1..];
      }
    }
  }

  lemma ArgSortOrders(key: seq<real>)
    ensures IsOrderOf(ArgSort(key), key)
  {
    var idx, order := Indices(|key|), ArgSort(key);
    MultisetSize(order, idx);
    UniqueElements(idx, order);
    var leq := (i: nat, j: nat) => KeyAt(key, i) <= KeyAt(key, j);
    StableSortSorts(idx, leq);
    forall i | 0 <= i < |order| ensures order[i] < |key| {
      assert order[i] in order;
    }
    forall i, j | 0 <= i < j < |order| ensures key[order[i]] <= key[order[j]] {
      assert leq(order[i], order[j]);
    }
    forall i | 0 <= i < |key| ensures i in order {
      assert idx[i] in idx;
    }
  }
}

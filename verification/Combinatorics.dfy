/** `math.comb` and `itertools.combinations`, with the counting facts the CPCV design rests on. */
module Combinatorics {

  function Choose(n: nat, k: nat): nat {
    if k == 0 then 1
    else if n == 0 then 0
    else Choose(n - 1, k - 1) + Choose(n - 1, k)
  }

  lemma {:induction false} ChooseBeyond(n: nat, k: nat)
    requires k > n
    ensures Choose(n, k) == 0
  {
    if n > 0 {
      ChooseBeyond(n - 1, k - 1);
      ChooseBeyond(n - 1, k);
    }
  }

  /** k C(n, k) = n C(n-1, k-1). */
  lemma {:induction false} Absorption(n: nat, k: nat)
    requires n > 0 && k > 0
    ensures k * Choose(n, k) == n * Choose(n - 1, k - 1)
  {
    if n == 1 {
      if k > 1 {
        ChooseBeyond(0, k - 1);
        ChooseBeyond(1, k);
      }
    } else {
      var c := Choose(n - 1, k - 1);
      Absorption(n - 1, k);
      if k == 1 {
        assert Choose(n, 1) == 1 + Choose(n - 1, 1);
      } else {
        Absorption(n - 1, k - 1);
        AbsorptionArithmetic(n, k, c, Choose(n - 1, k), Choose(n - 2, k - 1), Choose(n - 2, k - 2));
      }
    }
  }

  lemma AbsorptionArithmetic(n: int, k: int, c: int, d: int, e: int, f: int)
    requires k * d == (n - 1) * e && (k - 1) * c == (n - 1) * f && c == e + f
    ensures k * (c + d) == n * c
  {
    assert k * (c + d) == k * c + k * d;
    assert (k - 1) * c == k * c - c;
    assert (n - 1) * e + (n - 1) * f == (n - 1) * (e + f);
    assert (n - 1) * c == n * c - c;
  }

  /** Put `x` in front of every tuple. */
  function Prepend(x: nat, cs: seq<seq<nat>>): (r: seq<seq<nat>>)
    ensures |r| == |cs| && forall i | 0 <= i < |r| :: r[i] == [x] + cs[i]
  {
    if cs == [] then [] else [[x] + cs[0]] + Prepend(x, cs[1..])
  }

  /** `combinations(range(lo, n), k)` in lexicographic order. */
  function Combos(lo: nat, n: nat, k: nat): seq<seq<nat>>
    requires lo <= n
    decreases n - lo
  {
    if k == 0 then [[]]
    else if lo == n then []
    else Prepend(lo, Combos(lo + 1, n, k - 1)) + Combos(lo + 1, n, k)
  }

  ghost predicate IsCombo(c: seq<nat>, lo: nat, n: nat, k: nat) {
    && |c| == k
    && (forall i | 0 <= i < k :: lo <= c[i] < n)
    && (forall i, j | 0 <= i < j < k :: c[i] < c[j])
  }

  lemma {:induction false} CombosCount(lo: nat, n: nat, k: nat)
    requires lo <= n
    ensures |Combos(lo, n, k)| == Choose(n - lo, k)
    decreases n - lo
  {
    if k > 0 && lo < n {
      CombosCount(lo + 1, n, k - 1);
      CombosCount(lo + 1, n, k);
    }
  }

  lemma CombosUnfold(lo: nat, n: nat, k: nat, c: seq<nat>)
    requires lo < n && k > 0
    ensures c in Combos(lo, n, k) <==>
            (c != [] && c[0] == lo && c[1..] in Combos(lo + 1, n, k - 1)) || c in Combos(lo + 1, n, k)
  {
    PrependMembers(lo, Combos(lo + 1, n, k - 1), c);
  }

  lemma CombosExactBase(lo: nat, n: nat, k: nat, c: seq<nat>)
    requires lo <= n && (k == 0 || lo == n)
    ensures c in Combos(lo, n, k) <==> IsCombo(c, lo, n, k)
  {
    assert k > 0 && |c| == k ==> !(lo <= c[0] < lo);
  }

  /** Exactly the strictly increasing k-tuples. */
  lemma {:induction false} CombosExact(lo: nat, n: nat, k: nat, c: seq<nat>)
    requires lo <= n
    ensures c in Combos(lo, n, k) <==> IsCombo(c, lo, n, k)
    decreases n - lo
  {
    hide *;
    if k == 0 || lo == n {
      CombosExactBase(lo, n, k, c);
    } else {
      CombosUnfold(lo, n, k, c);
      CombosExact(lo + 1, n, k, c);
      ConsCombo(c, lo, n, k);
      if c != [] {
        CombosExact(lo + 1, n, k - 1, c[1..]);
      }
    }
  }

  lemma PrependMembers(x: nat, cs: seq<seq<nat>>, c: seq<nat>)
    ensures c in Prepend(x, cs) <==> c != [] && c[0] == x && c[1..] in cs
  {
    if c in Prepend(x, cs) {
      var i :| 0 <= i < |cs| && Prepend(x, cs)[i] == c;
      assert c[1..] == cs[i];
    }
    if c != [] && c[0] == x && c[1..] in cs {
      var i :| 0 <= i < |cs| && cs[i] == c[1..];
      assert Prepend(x, cs)[i] == [x] + c[1..] == c;
    }
  }

  lemma ConsCombo(c: seq<nat>, lo: nat, n: nat, k: nat)
    requires k > 0 && lo < n
    ensures IsCombo(c, lo, n, k) <==>
            (c != [] && c[0] == lo && IsCombo(c[1..], lo + 1, n, k - 1)) || IsCombo(c, lo + 1, n, k)
  {
    if c != [] && c[0] == lo && IsCombo(c[1..], lo + 1, n, k - 1) {
      forall i | 0 <= i < k ensures lo <= c[i] < n {
        assert i == 0 || c[i] == c[1..][i - 1];
      }
      forall i, j | 0 <= i < j < k ensures c[i] < c[j] {
        assert c[j] == c[1..][j - 1];
        assert i == 0 || c[i] == c[1..][i - 1];
      }
    }
    if IsCombo(c, lo, n, k) && c[0] == lo {
      forall i | 0 <= i < k - 1 ensures lo + 1 <= c[1..][i] < n {
        assert c[0] < c[i + 1];
      }
    }
  }

  ghost predicate NoRepeats<T>(s: seq<T>) {
    forall i, j | 0 <= i < j < |s| :: s[i] != s[j]
  }

  lemma {:induction false} CombosDistinct(lo: nat, n: nat, k: nat)
    requires lo <= n
    ensures NoRepeats(Combos(lo, n, k))
    decreases n - lo
  {
    if k > 0 && lo < n {
      var first, rest := Combos(lo + 1, n, k - 1), Combos(lo + 1, n, k);
      CombosDistinct(lo + 1, n, k - 1);
      CombosDistinct(lo + 1, n, k);
      var p := Prepend(lo, first);
      forall i, j | 0 <= i < |p| && 0 <= j < |rest| ensures p[i] != rest[j] {
        assert rest[j] in rest;
        CombosExact(lo + 1, n, k, rest[j]);
        assert p[i][0] == lo;
      }
      PrependDistinct(lo, first);
    }
  }

  lemma PrependDistinct(x: nat, cs: seq<seq<nat>>)
    requires NoRepeats(cs)
    ensures NoRepeats(Prepend(x, cs))
  {
    var p := Prepend(x, cs);
    forall i, j | 0 <= i < j < |p| ensures p[i] != p[j] {
      assert p[i][1..] == cs[i] && p[j][1..] == cs[j];
    }
  }

  /** `a` comes before `b` in dictionary order: at the first place where they differ it is the smaller. */
  ghost predicate Precedes(a: seq<nat>, b: seq<nat>) {
    exists m :: 0 <= m < |a| && m < |b| && a[m] < b[m] && forall i | 0 <= i < m :: a[i] == b[i]
  }

  ghost predicate InOrder(cs: seq<seq<nat>>) {
    forall i, j | 0 <= i < j < |cs| :: Precedes(cs[i], cs[j])
  }

  lemma PrependPrecedes(x: nat, a: seq<nat>, b: seq<nat>)
    requires Precedes(a, b)
    ensures Precedes([x] + a, [x] + b)
  {
    var m :| 0 <= m < |a| && m < |b| && a[m] < b[m] && forall i | 0 <= i < m :: a[i] == b[i];
    forall i | 0 <= i < m + 1 ensures ([x] + a)[i] == ([x] + b)[i] {
      assert i > 0 ==> a[i - 1] == b[i - 1];
    }
    assert ([x] + a)[m + 1] < ([x] + b)[m + 1];
  }

  /** The tuples come in dictionary order. */
  lemma {:induction false} CombosInOrder(lo: nat, n: nat, k: nat)
    requires lo <= n
    ensures InOrder(Combos(lo, n, k))
    decreases n - lo
  {
    hide Precedes;
    if k > 0 && lo < n {
      var tails, rest := Combos(lo + 1, n, k - 1), Combos(lo + 1, n, k);
      CombosInOrder(lo + 1, n, k - 1);
      CombosInOrder(lo + 1, n, k);
      var p := Prepend(lo, tails);
      forall i, j | 0 <= i < j < |p| ensures Precedes(p[i], p[j]) {
        PrependPrecedes(lo, tails[i], tails[j]);
      }
      forall i, j | 0 <= i < |p| && 0 <= j < |rest| ensures Precedes(p[i], rest[j]) {
        assert rest[j] in rest;
        CombosExact(lo + 1, n, k, rest[j]);
        SmallerHead(p[i], rest[j]);
      }
    }
  }

  lemma SmallerHead(a: seq<nat>, b: seq<nat>)
    requires a != [] && b != [] && a[0] < b[0]
    ensures Precedes(a, b)
  {
    var m := 0;
    assert m < |a| && m < |b| && a[m] < b[m];
  }

  /** How many tuples contain `g`. */
  function CountWith(cs: seq<seq<nat>>, g: nat): nat {
    if cs == [] then 0 else (if g in cs[0] then 1 else 0) + CountWith(cs[1..], g)
  }

  lemma {:induction false} CountWithConcat(a: seq<seq<nat>>, b: seq<seq<nat>>, g: nat)
    ensures CountWith(a + b, g) == CountWith(a, g) + CountWith(b, g)
  {
    if a == [] {
      assert a + b == b;
    } else {
      assert (a + b)[1..] == a[1..] + b;
      CountWithConcat(a[1..], b, g);
    }
  }

  lemma {:induction false} CountWithPrepend(x: nat, cs: seq<seq<nat>>, g: nat)
    ensures CountWith(Prepend(x, cs), g) == if g == x then |cs| else CountWith(cs, g)
  {
    if cs != [] {
      CountWithPrepend(x, cs[1..], g);
      assert Prepend(x, cs)[1..] == Prepend(x, cs[1..]);
    }
  }

  lemma {:induction false} CountWithNone(cs: seq<seq<nat>>, g: nat)
    requires forall c | c in cs :: g !in c
    ensures CountWith(cs, g) == 0
  {
    if cs != [] {
      assert cs[0] in cs;
      CountWithNone(cs[1..], g);
    }
  }

  /** Every group is in C(n-lo-1, k-1) of the combinations. */
  lemma {:induction false} CombosWith(lo: nat, n: nat, k: nat, g: nat)
    requires lo <= g < n && k > 0
    ensures CountWith(Combos(lo, n, k), g) == Choose(n - lo - 1, k - 1)
    decreases n - lo
  {
    hide *;
    CountWithUnfold(lo, n, k, g);
    if g == lo {
      CombosCount(lo + 1, n, k - 1);
      LaterCombosLackFirst(lo, n, k);
    } else {
      CombosWith(lo + 1, n, k, g);
      if k > 1 {
        CombosWith(lo + 1, n, k - 1, g);
      }
      CombosWithLater(lo, n, k, g);
    }
  }

  lemma CombosWithLater(lo: nat, n: nat, k: nat, g: nat)
    requires lo < g < n && k > 0
    requires k > 1 ==> CountWith(Combos(lo + 1, n, k - 1), g) == Choose(n - lo - 2, k - 2)
    ensures CountWith(Combos(lo + 1, n, k - 1), g) + Choose(n - lo - 2, k - 1) == Choose(n - lo - 1, k - 1)
  {
    if k == 1 {
      CountWithNone([[]], g);
    }
    ChooseStep(n - lo - 1, k - 1);
  }

  lemma ChooseStep(n: nat, k: nat)
    requires n > 0
    ensures Choose(n, k) == if k == 0 then Choose(n - 1, 0) else Choose(n - 1, k - 1) + Choose(n - 1, k)
  {
  }

  lemma CountWithUnfold(lo: nat, n: nat, k: nat, g: nat)
    requires lo < n && k > 0
    ensures CountWith(Combos(lo, n, k), g) ==
            (if g == lo then |Combos(lo + 1, n, k - 1)| else CountWith(Combos(lo + 1, n, k - 1), g))
            + CountWith(Combos(lo + 1, n, k), g)
  {
    CountWithConcat(Prepend(lo, Combos(lo + 1, n, k - 1)), Combos(lo + 1, n, k), g);
    CountWithPrepend(lo, Combos(lo + 1, n, k - 1), g);
  }

  lemma LaterCombosLackFirst(lo: nat, n: nat, k: nat)
    requires lo < n
    ensures CountWith(Combos(lo + 1, n, k), lo) == 0
  {
    forall c | c in Combos(lo + 1, n, k) ensures lo !in c {
      CombosExact(lo + 1, n, k, c);
    }
    CountWithNone(Combos(lo + 1, n, k), lo);
  }
}

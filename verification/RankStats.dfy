/**
 Rank statistics (`auc`, `average_ranks`): ranks are computed by sorting and averaging each tie block,
 and mean a pairwise count.
 */
module RankStats {
  import opened Common
  import opened Sorting

  // ----- what a rank means: how many values a score beats, ties counting one half

  function Credit(a: real, b: real): real {
    if a > b then 1.0 else if a == b then 0.5 else 0.0
  }

  function Beats(x: real, s: seq<real>): real {
    if s == [] then 0.0 else Credit(x, s[0]) + Beats(x, s[1..])
  }

  /** Over all pairs of one positive and one other score. */
  function PairWins(p: seq<real>, q: seq<real>): real {
    if p == [] then 0.0 else Beats(p[0], q) + PairWins(p[1..], q)
  }

  /** The scores whose label satisfies `y == 1` (or does not). */
  function Class(y: seq<real>, s: seq<real>, positive: bool): seq<real>
    requires |y| == |s|
  {
    if s == [] then [] else
      (if (y[0] == 1.0) == positive then [s[0]] else []) + Class(y[1..], s[1..], positive)
  }

  function CountLabel(y: seq<real>, v: real): nat {
    if y == [] then 0 else (if y[0] == v then 1 else 0) + CountLabel(y[1..], v)
  }

  ghost predicate Binary(y: seq<real>) {
    forall i | 0 <= i < |y| :: y[i] == 0.0 || y[i] == 1.0
  }

  /** The Mann-Whitney definition of the AUC, with 0.5 for a missing class. */
  ghost function MannWhitney(y: seq<real>, s: seq<real>): real
    requires |y| == |s|
  {
    Share(PairWins(Class(y, s, true), Class(y, s, false)), CountLabel(y, 1.0), CountLabel(y, 0.0))
  }

  ghost function Share(wins: real, pos: nat, neg: nat): real {
    if pos == 0 || neg == 0 then 0.5 else PerPair(wins, pos, neg)
  }

  function PerPair(wins: real, pos: nat, neg: nat): real
    requires pos > 0 && neg > 0
  {
    ProductPositive(pos as real, neg as real);
    wins / (pos as real * neg as real)
  }

  // ----- facts about the count

  lemma {:induction false} BeatsConcat(x: real, a: seq<real>, b: seq<real>)
    ensures Beats(x, a + b) == Beats(x, a) + Beats(x, b)
  {
    if a == [] {
      assert a + b == b;
    } else {
      assert (a + b)[1..] == a[1..] + b;
      BeatsConcat(x, a[1..], b);
    }
  }

  lemma {:induction false} BeatsBlock(x: real, a: seq<real>, c: real)
    requires forall i | 0 <= i < |a| :: Credit(x, a[i]) == c
    ensures Beats(x, a) == c * |a| as real
  {
    if a != [] {
      BeatsBlock(x, a[1..], c);
    }
  }

  lemma BeatsRemove(x: real, b: seq<real>, k: nat)
    requires k < |b|
    ensures Beats(x, b) == Credit(x, b[k]) + Beats(x, Without(b, k))
  {
    assert b == b[..k] + ([b[k]] + b[k + 1..]);
    BeatsConcat(x, b[..k], [b[k]] + b[k + 1..]);
    BeatsConcat(x, b[..k], b[k + 1..]);
    assert ([b[k]] + b[k + 1..])[1..] == b[k + 1..];
  }

  lemma {:induction false} BeatsPermutes(x: real, a: seq<real>, b: seq<real>)
    requires multiset(a) == multiset(b)
    ensures Beats(x, a) == Beats(x, b)
  {
    MultisetSize(a, b);
    if a != [] {
      assert a[0] in b;
      var k :| 0 <= k < |b| && b[k] == a[0];
      WithoutMultiset(a, 0);
      WithoutMultiset(b, k);
      assert Without(a, 0) == a[1..];
      assert multiset(a[1..]) == multiset(a) - multiset{a[0]};
      assert multiset(Without(b, k)) == multiset(b) - multiset{b[k]};
      BeatsRemove(x, b, k);
      BeatsPermutes(x, a[1..], Without(b, k));
    }
  }

  ghost predicate NonDecreasing(s: seq<real>) {
    forall a, b | 0 <= a < b < |s| :: s[a] <= s[b]
  }

  /** A whole tie block `[i, j]` of a sorted sequence gets the average of its 0-based positions. */
  lemma TieBlockRank(sorted: seq<real>, i: nat, j: nat)
    requires i <= j < |sorted|
    requires NonDecreasing(sorted)
    requires sorted[i] == sorted[j]
    requires i > 0 ==> sorted[i - 1] < sorted[i]
    requires j + 1 < |sorted| ==> sorted[j] < sorted[j + 1]
    ensures Beats(sorted[i], sorted) - 0.5 == (i + j) as real / 2.0
  {
    BlockBelow(sorted, i);
    BlockTied(sorted, i, j);
    BlockAbove(sorted, j);
    BeatsThreeWays(sorted[i], sorted, i, j);
  }

  lemma BeatsThreeWays(x: real, s: seq<real>, i: nat, j: nat)
    requires i <= j < |s|
    ensures Beats(x, s) == Beats(x, s[..i]) + Beats(x, s[i..j + 1]) + Beats(x, s[j + 1..])
  {
    var a, b, c := s[..i], s[i..j + 1], s[j + 1..];
    BeatsConcat(x, b, c);
    BeatsConcat(x, a, b + c);
    assert s == a + (b + c);
  }

  lemma BlockBelow(sorted: seq<real>, i: nat)
    requires i < |sorted|
    requires NonDecreasing(sorted)
    requires i > 0 ==> sorted[i - 1] < sorted[i]
    ensures Beats(sorted[i], sorted[..i]) == i as real
  {
    var a := sorted[..i];
    forall k | 0 <= k < |a| ensures Credit(sorted[i], a[k]) == 1.0 {
      assert k == i - 1 || sorted[k] <= sorted[i - 1];
    }
    BeatsBlock(sorted[i], a, 1.0);
  }

  lemma BlockTied(sorted: seq<real>, i: nat, j: nat)
    requires i <= j < |sorted|
    requires NonDecreasing(sorted)
    requires sorted[i] == sorted[j]
    ensures Beats(sorted[i], sorted[i..j + 1]) == 0.5 * (j + 1 - i) as real
  {
    var b := sorted[i..j + 1];
    forall k | 0 <= k < |b| ensures Credit(sorted[i], b[k]) == 0.5 {
      assert k == 0 || sorted[i] <= sorted[i + k];
      assert i + k == j || sorted[i + k] <= sorted[j];
    }
    BeatsBlock(sorted[i], b, 0.5);
  }

  lemma BlockAbove(sorted: seq<real>, j: nat)
    requires j < |sorted|
    requires NonDecreasing(sorted)
    requires j + 1 < |sorted| ==> sorted[j] < sorted[j + 1]
    ensures Beats(sorted[j], sorted[j + 1..]) == 0.0
  {
    var c := sorted[j + 1..];
    forall k | 0 <= k < |c| ensures Credit(sorted[j], c[k]) == 0.0 {
      assert k == 0 || sorted[j + 1] <= sorted[j + 1 + k];
    }
    BeatsBlock(sorted[j], c, 0.0);
  }

  function Gather(values: seq<real>, order: seq<nat>): (r: seq<real>)
    requires forall i | 0 <= i < |order| :: order[i] < |values|
    ensures |r| == |order| && forall i | 0 <= i < |r| :: r[i] == values[order[i]]
  {
    seq(|order|, i requires 0 <= i < |order| => values[order[i]])
  }

  /** Each index below `n` occurs exactly once in `order`. */
  ghost predicate IsIndexOrder(order: seq<nat>, n: nat) {
    && |order| == n
    && (forall i | 0 <= i < n :: order[i] < n)
    && (forall i, j | 0 <= i < j < n :: order[i] != order[j])
    && (forall i | 0 <= i < n :: i in order)
  }

  lemma DropLastIndex(order: seq<nat>, n: nat, k: nat)
    requires IsIndexOrder(order, n) && k < n && order[k] == n - 1
    ensures IsIndexOrder(Without(order, k), n - 1)
  {
    var order' := Without(order, k);
    forall i | 0 <= i < n - 1 ensures i in order' {
      assert i in order;
      var m :| 0 <= m < n && order[m] == i;
      assert order'[if m < k then m else m - 1] == i;
    }
    forall i | 0 <= i < n - 1 ensures order'[i] < n - 1 {
      assert order'[i] == order[if i < k then i else i + 1];
    }
  }

  /** Gathering along an order only permutes. */
  lemma {:induction false} GatherPermutes(values: seq<real>, order: seq<nat>)
    requires IsIndexOrder(order, |values|)
    ensures multiset(Gather(values, order)) == multiset(values)
  {
    if values != [] {
      var n := |values| - 1;
      assert n in order;
      var k :| 0 <= k < |order| && order[k] == n;
      DropLastIndex(order, |values|, k);
      GatherPermutes(values[..n], Without(order, k));
      assert Gather(values[..n], Without(order, k)) == Without(Gather(values, order), k);
      assert values[..n] == Without(values, n);
      RestoreElement(Gather(values, order), k, values, n);
    }
  }

  /** The 0-based rank of a value, ties averaged: values beaten, plus half of the other tied ones. */
  ghost function RankOf(x: real, values: seq<real>): real {
    Beats(x, values) - 0.5
  }

  lemma BlockRank(values: seq<real>, sorted: seq<real>, i: nat, j: nat)
    requires multiset(sorted) == multiset(values)
    requires i <= j < |sorted|
    requires NonDecreasing(sorted) && sorted[i] == sorted[j]
    requires i > 0 ==> sorted[i - 1] < sorted[i]
    requires j + 1 < |sorted| ==> sorted[j] != sorted[j + 1]
    ensures forall k | i <= k <= j :: RankOf(sorted[k], values) == (i + j) as real / 2.0
    ensures j + 1 < |sorted| ==> sorted[j] < sorted[j + 1]
  {
    TieBlockRank(sorted, i, j);
    BeatsPermutes(sorted[i], sorted, values);
    forall k | i <= k <= j ensures sorted[k] == sorted[i] {
      assert k == i || sorted[i] <= sorted[k];
      assert k == j || sorted[k] <= sorted[j];
    }
  }

  // ----- the loops

  /** The slice assignment `ranks[order[i : j + 1]] = r`. */
  method AssignBlock(ranks: array<real>, order: seq<nat>, i: nat, j: nat, r: real)
    requires IsIndexOrder(order, ranks.Length) && i <= j < ranks.Length
    modifies ranks
    ensures forall k | 0 <= k < ranks.Length ::
              ranks[order[k]] == if i <= k <= j then r else old(ranks[order[k]])
  {
    var k := i;
    while k < j + 1
      invariant i <= k <= j + 1
      invariant forall m | 0 <= m < ranks.Length ::
                  ranks[order[m]] == if i <= m < k then r else old(ranks[order[m]])
    {
      ranks[order[k]] := r;
      k := k + 1;
    }
  }

  /** The first `n` elements in sorted order have their ranks. */
  ghost predicate RankedBelow(ranks: seq<real>, values: seq<real>, order: seq<nat>, n: nat)
    requires IsIndexOrder(order, |values|) && |ranks| == |values| && n <= |values|
  {
    forall k | 0 <= k < n :: ranks[order[k]] == RankOf(values[order[k]], values)
  }

  lemma NoneRanked(ranks: seq<real>, values: seq<real>, order: seq<nat>)
    requires IsIndexOrder(order, |values|) && |ranks| == |values|
    ensures RankedBelow(ranks, values, order, 0)
  {
  }

  lemma BlockRanked(before: seq<real>, after: seq<real>, values: seq<real>, order: seq<nat>, i: nat, j: nat)
    requires IsIndexOrder(order, |values|) && |before| == |after| == |values| && i <= j < |values|
    requires RankedBelow(before, values, order, i)
    requires forall k | 0 <= k < |values| ::
               after[order[k]] == if i <= k <= j then (i + j) as real / 2.0 else before[order[k]]
    requires forall k | i <= k <= j :: RankOf(values[order[k]], values) == (i + j) as real / 2.0
    ensures RankedBelow(after, values, order, j + 1)
  {
    hide RankOf, IsIndexOrder;
  }

  lemma InSortedOrder(values: seq<real>)
    ensures var order := ArgSort(values);
            && IsIndexOrder(order, |values|) && |order| == |values|
            && (forall i | 0 <= i < |order| :: order[i] < |values|)
            && NonDecreasing(Gather(values, order)) && multiset(Gather(values, order)) == multiset(values)
  {
    hide ArgSort;
    ArgSortOrders(values);
    GatherPermutes(values, ArgSort(values));
  }

  /** `average_ranks`: 0-based ranks with ties averaged. */
  method AverageRanks(values: seq<real>) returns (ranks: seq<real>)
    ensures |ranks| == |values|
    ensures forall i | 0 <= i < |values| :: ranks[i] == RankOf(values[i], values)
  {
    hide RankOf, ArgSort, RankedBelow, NonDecreasing, IsIndexOrder;
    var order := ArgSort(values);
    InSortedOrder(values);
    var sorted := Gather(values, order);
    var out := new real[|values|];
    var i := 0;
    NoneRanked(out[..], values, order);
    while i < |values|
      invariant 0 <= i <= |values|
      invariant 0 < i < |values| ==> sorted[i - 1] < sorted[i]
      invariant RankedBelow(out[..], values, order, i)
    {
      var j := i;
      while j + 1 < |values| && sorted[j + 1] == sorted[i]
        invariant i <= j < |values| && sorted[j] == sorted[i]
      {
        j := j + 1;
      }
      BlockRank(values, sorted, i, j);
      ghost var before := out[..];
      AssignBlock(out, order, i, j, (i + j) as real / 2.0);
      BlockRanked(before, out[..], values, order, i, j);
      i := j + 1;
    }
    ranks := out[..];
    EveryIndexRanked(values, order, ranks);
  }

  lemma EveryIndexRanked(values: seq<real>, order: seq<nat>, ranks: seq<real>)
    requires IsIndexOrder(order, |values|) && |ranks| == |values| && RankedBelow(ranks, values, order, |values|)
    ensures forall i | 0 <= i < |values| :: ranks[i] == RankOf(values[i], values)
  {
    hide RankOf;
    forall i | 0 <= i < |values| ensures ranks[i] == RankOf(values[i], values) {
      assert i in order;
      var k :| 0 <= k < |order| && order[k] == i;
    }
  }

  /** The positives' 1-based ranks, summed over the first `i` rows. */
  ghost function RankSum(y: seq<real>, s: seq<real>, i: nat): real
    requires |y| == |s| && i <= |s|
  {
    PairWins(Class(y[..i], s[..i], true), s) + 0.5 * CountLabel(y[..i], 1.0) as real
  }

  lemma RankSumStep(y: seq<real>, s: seq<real>, i: nat)
    requires |y| == |s| && i < |s|
    ensures RankSum(y, s, i + 1) == RankSum(y, s, i) + (if y[i] == 1.0 then RankOf(s[i], s) + 1.0 else 0.0)
  {
    ClassStep(y, s, i);
    var c := Class(y[..i], s[..i], true);
    if y[i] == 1.0 {
      PairWinsConcat(c, [s[i]], s);
      assert PairWins([s[i]], s) == Beats(s[i], s) + PairWins([], s);
    } else {
      assert c + [] == c;
    }
  }

  /** `auc`: the rank-sum statistic is the pairwise one, whatever the labels (rows labelled neither 0 nor 1
      count as losers but not in the denominator, in the loop and in the definition alike). */
  method Auc(y: seq<real>, scores: seq<real>) returns (a: real)
    requires |y| == |scores|
    ensures a == MannWhitney(y, scores)
  {
    var nPos, nNeg := CountLabel(y, 1.0), CountLabel(y, 0.0);
    if nPos == 0 || nNeg == 0 {
      return 0.5;
    }
    var ranks := AverageRanks(scores);
    var rankSum := 0.0;
    var i := 0;
    while i < |scores|
      invariant 0 <= i <= |scores|
      invariant rankSum == RankSum(y, scores, i)
    {
      RankSumStep(y, scores, i);
      if y[i] == 1.0 {
        rankSum := rankSum + (ranks[i] + 1.0);
      }
      i := i + 1;
    }
    RankSumIsPairCount(y, scores);
    TriangleClosedForm(nPos);
    var u := rankSum - nPos as real * (nPos as real + 1.0) / 2.0;
    a := PerPair(u, nPos, nNeg);
  }

  lemma ProductPositive(a: real, b: real)
    requires a > 0.0 && b > 0.0
    ensures a * b > 0.0
  {
  }

  lemma QuotientTimes(u: real, d: real)
    requires d != 0.0
    ensures u / d * d == u
  {
  }

  lemma {:induction false} PairWinsConcat(a: seq<real>, b: seq<real>, q: seq<real>)
    ensures PairWins(a + b, q) == PairWins(a, q) + PairWins(b, q)
  {
    if a == [] {
      assert a + b == b;
    } else {
      assert (a + b)[1..] == a[1..] + b;
      PairWinsConcat(a[1..], b, q);
    }
  }

  lemma {:induction false} ClassConcat(y1: seq<real>, s1: seq<real>, y2: seq<real>, s2: seq<real>, positive: bool)
    requires |y1| == |s1| && |y2| == |s2|
    ensures Class(y1 + y2, s1 + s2, positive) == Class(y1, s1, positive) + Class(y2, s2, positive)
    ensures CountLabel(y1 + y2, 1.0) == CountLabel(y1, 1.0) + CountLabel(y2, 1.0)
  {
    if y1 == [] {
      assert y1 + y2 == y2 && s1 + s2 == s2;
    } else {
      assert (y1 + y2)[1..] == y1[1..] + y2 && (s1 + s2)[1..] == s1[1..] + s2;
      ClassConcat(y1[1..], s1[1..], y2, s2, positive);
    }
  }

  lemma ClassStep(y: seq<real>, s: seq<real>, i: nat)
    requires |y| == |s| && i < |s|
    ensures Class(y[..i + 1], s[..i + 1], true)
         == Class(y[..i], s[..i], true) + (if y[i] == 1.0 then [s[i]] else [])
    ensures CountLabel(y[..i + 1], 1.0) == CountLabel(y[..i], 1.0) + (if y[i] == 1.0 then 1 else 0)
  {
    assert y[..i + 1] == y[..i] + [y[i]] && s[..i + 1] == s[..i] + [s[i]];
    ClassConcat(y[..i], s[..i], [y[i]], [s[i]], true);
  }

  // ----- double counting: the positives' own pairs account for exactly n_pos(n_pos+1)/2

  lemma {:induction false} BeatsSplitsByClass(x: real, y: seq<real>, s: seq<real>)
    requires |y| == |s|
    ensures Beats(x, s) == Beats(x, Class(y, s, true)) + Beats(x, Class(y, s, false))
  {
    if s != [] {
      BeatsSplitsByClass(x, y[1..], s[1..]);
      BeatsConcat(x, if y[0] == 1.0 then [s[0]] else [], Class(y[1..], s[1..], true));
      BeatsConcat(x, if y[0] == 1.0 then [] else [s[0]], Class(y[1..], s[1..], false));
    }
  }

  lemma {:induction false} PairWinsSplitsByClass(p: seq<real>, y: seq<real>, s: seq<real>)
    requires |y| == |s|
    ensures PairWins(p, s) == PairWins(p, Class(y, s, true)) + PairWins(p, Class(y, s, false))
  {
    if p != [] {
      BeatsSplitsByClass(p[0], y, s);
      PairWinsSplitsByClass(p[1..], y, s);
    }
  }

  lemma {:induction false} PairWinsAddColumn(p: seq<real>, x: real, q: seq<real>)
    ensures PairWins(p, [x] + q) == PairWins(p, [x]) + PairWins(p, q)
  {
    if p != [] {
      BeatsConcat(p[0], [x], q);
      PairWinsAddColumn(p[1..], x, q);
    }
  }

  /** Each unordered pair is won once in total. */
  lemma {:induction false} MutualCredit(x: real, p: seq<real>)
    ensures Beats(x, p) + PairWins(p, [x]) == |p| as real
  {
    if p != [] {
      MutualCredit(x, p[1..]);
      BeatsOne(p[0], x);
    }
  }

  /** 1 + 2 + ... + n */
  function Triangle(n: nat): real {
    if n == 0 then 0.0 else n as real + Triangle(n - 1)
  }

  lemma {:induction false} TriangleClosedForm(n: nat)
    ensures Triangle(n) == n as real * (n as real + 1.0) / 2.0
  {
    if n > 0 {
      TriangleClosedForm(n - 1);
      SquareStep(n as real);
    }
  }

  lemma SquareStep(x: real)
    ensures x + (x - 1.0) * x / 2.0 == x * (x + 1.0) / 2.0
  {
    assert (x - 1.0) * x == x * x - x;
  }

  lemma {:induction false} SelfPairs(p: seq<real>)
    ensures PairWins(p, p) + 0.5 * |p| as real == Triangle(|p|)
  {
    if p != [] {
      var x, t := p[0], p[1..];
      assert p == [x] + t;
      SelfPairs(t);
      PairWinsAddColumn(t, x, t);
      BeatsConcat(x, [x], t);
      BeatsOne(x, x);
      MutualCredit(x, t);
    }
  }

  lemma BeatsOne(x: real, z: real)
    ensures Beats(x, [z]) == Credit(x, z)
  {
    assert Beats(x, [z]) == Credit(x, z) + Beats(x, []);
  }

  lemma {:induction false} ClassSize(y: seq<real>, s: seq<real>)
    requires |y| == |s|
    ensures |Class(y, s, true)| == CountLabel(y, 1.0)
    ensures Binary(y) ==> |Class(y, s, false)| == CountLabel(y, 0.0)
  {
    if s != [] {
      ClassSize(y[1..], s[1..]);
      assert Binary(y) ==> Binary(y[1..]);
    }
  }

  lemma RankSumIsPairCount(y: seq<real>, s: seq<real>)
    requires |y| == |s|
    ensures RankSum(y, s, |s|) - Triangle(CountLabel(y, 1.0)) == PairWins(Class(y, s, true), Class(y, s, false))
  {
    assert y[..|s|] == y && s[..|s|] == s;
    PairWinsSplitsByClass(Class(y, s, true), y, s);
    SelfPairs(Class(y, s, true));
    ClassSize(y, s);
  }

  // ----- what the AUC promises

  lemma {:induction false} BeatsBounds(x: real, q: seq<real>)
    ensures 0.0 <= Beats(x, q) <= |q| as real
  {
    if q != [] {
      BeatsBounds(x, q[1..]);
    }
  }

  /** The number of pairs, row by row. */
  function Cells(rows: nat, columns: nat): real {
    if rows == 0 then 0.0 else columns as real + Cells(rows - 1, columns)
  }

  lemma {:induction false} CellsProduct(rows: nat, columns: nat)
    ensures Cells(rows, columns) == rows as real * columns as real
  {
    if rows > 0 {
      CellsProduct(rows - 1, columns);
      ProductStep(rows as real, columns as real);
    }
  }

  lemma ProductStep(a: real, b: real)
    ensures a * b == (a - 1.0) * b + b
  {
  }

  lemma {:induction false} PairWinsBounds(p: seq<real>, q: seq<real>)
    ensures 0.0 <= PairWins(p, q) <= Cells(|p|, |q|)
  {
    if p != [] {
      BeatsBounds(p[0], q);
      PairWinsBounds(p[1..], q);
    }
  }

  lemma AucInUnitInterval(y: seq<real>, s: seq<real>)
    requires |y| == |s| && Binary(y)
    ensures 0.0 <= MannWhitney(y, s) <= 1.0
  {
    var p, q := Class(y, s, true), Class(y, s, false);
    ClassSize(y, s);
    PairWinsBounds(p, q);
    ShareBounds(PairWins(p, q), |p|, |q|);
  }

  lemma ShareBounds(u: real, a: nat, b: nat)
    requires 0.0 <= u <= Cells(a, b)
    ensures 0.0 <= Share(u, a, b) <= 1.0
  {
    if a > 0 && b > 0 {
      CellsProduct(a, b);
      ProductPositive(a as real, b as real);
      QuotientBounds(u, a as real * b as real);
    }
  }

  lemma QuotientBounds(u: real, d: real)
    requires d > 0.0 && 0.0 <= u <= d
    ensures 0.0 <= u / d <= 1.0
  {
  }

  ghost predicate StrictlyIncreasing(f: real -> real) {
    forall a: real, b: real :: a < b ==> f(a) < f(b)
  }

  function MapReal(f: real -> real, s: seq<real>): (r: seq<real>)
    ensures |r| == |s| && forall i | 0 <= i < |s| :: r[i] == f(s[i])
  {
    if s == [] then [] else [f(s[0])] + MapReal(f, s[1..])
  }

  lemma CreditMonotone(f: real -> real, a: real, b: real)
    requires StrictlyIncreasing(f)
    ensures Credit(f(a), f(b)) == Credit(a, b)
  {
  }

  lemma {:induction false} BeatsMonotone(f: real -> real, x: real, q: seq<real>)
    requires StrictlyIncreasing(f)
    ensures Beats(f(x), MapReal(f, q)) == Beats(x, q)
  {
    if q != [] {
      CreditMonotone(f, x, q[0]);
      BeatsMonotone(f, x, q[1..]);
      assert MapReal(f, q)[1..] == MapReal(f, q[1..]);
    }
  }

  lemma {:induction false} PairWinsMonotone(f: real -> real, p: seq<real>, q: seq<real>)
    requires StrictlyIncreasing(f)
    ensures PairWins(MapReal(f, p), MapReal(f, q)) == PairWins(p, q)
  {
    if p != [] {
      BeatsMonotone(f, p[0], q);
      PairWinsMonotone(f, p[1..], q);
      assert MapReal(f, p)[1..] == MapReal(f, p[1..]);
    }
  }

  lemma {:induction false} ClassMap(f: real -> real, y: seq<real>, s: seq<real>, positive: bool)
    requires |y| == |s|
    ensures Class(y, MapReal(f, s), positive) == MapReal(f, Class(y, s, positive))
  {
    if s != [] {
      ClassMap(f, y[1..], s[1..], positive);
      assert MapReal(f, s)[1..] == MapReal(f, s[1..]);
      var h := if (y[0] == 1.0) == positive then [s[0]] else [];
      MapRealConcat(f, h, Class(y[1..], s[1..], positive));
    }
  }

  lemma {:induction false} MapRealConcat(f: real -> real, a: seq<real>, b: seq<real>)
    ensures MapReal(f, a + b) == MapReal(f, a) + MapReal(f, b)
  {
  }

  /** Only the order of the scores matters. */
  lemma AucMonotoneInvariant(f: real -> real, y: seq<real>, s: seq<real>)
    requires |y| == |s| && StrictlyIncreasing(f)
    ensures MannWhitney(y, MapReal(f, s)) == MannWhitney(y, s)
  {
    ClassMap(f, y, s, true);
    ClassMap(f, y, s, false);
    PairWinsMonotone(f, Class(y, s, true), Class(y, s, false));
  }

  function Neg(): real -> real {
    (x: real) => -x
  }

  lemma {:induction false} BeatsNegated(x: real, q: seq<real>)
    ensures Beats(-x, MapReal(Neg(), q)) == |q| as real - Beats(x, q)
  {
    if q != [] {
      BeatsNegated(x, q[1..]);
      assert MapReal(Neg(), q)[1..] == MapReal(Neg(), q[1..]);
    }
  }

  lemma {:induction false} PairWinsNegated(p: seq<real>, q: seq<real>)
    ensures PairWins(MapReal(Neg(), p), MapReal(Neg(), q)) == Cells(|p|, |q|) - PairWins(p, q)
  {
    if p != [] {
      BeatsNegated(p[0], q);
      PairWinsNegated(p[1..], q);
      assert MapReal(Neg(), p)[1..] == MapReal(Neg(), p[1..]);
    }
  }

  lemma PairsNegated(y: seq<real>, s: seq<real>)
    requires |y| == |s|
    ensures var p, q := Class(y, s, true), Class(y, s, false);
            PairWins(Class(y, MapReal(Neg(), s), true), Class(y, MapReal(Neg(), s), false))
            == Cells(|p|, |q|) - PairWins(p, q)
  {
    ClassMap(Neg(), y, s, true);
    ClassMap(Neg(), y, s, false);
    PairWinsNegated(Class(y, s, true), Class(y, s, false));
  }

  /** Negating the scores mirrors the AUC (a degenerate input stays at 0.5). */
  lemma AucNegated(y: seq<real>, s: seq<real>)
    requires |y| == |s| && Binary(y)
    ensures MannWhitney(y, MapReal(Neg(), s)) == 1.0 - MannWhitney(y, s)
  {
    ClassSize(y, s);
    PairsNegated(y, s);
    ShareMirror(PairWins(Class(y, s, true), Class(y, s, false)),
                PairWins(Class(y, MapReal(Neg(), s), true), Class(y, MapReal(Neg(), s), false)),
                CountLabel(y, 1.0), CountLabel(y, 0.0));
  }

  lemma ShareMirror(u: real, v: real, a: nat, b: nat)
    requires v == Cells(a, b) - u
    ensures Share(v, a, b) == 1.0 - Share(u, a, b)
  {
    if a > 0 && b > 0 {
      CellsProduct(a, b);
      ProductPositive(a as real, b as real);
      QuotientMirror(u, a as real * b as real);
    }
  }

  lemma QuotientMirror(u: real, d: real)
    requires d > 0.0
    ensures (d - u) / d == 1.0 - u / d
  {
    var r := u / d;
    QuotientTimes(u, d);
    assert (1.0 - r) * d == d - r * d;
    QuotientUnique(d - u, d, 1.0 - r);
  }
}

/** What a CPCV design promises: paths that cover every tested block exactly once, and no leakage. */
module CpcvProperties {
  import opened Common
  import opened Combinatorics
  import opened Cpcv

  // ----- the exact double cover

  lemma PathCell(gs: seq<seq<nat>>, nGroups: nat, testGroups: nat, j: nat, g: nat)
    requires g < nGroups && j < |Assembled(gs, nGroups, testGroups)|
    ensures |Assembled(gs, nGroups, testGroups)[j]| == nGroups && j < |TestingSplits(gs, g)|
    ensures Assembled(gs, nGroups, testGroups)[j][g] == TestingSplits(gs, g)[j]
  {
    var table := ByGroup(gs, nGroups);
    PathsFromMeaning(table, 0, NBacktestPaths(nGroups, testGroups));
    assert RowExists(table, j);
    assert Assembled(gs, nGroups, testGroups)[j - 0] == PathRow(table, j);
    assert j < |table[g]|;
  }

  lemma PathUntil(gs: seq<seq<nat>>, nGroups: nat, testGroups: nat)
    ensures |Assembled(gs, nGroups, testGroups)| <= NBacktestPaths(nGroups, testGroups)
    ensures |Assembled(gs, nGroups, testGroups)| < NBacktestPaths(nGroups, testGroups) ==>
              exists g :: 0 <= g < nGroups && |TestingSplits(gs, g)| <= |Assembled(gs, nGroups, testGroups)|
  {
    var table := ByGroup(gs, nGroups);
    PathsFromMeaning(table, 0, NBacktestPaths(nGroups, testGroups));
    var m := |Assembled(gs, nGroups, testGroups)|;
    if m < NBacktestPaths(nGroups, testGroups) {
      assert !RowExists(table, m);
      var g :| 0 <= g < |table| && !(m < |table[g]|);
      assert table[g] == TestingSplits(gs, g);
    }
  }

  /** Path `j` takes group `g` from a split that really tests `g`. */
  lemma PathNamesTestingSplit<T>(dates: seq<T>, nGroups: nat, testGroups: nat, horizon: int, embargo: int, j: nat,
                                 g: nat)
    requires 0 < testGroups < nGroups && g < nGroups
    requires j < |DesignOf(dates, nGroups, testGroups, horizon, embargo).paths|
    ensures var d := DesignOf(dates, nGroups, testGroups, horizon, embargo);
            |d.paths[j]| == nGroups && d.paths[j][g] < |d.splits| && g in d.splits[d.paths[j][g]].groups
  {
    var gs := Survivors(|dates|, nGroups, testGroups, horizon + embargo);
    PathCell(gs, nGroups, testGroups, j, g);
    TestingSplitsMeaning(gs, g);
    var i := TestingSplits(gs, g)[j];
    assert SplitsOf(dates, gs, nGroups, horizon + embargo)[i] == SplitOf(dates, gs[i], nGroups, horizon + embargo);
  }

  /** No (split, tested group) pair serves two paths. */
  lemma PairServesOnePath<T>(dates: seq<T>, nGroups: nat, testGroups: nat, horizon: int, embargo: int,
                             j: nat, j': nat, g: nat)
    requires 0 < testGroups < nGroups && g < nGroups
    requires j < j' < |DesignOf(dates, nGroups, testGroups, horizon, embargo).paths|
    ensures var d := DesignOf(dates, nGroups, testGroups, horizon, embargo);
            |d.paths[j]| == |d.paths[j']| == nGroups && d.paths[j][g] != d.paths[j'][g]
  {
    var gs := Survivors(|dates|, nGroups, testGroups, horizon + embargo);
    PathCell(gs, nGroups, testGroups, j, g);
    PathCell(gs, nGroups, testGroups, j', g);
    TestingSplitsMeaning(gs, g);
  }

  lemma {:induction false} DroppingLowersCounts(combos: seq<seq<nat>>, n: nat, groups: nat, gap: int, g: nat)
    requires groups > 0
    ensures CountWith(KeptCombos(combos, n, groups, gap), g) <= CountWith(combos, g)
    ensures |KeptCombos(combos, n, groups, gap)| <= |combos|
    ensures |KeptCombos(combos, n, groups, gap)| == |combos| ==> KeptCombos(combos, n, groups, gap) == combos
    ensures (exists c :: c in combos && g in c && !Kept(c, n, groups, gap)) ==>
              CountWith(KeptCombos(combos, n, groups, gap), g) < CountWith(combos, g)
  {
    if combos != [] {
      var init, last := combos[..|combos| - 1], combos[|combos| - 1];
      assert combos == init + [last];
      DroppingLowersCounts(init, n, groups, gap, g);
      CountWithConcat(init, [last], g);
      CountWithConcat(KeptCombos(init, n, groups, gap), [last], g);
    }
  }

  lemma {:induction false} SomethingDropped(combos: seq<seq<nat>>, n: nat, groups: nat, gap: int) returns (c: seq<nat>)
    requires groups > 0 && |KeptCombos(combos, n, groups, gap)| < |combos|
    ensures c in combos && !Kept(c, n, groups, gap)
  {
    var last := combos[|combos| - 1];
    if Kept(last, n, groups, gap) {
      c := SomethingDropped(combos[..|combos| - 1], n, groups, gap);
    } else {
      c := last;
    }
  }

  /** How often group `g` is tested decides how many paths there can be. */
  lemma GroupCount(n: nat, nGroups: nat, testGroups: nat, gap: int, g: nat)
    requires 0 < testGroups < nGroups && g < nGroups
    ensures var gs := Survivors(n, nGroups, testGroups, gap);
            && |TestingSplits(gs, g)| <= NBacktestPaths(nGroups, testGroups)
            && (|gs| == |Combos(0, nGroups, testGroups)| ==>
                  |TestingSplits(gs, g)| == NBacktestPaths(nGroups, testGroups))
  {
    hide *;
    SurvivorsAre(n, nGroups, testGroups, gap);
    TestingSplitsCount(Survivors(n, nGroups, testGroups, gap), g);
    DroppingLowersCounts(Combos(0, nGroups, testGroups), n, nGroups, gap, g);
    CombosWith(0, nGroups, testGroups, g);
    PathCountIsExact(nGroups, testGroups);
  }

  /** All C(N-1, k-1) paths are assembled exactly when none of the C(N, k) splits was dropped. */
  lemma CompleteIffNothingDropped<T>(dates: seq<T>, nGroups: nat, testGroups: nat, horizon: int, embargo: int)
    requires 0 < testGroups < nGroups
    ensures var d := DesignOf(dates, nGroups, testGroups, horizon, embargo);
            && |d.paths| <= NBacktestPaths(nGroups, testGroups)
            && (|d.paths| == NBacktestPaths(nGroups, testGroups) <==> |d.splits| == Choose(nGroups, testGroups))
  {
    hide Survivors, Assembled, NBacktestPaths, Choose;
    AssemblyCompleteIff(|dates|, nGroups, testGroups, horizon + embargo);
  }

  lemma AssemblyCompleteIff(n: nat, nGroups: nat, testGroups: nat, gap: int)
    requires 0 < testGroups < nGroups
    ensures var gs := Survivors(n, nGroups, testGroups, gap);
            var paths := |Assembled(gs, nGroups, testGroups)|;
            && paths <= NBacktestPaths(nGroups, testGroups)
            && (paths == NBacktestPaths(nGroups, testGroups) <==> |gs| == Choose(nGroups, testGroups))
  {
    hide *;
    var gs := Survivors(n, nGroups, testGroups, gap);
    var m, full := |Assembled(gs, nGroups, testGroups)|, NBacktestPaths(nGroups, testGroups);
    CombosCount(0, nGroups, testGroups);
    PathUntil(gs, nGroups, testGroups);
    if |gs| == Choose(nGroups, testGroups) {
      if m < full {
        var g :| 0 <= g < nGroups && |TestingSplits(gs, g)| <= m;
        GroupCount(n, nGroups, testGroups, gap, g);
      }
    } else {
      var g := DroppedLeavesShortGroup(n, nGroups, testGroups, gap);
      if m == full {
        PathCell(gs, nGroups, testGroups, m - 1, g);
      }
    }
  }

  lemma DroppedLeavesShortGroup(n: nat, nGroups: nat, testGroups: nat, gap: int) returns (g: nat)
    requires 0 < testGroups < nGroups
    requires |Survivors(n, nGroups, testGroups, gap)| != Choose(nGroups, testGroups)
    ensures g < nGroups
    ensures |TestingSplits(Survivors(n, nGroups, testGroups, gap), g)| < NBacktestPaths(nGroups, testGroups)
  {
    hide *;
    var combos := Combos(0, nGroups, testGroups);
    CombosCount(0, nGroups, testGroups);
    SurvivorsAre(n, nGroups, testGroups, gap);
    DroppingLowersCounts(combos, n, nGroups, gap, 0);
    var c := SomethingDropped(combos, n, nGroups, gap);
    g := FirstGroup(c, nGroups, testGroups);
    DroppingLowersCounts(combos, n, nGroups, gap, g);
    TestingSplitsCount(Survivors(n, nGroups, testGroups, gap), g);
    CombosWith(0, nGroups, testGroups, g);
    PathCountIsExact(nGroups, testGroups);
  }

  lemma SurvivorsAre(n: nat, nGroups: nat, testGroups: nat, gap: int)
    requires nGroups > 0
    ensures Survivors(n, nGroups, testGroups, gap) == KeptCombos(Combos(0, nGroups, testGroups), n, nGroups, gap)
  {
  }

  lemma FirstGroup(c: seq<nat>, nGroups: nat, testGroups: nat) returns (g: nat)
    requires testGroups > 0 && c in Combos(0, nGroups, testGroups)
    ensures g < nGroups && g in c
  {
    CombosExact(0, nGroups, testGroups, c);
    g := c[0];
  }

  // ----- when nothing is dropped

  lemma BlockSize(g: nat, n: nat, groups: nat)
    requires groups > 0
    ensures Bound(g + 1, n, groups) - Bound(g, n, groups) <= n / groups + 1
  {
    var a, b, q := g * n / groups, (g + 1) * n / groups, n / groups;
    assert (g + 1) * n == g * n + n;
    assert g * n < groups * a + groups && groups * b <= (g + 1) * n && n < groups * q + groups;
    assert groups * (a + q + 2) == groups * a + groups * q + 2 * groups;
    if b >= a + q + 2 {
      MulMonotone(groups, a + q + 2, b);
    }
  }

  lemma {:induction false} RangeElements(lo: int, hi: int)
    ensures |Elements(Range(lo, hi))| == MaxInt(0, hi - lo)
    decreases hi - lo
  {
    if lo >= hi {
      assert Elements(Range(lo, hi)) == {};
    } else {
      RangeElements(lo, hi - 1);
      assert Elements(Range(lo, hi)) == Elements(Range(lo, hi - 1)) + {hi - 1};
    }
  }

  lemma WidenedSize(g: nat, n: nat, groups: nat, gap: nat)
    requires groups > 0
    ensures |Elements(Widened(Bound(g, n, groups), Bound(g + 1, n, groups), n, gap))| <= n / groups + 1 + 2 * gap
  {
    hide Bound, Elements, Range;
    BlockSize(g, n, groups);
    RangeElements(MaxInt(0, Bound(g, n, groups) - gap), MinInt(n, Bound(g + 1, n, groups) + gap));
  }

  /** Each tested block excludes at most its own length and the gap on both sides. */
  lemma {:induction false} ExcludedSize(combo: seq<nat>, n: nat, groups: nat, gap: nat)
    requires groups > 0
    ensures |Excluded(combo, n, groups, gap)| <= |combo| * (n / groups + 1 + 2 * gap)
  {
    hide Widened, Elements, Bound;
    if combo != [] {
      var front, g := combo[..|combo| - 1], combo[|combo| - 1];
      var width := n / groups + 1 + 2 * gap;
      ExcludedSize(front, n, groups, gap);
      WidenedSize(g, n, groups, gap);
      assert |combo| * width == |front| * width + width;
    }
  }

  lemma SomethingRemains(n: nat, excluded: set<int>)
    requires |excluded| < n
    ensures Remaining(n, excluded) != []
  {
    if Remaining(n, excluded) == [] {
      RangeElements(0, n);
      forall x | x in Range(0, n) ensures x in excluded {
        assert x !in Remaining(n, excluded);
      }
      SubsetSize(Elements(Range(0, n)), excluded);
    }
  }

  lemma ComboSurvives(combo: seq<nat>, n: nat, groups: nat, gap: nat)
    requires 0 < |combo| && 0 < groups <= n && Below(combo, groups)
    requires |combo| * (n / groups + 1 + 2 * gap) < n
    ensures Kept(combo, n, groups, gap)
  {
    ExcludedSize(combo, n, groups, gap);
    SomethingRemains(n, Excluded(combo, n, groups, gap));
    BoundStep(combo[0], n, groups);
    assert combo[0] in combo && InBlock(Bound(combo[0], n, groups), combo[0], n, groups);
    TestIndexMeaning(combo, n, groups, Bound(combo[0], n, groups));
  }

  lemma {:induction false} AllKept(combos: seq<seq<nat>>, n: nat, groups: nat, gap: int)
    requires groups > 0 && forall c | c in combos :: Kept(c, n, groups, gap)
    ensures KeptCombos(combos, n, groups, gap) == combos
  {
    hide Kept;
    if combos != [] {
      AllKept(combos[..|combos| - 1], n, groups, gap);
      assert combos[|combos| - 1] in combos;
    }
  }

  /** No split is dropped when the tested blocks, widened by the gap on both sides, cannot cover the history: a
      condition on the sizes alone. Then every path is assembled. */
  lemma NothingDroppedWhenSmall<T>(dates: seq<T>, nGroups: nat, testGroups: nat, horizon: int, embargo: int)
    requires 0 < testGroups < nGroups <= |dates| && horizon + embargo >= 0
    requires testGroups * (|dates| / nGroups + 1 + 2 * (horizon + embargo)) < |dates|
    ensures var d := DesignOf(dates, nGroups, testGroups, horizon, embargo);
            |d.splits| == Choose(nGroups, testGroups) && |d.paths| == NBacktestPaths(nGroups, testGroups)
  {
    hide *;
    var n, gap := |dates|, horizon + embargo;
    var combos := Combos(0, nGroups, testGroups);
    forall c | c in combos ensures Kept(c, n, nGroups, gap) {
      CombosExact(0, nGroups, testGroups, c);
      ComboIsBelow(c, nGroups, testGroups);
      ComboSurvives(c, n, nGroups, gap);
    }
    AllKept(combos, n, nGroups, gap);
    SurvivorsAre(n, nGroups, testGroups, gap);
    CombosCount(0, nGroups, testGroups);
    DesignSize(dates, nGroups, testGroups, horizon, embargo);
    CompleteIffNothingDropped(dates, nGroups, testGroups, horizon, embargo);
  }

  lemma ComboIsBelow(c: seq<nat>, nGroups: nat, testGroups: nat)
    requires IsCombo(c, 0, nGroups, testGroups)
    ensures |c| == testGroups && Below(c, nGroups)
  {
  }

  lemma DesignSize<T>(dates: seq<T>, nGroups: nat, testGroups: nat, horizon: int, embargo: int)
    requires 0 < testGroups < nGroups
    ensures |DesignOf(dates, nGroups, testGroups, horizon, embargo).splits|
         == |Survivors(|dates|, nGroups, testGroups, horizon + embargo)|
  {
    hide Survivors, Assembled;
  }

  /** With no split dropped, every (split, tested group) pair is used by a path; by
      `PairServesOnePath` it is used by only one. */
  lemma ExactCover<T>(dates: seq<T>, nGroups: nat, testGroups: nat, horizon: int, embargo: int, i: nat, g: nat)
    returns (j: nat)
    requires 0 < testGroups < nGroups && g < nGroups
    requires |DesignOf(dates, nGroups, testGroups, horizon, embargo).splits| == Choose(nGroups, testGroups)
    requires i < |DesignOf(dates, nGroups, testGroups, horizon, embargo).splits|
    requires g in DesignOf(dates, nGroups, testGroups, horizon, embargo).splits[i].groups
    ensures var d := DesignOf(dates, nGroups, testGroups, horizon, embargo);
            j < |d.paths| && |d.paths[j]| == nGroups && d.paths[j][g] == i
  {
    var gs := Survivors(|dates|, nGroups, testGroups, horizon + embargo);
    assert g in gs[i];
    j := CoverAt(gs, |dates|, nGroups, testGroups, horizon + embargo, i, g);
  }

  lemma CoverAt(gs: seq<seq<nat>>, n: nat, nGroups: nat, testGroups: nat, gap: int, i: nat, g: nat)
    returns (j: nat)
    requires 0 < testGroups < nGroups && g < nGroups
    requires gs == Survivors(n, nGroups, testGroups, gap) && |gs| == Choose(nGroups, testGroups)
    requires i < |gs| && g in gs[i]
    ensures j < |Assembled(gs, nGroups, testGroups)| && |Assembled(gs, nGroups, testGroups)[j]| == nGroups
    ensures Assembled(gs, nGroups, testGroups)[j][g] == i
  {
    hide *;
    CombosCount(0, nGroups, testGroups);
    GroupCount(n, nGroups, testGroups, gap, g);
    AssemblyCompleteIff(n, nGroups, testGroups, gap);
    j := PositionOf(gs, i, g);
    PathCell(gs, nGroups, testGroups, j, g);
  }

  lemma PositionOf(gs: seq<seq<nat>>, i: nat, g: nat) returns (j: nat)
    requires i < |gs| && g in gs[i]
    ensures j < |TestingSplits(gs, g)| && TestingSplits(gs, g)[j] == i
  {
    TestingSplitsMeaning(gs, g);
    assert i in TestingSplits(gs, g);
    j :| 0 <= j < |TestingSplits(gs, g)| && TestingSplits(gs, g)[j] == i;
  }

  // ----- purge and embargo

  ghost predicate Farther(x: int, t: int, gap: int) {
    x + gap < t || t + gap < x
  }

  lemma NearIsWithinGap(x: nat, g: nat, n: nat, groups: nat, gap: nat)
    requires g < groups <= n && x < n
    ensures NearBlock(x, g, n, groups, gap) <==> exists t :: InBlock(t, g, n, groups) && !Farther(x, t, gap)
  {
    var s, e := Bound(g, n, groups), Bound(g + 1, n, groups);
    BoundStep(g, n, groups);
    BoundInside(g, n, groups);
    if NearBlock(x, g, n, groups, gap) {
      var t := if x < s then s else if x < e then x else e - 1;
      assert InBlock(t, g, n, groups) && !Farther(x, t, gap);
    }
  }

  /** The training sessions are exactly those more than `gap` sessions away from every tested session. */
  lemma TrainExactlyBeyondGap(c: seq<nat>, n: nat, groups: nat, gap: nat, x: int)
    requires 0 < groups <= n && Below(c, groups)
    ensures x in TrainIndex(c, n, groups, gap) <==>
            0 <= x < n && forall t | t in TestIndex(c, n, groups) :: Farther(x, t, gap)
  {
    ExcludedMeaning(c, n, groups, gap, x);
    if 0 <= x < n {
      if g :| g in c && NearBlock(x, g, n, groups, gap) {
        NearIsWithinGap(x, g, n, groups, gap);
        var t :| InBlock(t, g, n, groups) && !Farther(x, t, gap);
        TestIndexMeaning(c, n, groups, t);
        assert t in TestIndex(c, n, groups);
      } else {
        forall t | t in TestIndex(c, n, groups) ensures Farther(x, t, gap) {
          TestIndexMeaning(c, n, groups, t);
          var g :| g in c && InBlock(t, g, n, groups);
          NearIsWithinGap(x, g, n, groups, gap);
        }
      }
    }
  }

  /** No window `[x, x + horizon]` of a training row meets a window `[t, t + horizon]` of a test row. */
  ghost predicate Purged(c: seq<nat>, n: nat, groups: nat, horizon: int, embargo: int)
    requires groups > 0
  {
    forall x, t | x in TrainIndex(c, n, groups, horizon + embargo) && t in TestIndex(c, n, groups) ::
      Farther(x, t, horizon)
  }

  ghost predicate WindowsDisjoint(n: nat, nGroups: nat, testGroups: nat, horizon: int, embargo: int)
    requires nGroups > 0
  {
    forall c | c in Survivors(n, nGroups, testGroups, horizon + embargo) :: Purged(c, n, nGroups, horizon, embargo)
  }

  lemma SplitPurged(c: seq<nat>, n: nat, groups: nat, horizon: nat, embargo: nat)
    requires 0 < groups <= n && Below(c, groups)
    ensures Purged(c, n, groups, horizon, embargo)
  {
    var gap: nat := horizon + embargo;
    forall x, t | x in TrainIndex(c, n, groups, horizon + embargo) && t in TestIndex(c, n, groups)
      ensures Farther(x, t, horizon)
    {
      TrainExactlyBeyondGap(c, n, groups, gap, x);
      assert Farther(x, t, gap);
    }
  }

  lemma PurgedWindowsDisjoint(n: nat, nGroups: nat, testGroups: nat, horizon: nat, embargo: nat)
    requires 0 < testGroups < nGroups <= n
    ensures WindowsDisjoint(n, nGroups, testGroups, horizon, embargo)
  {
    var gs := Survivors(n, nGroups, testGroups, horizon + embargo);
    forall c | c in gs ensures Purged(c, n, nGroups, horizon, embargo) {
      SplitPurged(c, n, nGroups, horizon, embargo);
    }
  }

  ghost predicate NeverLeaks(horizon: int, embargo: int) {
    forall n: nat, nGroups: nat, testGroups: nat | 0 < testGroups < nGroups <= n ::
      WindowsDisjoint(n, nGroups, testGroups, horizon, embargo)
  }

  /** A non-negative embargo is exactly what rules leakage out: nothing in the code checks it, and every
      negative one lets some design train on a session whose label window meets a tested one. */
  lemma NeverLeaksIff(horizon: nat, embargo: int)
    ensures NeverLeaks(horizon, embargo) <==> embargo >= 0
  {
    if embargo >= 0 {
      forall n: nat, nGroups: nat, testGroups: nat | 0 < testGroups < nGroups <= n
        ensures WindowsDisjoint(n, nGroups, testGroups, horizon, embargo)
      {
        PurgedWindowsDisjoint(n, nGroups, testGroups, horizon, embargo);
      }
    } else {
      NegativeEmbargoLeaks(horizon, embargo);
    }
  }

  lemma NegativeEmbargoLeaks(horizon: nat, embargo: int)
    requires embargo < 0
    ensures !WindowsDisjoint(2 * (MaxInt(horizon + embargo, 0) + 1), 2, 1, horizon, embargo)
  {
    var gap := horizon + embargo;
    var m := MaxInt(gap, 0) + 1;
    hide WindowsDisjoint, Survivors, TrainIndex, TestIndex;
    LastBlockTrains(m, gap);
    SurvivesAlone(2 * m, gap);
    LeaksAt([1], 2 * m, horizon, embargo, if gap >= 0 then 0 else 1, m);
  }

  lemma LeaksAt(c: seq<nat>, n: nat, horizon: nat, embargo: int, x: int, t: int)
    requires c in Survivors(n, 2, 1, horizon + embargo)
    requires x in TrainIndex(c, n, 2, horizon + embargo) && t in TestIndex(c, n, 2) && !Farther(x, t, horizon)
    ensures !WindowsDisjoint(n, 2, 1, horizon, embargo)
  {
    hide TrainIndex, TestIndex, Survivors, Farther;
    assert !Purged(c, n, 2, horizon, embargo);
  }

  lemma LastBlockTrains(m: nat, gap: int)
    requires m == MaxInt(gap, 0) + 1
    ensures (if gap >= 0 then 0 else 1) in TrainIndex([1], 2 * m, 2, gap)
    ensures m in TestIndex([1], 2 * m, 2)
  {
    var n := 2 * m;
    var c: seq<nat> := [1];
    assert Bound(1, n, 2) == m && Bound(2, n, 2) == n;
    var x := if gap >= 0 then 0 else 1;
    assert forall g | g in c :: g == 1;
    assert !NearBlock(x, 1, n, 2, gap);
    ExcludedMeaning(c, n, 2, gap, x);
    assert 1 in c && InBlock(m, 1, n, 2);
    TestIndexMeaning(c, n, 2, m);
  }

  lemma SurvivesAlone(n: nat, gap: int)
    requires TrainIndex([1], n, 2, gap) != [] && TestIndex([1], n, 2) != []
    ensures [1] in Survivors(n, 2, 1, gap)
  {
    CombosExact(0, 2, 1, [1]);
    assert IsCombo([1], 0, 2, 1);
    KeptStays(Combos(0, 2, 1), [1], n, 2, gap);
  }

  lemma {:induction false} KeptStays(combos: seq<seq<nat>>, c: seq<nat>, n: nat, groups: nat, gap: int)
    requires groups > 0 && c in combos && Kept(c, n, groups, gap)
    ensures c in KeptCombos(combos, n, groups, gap)
  {
    if c != combos[|combos| - 1] {
      KeptStays(combos[..|combos| - 1], c, n, groups, gap);
    }
  }

  // ----- a design, written out

  /** Session `t` of `n` is in block `g` of `groups` equal ones, or within `gap` sessions of it. */
  ghost predicate Within(t: int, g: int, n: nat, groups: nat, gap: int) {
    g * n < (t + gap + 1) * groups && (t - gap + 1) * groups <= (g + 1) * n
  }

  ghost predicate WithinAny(t: int, combo: seq<nat>, n: nat, groups: nat, gap: int) {
    exists g | g in combo :: Within(t, g, n, groups, gap)
  }

  /** `part` is the dates of the sessions in `index`, which ascends. */
  ghost predicate Takes<T>(part: seq<T>, dates: seq<T>, index: seq<int>) {
    && |part| == |index| && Ascending(index)
    && forall k | 0 <= k < |part| :: 0 <= index[k] < |dates| && part[k] == dates[index[k]]
  }

  ghost predicate Ascending(index: seq<int>) {
    forall j, k | 0 <= j < k < |index| :: index[j] < index[k]
  }

  /** The test dates are those in a tested block, the training dates those not even near one. */
  ghost predicate IsSplit<T>(s: Split<T>, dates: seq<T>, groups: nat, gap: int) {
    var n := |dates|;
    && (exists test :: Takes(s.testDates, dates, test) && HoldsTested(test, s.groups, n, groups))
    && (exists train :: Takes(s.trainDates, dates, train) && HoldsFree(train, s.groups, n, groups, gap))
  }

  ghost predicate LeavesSome(combo: seq<nat>, n: nat, groups: nat, gap: int) {
    exists t: nat :: t < n && !WithinAny(t, combo, n, groups, gap)
  }

  ghost predicate HoldsTested(index: seq<int>, combo: seq<nat>, n: nat, groups: nat) {
    forall t :: t in index <==> 0 <= t < n && WithinAny(t, combo, n, groups, 0)
  }

  ghost predicate HoldsFree(index: seq<int>, combo: seq<nat>, n: nat, groups: nat, gap: int) {
    forall t :: t in index <==> 0 <= t < n && !WithinAny(t, combo, n, groups, gap)
  }

  lemma BoundReached(x: int, g: nat, n: nat, groups: nat)
    requires groups > 0
    ensures x >= Bound(g, n, groups) <==> g * n < (x + 1) * groups
  {
    var a, q := g * n, Bound(g, n, groups);
    assert groups * q <= a < groups * q + groups;
    assert (x + 1) * groups == groups * (x + 1) && groups * (q + 1) == groups * q + groups;
    if x >= q {
      MulMonotone(groups, q + 1, x + 1);
    } else {
      MulMonotone(groups, x + 1, q);
    }
  }

  lemma NearIsWithin(t: nat, g: nat, n: nat, groups: nat, gap: int)
    requires groups > 0 && t < n
    ensures NearBlock(t, g, n, groups, gap) <==> Within(t, g, n, groups, gap)
  {
    hide Bound;
    BoundReached(t + gap, g, n, groups);
    BoundReached(t - gap, g + 1, n, groups);
  }

  lemma InIsWithin(t: nat, g: nat, n: nat, groups: nat)
    requires groups > 0
    ensures InBlock(t, g, n, groups) <==> Within(t, g, n, groups, 0)
  {
    hide Bound;
    BoundReached(t, g, n, groups);
    BoundReached(t, g + 1, n, groups);
  }

  lemma {:induction false} TestIndexAscends(combo: seq<nat>, n: nat, groups: nat)
    requires groups > 0 && Ascending(combo)
    ensures Ascending(TestIndex(combo, n, groups))
  {
    if combo != [] {
      var init, last := combo[..|combo| - 1], combo[|combo| - 1];
      TestIndexAscends(init, n, groups);
      var before := TestIndex(init, n, groups);
      forall k | 0 <= k < |before| ensures before[k] < Bound(last, n, groups) {
        assert before[k] in before;
        TestIndexMeaning(init, n, groups, before[k]);
        var g :| g in init && InBlock(before[k], g, n, groups);
        var j :| 0 <= j < |init| && init[j] == g;
        assert combo[j] < combo[|combo| - 1];
        BoundMonotone(g + 1, last, n, groups);
      }
    }
  }

  /** The split of a combination holds exactly the sessions its blocks and the gap say. */
  lemma SplitInFull<T>(dates: seq<T>, combo: seq<nat>, groups: nat, gap: int)
    requires groups > 0 && Below(combo, groups) && Ascending(combo)
    ensures SplitOf(dates, combo, groups, gap).groups == combo
    ensures IsSplit(SplitOf(dates, combo, groups, gap), dates, groups, gap)
  {
    hide Within, Bound, InBlock, NearBlock, TrainIndex, TestIndex;
    var n, s := |dates|, SplitOf(dates, combo, groups, gap);
    var test, train := TestIndex(combo, n, groups), TrainIndex(combo, n, groups, gap);
    TestIndexInRange(combo, n, groups);
    TestIndexAscends(combo, n, groups);
    TestsBlocks(combo, n, groups);
    TrainsOutside(combo, n, groups, gap);
    assert Takes(s.testDates, dates, test);
    assert Takes(s.trainDates, dates, train);
  }

  lemma TestsBlocks(combo: seq<nat>, n: nat, groups: nat)
    requires groups > 0 && Below(combo, groups)
    ensures HoldsTested(TestIndex(combo, n, groups), combo, n, groups)
  {
    hide Within, InBlock;
    TestIndexInRange(combo, n, groups);
    var index := TestIndex(combo, n, groups);
    forall t ensures t in index <==> 0 <= t < n && WithinAny(t, combo, n, groups, 0) {
      TestIndexMeaning(combo, n, groups, t);
      if 0 <= t < n {
        forall g | g in combo ensures InBlock(t, g, n, groups) <==> Within(t, g, n, groups, 0) {
          InIsWithin(t, g, n, groups);
        }
      }
    }
  }

  lemma TrainsOutside(combo: seq<nat>, n: nat, groups: nat, gap: int)
    requires groups > 0
    ensures HoldsFree(TrainIndex(combo, n, groups, gap), combo, n, groups, gap)
    ensures Indexes(TrainIndex(combo, n, groups, gap), n) && Ascending(TrainIndex(combo, n, groups, gap))
  {
    hide Within, NearBlock, Excluded;
    var index := TrainIndex(combo, n, groups, gap);
    forall t ensures t in index <==> 0 <= t < n && !WithinAny(t, combo, n, groups, gap) {
      ExcludedMeaning(combo, n, groups, gap, t);
      if 0 <= t < n {
        forall g | g in combo ensures NearBlock(t, g, n, groups, gap) <==> Within(t, g, n, groups, gap) {
          NearIsWithin(t, g, n, groups, gap);
        }
      }
    }
  }

  /** What the returned splits are: each that of an increasing choice of groups, with something on either side; every
      such choice that leaves a session to train on among them; and in dictionary order. */
  ghost predicate AreSplits<T>(splits: seq<Split<T>>, dates: seq<T>, nGroups: nat, testGroups: nat, gap: int) {
    && (forall s | s in splits :: IsSplit(s, dates, nGroups, gap) && IsCombo(s.groups, 0, nGroups, testGroups)
                                  && s.trainDates != [] && s.testDates != [])
    && (forall c | IsCombo(c, 0, nGroups, testGroups) && LeavesSome(c, |dates|, nGroups, gap) ::
          exists s :: s in splits && s.groups == c)
    && (forall i, j | 0 <= i < j < |splits| :: Precedes(splits[i].groups, splits[j].groups))
  }

  lemma DesignInFull<T>(dates: seq<T>, nGroups: nat, testGroups: nat, horizon: int, embargo: int)
    requires 0 < testGroups < nGroups <= |dates|
    ensures AreSplits(DesignOf(dates, nGroups, testGroups, horizon, embargo).splits, dates, nGroups, testGroups,
                      horizon + embargo)
  {
    hide Precedes, IsSplit, IsCombo, LeavesSome, SplitOf, Survivors, Assembled;
    var n, gap := |dates|, horizon + embargo;
    var d := DesignOf(dates, nGroups, testGroups, horizon, embargo);
    var kept := Survivors(n, nGroups, testGroups, gap);
    forall i | 0 <= i < |kept| ensures SplitIsOf(d.splits[i], kept[i], dates, nGroups, testGroups, gap) {
      SurvivorSplit(dates, nGroups, testGroups, gap, i);
    }
    forall s | s in d.splits
      ensures IsSplit(s, dates, nGroups, gap) && IsCombo(s.groups, 0, nGroups, testGroups)
      ensures s.trainDates != [] && s.testDates != []
    {
      var i :| 0 <= i < |kept| && s == d.splits[i];
      assert SplitIsOf(d.splits[i], kept[i], dates, nGroups, testGroups, gap);
    }
    forall c | IsCombo(c, 0, nGroups, testGroups) && LeavesSome(c, n, nGroups, gap)
      ensures exists s :: s in d.splits && s.groups == c
    {
      Survives(c, n, nGroups, testGroups, gap);
      var i :| 0 <= i < |kept| && kept[i] == c;
      assert SplitIsOf(d.splits[i], kept[i], dates, nGroups, testGroups, gap);
      assert d.splits[i] in d.splits;
    }
    SurvivorsInOrder(n, nGroups, testGroups, gap);
  }

  ghost predicate SplitIsOf<T>(s: Split<T>, c: seq<nat>, dates: seq<T>, nGroups: nat, testGroups: nat, gap: int) {
    && s.groups == c && IsCombo(c, 0, nGroups, testGroups) && IsSplit(s, dates, nGroups, gap)
    && s.trainDates != [] && s.testDates != []
  }

  lemma SurvivorSplit<T>(dates: seq<T>, nGroups: nat, testGroups: nat, gap: int, i: nat)
    requires 0 < testGroups < nGroups <= |dates| && i < |Survivors(|dates|, nGroups, testGroups, gap)|
    ensures var kept := Survivors(|dates|, nGroups, testGroups, gap);
            SplitIsOf(SplitsOf(dates, kept, nGroups, gap)[i], kept[i], dates, nGroups, testGroups, gap)
  {
    hide IsSplit, SplitOf, TrainIndex, TestIndex;
    var kept := Survivors(|dates|, nGroups, testGroups, gap);
    assert IsCombo(kept[i], 0, nGroups, testGroups) && Below(kept[i], nGroups);
    SplitInFull(dates, kept[i], nGroups, gap);
    assert kept[i] in kept;
    SidesOf(dates, kept[i], nGroups, gap);
  }

  lemma SurvivorsInOrder(n: nat, nGroups: nat, testGroups: nat, gap: int)
    requires 0 < nGroups
    ensures InOrder(Survivors(n, nGroups, testGroups, gap))
  {
    hide InOrder, KeptCombos;
    CombosInOrder(0, nGroups, testGroups);
    KeptInOrder(Combos(0, nGroups, testGroups), n, nGroups, gap);
  }

  lemma {:induction false} KeptInOrder(combos: seq<seq<nat>>, n: nat, groups: nat, gap: int)
    requires groups > 0 && InOrder(combos)
    ensures InOrder(KeptCombos(combos, n, groups, gap))
  {
    hide Precedes, Kept;
    if combos != [] {
      var init, last := combos[..|combos| - 1], combos[|combos| - 1];
      KeptInOrder(init, n, groups, gap);
      var kept := KeptCombos(init, n, groups, gap);
      forall i | 0 <= i < |kept| ensures Precedes(kept[i], last) {
        assert kept[i] in kept;
        var j :| 0 <= j < |init| && init[j] == kept[i];
        assert combos[j] == init[j];
      }
    }
  }

  lemma SidesOf<T>(dates: seq<T>, combo: seq<nat>, groups: nat, gap: int)
    requires groups > 0 && Below(combo, groups) && Kept(combo, |dates|, groups, gap)
    ensures SplitOf(dates, combo, groups, gap).trainDates != [] && SplitOf(dates, combo, groups, gap).testDates != []
  {
  }

  lemma Survives(c: seq<nat>, n: nat, nGroups: nat, testGroups: nat, gap: int)
    requires 0 < testGroups < nGroups <= n
    requires IsCombo(c, 0, nGroups, testGroups) && LeavesSome(c, n, nGroups, gap)
    ensures c in Survivors(n, nGroups, testGroups, gap)
  {
    hide Within, WithinAny, Bound;
    var t: nat :| t < n && !WithinAny(t, c, n, nGroups, gap);
    TrainsOutside(c, n, nGroups, gap);
    assert t in TrainIndex(c, n, nGroups, gap);
    var g := c[0];
    BoundStep(g, n, nGroups);
    TestIndexMeaning(c, n, nGroups, Bound(g, n, nGroups));
    assert g in c && InBlock(Bound(g, n, nGroups), g, n, nGroups);
    assert Bound(g, n, nGroups) in TestIndex(c, n, nGroups);
    CombosExact(0, nGroups, testGroups, c);
    KeptStays(Combos(0, nGroups, testGroups), c, n, nGroups, gap);
  }
}

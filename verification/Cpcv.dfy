/**
 Combinatorial purged cross-validation: the splits, the assembly of out-of-sample paths, and the stitching of
 predictions along a path. Sessions are addressed by their position in the sorted session list.
 */
module Cpcv {
  import opened Common
  import opened Combinatorics

  datatype Split<T> = Split(trainDates: seq<T>, testDates: seq<T>, groups: seq<nat>)

  datatype Design<T> = Design(splits: seq<Split<T>>, paths: seq<seq<nat>>, nGroups: nat, testGroups: nat)

  datatype Outcome<T> = Ok(value: T) | ValueError

  // ----- blocks: np.linspace(0, n, groups + 1).astype(int)

  function Bound(i: nat, n: nat, groups: nat): nat
    requires groups > 0
  {
    i * n / groups
  }

  lemma MulMonotone(d: nat, x: int, y: int)
    requires x <= y
    ensures d * x <= d * y
  {
  }

  lemma QuotientIs(a: int, d: int, q: int)
    requires d > 0 && d * q <= a < d * q + d
    ensures a / d == q
  {
    var p := a / d;
    assert d * p <= a < d * p + d;
    if p < q {
      MulMonotone(d, p + 1, q);
    } else if q < p {
      MulMonotone(d, q + 1, p);
    }
  }

  lemma DivMonotone(a: nat, b: nat, d: nat)
    requires a <= b && d > 0
    ensures a / d <= b / d
    ensures a + d <= b ==> a / d < b / d
  {
    var p, q := a / d, b / d;
    assert d * p <= a < d * p + d && d * q <= b < d * q + d;
    if q < p {
      MulMonotone(d, q + 1, p);
    }
    if q == p {
      MulMonotone(d, p, q);
    }
  }

  lemma BoundStep(i: nat, n: nat, groups: nat)
    requires groups > 0
    ensures Bound(i, n, groups) <= Bound(i + 1, n, groups)
    ensures groups <= n ==> Bound(i, n, groups) < Bound(i + 1, n, groups)
  {
    assert (i + 1) * n == i * n + n;
    DivMonotone(i * n, (i + 1) * n, groups);
  }

  lemma BoundEnds(n: nat, groups: nat)
    requires groups > 0
    ensures Bound(0, n, groups) == 0 && Bound(groups, n, groups) == n
  {
    QuotientIs(groups * n, groups, n);
    QuotientIs(0, groups, 0);
  }

  lemma {:induction false} BoundMonotone(i: nat, j: nat, n: nat, groups: nat)
    requires groups > 0 && i <= j
    ensures Bound(i, n, groups) <= Bound(j, n, groups)
  {
    hide *;
    if i < j {
      BoundStep(j - 1, n, groups);
      BoundMonotone(i, j - 1, n, groups);
    }
  }

  lemma BoundInside(g: nat, n: nat, groups: nat)
    requires g < groups
    ensures Bound(g, n, groups) <= Bound(g + 1, n, groups) <= n
  {
    BoundStep(g, n, groups);
    BoundMonotone(g + 1, groups, n, groups);
    BoundEnds(n, groups);
  }

  // ----- one split

  ghost predicate InBlock(t: int, g: nat, n: nat, groups: nat)
    requires groups > 0
  {
    Bound(g, n, groups) <= t < Bound(g + 1, n, groups)
  }

  /** Session `t` is inside group g's block widened by `gap` on both sides (and clipped to the history). */
  ghost predicate NearBlock(t: int, g: nat, n: nat, groups: nat, gap: int)
    requires groups > 0
  {
    MaxInt(0, Bound(g, n, groups) - gap) <= t < MinInt(n, Bound(g + 1, n, groups) + gap)
  }

  function Range(lo: int, hi: int): (r: seq<int>)
    ensures |r| == MaxInt(0, hi - lo)
    ensures forall i | 0 <= i < |r| :: r[i] == lo + i
    ensures forall x :: x in r <==> lo <= x < hi
  {
    var r := seq(MaxInt(0, hi - lo), i => lo + i);
    assert forall x | lo <= x < hi :: x in r by {
      forall x | lo <= x < hi ensures x in r {
        assert r[x - lo] == x;
      }
    }
    r
  }

  ghost predicate Below(combo: seq<nat>, groups: nat) {
    forall k | 0 <= k < |combo| :: combo[k] < groups
  }

  /** The sessions a combination tests, block by block. */
  function TestIndex(combo: seq<nat>, n: nat, groups: nat): seq<int>
    requires groups > 0
  {
    if combo == [] then [] else
      TestIndex(combo[..|combo| - 1], n, groups)
      + Range(Bound(combo[|combo| - 1], n, groups), Bound(combo[|combo| - 1] + 1, n, groups))
  }

  /** `[i for i in range(n) if i not in excluded]` */
  function Remaining(n: nat, excluded: set<int>): (r: seq<int>)
    ensures forall x :: x in r <==> 0 <= x < n && x !in excluded
    ensures forall i, j | 0 <= i < j < |r| :: r[i] < r[j]
    ensures Indexes(r, n)
  {
    if n == 0 then [] else
      var r := Remaining(n - 1, excluded);
      assert forall i | 0 <= i < |r| :: r[i] in r;
      if n - 1 in excluded then r else r + [n - 1]
  }

  /** `range(max(0, start - gap), min(n, end + gap))` */
  function Widened(start: int, end: int, n: nat, gap: int): seq<int> {
    Range(MaxInt(0, start - gap), MinInt(n, end + gap))
  }

  /** The purge and embargo of every tested block, one `excluded.update` per block. */
  function Excluded(combo: seq<nat>, n: nat, groups: nat, gap: int): set<int>
    requires groups > 0
  {
    if combo == [] then {} else
      var g := combo[|combo| - 1];
      Excluded(combo[..|combo| - 1], n, groups, gap)
      + Elements(Widened(Bound(g, n, groups), Bound(g + 1, n, groups), n, gap))
  }

  lemma {:induction false} ExcludedMeaning(combo: seq<nat>, n: nat, groups: nat, gap: int, t: int)
    requires groups > 0
    ensures t in Excluded(combo, n, groups, gap) <==> exists g | g in combo :: NearBlock(t, g, n, groups, gap)
  {
    if combo != [] {
      var last := combo[|combo| - 1];
      ExcludedMeaning(combo[..|combo| - 1], n, groups, gap, t);
      assert combo == combo[..|combo| - 1] + [last];
      if NearBlock(t, last, n, groups, gap) {
        assert last in combo;
      }
    }
  }

  ghost predicate Indexes(s: seq<int>, n: nat) {
    forall i | 0 <= i < |s| :: 0 <= s[i] < n
  }

  function Pick<T>(dates: seq<T>, index: seq<int>): (r: seq<T>)
    requires Indexes(index, |dates|)
    ensures |r| == |index| && forall i | 0 <= i < |index| :: r[i] == dates[index[i]]
  {
    seq(|index|, i requires 0 <= i < |index| => dates[index[i]])
  }

  lemma {:induction false} TestIndexMeaning(combo: seq<nat>, n: nat, groups: nat, t: int)
    requires groups > 0
    ensures t in TestIndex(combo, n, groups) <==> exists g | g in combo :: InBlock(t, g, n, groups)
  {
    if combo != [] {
      var last := combo[|combo| - 1];
      TestIndexMeaning(combo[..|combo| - 1], n, groups, t);
      assert combo == combo[..|combo| - 1] + [last];
      if InBlock(t, last, n, groups) {
        assert last in combo;
      }
    }
  }

  lemma TestIndexInRange(combo: seq<nat>, n: nat, groups: nat)
    requires groups > 0 && Below(combo, groups)
    ensures Indexes(TestIndex(combo, n, groups), n)
  {
    var s := TestIndex(combo, n, groups);
    forall i | 0 <= i < |s| ensures 0 <= s[i] < n {
      assert s[i] in s;
      TestIndexMeaning(combo, n, groups, s[i]);
      var g :| g in combo && InBlock(s[i], g, n, groups);
      BoundInside(g, n, groups);
    }
  }

  // ----- every split, in combination order; a degenerate one is dropped

  function TrainIndex(combo: seq<nat>, n: nat, groups: nat, gap: int): seq<int>
    requires groups > 0
  {
    Remaining(n, Excluded(combo, n, groups, gap))
  }

  predicate Kept(combo: seq<nat>, n: nat, groups: nat, gap: int)
    requires groups > 0
  {
    TrainIndex(combo, n, groups, gap) != [] && TestIndex(combo, n, groups) != []
  }

  function SplitOf<T>(dates: seq<T>, combo: seq<nat>, groups: nat, gap: int): Split<T>
    requires groups > 0 && Below(combo, groups)
  {
    TestIndexInRange(combo, |dates|, groups);
    Split(Pick(dates, TrainIndex(combo, |dates|, groups, gap)), Pick(dates, TestIndex(combo, |dates|, groups)), combo)
  }

  /** The combinations that survive, in order. */
  function KeptCombos(combos: seq<seq<nat>>, n: nat, groups: nat, gap: int): (r: seq<seq<nat>>)
    requires groups > 0
    ensures forall c | c in r :: c in combos && Kept(c, n, groups, gap)
  {
    if combos == [] then [] else
      var last := combos[|combos| - 1];
      var r := KeptCombos(combos[..|combos| - 1], n, groups, gap);
      if Kept(last, n, groups, gap) then r + [last] else r
  }

  method BuildSplit<T>(ordered: seq<T>, blocks: seq<(int, int)>, combo: seq<nat>, groups: nat, gap: int)
    returns (r: Option<Split<T>>)
    requires groups > 0 && Below(combo, groups)
    requires IsBlocks(blocks, |ordered|, groups)
    ensures r == if Kept(combo, |ordered|, groups, gap) then Some(SplitOf(ordered, combo, groups, gap)) else None
  {
    var n := |ordered|;
    var testIndex: seq<int> := [];
    var excluded: set<int> := {};
    for k := 0 to |combo|
      invariant testIndex == TestIndex(combo[..k], n, groups)
      invariant excluded == Excluded(combo[..k], n, groups, gap)
    {
      hide *;
      BelowAt(combo, groups, k);
      BlockIs(blocks, n, groups, combo[k]);
      var (start, end) := blocks[combo[k]];
      SplitStep(combo, k, n, groups, gap);
      testIndex := testIndex + Range(start, end);
      excluded := excluded + Elements(Widened(start, end, n, gap));
    }
    assert combo[..|combo|] == combo;
    TestIndexInRange(combo, n, groups);
    var trainIndex := Remaining(n, excluded);
    if trainIndex == [] || testIndex == [] {
      r := None;
    } else {
      r := Some(Split(Pick(ordered, trainIndex), Pick(ordered, testIndex), combo));
    }
  }

  ghost predicate IsBlocks(blocks: seq<(int, int)>, n: nat, groups: nat) {
    groups > 0 && |blocks| == groups
    && forall g | 0 <= g < groups :: blocks[g] == (Bound(g, n, groups), Bound(g + 1, n, groups))
  }

  lemma BelowAt(combo: seq<nat>, groups: nat, k: nat)
    requires Below(combo, groups) && k < |combo|
    ensures combo[k] < groups
  {
  }

  lemma BlockIs(blocks: seq<(int, int)>, n: nat, groups: nat, g: nat)
    requires IsBlocks(blocks, n, groups) && g < groups
    ensures |blocks| == groups && blocks[g] == (Bound(g, n, groups), Bound(g + 1, n, groups))
  {
  }

  lemma SplitStep(combo: seq<nat>, k: nat, n: nat, groups: nat, gap: int)
    requires groups > 0 && k < |combo|
    ensures TestIndex(combo[..k + 1], n, groups)
         == TestIndex(combo[..k], n, groups) + Range(Bound(combo[k], n, groups), Bound(combo[k] + 1, n, groups))
    ensures Excluded(combo[..k + 1], n, groups, gap)
         == Excluded(combo[..k], n, groups, gap)
            + Elements(Widened(Bound(combo[k], n, groups), Bound(combo[k] + 1, n, groups), n, gap))
  {
    assert combo[..k + 1][..k] == combo[..k];
  }

  // ----- paths: the j-th split testing each group

  function NBacktestPaths(nGroups: int, testGroups: int): nat {
    if !(0 < testGroups < nGroups) then 0 else Choose(nGroups, testGroups) * testGroups / nGroups
  }

  /** The division is exact, and counts the splits that test any one group. */
  lemma PathCountIsExact(nGroups: nat, testGroups: nat)
    requires 0 < testGroups < nGroups
    ensures NBacktestPaths(nGroups, testGroups) * nGroups == Choose(nGroups, testGroups) * testGroups
    ensures NBacktestPaths(nGroups, testGroups) == Choose(nGroups - 1, testGroups - 1)
  {
    Absorption(nGroups, testGroups);
    QuotientIs(Choose(nGroups, testGroups) * testGroups, nGroups, Choose(nGroups - 1, testGroups - 1));
  }

  /** The positions of the splits that test `g`, in split order. */
  function TestingSplits(gs: seq<seq<nat>>, g: nat): seq<nat> {
    if gs == [] then [] else
      TestingSplits(gs[..|gs| - 1], g) + (if g in gs[|gs| - 1] then [|gs| - 1] else [])
  }

  ghost predicate ListsSplits(t: seq<nat>, gs: seq<seq<nat>>, g: nat) {
    && (forall m | 0 <= m < |t| :: t[m] < |gs| && g in gs[t[m]])
    && (forall m, m' | 0 <= m < m' < |t| :: t[m] < t[m'])
    && (forall i | 0 <= i < |gs| && g in gs[i] :: i in t)
  }

  lemma {:induction false} TestingSplitsMeaning(gs: seq<seq<nat>>, g: nat)
    ensures ListsSplits(TestingSplits(gs, g), gs, g)
  {
    if gs != [] {
      var last := |gs| - 1;
      TestingSplitsMeaning(gs[..last], g);
      var init := TestingSplits(gs[..last], g);
      forall i | 0 <= i < |gs| && g in gs[i] ensures i in TestingSplits(gs, g) {
        assert i < last ==> gs[..last][i] == gs[i] && i in init;
      }
    }
  }

  lemma {:induction false} TestingSplitsCount(gs: seq<seq<nat>>, g: nat)
    ensures |TestingSplits(gs, g)| == CountWith(gs, g)
  {
    if gs != [] {
      var init := gs[..|gs| - 1];
      TestingSplitsCount(init, g);
      assert gs == init + [gs[|gs| - 1]];
      CountWithConcat(init, [gs[|gs| - 1]], g);
    }
  }

  function ByGroup(gs: seq<seq<nat>>, nGroups: nat): (r: seq<seq<nat>>)
    ensures |r| == nGroups && forall g | 0 <= g < nGroups :: r[g] == TestingSplits(gs, g)
  {
    seq(nGroups, g requires 0 <= g < nGroups => TestingSplits(gs, g))
  }

  predicate RowExists(byGroup: seq<seq<nat>>, j: nat) {
    forall g | 0 <= g < |byGroup| :: j < |byGroup[g]|
  }

  function PathRow(byGroup: seq<seq<nat>>, j: nat): (r: seq<nat>)
    requires RowExists(byGroup, j)
    ensures |r| == |byGroup| && forall g | 0 <= g < |r| :: r[g] == byGroup[g][j]
  {
    seq(|byGroup|, g requires 0 <= g < |byGroup| => byGroup[g][j])
  }

  /** Rows `j, j+1, ...` up to `n`, stopping at the first row some group cannot fill. */
  function PathsFrom(byGroup: seq<seq<nat>>, j: nat, n: nat): seq<seq<nat>>
    decreases n - j
  {
    if j < n && RowExists(byGroup, j) then [PathRow(byGroup, j)] + PathsFrom(byGroup, j + 1, n) else []
  }

  /** `r` is rows `j, j+1, ...` of the table, and stops before `n` only at a row some group cannot fill. */
  ghost predicate RowsFrom(r: seq<seq<nat>>, byGroup: seq<seq<nat>>, j: nat, n: nat) {
    && j + |r| <= n
    && (forall i | j <= i < j + |r| :: RowExists(byGroup, i) && r[i - j] == PathRow(byGroup, i))
    && (j + |r| < n ==> !RowExists(byGroup, j + |r|))
  }

  lemma {:induction false} PathsFromMeaning(byGroup: seq<seq<nat>>, j: nat, n: nat)
    requires j <= n
    ensures RowsFrom(PathsFrom(byGroup, j, n), byGroup, j, n)
    decreases n - j
  {
    if j < n && RowExists(byGroup, j) {
      PathsFromMeaning(byGroup, j + 1, n);
    }
  }

  function Assembled(gs: seq<seq<nat>>, nGroups: nat, testGroups: nat): seq<seq<nat>> {
    PathsFrom(ByGroup(gs, nGroups), 0, NBacktestPaths(nGroups, testGroups))
  }

  /** `_assemble_paths` over the tested groups of each split. */
  method AssemblePaths(gs: seq<seq<nat>>, nGroups: nat, testGroups: nat) returns (paths: seq<seq<nat>>)
    requires AllBelow(gs, nGroups)
    requires forall i | 0 <= i < |gs| :: NoRepeats(gs[i])
    ensures paths == Assembled(gs, nGroups, testGroups)
  {
    var byGroup := new seq<nat>[nGroups](_ => []);
    for i := 0 to |gs|
      invariant forall g | 0 <= g < nGroups :: byGroup[g] == TestingSplits(gs[..i], g)
    {
      var split := gs[i];
      for m := 0 to |split|
        invariant forall g | 0 <= g < nGroups ::
                    byGroup[g] == TestingSplits(gs[..i], g) + (if g in split[..m] then [i] else [])
      {
        assert Below(gs[i], nGroups);
        byGroup[split[m]] := byGroup[split[m]] + [i];
        assert split[..m + 1] == split[..m] + [split[m]];
      }
      assert split[..|split|] == split && gs[..i + 1][..i] == gs[..i];
    }
    assert gs[..|gs|] == gs;
    ghost var table := ByGroup(gs, nGroups);
    var nPaths := NBacktestPaths(nGroups, testGroups);
    paths := [];
    var j := 0;
    while j < nPaths
      invariant 0 <= j <= nPaths
      invariant paths + PathsFrom(table, j, nPaths) == PathsFrom(table, 0, nPaths)
    {
      if exists g | 0 <= g < nGroups :: |byGroup[g]| <= j {
        break;
      }
      assert RowExists(table, j);
      var row := seq(nGroups, g requires 0 <= g < nGroups && j < |byGroup[g]| reads byGroup => byGroup[g][j]);
      assert row == PathRow(table, j);
      assert paths + ([row] + PathsFrom(table, j + 1, nPaths)) == (paths + [row]) + PathsFrom(table, j + 1, nPaths);
      paths := paths + [row];
      j := j + 1;
    }
    assert PathsFrom(table, j, nPaths) == [];
  }

  ghost predicate AllBelow(combos: seq<seq<nat>>, groups: nat) {
    forall i | 0 <= i < |combos| :: Below(combos[i], groups)
  }

  function SplitsOf<T>(dates: seq<T>, combos: seq<seq<nat>>, groups: nat, gap: int): (r: seq<Split<T>>)
    requires groups > 0 && AllBelow(combos, groups)
    ensures |r| == |combos|
    ensures forall i | 0 <= i < |r| :: r[i] == SplitOf(dates, combos[i], groups, gap)
  {
    seq(|combos|, i requires 0 <= i < |combos| => SplitOf(dates, combos[i], groups, gap))
  }

  lemma SplitsOfStep<T>(dates: seq<T>, combos: seq<seq<nat>>, c: seq<nat>, groups: nat, gap: int)
    requires groups > 0 && AllBelow(combos, groups) && Below(c, groups)
    ensures AllBelow(combos + [c], groups)
    ensures SplitsOf(dates, combos + [c], groups, gap)
         == SplitsOf(dates, combos, groups, gap) + [SplitOf(dates, c, groups, gap)]
  {
    forall i | 0 <= i < |combos| + 1 ensures Below((combos + [c])[i], groups) {
    }
  }

  ghost predicate EachIsCombo(combos: seq<seq<nat>>, n: nat, k: nat) {
    forall i | 0 <= i < |combos| :: IsCombo(combos[i], 0, n, k)
  }

  lemma CombosAreCombos(n: nat, k: nat)
    ensures EachIsCombo(Combos(0, n, k), n, k)
  {
    forall i | 0 <= i < |Combos(0, n, k)| ensures IsCombo(Combos(0, n, k)[i], 0, n, k) {
      CombosExact(0, n, k, Combos(0, n, k)[i]);
    }
  }

  lemma {:induction false} KeptCombosAreCombos(combos: seq<seq<nat>>, groups: nat, k: nat, n: nat, gap: int)
    requires groups > 0 && EachIsCombo(combos, groups, k)
    ensures EachIsCombo(KeptCombos(combos, n, groups, gap), groups, k)
    ensures AllBelow(KeptCombos(combos, n, groups, gap), groups)
  {
    if combos != [] {
      assert EachIsCombo(combos[..|combos| - 1], groups, k);
      KeptCombosAreCombos(combos[..|combos| - 1], groups, k, n, gap);
    }
  }

  /** The surviving combinations of a design. */
  function Survivors(n: nat, nGroups: nat, testGroups: nat, gap: int): (r: seq<seq<nat>>)
    requires nGroups > 0
    ensures EachIsCombo(r, nGroups, testGroups) && AllBelow(r, nGroups)
  {
    CombosAreCombos(nGroups, testGroups);
    KeptCombosAreCombos(Combos(0, nGroups, testGroups), nGroups, testGroups, n, gap);
    KeptCombos(Combos(0, nGroups, testGroups), n, nGroups, gap)
  }

  function DesignOf<T>(dates: seq<T>, nGroups: nat, testGroups: nat, horizon: int, embargo: int): Design<T>
    requires 0 < testGroups < nGroups
  {
    var kept := Survivors(|dates|, nGroups, testGroups, horizon + embargo);
    Design(SplitsOf(dates, kept, nGroups, horizon + embargo), Assembled(kept, nGroups, testGroups), nGroups, testGroups)
  }

  /** `cpcv_splits` */
  method CpcvSplits<T>(dates: seq<T>, nGroups: int, testGroups: int, horizon: int, embargo: int)
    returns (r: Outcome<Design<T>>)
    ensures r.ValueError? <==> !(0 < testGroups < nGroups) || |dates| < nGroups
    ensures r.Ok? ==> r.value == DesignOf(dates, nGroups, testGroups, horizon, embargo)
  {
    if !(0 < testGroups < nGroups) {
      return ValueError;
    }
    if |dates| < nGroups {
      return ValueError;
    }
    var n, gap := |dates|, horizon + embargo;
    var blocks := seq(nGroups, g requires 0 <= g < nGroups => (Bound(g, n, nGroups), Bound(g + 1, n, nGroups)));
    var combos := Combos(0, nGroups, testGroups);
    CombosAreCombos(nGroups, testGroups);
    var splits, kept := BuildSplits(dates, blocks, combos, nGroups, testGroups, gap);
    var paths := AssemblePaths(kept, nGroups, testGroups);
    r := Ok(Design(splits, paths, nGroups, testGroups));
  }

  method BuildSplits<T>(dates: seq<T>, blocks: seq<(int, int)>, combos: seq<seq<nat>>, nGroups: nat, k: nat, gap: int)
    returns (splits: seq<Split<T>>, kept: seq<seq<nat>>)
    requires IsBlocks(blocks, |dates|, nGroups) && EachIsCombo(combos, nGroups, k)
    ensures kept == KeptCombos(combos, |dates|, nGroups, gap)
    ensures AllBelow(kept, nGroups) && EachIsCombo(kept, nGroups, k)
    ensures splits == SplitsOf(dates, kept, nGroups, gap)
  {
    splits, kept := [], [];
    for i := 0 to |combos|
      invariant kept == KeptCombos(combos[..i], |dates|, nGroups, gap)
      invariant AllBelow(kept, nGroups)
      invariant splits == SplitsOf(dates, kept, nGroups, gap)
    {
      assert IsCombo(combos[i], 0, nGroups, k);
      assert combos[..i + 1][..i] == combos[..i];
      var split := BuildSplit(dates, blocks, combos[i], nGroups, gap);
      SplitsOfStep(dates, kept, combos[i], nGroups, gap);
      if split.Some? {
        kept, splits := kept + [combos[i]], splits + [split.value];
      }
    }
    assert combos[..|combos|] == combos;
    KeptCombosAreCombos(combos, nGroups, k, |dates|, gap);
  }
}

/** Excess labels measured against a panel's own benchmark: what can and cannot change a decided one. */
module PanelLabels {
  import opened Common
  import opened SortedInts
  import opened Labels
  import opened ExcessLabels
  import opened MarketPath

  // ----- appending bars

  ghost predicate AllAfter(bars: seq<Bar>, cutoff: int) {
    forall k | 0 <= k < |bars| :: bars[k].ts > cutoff
  }

  ghost predicate Chronological(bars: seq<Bar>) {
    forall j, k | 0 <= j < k < |bars| :: bars[j].ts <= bars[k].ts
  }

  /** Every symbol gains some bars. */
  function Append(panel: seq<Series>, more: seq<seq<Bar>>): (r: seq<Series>)
    requires |more| == |panel|
    ensures |r| == |panel|
    ensures forall k | 0 <= k < |r| :: r[k] == Series(panel[k].symbol, panel[k].bars + more[k])
  {
    seq(|panel|, k requires 0 <= k < |panel| => Series(panel[k].symbol, panel[k].bars + more[k]))
  }

  lemma AppendKeepsCloses(bars: seq<Bar>, more: seq<Bar>, cutoff: int, t: int)
    requires AllAfter(more, cutoff) && t <= cutoff
    ensures SameAt(DailyCloses(bars), DailyCloses(bars + more), t)
  {
    SortingIsIrrelevant(bars);
    SortingIsIrrelevant(bars + more);
    FoldConcat(bars, more);
    FoldKeys(more);
    hide DailyCloses, FoldCloses;
  }

  lemma AppendSameUpTo(panel: seq<Series>, more: seq<seq<Bar>>, cutoff: int)
    requires |more| == |panel| && forall k | 0 <= k < |more| :: AllAfter(more[k], cutoff)
    ensures SameUpTo(Dailies(panel), Dailies(Append(panel, more)), cutoff)
    ensures Symbols(panel) == Symbols(Append(panel, more))
  {
    hide DailyCloses, SameAt;
    forall k, t | 0 <= k < |panel| && t <= cutoff
      ensures SameAt(Dailies(panel)[k], Dailies(Append(panel, more))[k], t)
    {
      AppendKeepsCloses(panel[k].bars, more[k], cutoff, t);
    }
  }

  lemma {:induction false} ProjectedAgree(a: map<int, real>, b: map<int, real>, bars: seq<Bar>, bars': seq<Bar>,
                                          n: nat, i: nat)
    requires i < n <= |bars| && n <= |bars'| && bars[..n] == bars'[..n]
    requires forall k | 0 <= k < n :: SameAt(a, b, bars[k].ts)
    ensures Projected(a, bars, i) == Projected(b, bars', i)
  {
    assert bars[..n][i] == bars'[..n][i];
    assert SameAt(a, b, bars[i].ts);
    if i > 0 {
      ProjectedAgree(a, b, bars, bars', n, i - 1);
    }
  }

  /** A decided excess label is unchanged by any bars, of any symbols, dated after its touch. */
  lemma PanelLabelStable(num: Numerics, st: Stats, panel: seq<Series>, more: seq<seq<Bar>>, universe: Universe,
                         s: nat, i: nat, p: LabelParams)
    requires s < |panel| == |more| && Chronological(panel[s].bars)
    requires PanelLabel(num, st, panel, universe, s, i, p).Some?
    requires var touch := PanelLabel(num, st, panel, universe, s, i, p).value.touchIndex;
             touch < |panel[s].bars| && forall k | 0 <= k < |more| :: AllAfter(more[k], panel[s].bars[touch].ts)
    ensures PanelLabel(num, st, Append(panel, more), universe, s, i, p) == PanelLabel(num, st, panel, universe, s, i, p)
  {
    var bars, bars' := panel[s].bars, panel[s].bars + more[s];
    var levels, levels' := Levels(st, panel, universe), Levels(st, Append(panel, more), universe);
    var d, d' := Pair(Closes(bars), Project(levels, bars)), Pair(Closes(bars'), Project(levels', bars'));
    assert Append(panel, more)[s].bars == bars';
    hide ExcessBarrierLabel, Levels, Append, Chronological;
    assert PanelLabel(num, st, panel, universe, s, i, p) == ExcessBarrierLabel(num, d, i, p);
    var o := ExcessBarrierLabel(num, d, i, p).value;
    ExcessBarrierWindow(num, d, i, p);
    LegsAgree(st, panel, more, universe, s, o.touchIndex);
    var sigma := ExcessDecided(num, d, i, p);
    ExcessBarrierStable(num, d, d', i, p);
  }

  lemma LevelsAgreeAt(st: Stats, panel: seq<Series>, more: seq<seq<Bar>>, universe: Universe, cutoff: int, t: int)
    requires |panel| == |more| && t <= cutoff && forall k | 0 <= k < |more| :: AllAfter(more[k], cutoff)
    ensures SameAt(Levels(st, panel, universe), Levels(st, Append(panel, more), universe), t)
  {
    hide *;
    AppendSameUpTo(panel, more, cutoff);
    LevelsCausal(st, panel, Append(panel, more), universe, cutoff, t);
  }

  lemma LegsAgree(st: Stats, panel: seq<Series>, more: seq<seq<Bar>>, universe: Universe, s: nat, touch: nat)
    requires s < |panel| == |more| && Chronological(panel[s].bars) && touch < |panel[s].bars|
    requires forall k | 0 <= k < |more| :: AllAfter(more[k], panel[s].bars[touch].ts)
    ensures var bars, bars' := panel[s].bars, panel[s].bars + more[s];
            && AgreeTo(Closes(bars), Closes(bars'), touch + 1)
            && AgreeTo(Project(Levels(st, panel, universe), bars),
                       Project(Levels(st, Append(panel, more), universe), bars'), touch + 1)
  {
    hide *;
    var bars, bars' := panel[s].bars, panel[s].bars + more[s];
    var levels, levels' := Levels(st, panel, universe), Levels(st, Append(panel, more), universe);
    EarlierBars(bars, touch);
    forall k | 0 <= k < touch + 1 ensures SameAt(levels, levels', bars[k].ts) {
      LevelsAgreeAt(st, panel, more, universe, bars[touch].ts, bars[k].ts);
    }
    ClosesAgree(bars, more[s], touch + 1);
    ProjectionsAgree(levels, levels', bars, bars', touch + 1);
  }

  lemma EarlierBars(bars: seq<Bar>, touch: nat)
    requires Chronological(bars) && touch < |bars|
    ensures forall k | 0 <= k < touch + 1 :: bars[k].ts <= bars[touch].ts
  {
    forall k | 0 <= k < touch + 1 ensures bars[k].ts <= bars[touch].ts {
      assert k == touch || bars[k].ts <= bars[touch].ts;
    }
  }

  lemma ClosesAgree(bars: seq<Bar>, more: seq<Bar>, n: nat)
    requires n <= |bars|
    ensures AgreeTo(Closes(bars), Closes(bars + more), n)
    ensures bars[..n] == (bars + more)[..n]
  {
  }

  lemma ProjectionsAgree(a: map<int, real>, b: map<int, real>, bars: seq<Bar>, bars': seq<Bar>, n: nat)
    requires n <= |bars| && n <= |bars'| && bars[..n] == bars'[..n]
    requires forall k | 0 <= k < n :: SameAt(a, b, bars[k].ts)
    ensures AgreeTo(Project(a, bars), Project(b, bars'), n)
  {
    hide SameAt, Projected;
    forall k | 0 <= k < n ensures Projected(a, bars, k) == Projected(b, bars', k) {
      ProjectedAgree(a, b, bars, bars', n, k);
    }
  }

  // ----- rescaling one symbol's history

  function RescaleBars(c: real, bars: seq<Bar>): (r: seq<Bar>)
    ensures |r| == |bars| && forall k | 0 <= k < |r| :: r[k] == Bar(bars[k].ts, Scale(c, bars[k].close))
  {
    if bars == [] then [] else [Bar(bars[0].ts, Scale(c, bars[0].close))] + RescaleBars(c, bars[1..])
  }

  function RescaleSymbol(c: real, panel: seq<Series>, s: nat): (r: seq<Series>)
    requires s < |panel|
  {
    panel[s := Series(panel[s].symbol, RescaleBars(c, panel[s].bars))]
  }

  ghost predicate ScaledCloses(c: real, a: map<int, real>, b: map<int, real>) {
    a.Keys == b.Keys && forall t | t in a :: b[t] == Scale(c, a[t])
  }

  lemma {:induction false} FoldRescaled(c: real, bars: seq<Bar>)
    requires c > 0.0
    ensures ScaledCloses(c, FoldCloses(bars), FoldCloses(RescaleBars(c, bars)))
  {
    hide Scale;
    if bars != [] {
      FoldRescaled(c, bars[1..]);
      ScaledSign(c, bars[0].close);
      assert RescaleBars(c, bars)[1..] == RescaleBars(c, bars[1..]);
    }
  }

  /** The k-th symbol's closes in the two panels differ at most by a positive factor. */
  ghost predicate SameUpToScale(c: real, a: seq<map<int, real>>, b: seq<map<int, real>>) {
    |a| == |b| && forall k | 0 <= k < |a| :: a[k] == b[k] || ScaledCloses(c, a[k], b[k])
  }

  lemma {:induction false} AllDatesRescaled(c: real, a: seq<map<int, real>>, b: seq<map<int, real>>)
    requires SameUpToScale(c, a, b)
    ensures AllDates(a) == AllDates(b)
  {
    if a != [] {
      assert a[0].Keys == b[0].Keys;
      AllDatesRescaled(c, a[1..], b[1..]);
    }
  }

  lemma ChangeRescaled(st: Stats, c: real, a: map<int, real>, b: map<int, real>, previous: int, current: int)
    requires c > 0.0 && (a == b || ScaledCloses(c, a, b)) && previous in a && current in a
    ensures previous in b && current in b && Change(st, a, previous, current) == Change(st, b, previous, current)
  {
    hide Scale, Ratio;
    RatioScaled(c, a[current], a[previous]);
  }

  lemma {:induction false} StepReturnsRescaled(st: Stats, c: real, symbols: seq<string>, a: seq<map<int, real>>,
                                               b: seq<map<int, real>>, universe: Universe, previous: int, current: int)
    requires c > 0.0 && |symbols| == |a| && SameUpToScale(c, a, b)
    ensures StepReturns(st, symbols, a, universe, previous, current)
         == StepReturns(st, symbols, b, universe, previous, current)
  {
    hide Change, Eligible;
    if a != [] {
      StepReturnsRescaled(st, c, symbols[1..], a[1..], b[1..], universe, previous, current);
      assert a[0].Keys == b[0].Keys;
      if previous in a[0] && current in a[0] {
        ChangeRescaled(st, c, a[0], b[0], previous, current);
      }
    }
  }

  lemma {:induction false} LevelsToRescaled(st: Stats, c: real, symbols: seq<string>, a: seq<map<int, real>>,
                                            b: seq<map<int, real>>, universe: Universe, sessions: seq<int>, n: nat)
    requires c > 0.0 && |symbols| == |a| && SameUpToScale(c, a, b) && n <= |sessions|
    ensures LevelsTo(st, symbols, a, universe, sessions, n) == LevelsTo(st, symbols, b, universe, sessions, n)
    ensures n > 0 ==>
              LevelAt(st, symbols, a, universe, sessions, n - 1) == LevelAt(st, symbols, b, universe, sessions, n - 1)
  {
    if n > 0 {
      LevelsToRescaled(st, c, symbols, a, b, universe, sessions, n - 1);
      if n > 1 {
        StepReturnsRescaled(st, c, symbols, a, b, universe, sessions[n - 2], sessions[n - 1]);
      }
    }
  }

  /** The benchmark is a ratio index: no symbol's price unit enters it. */
  lemma LevelsRescaled(st: Stats, c: real, panel: seq<Series>, universe: Universe, s: nat)
    requires c > 0.0 && s < |panel|
    ensures Levels(st, RescaleSymbol(c, panel, s), universe) == Levels(st, panel, universe)
  {
    var a, b := Dailies(panel), Dailies(RescaleSymbol(c, panel, s));
    SortingIsIrrelevant(panel[s].bars);
    SortingIsIrrelevant(RescaleBars(c, panel[s].bars));
    FoldRescaled(c, panel[s].bars);
    hide DailyCloses, ScaledCloses, FoldCloses, RescaleBars, LevelsTo;
    assert SameUpToScale(c, a, b);
    AllDatesRescaled(c, a, b);
    assert Symbols(panel) == Symbols(RescaleSymbol(c, panel, s));
    LevelsToRescaled(st, c, Symbols(panel), a, b, universe, SortedSet(AllDates(a)), |SortedSet(AllDates(a))|);
  }

  lemma {:induction false} ProjectedRescaled(levels: map<int, real>, c: real, bars: seq<Bar>, i: nat)
    requires i < |bars|
    ensures Projected(levels, RescaleBars(c, bars), i) == Projected(levels, bars, i)
  {
    hide RescaleBars, Scale;
    if i > 0 {
      ProjectedRescaled(levels, c, bars, i - 1);
    }
  }

  /** Rescaling a symbol's whole history leaves its own excess labels, and the benchmark, unchanged. */
  lemma PanelLabelRescaled(num: Numerics, st: Stats, c: real, panel: seq<Series>, universe: Universe, s: nat, i: nat,
                           p: LabelParams)
    requires c > 0.0 && IsLog(num.log) && s < |panel|
    ensures PanelLabel(num, st, RescaleSymbol(c, panel, s), universe, s, i, p)
         == PanelLabel(num, st, panel, universe, s, i, p)
  {
    hide IsLog, ExcessBarrierLabel, Levels, Projected, RescaleBars, Scale;
    var bars, levels := panel[s].bars, Levels(st, panel, universe);
    LevelsRescaled(st, c, panel, universe, s);
    assert Closes(RescaleBars(c, bars)) == Rescale(c, Closes(bars));
    forall k | 0 <= k < |bars| ensures Projected(levels, RescaleBars(c, bars), k) == Projected(levels, bars, k) {
      ProjectedRescaled(levels, c, bars, k);
    }
    assert Project(levels, RescaleBars(c, bars)) == Project(levels, bars);
    ExcessBarrierRescaled(num, c, Pair(Closes(bars), Project(levels, bars)), i, p);
  }
}

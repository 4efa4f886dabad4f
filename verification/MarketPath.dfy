/**
 The benchmark leg of an excess label: a per-session level index over a panel of symbols (`market_levels`),
 projected on one symbol's own bars (`project_levels`). Closes are the adjusted ones.
 */
module MarketPath {
  import opened Common
  import opened Sorting
  import opened SortedInts
  import opened Labels
  import opened ExcessLabels

  const MIN_CROSS_SECTION := 3

  datatype Bar = Bar(ts: int, close: real)

  datatype Series = Series(symbol: string, bars: seq<Bar>)

  /** `np.exp` and `np.median` are any functions; `log` comes with the label numerics. */
  datatype Stats = Stats(log: real -> real, exp: real -> real, median: seq<real> -> real)

  /** The point-in-time universe, when one restricts who contributes to a session's median. */
  type Universe = Option<int -> set<string>>

  // ----- closes by session

  function FoldCloses(bars: seq<Bar>): map<int, real> {
    if bars == [] then map[]
    else (if bars[0].close > 0.0 then map[bars[0].ts := bars[0].close] else map[]) + FoldCloses(bars[1..])
  }

  function ByTime(): (Bar, Bar) -> bool {
    (a: Bar, b: Bar) => a.ts <= b.ts
  }

  /** The dict comprehension over the bars sorted by timestamp: a later positive close overwrites. */
  function DailyCloses(bars: seq<Bar>): map<int, real> {
    FoldCloses(StableSort(bars, ByTime()))
  }

  ghost predicate SameAt(a: map<int, real>, b: map<int, real>, t: int) {
    (t in a <==> t in b) && (t in a ==> a[t] == b[t])
  }

  lemma {:induction false} FoldSeesTies(bars: seq<Bar>, pivot: Bar)
    ensures SameAt(FoldCloses(bars), FoldCloses(Ties(bars, pivot, ByTime())), pivot.ts)
  {
    if bars != [] {
      FoldSeesTies(bars[1..], pivot);
      var rest := Ties(bars[1..], pivot, ByTime());
      if Tied(bars[0], pivot, ByTime()) {
        assert Ties(bars, pivot, ByTime()) == [bars[0]] + rest;
        assert ([bars[0]] + rest)[1..] == rest;
      } else {
        assert Ties(bars, pivot, ByTime()) == [] + rest == rest;
      }
    }
  }

  lemma MapsEqual(a: map<int, real>, b: map<int, real>)
    requires forall t: int :: SameAt(a, b, t)
    ensures a == b
  {
    forall t ensures t in a <==> t in b {
      assert SameAt(a, b, t);
    }
    forall t | t in a ensures a[t] == b[t] {
      assert SameAt(a, b, t);
    }
  }

  /** Because the sort is stable, sorting first changes no close. */
  lemma SortingIsIrrelevant(bars: seq<Bar>)
    ensures DailyCloses(bars) == FoldCloses(bars)
  {
    var sorted := StableSort(bars, ByTime());
    TiesAgreeByTime();
    hide FoldCloses, Ties, StableSort, TiesAgree, ByTime;
    forall t: int ensures SameAt(FoldCloses(sorted), FoldCloses(bars), t) {
      FoldSeesTies(sorted, Bar(t, 0.0));
      FoldSeesTies(bars, Bar(t, 0.0));
      StableSortKeepsTies(bars, Bar(t, 0.0), ByTime());
    }
    MapsEqual(FoldCloses(sorted), FoldCloses(bars));
  }

  lemma TiesAgreeByTime()
    ensures forall pivot: Bar :: TiesAgree(pivot, ByTime())
  {
  }

  lemma {:induction false} FoldConcat(a: seq<Bar>, b: seq<Bar>)
    ensures FoldCloses(a + b) == FoldCloses(a) + FoldCloses(b)
  {
    if a == [] {
      assert a + b == b;
    } else {
      assert (a + b)[1..] == a[1..] + b;
      FoldConcat(a[1..], b);
      var first := if a[0].close > 0.0 then map[a[0].ts := a[0].close] else map[];
      OverwriteAssociates(first, FoldCloses(a[1..]), FoldCloses(b));
    }
  }

  lemma OverwriteAssociates(x: map<int, real>, y: map<int, real>, z: map<int, real>)
    ensures x + (y + z) == (x + y) + z
  {
  }

  lemma {:induction false} FoldKeys(bars: seq<Bar>)
    ensures forall t | t in FoldCloses(bars) ::
              FoldCloses(bars)[t] > 0.0 && exists k :: 0 <= k < |bars| && bars[k].ts == t
  {
    if bars != [] {
      FoldKeys(bars[1..]);
      forall t | t in FoldCloses(bars)
        ensures FoldCloses(bars)[t] > 0.0 && exists k :: 0 <= k < |bars| && bars[k].ts == t
      {
        if t in FoldCloses(bars[1..]) {
          var k :| 0 <= k < |bars[1..]| && bars[1..][k].ts == t;
          assert bars[k + 1].ts == t;
        } else {
          assert bars[0].ts == t;
        }
      }
    }
  }

  function Dailies(panel: seq<Series>): (r: seq<map<int, real>>)
    ensures |r| == |panel| && forall k | 0 <= k < |r| :: r[k] == DailyCloses(panel[k].bars)
  {
    seq(|panel|, k requires 0 <= k < |panel| => DailyCloses(panel[k].bars))
  }

  /** The union of every symbol's sessions. */
  function AllDates(daily: seq<map<int, real>>): set<int> {
    if daily == [] then {} else daily[0].Keys + AllDates(daily[1..])
  }

  // ----- one step of the index

  function Symbols(panel: seq<Series>): (r: seq<string>)
    ensures |r| == |panel| && forall k | 0 <= k < |r| :: r[k] == panel[k].symbol
  {
    seq(|panel|, k requires 0 <= k < |panel| => panel[k].symbol)
  }

  predicate Eligible(universe: Universe, symbol: string, session: int) {
    universe.None? || symbol in universe.value(session)
  }

  function Change(st: Stats, closes: map<int, real>, previous: int, current: int): real
    requires previous in closes && current in closes
  {
    st.log(Ratio(closes[current], closes[previous]))
  }

  function StepReturns(st: Stats, symbols: seq<string>, daily: seq<map<int, real>>, universe: Universe, previous: int,
                       current: int): seq<real>
    requires |symbols| == |daily|
  {
    if daily == [] then [] else
      (if Eligible(universe, symbols[0], current) && current in daily[0] && previous in daily[0]
       then [Change(st, daily[0], previous, current)] else [])
      + StepReturns(st, symbols[1..], daily[1..], universe, previous, current)
  }

  function NextLevel(st: Stats, level: real, changes: seq<real>): real {
    if |changes| < MIN_CROSS_SECTION then level else level * st.exp(st.median(changes))
  }

  /** The level on the k-th session: 1 on the first, then compounded medians, carried through thin sessions. */
  function LevelAt(st: Stats, symbols: seq<string>, daily: seq<map<int, real>>, universe: Universe,
                   sessions: seq<int>, k: nat): real
    requires |symbols| == |daily| && k < |sessions|
  {
    if k == 0 then 1.0
    else NextLevel(st, LevelAt(st, symbols, daily, universe, sessions, k - 1),
                   StepReturns(st, symbols, daily, universe, sessions[k - 1], sessions[k]))
  }

  function LevelsTo(st: Stats, symbols: seq<string>, daily: seq<map<int, real>>, universe: Universe,
                    sessions: seq<int>, n: nat): map<int, real>
    requires |symbols| == |daily| && n <= |sessions|
  {
    if n == 0 then map[]
    else LevelsTo(st, symbols, daily, universe, sessions, n - 1)
           [sessions[n - 1] := LevelAt(st, symbols, daily, universe, sessions, n - 1)]
  }

  function Levels(st: Stats, panel: seq<Series>, universe: Universe): map<int, real> {
    var daily := Dailies(panel);
    var sessions := SortedSet(AllDates(daily));
    LevelsTo(st, Symbols(panel), daily, universe, sessions, |sessions|)
  }

  /** `market_levels` */
  method MarketLevels(st: Stats, panel: seq<Series>, universe: Universe) returns (levels: map<int, real>)
    ensures levels == Levels(st, panel, universe)
  {
    hide LevelAt, LevelsTo, StepReturns, NextLevel, AllDates, SortedSet, Symbols, Dailies;
    var symbols, daily := Symbols(panel), Dailies(panel);
    var sessions := SortedSet(AllDates(daily));
    if sessions == [] {
      NoLevels(st, symbols, daily, universe, sessions);
      return map[];
    }
    levels := map[sessions[0] := 1.0];
    var level := 1.0;
    FirstLevel(st, symbols, daily, universe, sessions);
    for k := 1 to |sessions|
      invariant levels == LevelsTo(st, symbols, daily, universe, sessions, k)
      invariant level == LevelAt(st, symbols, daily, universe, sessions, k - 1)
    {
      var changes := StepReturns(st, symbols, daily, universe, sessions[k - 1], sessions[k]);
      LevelStep(st, symbols, daily, universe, sessions, k);
      NextLevelIs(st, level, changes);
      if |changes| >= MIN_CROSS_SECTION {
        level := level * st.exp(st.median(changes));
      }
      levels := levels[sessions[k] := level];
    }
  }

  lemma NextLevelIs(st: Stats, level: real, changes: seq<real>)
    ensures NextLevel(st, level, changes)
         == if |changes| >= MIN_CROSS_SECTION then level * st.exp(st.median(changes)) else level
  {
  }

  lemma NoLevels(st: Stats, symbols: seq<string>, daily: seq<map<int, real>>, universe: Universe, sessions: seq<int>)
    requires |symbols| == |daily|
    ensures LevelsTo(st, symbols, daily, universe, sessions, 0) == map[]
  {
  }

  lemma FirstLevel(st: Stats, symbols: seq<string>, daily: seq<map<int, real>>, universe: Universe, sessions: seq<int>)
    requires |symbols| == |daily| && sessions != []
    ensures LevelAt(st, symbols, daily, universe, sessions, 0) == 1.0
    ensures LevelsTo(st, symbols, daily, universe, sessions, 1) == map[sessions[0] := 1.0]
  {
    assert LevelsTo(st, symbols, daily, universe, sessions, 0) == map[];
  }

  lemma LevelStep(st: Stats, symbols: seq<string>, daily: seq<map<int, real>>, universe: Universe, sessions: seq<int>,
                  k: nat)
    requires |symbols| == |daily| && 0 < k < |sessions|
    ensures LevelAt(st, symbols, daily, universe, sessions, k)
         == NextLevel(st, LevelAt(st, symbols, daily, universe, sessions, k - 1),
                      StepReturns(st, symbols, daily, universe, sessions[k - 1], sessions[k]))
    ensures LevelsTo(st, symbols, daily, universe, sessions, k + 1)
         == LevelsTo(st, symbols, daily, universe, sessions, k)
            [sessions[k] := LevelAt(st, symbols, daily, universe, sessions, k)]
  {
  }

  function Projected(levels: map<int, real>, bars: seq<Bar>, i: nat): real
    requires i < |bars|
  {
    if bars[i].ts in levels then levels[bars[i].ts]
    else if i == 0 then 1.0
    else Projected(levels, bars, i - 1)
  }

  function Project(levels: map<int, real>, bars: seq<Bar>): (r: seq<real>)
    ensures |r| == |bars| && forall i | 0 <= i < |r| :: r[i] == Projected(levels, bars, i)
  {
    seq(|bars|, i requires 0 <= i < |bars| => Projected(levels, bars, i))
  }

  /** `project_levels` */
  method ProjectLevels(levels: map<int, real>, bars: seq<Bar>) returns (market: seq<real>)
    ensures market == Project(levels, bars)
  {
    hide Projected;
    var out := new real[|bars|];
    var last := 1.0;
    for i := 0 to |bars|
      invariant last == if i == 0 then 1.0 else Projected(levels, bars, i - 1)
      invariant forall k | 0 <= k < i :: out[k] == Projected(levels, bars, k)
    {
      ProjectedStep(levels, bars, i);
      if bars[i].ts in levels {
        last := levels[bars[i].ts];
      }
      out[i] := last;
    }
    market := out[..];
  }

  lemma ProjectedStep(levels: map<int, real>, bars: seq<Bar>, i: nat)
    requires i < |bars|
    ensures Projected(levels, bars, i) == if bars[i].ts in levels then levels[bars[i].ts]
                                         else if i == 0 then 1.0 else Projected(levels, bars, i - 1)
  {
  }

  function Closes(bars: seq<Bar>): (r: seq<real>)
    ensures |r| == |bars| && forall i | 0 <= i < |r| :: r[i] == bars[i].close
  {
    seq(|bars|, i requires 0 <= i < |bars| => bars[i].close)
  }

  /** The label of bar `i` of symbol `s`, benchmark and all. */
  function PanelLabel(num: Numerics, st: Stats, panel: seq<Series>, universe: Universe, s: nat, i: nat,
                      p: LabelParams): Option<BarrierOutcome>
    requires s < |panel|
  {
    var bars := panel[s].bars;
    ExcessBarrierLabel(num, Pair(Closes(bars), Project(Levels(st, panel, universe), bars)), i, p)
  }

  // ----- causality: levels up to a date use only bars up to that date

  ghost predicate SameUpTo(a: seq<map<int, real>>, b: seq<map<int, real>>, cutoff: int) {
    |a| == |b| && forall k, t | 0 <= k < |a| && t <= cutoff :: SameAt(a[k], b[k], t)
  }

  lemma {:induction false} AllDatesMeaning(daily: seq<map<int, real>>, t: int)
    ensures t in AllDates(daily) <==> exists k :: 0 <= k < |daily| && t in daily[k]
  {
    if daily != [] {
      AllDatesMeaning(daily[1..], t);
      if t in AllDates(daily[1..]) {
        var k :| 0 <= k < |daily[1..]| && t in daily[1..][k];
        assert t in daily[k + 1];
      }
      if k :| 0 <= k < |daily| && t in daily[k] {
        assert k > 0 ==> t in daily[1..][k - 1];
      }
    }
  }

  lemma DatesUpTo(a: seq<map<int, real>>, b: seq<map<int, real>>, cutoff: int, t: int)
    requires SameUpTo(a, b, cutoff) && t <= cutoff
    ensures t in AllDates(a) <==> t in AllDates(b)
  {
    AllDatesMeaning(a, t);
    AllDatesMeaning(b, t);
    forall k | 0 <= k < |a| ensures t in a[k] <==> t in b[k] {
      assert SameAt(a[k], b[k], t);
    }
  }

  /** Increasing sequences with the same elements up to a cutoff agree position by position up to it. */
  lemma {:induction false} PrefixAgree(a: seq<int>, b: seq<int>, cutoff: int, k: nat)
    requires Increasing(a) && Increasing(b) && k < |a| && a[k] <= cutoff
    requires forall t | t <= cutoff :: t in a <==> t in b
    ensures k < |b| && b[k] == a[k]
  {
    assert a[k] in a;
    var m :| 0 <= m < |b| && b[m] == a[k];
    if k > 0 {
      PrefixAgree(a, b, cutoff, k - 1);
    }
    if m > k {
      assert b[k] < b[m];
      assert b[k] in b;
      EarlierElement(a, b, k);
    }
  }

  /** An element of both sequences that lies below `a[k]` sits before position `k` in both. */
  lemma EarlierElement(a: seq<int>, b: seq<int>, k: nat)
    requires Increasing(a) && Increasing(b) && k < |a| && k < |b| && b[k] in a
    requires k > 0 ==> b[k - 1] == a[k - 1]
    ensures b[k] >= a[k]
  {
    var j :| 0 <= j < |a| && a[j] == b[k];
    if k > 0 {
      assert b[k - 1] < b[k];
    }
  }

  lemma {:induction false} StepReturnsAgree(st: Stats, symbols: seq<string>, a: seq<map<int, real>>, b: seq<map<int,
                                            real>>,
                                            universe: Universe, previous: int, current: int)
    requires |symbols| == |a| == |b|
    requires forall k | 0 <= k < |a| :: SameAt(a[k], b[k], previous) && SameAt(a[k], b[k], current)
    ensures StepReturns(st, symbols, a, universe, previous, current)
         == StepReturns(st, symbols, b, universe, previous, current)
  {
    if a != [] {
      StepReturnsAgree(st, symbols[1..], a[1..], b[1..], universe, previous, current);
    }
  }

  lemma {:induction false} LevelAtAgree(st: Stats, symbols: seq<string>, a: seq<map<int, real>>, b: seq<map<int, real>>,
                                        universe: Universe, sa: seq<int>, sb: seq<int>, cutoff: int, k: nat)
    requires |symbols| == |a| && SameUpTo(a, b, cutoff)
    requires Increasing(sa) && k < |sa| && k < |sb| && sa[k] <= cutoff
    requires forall j | 0 <= j <= k :: sa[j] == sb[j]
    ensures LevelAt(st, symbols, a, universe, sa, k) == LevelAt(st, symbols, b, universe, sb, k)
  {
    if k > 0 {
      assert sa[k - 1] < sa[k];
      LevelAtAgree(st, symbols, a, b, universe, sa, sb, cutoff, k - 1);
      forall j | 0 <= j < |a| ensures SameAt(a[j], b[j], sa[k - 1]) && SameAt(a[j], b[j], sa[k]) {
      }
      StepReturnsAgree(st, symbols, a, b, universe, sa[k - 1], sa[k]);
    }
  }

  lemma {:induction false} LevelsToKeys(st: Stats, symbols: seq<string>, daily: seq<map<int, real>>, universe: Universe,
                                        sessions: seq<int>, n: nat)
    requires |symbols| == |daily| && n <= |sessions|
    ensures forall t :: t in LevelsTo(st, symbols, daily, universe, sessions, n) <==> t in sessions[..n]
  {
    if n > 0 {
      hide LevelAt;
      LevelsToKeys(st, symbols, daily, universe, sessions, n - 1);
      assert sessions[..n] == sessions[..n - 1] + [sessions[n - 1]];
    }
  }

  lemma {:induction false} LevelsToAt(st: Stats, symbols: seq<string>, daily: seq<map<int, real>>, universe: Universe,
                                      sessions: seq<int>, n: nat, k: nat)
    requires |symbols| == |daily| && k < n <= |sessions| && Increasing(sessions)
    ensures sessions[k] in LevelsTo(st, symbols, daily, universe, sessions, n)
    ensures LevelsTo(st, symbols, daily, universe, sessions, n)[sessions[k]]
         == LevelAt(st, symbols, daily, universe, sessions, k)
  {
    hide LevelAt;
    if k < n - 1 {
      LevelsToAt(st, symbols, daily, universe, sessions, n - 1, k);
      assert sessions[k] < sessions[n - 1];
    }
  }

  /** Levels up to `cutoff` are a function of the closes up to `cutoff`. */
  lemma LevelsCausal(st: Stats, panel: seq<Series>, panel': seq<Series>, universe: Universe, cutoff: int, t: int)
    requires Symbols(panel) == Symbols(panel') && SameUpTo(Dailies(panel), Dailies(panel'), cutoff) && t <= cutoff
    ensures SameAt(Levels(st, panel, universe), Levels(st, panel', universe), t)
  {
    var a, b := Dailies(panel), Dailies(panel');
    var sa, sb := SortedSet(AllDates(a)), SortedSet(AllDates(b));
    hide Symbols, Dailies, SortedSet, AllDates, LevelAt;
    forall t | t <= cutoff ensures t in sa <==> t in sb {
      DatesUpTo(a, b, cutoff, t);
    }
    LevelsToKeys(st, Symbols(panel), a, universe, sa, |sa|);
    LevelsToKeys(st, Symbols(panel), b, universe, sb, |sb|);
    assert sa[..|sa|] == sa && sb[..|sb|] == sb;
    if t in sa {
      var k :| 0 <= k < |sa| && sa[k] == t;
      forall j | 0 <= j <= k ensures j < |sb| && sa[j] == sb[j] {
        assert j == k || sa[j] < sa[k];
        PrefixAgree(sa, sb, cutoff, j);
      }
      LevelAtAgree(st, Symbols(panel), a, b, universe, sa, sb, cutoff, k);
      LevelsToAt(st, Symbols(panel), a, universe, sa, |sa|, k);
      LevelsToAt(st, Symbols(panel), b, universe, sb, |sb|, k);
    }
  }
}

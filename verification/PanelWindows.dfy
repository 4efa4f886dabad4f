/**
 The benchmark read over windows: every symbol's oldest bars dropped. From a session all windows still cover on, the
 level index is the full one in another unit, so excess labels are the same.
 */
module PanelWindows {
  import opened Common
  import opened SortedInts
  import opened Labels
  import opened ExcessLabels
  import opened LabelWindows
  import opened MarketPath
  import opened PanelLabels

  function WithoutFirst(bars: seq<Bar>, n: nat): seq<Bar> {
    bars[MinInt(n, |bars|)..]
  }

  /** Symbol by symbol, the panel without its first `drop[j]` bars. */
  function Windowed(panel: seq<Series>, drop: seq<nat>): (r: seq<Series>)
    requires |drop| == |panel|
    ensures |r| == |panel|
    ensures forall j | 0 <= j < |r| :: r[j] == Series(panel[j].symbol, WithoutFirst(panel[j].bars, drop[j]))
  {
    seq(|panel|, j requires 0 <= j < |panel| => Series(panel[j].symbol, WithoutFirst(panel[j].bars, drop[j])))
  }

  /** The bars dropped are all older than `from`. */
  ghost predicate DroppedBefore(panel: seq<Series>, drop: seq<nat>, from: int) {
    && |drop| == |panel|
    && forall j | 0 <= j < |panel| :: AllBefore(panel[j].bars[..MinInt(drop[j], |panel[j].bars|)], from)
  }

  ghost predicate AllBefore(bars: seq<Bar>, from: int) {
    forall m | 0 <= m < |bars| :: bars[m].ts < from
  }

  // ----- closes and sessions from a date on

  ghost predicate SameFrom(a: seq<map<int, real>>, b: seq<map<int, real>>, from: int) {
    |a| == |b| && forall k, t | 0 <= k < |a| && t >= from :: SameAt(a[k], b[k], t)
  }

  lemma NoOlderKey(bars: seq<Bar>, from: int, t: int)
    requires AllBefore(bars, from) && t >= from
    ensures t !in FoldCloses(bars)
  {
    FoldKeys(bars);
  }

  lemma OverwriteElsewhere(x: map<int, real>, y: map<int, real>, t: int)
    requires t !in x
    ensures SameAt(x + y, y, t)
  {
  }

  lemma WindowKeepsCloses(bars: seq<Bar>, w: nat, from: int, t: int)
    requires w <= |bars| && AllBefore(bars[..w], from) && t >= from
    ensures SameAt(DailyCloses(bars), DailyCloses(bars[w..]), t)
  {
    hide *;
    SortingIsIrrelevant(bars);
    SortingIsIrrelevant(bars[w..]);
    assert bars == bars[..w] + bars[w..];
    FoldConcat(bars[..w], bars[w..]);
    NoOlderKey(bars[..w], from, t);
    OverwriteElsewhere(FoldCloses(bars[..w]), FoldCloses(bars[w..]), t);
  }

  lemma WindowedSameFrom(panel: seq<Series>, drop: seq<nat>, from: int)
    requires DroppedBefore(panel, drop, from)
    ensures SameFrom(Dailies(panel), Dailies(Windowed(panel, drop)), from)
    ensures Symbols(panel) == Symbols(Windowed(panel, drop))
  {
    hide DailyCloses, SameAt, AllBefore;
    forall k, t | 0 <= k < |panel| && t >= from
      ensures SameAt(Dailies(panel)[k], Dailies(Windowed(panel, drop))[k], t)
    {
      WindowKeepsCloses(panel[k].bars, MinInt(drop[k], |panel[k].bars|), from, t);
    }
  }

  lemma DatesFrom(a: seq<map<int, real>>, b: seq<map<int, real>>, from: int, t: int)
    requires SameFrom(a, b, from) && t >= from
    ensures t in AllDates(a) <==> t in AllDates(b)
  {
    AllDatesMeaning(a, t);
    AllDatesMeaning(b, t);
    forall k | 0 <= k < |a| ensures t in a[k] <==> t in b[k] {
      assert SameAt(a[k], b[k], t);
    }
  }

  /** Increasing sequences with the same elements from `a[i] == b[j]` on have the same tail. */
  lemma TailsAgree(a: seq<int>, b: seq<int>, i: nat, j: nat)
    requires Increasing(a) && Increasing(b) && i < |a| && j < |b| && a[i] == b[j]
    requires forall t | t >= a[i] :: t in a <==> t in b
    ensures a[i..] == b[j..]
  {
    forall t ensures t in a[i..] <==> t in b[j..] {
      InTail(a, i, t);
      InTail(b, j, t);
    }
    IncreasingUnique(a[i..], b[j..]);
  }

  lemma InTail(a: seq<int>, i: nat, t: int)
    requires Increasing(a) && i < |a|
    ensures t in a[i..] <==> t in a && t >= a[i]
  {
    if t in a && t >= a[i] {
      var k :| 0 <= k < |a| && a[k] == t;
      InOrder(a, k, i);
      assert a[i..][k - i] == t;
    }
    if t in a[i..] {
      var k :| 0 <= k < |a[i..]| && a[i..][k] == t;
      assert a[i + k] == t;
      InOrder(a, i, i + k);
    }
  }

  lemma InOrder(a: seq<int>, i: nat, k: nat)
    requires Increasing(a) && i < |a| && k < |a|
    ensures i < k <==> a[i] < a[k]
  {
  }

  // ----- levels from that date on are proportional

  /** Nothing more is asked of `exp`. */
  ghost predicate PositiveExp(st: Stats) {
    forall x: real :: PositiveAt(st, x)
  }

  ghost predicate PositiveAt(st: Stats, x: real) {
    st.exp(x) > 0.0
  }

  lemma NextLevelScales(st: Stats, c: real, level: real, changes: seq<real>)
    ensures NextLevel(st, Scale(c, level), changes) == Scale(c, NextLevel(st, level, changes))
  {
    assert c * level * st.exp(st.median(changes)) == c * (level * st.exp(st.median(changes)));
  }

  lemma {:induction false} LevelsPositive(st: Stats, symbols: seq<string>, daily: seq<map<int, real>>,
                                          universe: Universe,
                                          sessions: seq<int>, k: nat)
    requires |symbols| == |daily| && k < |sessions| && PositiveExp(st)
    ensures LevelAt(st, symbols, daily, universe, sessions, k) > 0.0
  {
    hide StepReturns;
    if k > 0 {
      LevelsPositive(st, symbols, daily, universe, sessions, k - 1);
      var changes := StepReturns(st, symbols, daily, universe, sessions[k - 1], sessions[k]);
      assert PositiveAt(st, st.median(changes));
      ProductOfPositives(LevelAt(st, symbols, daily, universe, sessions, k - 1), st.exp(st.median(changes)));
    }
  }

  lemma ProductOfPositives(a: real, b: real)
    requires a > 0.0 && b > 0.0
    ensures a * b > 0.0
  {
  }

  lemma {:induction false} LevelsProportional(st: Stats, c: real, symbols: seq<string>, a: seq<map<int, real>>,
                                              b: seq<map<int, real>>, universe: Universe, sa: seq<int>, sb: seq<int>,
                                              i: nat, j: nat, n: nat)
    requires i + n < |sa| && j + n < |sb| && sa[i..] == sb[j..] && Increasing(sa)
    requires |symbols| == |a| == |b| && SameFrom(a, b, sa[i])
    requires LevelAt(st, symbols, b, universe, sb, j) == Scale(c, LevelAt(st, symbols, a, universe, sa, i))
    ensures LevelAt(st, symbols, b, universe, sb, j + n) == Scale(c, LevelAt(st, symbols, a, universe, sa, i + n))
  {
    hide Scale, NextLevel, StepReturns, SameAt;
    if n > 0 {
      LevelsProportional(st, c, symbols, a, b, universe, sa, sb, i, j, n - 1);
      assert sa[i..][n - 1] == sb[j..][n - 1] && sa[i..][n] == sb[j..][n];
      var previous, current := sa[i + n - 1], sa[i + n];
      InOrder(sa, i, i + n - 1);
      InOrder(sa, i, i + n);
      InOrder(sa, i + n - 1, i);
      StepReturnsAgree(st, symbols, a, b, universe, previous, current);
      NextLevelScales(st, c, LevelAt(st, symbols, a, universe, sa, i + n - 1),
                      StepReturns(st, symbols, a, universe, previous, current));
    }
  }

  /** `b` has the sessions of `a` from `from` on, its levels in units of `c`. */
  ghost predicate Proportional(a: map<int, real>, b: map<int, real>, from: int, c: real) {
    forall t | t >= from :: ProportionalAt(a, b, t, c)
  }

  ghost predicate ProportionalAt(a: map<int, real>, b: map<int, real>, t: int, c: real) {
    (t in a <==> t in b) && (t in a ==> b[t] == Scale(c, a[t]))
  }

  lemma ProportionalFactor(x: real, y: real) returns (c: real)
    requires x > 0.0 && y > 0.0
    ensures c > 0.0 && y == Scale(c, x)
  {
    c := y / x;
    assert c * x == y;
  }

  lemma LevelsAtTail(st: Stats, c: real, symbols: seq<string>, a: seq<map<int, real>>, b: seq<map<int, real>>,
                     universe: Universe, sa: seq<int>, sb: seq<int>, i: nat, j: nat, n: nat)
    requires i + n < |sa| && j + n < |sb| && sa[i..] == sb[j..] && Increasing(sa) && Increasing(sb)
    requires |symbols| == |a| == |b| && SameFrom(a, b, sa[i])
    requires LevelAt(st, symbols, b, universe, sb, j) == Scale(c, LevelAt(st, symbols, a, universe, sa, i))
    ensures ProportionalAt(LevelsTo(st, symbols, a, universe, sa, |sa|), LevelsTo(st, symbols, b, universe, sb, |sb|),
                           sa[i + n], c)
  {
    hide *;
    assert sa[i..][n] == sb[j..][n];
    LevelsProportional(st, c, symbols, a, b, universe, sa, sb, i, j, n);
    LevelsToAt(st, symbols, a, universe, sa, |sa|, i + n);
    LevelsToAt(st, symbols, b, universe, sb, |sb|, j + n);
    IsProportionalAt(LevelsTo(st, symbols, a, universe, sa, |sa|), LevelsTo(st, symbols, b, universe, sb, |sb|),
                     sa[i + n], c);
  }

  lemma LevelKeys(st: Stats, symbols: seq<string>, daily: seq<map<int, real>>, universe: Universe, sessions: seq<int>)
    requires |symbols| == |daily|
    ensures forall t :: t in LevelsTo(st, symbols, daily, universe, sessions, |sessions|) <==> t in sessions
  {
    hide *;
    LevelsToKeys(st, symbols, daily, universe, sessions, |sessions|);
    assert sessions[..|sessions|] == sessions;
  }

  lemma TailMembers(sa: seq<int>, sb: seq<int>, i: nat, j: nat, t: int)
    requires i < |sa| && j < |sb| && sa[i..] == sb[j..] && Increasing(sa) && Increasing(sb) && t >= sa[i]
    ensures t in sa <==> t in sb
  {
    hide *;
    assert sa[i] == sb[j] by { assert sa[i..][0] == sb[j..][0]; }
    InTail(sa, i, t);
    InTail(sb, j, t);
  }

  lemma LevelsProportionalAt(st: Stats, c: real, symbols: seq<string>, a: seq<map<int, real>>, b: seq<map<int, real>>,
                             universe: Universe, sa: seq<int>, sb: seq<int>, i: nat, j: nat, t: int)
    requires i < |sa| && j < |sb| && sa[i..] == sb[j..] && Increasing(sa) && Increasing(sb) && t >= sa[i]
    requires |symbols| == |a| == |b| && SameFrom(a, b, sa[i])
    requires LevelAt(st, symbols, b, universe, sb, j) == Scale(c, LevelAt(st, symbols, a, universe, sa, i))
    ensures ProportionalAt(LevelsTo(st, symbols, a, universe, sa, |sa|), LevelsTo(st, symbols, b, universe, sb, |sb|),
                           t, c)
  {
    hide *;
    if t in sa {
      var n := TailPosition(sa, sb, i, j, t);
      LevelsAtTail(st, c, symbols, a, b, universe, sa, sb, i, j, n);
    } else {
      LevelKeys(st, symbols, a, universe, sa);
      LevelKeys(st, symbols, b, universe, sb);
      TailMembers(sa, sb, i, j, t);
      IsProportionalAt(LevelsTo(st, symbols, a, universe, sa, |sa|), LevelsTo(st, symbols, b, universe, sb, |sb|), t,
                       c);
    }
  }

  lemma IsProportionalAt(a: map<int, real>, b: map<int, real>, t: int, c: real)
    requires (t in a <==> t in b) && (t in a ==> b[t] == Scale(c, a[t]))
    ensures ProportionalAt(a, b, t, c)
  {
  }

  function Sessions(panel: seq<Series>): (r: seq<int>)
    ensures Increasing(r) && forall t :: t in r <==> t in AllDates(Dailies(panel))
  {
    SortedSet(AllDates(Dailies(panel)))
  }

  lemma LevelsAre(st: Stats, panel: seq<Series>, universe: Universe)
    ensures Levels(st, panel, universe)
         == LevelsTo(st, Symbols(panel), Dailies(panel), universe, Sessions(panel), |Sessions(panel)|)
    ensures forall t :: t in Levels(st, panel, universe) <==> t in Sessions(panel)
  {
    hide LevelsTo, Dailies, Symbols, SortedSet, AllDates;
    LevelsToKeys(st, Symbols(panel), Dailies(panel), universe, Sessions(panel), |Sessions(panel)|);
    assert Sessions(panel)[..|Sessions(panel)|] == Sessions(panel);
  }

  lemma SessionsFrom(panel: seq<Series>, drop: seq<nat>, from: int) returns (i: nat, j: nat)
    requires DroppedBefore(panel, drop, from) && from in Sessions(panel)
    ensures |drop| == |panel|
    ensures var sa, sb := Sessions(panel), Sessions(Windowed(panel, drop));
            i < |sa| && j < |sb| && sa[i] == from && sa[i..] == sb[j..]
  {
    assert |drop| == |panel|;
    hide *;
    var sa, sb := Sessions(panel), Sessions(Windowed(panel, drop));
    WindowedSameFrom(panel, drop, from);
    forall t | t >= from ensures t in sa <==> t in sb {
      DatesFrom(Dailies(panel), Dailies(Windowed(panel, drop)), from, t);
    }
    i :| 0 <= i < |sa| && sa[i] == from;
    assert from in sb;
    j :| 0 <= j < |sb| && sb[j] == from;
    TailsAgree(sa, sb, i, j);
  }

  /** From a session on that every window still covers, the windowed index is the full one in another unit. */
  lemma LevelsOfWindows(st: Stats, panel: seq<Series>, drop: seq<nat>, universe: Universe, from: int) returns (c: real)
    requires PositiveExp(st) && DroppedBefore(panel, drop, from) && from in Levels(st, panel, universe)
    ensures |drop| == |panel|
    ensures c > 0.0 && Proportional(Levels(st, panel, universe), Levels(st, Windowed(panel, drop), universe), from, c)
  {
    assert |drop| == |panel|;
    hide *;
    var a, b, symbols := Dailies(panel), Dailies(Windowed(panel, drop)), Symbols(panel);
    var sa, sb := Sessions(panel), Sessions(Windowed(panel, drop));
    WindowedSameFrom(panel, drop, from);
    LevelsAre(st, panel, universe);
    LevelsAre(st, Windowed(panel, drop), universe);
    var i, j := SessionsFrom(panel, drop, from);
    LevelsPositive(st, symbols, a, universe, sa, i);
    LevelsPositive(st, symbols, b, universe, sb, j);
    c := ProportionalFactor(LevelAt(st, symbols, a, universe, sa, i), LevelAt(st, symbols, b, universe, sb, j));
    forall t | t >= from
      ensures ProportionalAt(Levels(st, panel, universe), Levels(st, Windowed(panel, drop), universe), t, c)
    {
      LevelsProportionalAt(st, c, symbols, a, b, universe, sa, sb, i, j, t);
    }
    IsProportional(Levels(st, panel, universe), Levels(st, Windowed(panel, drop), universe), from, c);
  }

  lemma IsProportional(a: map<int, real>, b: map<int, real>, from: int, c: real)
    requires forall t | t >= from :: ProportionalAt(a, b, t, c)
    ensures Proportional(a, b, from, c)
  {
  }

  lemma TailPosition(sa: seq<int>, sb: seq<int>, i: nat, j: nat, t: int) returns (n: nat)
    requires Increasing(sa) && i < |sa| && j < |sb| && sa[i..] == sb[j..] && t in sa && t >= sa[i]
    ensures i + n < |sa| && j + n < |sb| && sa[i + n] == t == sb[j + n]
  {
    InTail(sa, i, t);
    var k :| 0 <= k < |sa[i..]| && sa[i..][k] == t;
    n := k;
    assert sb[j..][k] == t;
  }

  // ----- and so are the legs

  lemma {:induction false} ProjectedWindow(a: map<int, real>, b: map<int, real>, bars: seq<Bar>, w: nat, first: nat,
                                           c: real, x: nat)
    requires w <= first <= x < |bars| && Chronological(bars)
    requires Proportional(a, b, bars[first].ts, c) && bars[first].ts in a
    ensures Projected(b, bars[w..], x - w) == Scale(c, Projected(a, bars, x))
  {
    hide Scale;
    assert bars[w..][x - w] == bars[x];
    assert bars[x].ts >= bars[first].ts by {
      assert x > first ==> bars[first].ts <= bars[x].ts;
    }
    assert ProportionalAt(a, b, bars[x].ts, c);
    if bars[x].ts !in a {
      ProjectedWindow(a, b, bars, w, first, c, x - 1);
    }
  }

  lemma LegsOfWindows(a: map<int, real>, b: map<int, real>, bars: seq<Bar>, w: nat, first: nat, c: real)
    requires w <= first < |bars| && Chronological(bars)
    requires Proportional(a, b, bars[first].ts, c) && bars[first].ts in a
    ensures IsWindow(Pair(Closes(bars), Project(a, bars)), Pair(Closes(bars[w..]), Project(b, bars[w..])), w, first, c)
  {
    hide Scale, Projected, Proportional;
    forall x | first <= x < |bars| ensures Projected(b, bars[w..], x - w) == Scale(c, Projected(a, bars, x)) {
      ProjectedWindow(a, b, bars, w, first, c, x);
    }
    assert Closes(bars[w..]) == Closes(bars)[w..];
  }

  /** A bar with a positive close is on the session axis. */
  lemma PositiveCloseIsSession(st: Stats, panel: seq<Series>, universe: Universe, s: nat, x: nat)
    requires s < |panel| && x < |panel[s].bars| && panel[s].bars[x].close > 0.0
    ensures panel[s].bars[x].ts in Levels(st, panel, universe)
  {
    hide *;
    var t := panel[s].bars[x].ts;
    SortingIsIrrelevant(panel[s].bars);
    CloseIsFolded(panel[s].bars, x);
    LevelsAre(st, panel, universe);
    assert t in Dailies(panel)[s];
    AllDatesMeaning(Dailies(panel), t);
  }

  lemma {:induction false} CloseIsFolded(bars: seq<Bar>, x: nat)
    requires x < |bars| && bars[x].close > 0.0
    ensures bars[x].ts in FoldCloses(bars)
  {
    if x > 0 {
      CloseIsFolded(bars[1..], x - 1);
    }
  }

  lemma UndecidedWithoutClose(num: Numerics, d: Pair, i: nat, p: LabelParams)
    requires p.sigmaWindow <= i < |d.closes| == |d.market| && d.closes[i - p.sigmaWindow] <= 0.0
    ensures ExcessBarrierLabel(num, d, i, p).None?
  {
    hide ResolveExcess, LogReturns;
    assert d.closes[i - p.sigmaWindow..i + 1][0] == d.closes[i - p.sigmaWindow];
  }

  /** Excess labels on windows of the panel are those on the whole of it, when symbol `s` keeps its volatility window
      and every bar dropped, of any symbol, is older than that window. */
  lemma PanelLabelWindowed(num: Numerics, st: Stats, panel: seq<Series>, drop: seq<nat>, universe: Universe, s: nat,
                           i: nat,
                           p: LabelParams)
    requires IsLog(num.log) && PositiveExp(st) && s < |panel| == |drop| && Chronological(panel[s].bars)
    requires drop[s] + p.sigmaWindow <= i < |panel[s].bars|
    requires DroppedBefore(panel, drop, panel[s].bars[i - p.sigmaWindow].ts)
    ensures PanelLabel(num, st, Windowed(panel, drop), universe, s, i - drop[s], p)
         == Back(PanelLabel(num, st, panel, universe, s, i, p), drop[s])
  {
    hide *;
    var bars, w, first := panel[s].bars, drop[s], i - p.sigmaWindow;
    var levels, levels' := Levels(st, panel, universe), Levels(st, Windowed(panel, drop), universe);
    var d, d' := Pair(Closes(bars), Project(levels, bars)), Pair(Closes(bars[w..]), Project(levels', bars[w..]));
    WithoutFirstIs(bars, w);
    PanelLabelIs(num, st, panel, universe, s, i, p);
    PanelLabelIs(num, st, Windowed(panel, drop), universe, s, i - w, p);
    if bars[first].close > 0.0 {
      PositiveCloseIsSession(st, panel, universe, s, first);
      var c := LevelsOfWindows(st, panel, drop, universe, bars[first].ts);
      LegsOfWindows(levels, levels', bars, w, first, c);
      ExcessBarrierWindowed(num, d, d', w, c, i, p);
    } else {
      UndecidedWithoutClose(num, d, i, p);
      UndecidedWithoutClose(num, d', i - w, p);
      BackOfNone(w);
    }
  }

  lemma BackOfNone(w: nat)
    ensures Back(None, w) == None
  {
  }

  lemma WithoutFirstIs(bars: seq<Bar>, w: nat)
    ensures w <= |bars| ==> WithoutFirst(bars, w) == bars[w..]
  {
  }

  lemma PanelLabelIs(num: Numerics, st: Stats, panel: seq<Series>, universe: Universe, s: nat, i: nat, p: LabelParams)
    requires s < |panel|
    ensures PanelLabel(num, st, panel, universe, s, i, p)
         == ExcessBarrierLabel(num, Pair(Closes(panel[s].bars), Project(Levels(st, panel, universe), panel[s].bars)),
                               i, p)
  {
    hide ExcessBarrierLabel, Levels, Project;
  }
}

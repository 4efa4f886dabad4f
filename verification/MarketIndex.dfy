/** The benchmark index (`market_levels`) said in terms of the panel's own bars: who contributes to a session, and
    how its level comes from the one before. */
module MarketIndex {
  import opened SortedInts
  import opened MarketPath

  // ----- a symbol's close on a session

  /** The symbol closed at `close` on session `t`: the last of its bars there, in the order given, with a positive
      close. */
  ghost predicate ClosedAt(bars: seq<Bar>, t: int, close: real) {
    exists i :: IsLastClose(bars, i, t) && bars[i].close == close
  }

  ghost predicate IsLastClose(bars: seq<Bar>, i: int, t: int) {
    && 0 <= i < |bars| && bars[i].ts == t && bars[i].close > 0.0
    && forall j | i < j < |bars| && bars[j].ts == t :: bars[j].close <= 0.0
  }

  /** The symbol has a positive close on session `t`. */
  ghost predicate Trades(bars: seq<Bar>, t: int) {
    exists i :: 0 <= i < |bars| && bars[i].ts == t && bars[i].close > 0.0
  }

  lemma {:induction false} FoldIsClose(bars: seq<Bar>, t: int)
    ensures t in FoldCloses(bars) <==> Trades(bars, t)
    ensures t in FoldCloses(bars) ==> ClosedAt(bars, t, FoldCloses(bars)[t])
  {
    if bars != [] {
      var rest := bars[1..];
      FoldIsClose(rest, t);
      if t in FoldCloses(rest) {
        var i :| IsLastClose(rest, i, t) && rest[i].close == FoldCloses(rest)[t];
        assert bars[i + 1] == rest[i];
        forall j | i + 1 < j < |bars| && bars[j].ts == t ensures bars[j].close <= 0.0 {
          assert bars[j] == rest[j - 1];
        }
        assert IsLastClose(bars, i + 1, t);
      } else {
        forall j | 0 < j < |bars| && bars[j].ts == t ensures bars[j].close <= 0.0 {
          assert bars[j] == rest[j - 1];
        }
        if bars[0].ts == t && bars[0].close > 0.0 {
          assert IsLastClose(bars, 0, t);
        }
      }
    }
  }

  lemma CloseIs(bars: seq<Bar>, t: int)
    ensures t in DailyCloses(bars) <==> Trades(bars, t)
    ensures t in DailyCloses(bars) ==> ClosedAt(bars, t, DailyCloses(bars)[t])
  {
    hide *;
    SortingIsIrrelevant(bars);
    FoldIsClose(bars, t);
  }

  lemma ClosePositive(bars: seq<Bar>, t: int, close: real)
    requires ClosedAt(bars, t, close)
    ensures close > 0.0
  {
  }

  // ----- who contributes to a session, and what

  /** Symbol `k` counts for the step from session `s` to session `t`: it trades on both, and is in the universe of the
      later one when there is a universe. */
  ghost predicate Contributes(panel: seq<Series>, universe: Universe, s: int, t: int, k: int) {
    && 0 <= k < |panel| && Trades(panel[k].bars, s) && Trades(panel[k].bars, t)
    && (universe.Some? ==> panel[k].symbol in universe.value(t))
  }

  /** `change` is the log of the symbol's close on `t` over its close on `s`. */
  ghost predicate IsChange(st: Stats, bars: seq<Bar>, s: int, t: int, change: real) {
    exists before, after :: before > 0.0 && ClosedAt(bars, s, before) && ClosedAt(bars, t, after)
                            && change == st.log(after / before)
  }

  /** `changes` are the changes of the contributing symbols, in panel order. */
  ghost predicate AreChanges(st: Stats, panel: seq<Series>, universe: Universe, s: int, t: int, changes: seq<real>) {
    exists members :: |members| == |changes| && ListsContributors(members, panel, universe, s, t)
                      && forall i | 0 <= i < |members| :: ChangeOf(st, panel, members[i], s, t, changes[i])
  }

  ghost predicate ChangeOf(st: Stats, panel: seq<Series>, k: int, s: int, t: int, change: real) {
    0 <= k < |panel| && IsChange(st, panel[k].bars, s, t, change)
  }

  ghost predicate ListsContributors(members: seq<int>, panel: seq<Series>, universe: Universe, s: int, t: int) {
    Increasing(members) && forall k :: k in members <==> Contributes(panel, universe, s, t, k)
  }

  lemma ChangeIs(st: Stats, bars: seq<Bar>, s: int, t: int)
    requires s in DailyCloses(bars) && t in DailyCloses(bars)
    ensures IsChange(st, bars, s, t, Change(st, DailyCloses(bars), s, t))
  {
    hide DailyCloses, ClosedAt;
    CloseIs(bars, s);
    CloseIs(bars, t);
    ClosePositive(bars, s, DailyCloses(bars)[s]);
  }

  /** Does the first symbol of the panel contribute, and with what. */
  lemma HeadStep(st: Stats, panel: seq<Series>, universe: Universe, s: int, t: int)
    requires panel != []
    ensures var head, tail := panel[0], panel[1..];
            StepReturns(st, Symbols(panel), Dailies(panel), universe, s, t)
            == (if Contributes(panel, universe, s, t, 0) then [ChangeFrom(st, head.bars, s, t)] else [])
               + StepReturns(st, Symbols(tail), Dailies(tail), universe, s, t)
    ensures Contributes(panel, universe, s, t, 0) ==>
              IsChange(st, panel[0].bars, s, t, ChangeFrom(st, panel[0].bars, s, t))
  {
    hide DailyCloses, Change, Trades, IsChange;
    CloseIs(panel[0].bars, s);
    CloseIs(panel[0].bars, t);
    assert Symbols(panel)[1..] == Symbols(panel[1..]) && Dailies(panel)[1..] == Dailies(panel[1..]);
    if s in DailyCloses(panel[0].bars) && t in DailyCloses(panel[0].bars) {
      ChangeIs(st, panel[0].bars, s, t);
    }
  }

  ghost function ChangeFrom(st: Stats, bars: seq<Bar>, s: int, t: int): real {
    var closes := DailyCloses(bars);
    if s in closes && t in closes then Change(st, closes, s, t) else 0.0
  }

  lemma {:induction false} StepMembers(st: Stats, panel: seq<Series>, universe: Universe, s: int, t: int)
    ensures AreChanges(st, panel, universe, s, t, StepReturns(st, Symbols(panel), Dailies(panel), universe, s, t))
  {
    hide *;
    if panel == [] {
      NobodyContributes(st, universe, s, t);
    } else {
      var tail := panel[1..];
      StepMembers(st, tail, universe, s, t);
      HeadStep(st, panel, universe, s, t);
      HeadChanges(st, panel, universe, s, t, ChangeFrom(st, panel[0].bars, s, t),
                  StepReturns(st, Symbols(tail), Dailies(tail), universe, s, t));
    }
  }

  lemma HeadChanges(st: Stats, panel: seq<Series>, universe: Universe, s: int, t: int, change: real, rest: seq<real>)
    requires panel != [] && AreChanges(st, panel[1..], universe, s, t, rest)
    requires Contributes(panel, universe, s, t, 0) ==> IsChange(st, panel[0].bars, s, t, change)
    ensures AreChanges(st, panel, universe, s, t,
                       (if Contributes(panel, universe, s, t, 0) then [change] else []) + rest)
  {
    hide ListsContributors, Contributes, IsChange;
    var tail := panel[1..];
    var below :| |below| == |rest| && ListsContributors(below, tail, universe, s, t)
                 && forall i | 0 <= i < |below| :: ChangeOf(st, tail, below[i], s, t, rest[i]);
    var shifted := seq(|below|, i requires 0 <= i < |below| => below[i] + 1);
    ShiftedContributors(panel, universe, s, t, below, shifted);
    forall i | 0 <= i < |shifted| ensures ChangeOf(st, panel, shifted[i], s, t, rest[i]) {
      assert ChangeOf(st, tail, below[i], s, t, rest[i]);
    }
    var mine := if Contributes(panel, universe, s, t, 0) then [0] else [];
    var all := (if Contributes(panel, universe, s, t, 0) then [change] else []) + rest;
    forall i | 0 <= i < |mine + shifted| ensures ChangeOf(st, panel, (mine + shifted)[i], s, t, all[i]) {
      if i >= |mine| {
        assert ChangeOf(st, panel, shifted[i - |mine|], s, t, rest[i - |mine|]);
      }
    }
  }

  lemma NobodyContributes(st: Stats, universe: Universe, s: int, t: int)
    ensures AreChanges(st, [], universe, s, t, StepReturns(st, Symbols([]), Dailies([]), universe, s, t))
  {
    assert ListsContributors([], [], universe, s, t);
  }

  lemma ShiftedContributors(panel: seq<Series>, universe: Universe, s: int, t: int, below: seq<int>, shifted: seq<int>)
    requires panel != [] && ListsContributors(below, panel[1..], universe, s, t)
    requires |shifted| == |below| && forall i | 0 <= i < |below| :: shifted[i] == below[i] + 1
    ensures ListsContributors((if Contributes(panel, universe, s, t, 0) then [0] else []) + shifted, panel, universe,
                              s, t)
  {
    hide Trades;
    var mine := if Contributes(panel, universe, s, t, 0) then [0] else [];
    forall k ensures k in mine + shifted <==> Contributes(panel, universe, s, t, k) {
      assert k > 0 ==> (Contributes(panel, universe, s, t, k) <==> Contributes(panel[1..], universe, s, t, k - 1));
      assert k - 1 in below <==> Contributes(panel[1..], universe, s, t, k - 1);
      if i :| 0 <= i < |below| && below[i] == k - 1 {
        assert shifted[i] == k;
      }
    }
    forall i | 0 <= i < |shifted| ensures shifted[i] > 0 {
      assert below[i] in below;
    }
  }

  // ----- the levels

  ghost predicate IsSession(panel: seq<Series>, t: int) {
    exists k :: 0 <= k < |panel| && Trades(panel[k].bars, t)
  }

  /** Session `s` comes right before session `t`. */
  ghost predicate Precedes(panel: seq<Series>, s: int, t: int) {
    IsSession(panel, s) && IsSession(panel, t) && s < t && forall u | s < u < t :: !IsSession(panel, u)
  }

  /** The level grows by the median change when three symbols contribute, and stays when fewer do. */
  ghost predicate StepsTo(st: Stats, panel: seq<Series>, universe: Universe, levels: map<int, real>, s: int, t: int) {
    s in levels && t in levels
    && exists changes :: AreChanges(st, panel, universe, s, t, changes)
                         && levels[t] == if |changes| >= 3 then levels[s] * st.exp(st.median(changes)) else levels[s]
  }

  lemma SessionIs(panel: seq<Series>, t: int)
    ensures t in AllDates(Dailies(panel)) <==> IsSession(panel, t)
  {
    hide DailyCloses, Trades;
    AllDatesMeaning(Dailies(panel), t);
    forall k | 0 <= k < |panel| ensures t in Dailies(panel)[k] <==> Trades(panel[k].bars, t) {
      CloseIs(panel[k].bars, t);
    }
  }

  lemma LevelsAt(st: Stats, panel: seq<Series>, universe: Universe, sessions: seq<int>)
    requires sessions == SortedSet(AllDates(Dailies(panel)))
    ensures forall t :: t in Levels(st, panel, universe) <==> t in sessions
    ensures forall k | 0 <= k < |sessions| ::
              Levels(st, panel, universe)[sessions[k]]
              == LevelAt(st, Symbols(panel), Dailies(panel), universe, sessions, k)
  {
    hide Symbols, Dailies, LevelAt, AllDates, SortedSet, LevelsTo;
    var symbols, daily, n := Symbols(panel), Dailies(panel), |sessions|;
    LevelsToKeys(st, symbols, daily, universe, sessions, n);
    assert sessions[..n] == sessions;
    forall k | 0 <= k < n
      ensures Levels(st, panel, universe)[sessions[k]] == LevelAt(st, symbols, daily, universe, sessions, k)
    {
      LevelsToAt(st, symbols, daily, universe, sessions, n, k);
    }
  }

  /** The index has a level on exactly the sessions of its symbols: one on the first, and each next from the one
      before. */
  lemma LevelsInFull(st: Stats, panel: seq<Series>, universe: Universe)
    ensures var levels := Levels(st, panel, universe);
            && (forall t :: t in levels <==> IsSession(panel, t))
            && (forall t | IsSession(panel, t) && (forall u | u < t :: !IsSession(panel, u)) :: levels[t] == 1.0)
            && (forall s, t | Precedes(panel, s, t) :: StepsTo(st, panel, universe, levels, s, t))
  {
    hide *;
    var levels, sessions := Levels(st, panel, universe), SortedSet(AllDates(Dailies(panel)));
    LevelsAt(st, panel, universe, sessions);
    forall t ensures t in levels <==> IsSession(panel, t) {
      SessionIs(panel, t);
    }
    forall t | IsSession(panel, t) && (forall u | u < t :: !IsSession(panel, u)) ensures levels[t] == 1.0 {
      var k :| 0 <= k < |sessions| && sessions[k] == t;
      EarliestIsFirst(panel, sessions, k);
      FirstLevel(st, Symbols(panel), Dailies(panel), universe, sessions);
    }
    forall s, t | Precedes(panel, s, t) ensures StepsTo(st, panel, universe, levels, s, t) {
      var k := PositionAfter(panel, sessions, s, t);
      LevelStep(st, Symbols(panel), Dailies(panel), universe, sessions, k);
      StepMembers(st, panel, universe, s, t);
      StepsBy(st, panel, universe, levels, s, t, StepReturns(st, Symbols(panel), Dailies(panel), universe, s, t));
    }
  }

  lemma EarliestIsFirst(panel: seq<Series>, sessions: seq<int>, k: nat)
    requires sessions == SortedSet(AllDates(Dailies(panel))) && k < |sessions|
    requires forall u | u < sessions[k] :: !IsSession(panel, u)
    ensures k == 0
  {
    hide Dailies, AllDates, IsSession;
    if k > 0 {
      assert sessions[0] in sessions;
      SessionIs(panel, sessions[0]);
    }
  }

  lemma PositionAfter(panel: seq<Series>, sessions: seq<int>, s: int, t: int) returns (k: nat)
    requires sessions == SortedSet(AllDates(Dailies(panel))) && Precedes(panel, s, t)
    ensures 0 < k < |sessions| && sessions[k - 1] == s && sessions[k] == t
  {
    hide Dailies, AllDates, IsSession;
    SessionIs(panel, s);
    SessionIs(panel, t);
    var j :| 0 <= j < |sessions| && sessions[j] == s;
    k :| 0 <= k < |sessions| && sessions[k] == t;
    assert j < k;
    if j + 1 < k {
      assert sessions[j + 1] in sessions;
      SessionIs(panel, sessions[j + 1]);
    }
  }

  lemma StepsBy(st: Stats, panel: seq<Series>, universe: Universe, levels: map<int, real>, s: int, t: int,
                changes: seq<real>)
    requires s in levels && t in levels && AreChanges(st, panel, universe, s, t, changes)
    requires levels[t] == NextLevel(st, levels[s], changes)
    ensures StepsTo(st, panel, universe, levels, s, t)
  {
    hide AreChanges;
  }

  // ----- the projection

  /** Bar `j` is the last one up to bar `i` whose session has a level. */
  ghost predicate IsLastLevel(levels: map<int, real>, bars: seq<Bar>, i: int, j: int) {
    && 0 <= j <= i < |bars| && bars[j].ts in levels
    && forall m | j < m <= i :: bars[m].ts !in levels
  }

  /** Each bar of the symbol is given the level of its last bar so far that has one, and one before the first. */
  lemma {:induction false} ProjectionInFull(levels: map<int, real>, bars: seq<Bar>, i: nat)
    requires i < |bars|
    ensures forall j | IsLastLevel(levels, bars, i, j) :: Project(levels, bars)[i] == levels[bars[j].ts]
    ensures (forall j | 0 <= j <= i :: bars[j].ts !in levels) ==> Project(levels, bars)[i] == 1.0
  {
    if bars[i].ts !in levels && i > 0 {
      ProjectionInFull(levels, bars, i - 1);
      forall j | IsLastLevel(levels, bars, i, j) ensures Project(levels, bars)[i] == levels[bars[j].ts] {
        assert IsLastLevel(levels, bars, i - 1, j);
      }
    }
  }
}

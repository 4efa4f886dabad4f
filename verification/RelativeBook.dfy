/**
 The books behind `relative_metrics`, and on which sessions its long book is the gate's own: the metrics skip one-row
 sessions before the sleeves rotate, the gate does not.
 */
module RelativeBook {
  import opened Common
  import opened Portfolio
  import opened PortfolioBooks
  import opened BookWindow

  // ----- the sessions that are ranked

  predicate Keeps(rows: seq<Row>) {
    |rows| >= 2
  }

  /** `[d for d in sorted(by_date) if len(by_date[d]) >= 2]` */
  function Ranked(sessions: seq<seq<Row>>): seq<seq<Row>> {
    if sessions == [] then [] else
      Ranked(sessions[..|sessions| - 1]) + (if Keeps(sessions[|sessions| - 1]) then [sessions[|sessions| - 1]] else [])
  }

  /** Where the ranked sessions stand among all. */
  function Kept(sessions: seq<seq<Row>>): seq<nat> {
    if sessions == [] then [] else
      Kept(sessions[..|sessions| - 1]) + (if Keeps(sessions[|sessions| - 1]) then [|sessions| - 1] else [])
  }

  /** The ranked index of a kept session. */
  function KeptBefore(sessions: seq<seq<Row>>, t: nat): nat
    requires t <= |sessions|
  {
    |Ranked(sessions[..t])|
  }

  function OneRowBefore(sessions: seq<seq<Row>>, t: nat): nat
    requires t <= |sessions|
  {
    if t == 0 then 0 else OneRowBefore(sessions, t - 1) + if Keeps(sessions[t - 1]) then 0 else 1
  }

  ghost predicate NoneSkipped(sessions: seq<seq<Row>>, lo: int, hi: int)
    requires hi <= |sessions|
  {
    forall u | 0 <= u && lo <= u < hi :: Keeps(sessions[u])
  }

  lemma {:induction false} KeptMeaning(sessions: seq<seq<Row>>)
    ensures |Kept(sessions)| == |Ranked(sessions)| <= |sessions|
    ensures forall k | 0 <= k < |Ranked(sessions)| ::
              Kept(sessions)[k] < |sessions| && Ranked(sessions)[k] == sessions[Kept(sessions)[k]]
              && Keeps(sessions[Kept(sessions)[k]]) && KeptBefore(sessions, Kept(sessions)[k]) == k
  {
    if sessions != [] {
      var n := |sessions| - 1;
      var front := sessions[..n];
      KeptMeaning(front);
      forall k | 0 <= k < |Ranked(front)| ensures sessions[..Kept(front)[k]] == front[..Kept(front)[k]] {
      }
    }
  }

  lemma {:induction false} RankPlusOneRow(sessions: seq<seq<Row>>, t: nat)
    requires t <= |sessions|
    ensures KeptBefore(sessions, t) + OneRowBefore(sessions, t) == t
  {
    if t > 0 {
      RankPlusOneRow(sessions, t - 1);
      assert sessions[..t][..t - 1] == sessions[..t - 1];
    }
  }

  lemma {:induction false} KeptAtRank(sessions: seq<seq<Row>>, t: nat)
    requires t < |sessions| && Keeps(sessions[t])
    ensures KeptBefore(sessions, t) < |Ranked(sessions)| && KeptBefore(sessions, t) < |Kept(sessions)|
    ensures Kept(sessions)[KeptBefore(sessions, t)] == t && Ranked(sessions)[KeptBefore(sessions, t)] == sessions[t]
  {
    var n := |sessions| - 1;
    var front := sessions[..n];
    KeptMeaning(front);
    KeptMeaning(sessions);
    assert front[..t] == sessions[..t];
    if t < n {
      KeptAtRank(front, t);
    }
  }

  lemma {:induction false} OneRowMonotone(sessions: seq<seq<Row>>, u: nat, t: nat)
    requires u <= t <= |sessions|
    ensures OneRowBefore(sessions, u) <= OneRowBefore(sessions, t)
    ensures NoneSkipped(sessions, u, t) ==> OneRowBefore(sessions, u) == OneRowBefore(sessions, t)
  {
    if u < t {
      OneRowMonotone(sessions, u, t - 1);
    }
  }

  // ----- which session a sleeve comes from

  /** The session whose selection the metrics' sleeve `j` holds at ranked index `k`; -1 when there is none. */
  function MetricsSource(sessions: seq<seq<Row>>, tranches: nat, k: nat, j: nat): int
    requires tranches > 0 && k < |Ranked(sessions)|
  {
    KeptMeaning(sessions);
    LatestBound(k, j, tranches);
    var s := Latest(k, j, tranches);
    if s < 0 then -1 else Kept(sessions)[s]
  }

  /** On kept session `t` the two books take sleeve `j` from the same session (`Latest` is the gate's). */
  ghost predicate SameSource(sessions: seq<seq<Row>>, tranches: nat, t: nat, j: nat)
    requires tranches > 0 && t < |sessions| && KeptBefore(sessions, t) < |Ranked(sessions)|
  {
    Latest(t, j, tranches) == MetricsSource(sessions, tranches, KeptBefore(sessions, t), j)
  }

  lemma NotYet(k: nat, j: nat, tranches: nat)
    requires k < j < tranches
    ensures Latest(k, j, tranches) == -1
  {
    hide *;
    LatestAt(k, j, tranches, 0);
    if Latest(k, j, tranches) >= 0 {
      SmallResidue(Latest(k, j, tranches), tranches);
    }
  }

  lemma NoRefreshYet(t: nat, j: nat, tranches: nat)
    requires j < tranches && Latest(t, j, tranches) < 0
    ensures t < j
  {
    hide *;
    SmallResidue(j, tranches);
    LatestAt(t, j, tranches, j);
  }

  lemma RefreshIsRecent(t: nat, j: nat, tranches: nat)
    requires j < tranches && Latest(t, j, tranches) >= 0
    ensures Latest(t, j, tranches) <= t < Latest(t, j, tranches) + tranches
  {
    hide *;
    var u := Latest(t, j, tranches);
    LatestAt(t, j, tranches, u + tranches);
    OneTurn(u, tranches);
  }

  /** A sleeve comes from the same session exactly when that session was ranked and the number of one-row sessions
      before it is a multiple of the tranches (or the sleeve was never refreshed). */
  lemma SameSourceIff(sessions: seq<seq<Row>>, tranches: nat, t: nat, j: nat)
    requires j < tranches && t < |sessions| && Keeps(sessions[t])
    ensures KeptBefore(sessions, t) < |Ranked(sessions)|
    ensures SameSource(sessions, tranches, t, j) <==>
              var u := Latest(t, j, tranches);
              u < 0 || (u <= t && Keeps(sessions[u]) && OneRowBefore(sessions, u) % tranches == 0)
  {
    hide Ranked, Kept, OneRowBefore, Keeps, KeptBefore;
    KeptAtRank(sessions, t);
    KeptMeaning(sessions);
    RankPlusOneRow(sessions, t);
    var k, u := KeptBefore(sessions, t), Latest(t, j, tranches);
    if u < 0 {
      NoRefreshYet(t, j, tranches);
      NotYet(k, j, tranches);
      NotYet(t, j, tranches);
    } else {
      RefreshIsRecent(t, j, tranches);
      LatestAt(t, j, tranches, 0);
      LatestAt(k, j, tranches, 0);
      RankPlusOneRow(sessions, u);
      OneRowMonotone(sessions, u, t);
      var ku := KeptBefore(sessions, u);
      SameResidueIff(u, ku, tranches);
      if Keeps(sessions[u]) {
        KeptAtRank(sessions, u);
        if OneRowBefore(sessions, u) % tranches == 0 {
          assert ku <= k by { RankMonotone(sessions, u, t); }
          HeldForTranches(ku, tranches, k);
        }
      }
    }
  }

  lemma {:induction false} RankMonotone(sessions: seq<seq<Row>>, u: nat, t: nat)
    requires u <= t <= |sessions|
    ensures KeptBefore(sessions, u) <= KeptBefore(sessions, t)
  {
    if u < t {
      RankMonotone(sessions, u, t - 1);
      assert sessions[..t][..t - 1] == sessions[..t - 1];
    }
  }

  ghost predicate SameSources(sessions: seq<seq<Row>>, tranches: nat, t: nat)
    requires tranches > 0 && t < |sessions| && KeptBefore(sessions, t) < |Ranked(sessions)|
  {
    forall j | 0 <= j < tranches :: SameSource(sessions, tranches, t, j)
  }

  /** The whole book comes from the same sessions exactly when none of the last `tranches` sessions was skipped and the
      number of one-row sessions so far is a multiple of the tranches. */
  lemma SameSourcesIff(sessions: seq<seq<Row>>, tranches: nat, t: nat)
    requires tranches > 0 && t < |sessions| && Keeps(sessions[t])
    ensures KeptBefore(sessions, t) < |Ranked(sessions)|
    ensures SameSources(sessions, tranches, t) <==>
              NoneSkipped(sessions, t - tranches + 1, t) && OneRowBefore(sessions, t) % tranches == 0
  {
    hide Ranked, OneRowBefore, SameSource, Keeps, KeptBefore;
    KeptAtRank(sessions, t);
    if NoneSkipped(sessions, t - tranches + 1, t) && OneRowBefore(sessions, t) % tranches == 0 {
      forall j | 0 <= j < tranches ensures SameSource(sessions, tranches, t, j) {
        SameSourceIff(sessions, tranches, t, j);
        var u := Latest(t, j, tranches);
        if u >= 0 {
          RefreshIsRecent(t, j, tranches);
          OneRowMonotone(sessions, u, t);
        }
      }
    }
    if SameSources(sessions, tranches, t) {
      forall u | 0 <= u && t - tranches + 1 <= u <= t
        ensures Keeps(sessions[u]) && OneRowBefore(sessions, u) % tranches == 0
      {
        HeldForTranches(u, tranches, t);
        SameSourceIff(sessions, tranches, t, u % tranches);
      }
    }
  }

  lemma NothingBeforeFirst(sessions: seq<seq<Row>>)
    ensures OneRowBefore(sessions, 0) == 0
  {
  }

  // ----- the ranked sessions so far

  lemma {:induction false} RankedJoin(a: seq<seq<Row>>, b: seq<seq<Row>>)
    ensures Ranked(a + b) == Ranked(a) + Ranked(b)
  {
    if b == [] {
      assert a + b == a;
    } else {
      var n := |b| - 1;
      assert (a + b)[..|a + b| - 1] == a + b[..n];
      RankedJoin(a, b[..n]);
    }
  }

  lemma {:induction false} NoneDropped(sessions: seq<seq<Row>>)
    requires NoneSkipped(sessions, 0, |sessions|)
    ensures Ranked(sessions) == sessions
  {
    if sessions != [] {
      NoneDropped(sessions[..|sessions| - 1]);
    }
  }

  lemma RankedSoFar(sessions: seq<seq<Row>>, m: nat)
    requires m <= |sessions|
    ensures KeptBefore(sessions, m) <= |Ranked(sessions)|
    ensures Ranked(sessions)[..KeptBefore(sessions, m)] == Ranked(sessions[..m])
  {
    assert sessions == sessions[..m] + sessions[m..];
    RankedJoin(sessions[..m], sessions[m..]);
  }

  /** When none of the last `n` was skipped, the last `n` of the ranked sessions so far are those of all of them. */
  lemma SameTail(sessions: seq<seq<Row>>, m: nat, n: nat)
    requires m <= |sessions| && NoneSkipped(sessions, m - n, m)
    ensures KeptBefore(sessions, m) <= |Ranked(sessions)|
    ensures LastN(Ranked(sessions)[..KeptBefore(sessions, m)], n) == LastN(sessions[..m], n)
  {
    assert NoneSkipped(sessions[..m], m - n, m);
    hide *;
    RankedSoFar(sessions, m);
    SameTailOf(sessions[..m], n);
  }

  lemma SameTailOf(sessions: seq<seq<Row>>, n: nat)
    requires NoneSkipped(sessions, |sessions| - n, |sessions|)
    ensures LastN(Ranked(sessions), n) == LastN(sessions, n)
  {
    hide Ranked, Keeps, LastN;
    if |sessions| <= n {
      NoneDropped(sessions);
    } else {
      var a, b := sessions[..|sessions| - n], sessions[|sessions| - n..];
      assert sessions == a + b;
      RankedJoin(a, b);
      NoneDropped(b);
      LastOf(a, b);
      LastOf(Ranked(a), b);
    }
  }

  lemma LastOf<T>(a: seq<T>, b: seq<T>)
    ensures LastN(a + b, |b|) == b
  {
  }

  // ----- on which sessions the books agree

  /** On kept session `t` the two books hold the same names, each as often. */
  ghost predicate BooksAgree(sessions: seq<seq<Row>>, rule: Rule, tranches: nat, t: nat)
    requires tranches > 0 && t < |sessions|
  {
    var k := KeptBefore(sessions, t);
    && k < |Ranked(sessions)|
    && Chained(Sleeves(sessions, rule, tranches, t + 1)) == Chained(Sleeves(Ranked(sessions), rule, tranches, k + 1))
  }

  lemma KeptNext(sessions: seq<seq<Row>>, t: nat)
    requires t < |sessions| && Keeps(sessions[t])
    ensures KeptBefore(sessions, t + 1) == KeptBefore(sessions, t) + 1 <= |Ranked(sessions)|
    ensures Ranked(sessions)[KeptBefore(sessions, t)] == sessions[t]
  {
    assert sessions[..t + 1][..t] == sessions[..t];
    KeptAtRank(sessions, t);
  }

  lemma SameBookWhenNoneSkipped(sessions: seq<seq<Row>>, rule: Rule, tranches: nat, t: nat)
    requires tranches > 0 && t < |sessions| && Keeps(sessions[t]) && NoneSkipped(sessions, t - tranches + 1, t)
    ensures BooksAgree(sessions, rule, tranches, t)
  {
    hide Ranked, KeptBefore, Keeps, Chained, LastN;
    KeptNext(sessions, t);
    SameTail(sessions, t + 1, tranches);
    BookIsWindow(sessions, rule, tranches, t + 1);
    BookIsWindow(Ranked(sessions), rule, tranches, KeptBefore(sessions, t) + 1);
  }

  lemma SameReplaced(sessions: seq<seq<Row>>, rule: Rule, tranches: nat, t: nat)
    requires tranches > 0 && t < |sessions| && Keeps(sessions[t])
    requires t < tranches || NoneSkipped(sessions, t - tranches, t)
    ensures KeptBefore(sessions, t) < |Ranked(sessions)|
    ensures Replaced(sessions, rule, tranches, t) == Replaced(Ranked(sessions), rule, tranches, KeptBefore(sessions, t))
  {
    hide Ranked, KeptBefore, Keeps, Selected;
    KeptNext(sessions, t);
    RankPlusOneRow(sessions, t);
    var k := KeptBefore(sessions, t);
    if t >= tranches {
      SameTail(sessions, t, tranches);
      assert LastN(sessions[..t], tranches)[0] == sessions[t - tranches];
      LastHas(Ranked(sessions)[..k], tranches);
    }
  }

  lemma LastHas<T>(s: seq<T>, n: nat)
    ensures |LastN(s, n)| == n > 0 ==> |s| >= n && LastN(s, n)[0] == s[|s| - n]
  {
  }

  ghost predicate TurnoversAgree(sessions: seq<seq<Row>>, rule: Rule, tranches: nat, t: nat)
    requires tranches > 0 && t < |sessions|
  {
    var k := KeptBefore(sessions, t);
    && k < |Ranked(sessions)|
    && Turnover(Entered(sessions, rule, tranches, t), |Selected(sessions[t], rule)|, tranches)
    == Turnover(Entered(Ranked(sessions), rule, tranches, k), |Selected(Ranked(sessions)[k], rule)|, tranches)
  }

  lemma SameEntered(sessions: seq<seq<Row>>, rule: Rule, tranches: nat, t: nat)
    requires tranches > 0 && t < |sessions| && Keeps(sessions[t])
    requires t < tranches || NoneSkipped(sessions, t - tranches, t)
    ensures var k := KeptBefore(sessions, t);
            && k < |Ranked(sessions)| && Ranked(sessions)[k] == sessions[t]
            && Entered(sessions, rule, tranches, t) == Entered(Ranked(sessions), rule, tranches, k)
  {
    hide Selected, Ranked, Keeps, KeptBefore, SleeveAt, Replaced;
    KeptNext(sessions, t);
    SameReplaced(sessions, rule, tranches, t);
    ReplacedSleeve(sessions, rule, tranches, t);
    ReplacedSleeve(Ranked(sessions), rule, tranches, KeptBefore(sessions, t));
  }

  /** The gate's line on session `t` and the metrics' on the same session. */
  ghost predicate LinesAgree(sessions: seq<seq<Row>>, rule: Rule, tranches: nat, costs: Costs, t: nat)
    requires tranches > 0 && t < |sessions|
  {
    var k := KeptBefore(sessions, t);
    k < |Ranked(sessions)| && OverlapLine(EntryAt(sessions, rule, tranches, costs, t), sessions[t])
                           == OverlapLine(EntryAt(Ranked(sessions), rule, tranches, costs, k), Ranked(sessions)[k])
  }

  ghost predicate GrossAgrees(sessions: seq<seq<Row>>, rule: Rule, tranches: nat, t: nat)
    requires tranches > 0 && t < |sessions|
  {
    var k := KeptBefore(sessions, t);
    k < |Ranked(sessions)| && GrossOf(Sleeves(sessions, rule, tranches, t + 1), sessions[t])
                           == GrossOf(Sleeves(Ranked(sessions), rule, tranches, k + 1), Ranked(sessions)[k])
  }

  ghost function GrossOf(held: seq<set<string>>, rows: seq<Row>): real {
    Mean(HeldTotal(held, rows), HeldCount(held))
  }

  lemma HeldIs(sessions: seq<seq<Row>>, rule: Rule, tranches: nat, costs: Costs, t: nat)
    requires tranches > 0 && t < |sessions|
    ensures EntryAt(sessions, rule, tranches, costs, t).held == Sleeves(sessions, rule, tranches, t + 1)
    ensures OverlapLine(EntryAt(sessions, rule, tranches, costs, t), sessions[t]).gross
         == GrossOf(Sleeves(sessions, rule, tranches, t + 1), sessions[t])
  {
    hide SleeveAt, Entered, Turnover, CostOf, Selected, HeldTotal, HeldCount, HeldNames;
    assert EntryAt(sessions, rule, tranches, costs, t).held == Sleeves(sessions, rule, tranches, t + 1);
  }

  lemma SameBookSameGross(sessions: seq<seq<Row>>, rule: Rule, tranches: nat, t: nat)
    requires tranches > 0 && t < |sessions| && Keeps(sessions[t]) && BooksAgree(sessions, rule, tranches, t)
    ensures GrossAgrees(sessions, rule, tranches, t)
  {
    hide Ranked, KeptBefore, Keeps, Chained, HeldTotal, HeldCount, HeldNames, Sleeves;
    KeptNext(sessions, t);
    SameBookSameReturn(Sleeves(sessions, rule, tranches, t + 1),
                       Sleeves(Ranked(sessions), rule, tranches, KeptBefore(sessions, t) + 1), sessions[t]);
  }

  /** With the session a refresh replaces ranked too, the lines are the same: return, turnover, cost and names. */
  lemma SameLineWhenNoneSkipped(sessions: seq<seq<Row>>, rule: Rule, tranches: nat, costs: Costs, t: nat)
    requires tranches > 0 && t < |sessions| && NoneSkipped(sessions, t - tranches, t + 1)
    ensures LinesAgree(sessions, rule, tranches, costs, t)
  {
    hide Selected, Ranked, Keeps, KeptBefore, SleeveAt, Entered, Turnover, CostOf, HeldTotal, HeldCount, HeldNames,
         Chained, Sleeves;
    SameBookWhenNoneSkipped(sessions, rule, tranches, t);
    SameEntered(sessions, rule, tranches, t);
    var k := KeptBefore(sessions, t);
    HeldIs(sessions, rule, tranches, costs, t);
    HeldIs(Ranked(sessions), rule, tranches, costs, k);
    SameBookSameReturn(Sleeves(sessions, rule, tranches, t + 1), Sleeves(Ranked(sessions), rule, tranches, k + 1),
                       sessions[t]);
  }

  /** Until the first one-row session the two books are one. */
  lemma SameUntilFirstOneRow(sessions: seq<seq<Row>>, rule: Rule, tranches: nat, costs: Costs, t: nat)
    requires tranches > 0 && t < |sessions| && NoneSkipped(sessions, 0, t + 1)
    ensures KeptBefore(sessions, t) == t && LinesAgree(sessions, rule, tranches, costs, t)
  {
    hide Ranked, Keeps, KeptBefore, EntryAt, OverlapLine;
    RankPlusOneRow(sessions, t);
    NothingBeforeFirst(sessions);
    OneRowMonotone(sessions, 0, t);
    SameLineWhenNoneSkipped(sessions, rule, tranches, costs, t);
  }

  /** With one tranche every ranked session has the same book. Turnover and cost are charged against the session
      before it in each list. */
  lemma OneTrancheSameBook(sessions: seq<seq<Row>>, rule: Rule, t: nat)
    requires t < |sessions| && Keeps(sessions[t])
    ensures BooksAgree(sessions, rule, 1, t) && GrossAgrees(sessions, rule, 1, t)
    ensures Entered(sessions, rule, 1, t)
         == Selected(sessions[t], rule) - (if t == 0 then {} else Selected(sessions[t - 1], rule))
    ensures var k := KeptBefore(sessions, t);
            k < |Ranked(sessions)| && k <= |Kept(sessions)|
            && Entered(Ranked(sessions), rule, 1, k) == Selected(sessions[t], rule)
                 - (if k == 0 then {} else (KeptMeaning(sessions); Selected(sessions[Kept(sessions)[k - 1]], rule)))
  {
    hide Ranked, Kept, Keeps, KeptBefore, Selected, SleeveAt, BooksAgree, GrossAgrees;
    KeptAtRank(sessions, t);
    KeptMeaning(sessions);
    SameBookWhenNoneSkipped(sessions, rule, 1, t);
    SameBookSameGross(sessions, rule, 1, t);
    ReplacedSleeve(sessions, rule, 1, t);
    ReplacedSleeve(Ranked(sessions), rule, 1, KeptBefore(sessions, t));
  }

  // ----- the loop of relative_metrics

  /** What `relative_metrics` appends for one ranked session. */
  datatype RelativeLine = RelativeLine(net: real, gross: real, turnover: real, cost: real, short: real, bench: real)

  ghost function RelativeLineAt(ranked: seq<seq<Row>>, quantile: real, tranches: nat, costs: Costs,
                                k: nat): RelativeLine
    requires tranches > 0 && k < |ranked|
  {
    var long := OverlapLine(EntryAt(ranked, Rule(quantile, true), tranches, costs, k), ranked[k]);
    var short := OverlapLine(EntryAt(ranked, Rule(quantile, false), tranches, costs, k), ranked[k]);
    RelativeLine(long.net, long.gross, long.turnover, long.cost, short.gross,
                 Mean(Sum(NextReturns(ranked[k])), |ranked[k]|))
  }

  /** The long and short books over the ranked sessions, and the equal-weight return beside them. */
  method RelativeLines(sessions: seq<seq<Row>>, quantile: real, tranches: nat, costs: Costs)
    returns (lines: seq<RelativeLine>)
    requires tranches > 0
    ensures |lines| == |Ranked(sessions)|
    ensures forall k | 0 <= k < |lines| :: lines[k] == RelativeLineAt(Ranked(sessions), quantile, tranches, costs, k)
  {
    hide Ranked, IsEntry, EntryAt, RelativeLineAt;
    var ranked := Ranked(sessions);
    var long := TrancheHoldings(ranked, Rule(quantile, true), tranches, costs);
    var short := TrancheHoldings(ranked, Rule(quantile, false), tranches, costs);
    lines := [];
    for k := 0 to |ranked|
      invariant |lines| == k
      invariant forall i | 0 <= i < k :: lines[i] == RelativeLineAt(ranked, quantile, tranches, costs, i)
    {
      EntryUnique(long[k], ranked, Rule(quantile, true), tranches, costs, k);
      EntryUnique(short[k], ranked, Rule(quantile, false), tranches, costs, k);
      var gross, _ := BookGross(long[k].held, ranked[k]);
      var shorted, _ := BookGross(short[k].held, ranked[k]);
      var bench := Mean(Sum(NextReturns(ranked[k])), |ranked[k]|);
      var line := RelativeLine(gross - long[k].cost, gross, long[k].turnover, long[k].cost, shorted, bench);
      IsRelativeLine(line, ranked, quantile, tranches, costs, k);
      lines := lines + [line];
    }
  }

  lemma IsRelativeLine(line: RelativeLine, ranked: seq<seq<Row>>, quantile: real, tranches: nat, costs: Costs, k: nat)
    requires tranches > 0 && k < |ranked|
    requires var long := EntryAt(ranked, Rule(quantile, true), tranches, costs, k);
             && line.gross == Mean(HeldTotal(long.held, ranked[k]), HeldCount(long.held))
             && line.net == line.gross - long.cost && line.turnover == long.turnover && line.cost == long.cost
    requires var short := EntryAt(ranked, Rule(quantile, false), tranches, costs, k);
             line.short == Mean(HeldTotal(short.held, ranked[k]), HeldCount(short.held))
    requires line.bench == Mean(Sum(NextReturns(ranked[k])), |ranked[k]|)
    ensures line == RelativeLineAt(ranked, quantile, tranches, costs, k)
  {
    hide EntryAt, HeldTotal, HeldCount, Mean;
  }

  /** A session of the metrics, written out: the mean return there over the names the highest-ranked picks of the
      last `tranches` ranked sessions hold, less the cost; the same over the lowest-ranked picks, uncharged; and over
      every row. */
  lemma RelativeInFull(ranked: seq<seq<Row>>, quantile: real, tranches: nat, costs: Costs, k: nat,
                       gains: string -> real, all: seq<real>)
    requires tranches > 0 && k < |ranked| && ranked[k] != []
    requires forall name :: IsReturn(gains(name), ranked[k], name)
    requires |all| == |ranked[k]| && forall i | 0 <= i < |all| :: all[i] == ranked[k][i].nextReturn
    ensures var line := RelativeLineAt(ranked, quantile, tranches, costs, k);
            var window := ranked[if k < tranches then 0 else k - tranches + 1..k + 1];
            var best, worst := Picked(window, Rule(quantile, true)), Picked(window, Rule(quantile, false));
            && |best| > 0 && line.gross * |best| as real == BagTotal(best, gains) && line.net == line.gross - line.cost
            && |worst| > 0 && line.short * |worst| as real == BagTotal(worst, gains)
            && line.bench * |all| as real == Sum(all)
  {
    hide EntryAt, Mean, NextReturns, Picked, BagTotal, IsReturn, OverlapLine, Sum;
    GrossInFull(ranked, Rule(quantile, true), tranches, costs, k, gains);
    GrossInFull(ranked, Rule(quantile, false), tranches, costs, k, gains);
    ReturnsListed(ranked[k], all);
    MeanBack(Sum(NextReturns(ranked[k])), |ranked[k]|);
  }

  /** On every such session the gate's loop and the metrics' loop append the same return, turnover and cost. */
  lemma LoopsAgree(sessions: seq<seq<Row>>, quantile: real, tranches: nat, costs: Costs, t: nat)
    requires tranches > 0 && t < |sessions| && NoneSkipped(sessions, t - tranches, t + 1)
    ensures KeptBefore(sessions, t) < |Ranked(sessions)|
    ensures var gate := OverlapSeries(sessions, Rule(quantile, true), tranches, costs, |sessions|)[t];
            var metrics := RelativeLineAt(Ranked(sessions), quantile, tranches, costs, KeptBefore(sessions, t));
            && metrics.net == gate.net && metrics.gross == gate.gross
            && metrics.turnover == gate.turnover && metrics.cost == gate.cost
  {
    hide Ranked, Keeps, KeptBefore, EntryAt, OverlapLine, NoneSkipped;
    OverlapSeriesAt(sessions, Rule(quantile, true), tranches, costs, |sessions|, t);
    SameLineWhenNoneSkipped(sessions, Rule(quantile, true), tranches, costs, t);
  }
}

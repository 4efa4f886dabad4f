/**
 What the rotating sleeves add up to: after every session the book is the selections of the last `tranches` sessions,
 and everything a line reports of it, bar turnover and cost, depends on that alone.
 */
module BookWindow {
  import opened Common
  import opened Portfolio
  import opened PortfolioBooks

  // ----- residues

  lemma SameResidueIff(a: nat, b: nat, n: nat)
    requires b <= a && n > 0
    ensures a % n == b % n <==> (a - b) % n == 0
  {
    var p, q, d := a / n, b / n, (a - b) / n;
    assert a == n * p + a % n && b == n * q + b % n && a - b == n * d + (a - b) % n;
    if a % n == b % n {
      assert a - b == n * (p - q);
      Residue(n, p - q, d, 0, (a - b) % n);
    }
    if (a - b) % n == 0 {
      assert a == n * (q + d) + b % n;
      Residue(n, p, q + d, a % n, b % n);
    }
  }

  lemma Residue(n: nat, p: int, q: int, r: int, s: int)
    requires n > 0 && n * p + r == n * q + s && 0 <= r < n && 0 <= s < n
    ensures r == s
  {
    assert n * (p - q) == s - r;
    Multiple(n, p - q);
    Multiple(n, q - p);
    assert n * (q - p) == r - s;
  }

  // ----- what a refresh replaces

  lemma SmallResidue(s: nat, n: nat)
    requires s < n
    ensures s % n == s
  {
  }

  /** What `Latest` says of one session. */
  lemma LatestAt(t: int, j: nat, tranches: nat, s: nat)
    requires tranches > 0 && t >= -1
    ensures -1 <= Latest(t, j, tranches) <= t
    ensures Latest(t, j, tranches) >= 0 ==> Latest(t, j, tranches) % tranches == j
    ensures Latest(t, j, tranches) < s <= t ==> s % tranches != j
  {
    hide *;
    LatestMeaning(t, j, tranches);
  }

  lemma OneTurn(u: nat, n: nat)
    requires n > 0
    ensures (u + n) % n == u % n
  {
    hide *;
    SameResidueIff(u + n, u, n);
  }

  lemma PreviousRefresh(t: nat, tranches: nat)
    requires tranches > 0
    ensures Latest(t - 1, t % tranches, tranches) == if t >= tranches then t - tranches else -1
  {
    hide *;
    if t >= tranches {
      OneTurn(t - tranches, tranches);
      HeldForTranches(t - tranches, tranches, t - 1);
    } else {
      SmallResidue(t, tranches);
      LatestAt(t - 1, t, tranches, 0);
      if Latest(t - 1, t, tranches) >= 0 {
        SmallResidue(Latest(t - 1, t, tranches), tranches);
      }
    }
  }

  /** What leaves the book on session `t`. */
  function Replaced(sessions: seq<seq<Row>>, rule: Rule, tranches: nat, t: nat): set<string>
    requires t < |sessions|
  {
    if t >= tranches then Selected(sessions[t - tranches], rule) else {}
  }

  /** What the active sleeve held before it was refreshed. */
  lemma ReplacedSleeve(sessions: seq<seq<Row>>, rule: Rule, tranches: nat, t: nat)
    requires tranches > 0 && t < |sessions|
    ensures SleeveAt(sessions, rule, tranches, t - 1, Active(t, tranches))
         == Replaced(sessions, rule, tranches, t)
  {
    hide Selected;
    PreviousRefresh(t, tranches);
  }

  // ----- the names held, sleeve by sleeve

  /** `[name for sleeve in sleeves for name in sleeve]`, whatever the order. */
  ghost function Chained(held: seq<set<string>>): multiset<string> {
    if held == [] then multiset{} else Chained(held[..|held| - 1]) + multiset(held[|held| - 1])
  }

  lemma {:induction false} ChainedJoin(a: seq<set<string>>, b: seq<set<string>>)
    ensures Chained(a + b) == Chained(a) + Chained(b)
  {
    if b == [] {
      assert a + b == a;
    } else {
      var n := |b| - 1;
      assert (a + b)[..|a + b| - 1] == a + b[..n];
      ChainedJoin(a, b[..n]);
    }
  }

  lemma ChainedUpdate(held: seq<set<string>>, j: nat, sleeve: set<string>)
    requires j < |held|
    ensures Chained(held[j := sleeve]) + multiset(held[j]) == Chained(held) + multiset(sleeve)
  {
    var a, b := held[..j], held[j + 1..];
    assert held == a + [held[j]] + b && held[j := sleeve] == a + [sleeve] + b;
    ChainedOne(held[j]);
    ChainedOne(sleeve);
    ChainedJoin(a, [held[j]]);
    ChainedJoin(a, [sleeve]);
    ChainedJoin(a + [held[j]], b);
    ChainedJoin(a + [sleeve], b);
  }

  lemma ChainedOne(sleeve: set<string>)
    ensures Chained([sleeve]) == multiset(sleeve)
  {
    assert [sleeve][..0] == [];
  }

  // ----- the book is a window of selections

  function Selections(sessions: seq<seq<Row>>, rule: Rule): (r: seq<set<string>>)
    ensures |r| == |sessions| && forall i | 0 <= i < |r| :: r[i] == Selected(sessions[i], rule)
  {
    seq(|sessions|, i requires 0 <= i < |sessions| => Selected(sessions[i], rule))
  }

  /** The sleeves after the first `m` sessions. */
  function Sleeves(sessions: seq<seq<Row>>, rule: Rule, tranches: nat, m: nat): (r: seq<set<string>>)
    requires tranches > 0 && m <= |sessions|
    ensures |r| == tranches && forall j | 0 <= j < tranches :: r[j] == SleeveAt(sessions, rule, tranches, m - 1, j)
  {
    seq(tranches, j requires 0 <= j < tranches => SleeveAt(sessions, rule, tranches, m - 1, j))
  }

  lemma SleevesStep(sessions: seq<seq<Row>>, rule: Rule, tranches: nat, m: nat)
    requires tranches > 0 && m < |sessions|
    ensures Sleeves(sessions, rule, tranches, m + 1)
         == Sleeves(sessions, rule, tranches, m)[Active(m, tranches) := Selected(sessions[m], rule)]
  {
    hide SleeveAt, Selected, Active;
    forall j | 0 <= j < tranches
      ensures SleeveAt(sessions, rule, tranches, m, j)
           == if j == Active(m, tranches) then Selected(sessions[m], rule)
           else SleeveAt(sessions, rule, tranches, m - 1, j)
    {
      SleeveStep(sessions, rule, tranches, m, j);
    }
  }

  lemma {:induction false} NothingChained(held: seq<set<string>>)
    requires forall j | 0 <= j < |held| :: held[j] == {}
    ensures Chained(held) == multiset{}
  {
    if held != [] {
      NothingChained(held[..|held| - 1]);
    }
  }

  /** After `m` sessions the book is the selections of the last `tranches` of them, chained. */
  lemma {:induction false} BookIsWindow(sessions: seq<seq<Row>>, rule: Rule, tranches: nat, m: nat)
    requires tranches > 0 && m <= |sessions|
    ensures Chained(Sleeves(sessions, rule, tranches, m)) == Chained(Selections(LastN(sessions[..m], tranches), rule))
  {
    hide Selected, SleeveAt, Active, Chained, Replaced, LastN;
    if m == 0 {
      forall j | 0 <= j < tranches ensures Sleeves(sessions, rule, tranches, 0)[j] == {} {
        EmptySleeve(sessions, rule, tranches, j);
      }
      NothingChained(Sleeves(sessions, rule, tranches, 0));
      NothingChained([]);
      assert Selections(LastN(sessions[..0], tranches), rule) == [] by { NothingToKeep(sessions[..0], tranches); }
    } else {
      BookIsWindow(sessions, rule, tranches, m - 1);
      SleevesStep(sessions, rule, tranches, m - 1);
      ReplacedSleeve(sessions, rule, tranches, m - 1);
      var before := Sleeves(sessions, rule, tranches, m - 1);
      ChainedUpdate(before, Active(m - 1, tranches), Selected(sessions[m - 1], rule));
      WindowMoves(sessions, rule, tranches, m - 1);
      Cancel(Chained(Sleeves(sessions, rule, tranches, m)), Chained(Selections(LastN(sessions[..m], tranches), rule)),
             multiset(Replaced(sessions, rule, tranches, m - 1)));
    }
  }

  lemma NothingToKeep<T>(s: seq<T>, n: nat)
    requires s == []
    ensures LastN(s, n) == []
  {
  }

  lemma Cancel(a: multiset<string>, b: multiset<string>, c: multiset<string>)
    requires a + c == b + c
    ensures a == b
  {
    assert a + c - c == a && b + c - c == b;
  }

  lemma WindowMoves(sessions: seq<seq<Row>>, rule: Rule, tranches: nat, m: nat)
    requires tranches > 0 && m < |sessions|
    ensures Chained(Selections(LastN(sessions[..m + 1], tranches), rule))
            + multiset(Replaced(sessions, rule, tranches, m))
         == Chained(Selections(LastN(sessions[..m], tranches), rule)) + multiset(Selected(sessions[m], rule))
  {
    hide Selected, Chained;
    var w, w' := Selections(LastN(sessions[..m], tranches), rule), Selections(LastN(sessions[..m + 1], tranches), rule);
    var enters := Selected(sessions[m], rule);
    ChainedOne(enters);
    if m >= tranches {
      var leaves := Selected(sessions[m - tranches], rule);
      ChainedOne(leaves);
      assert w == [leaves] + w[1..] && w' == w[1..] + [enters];
      ChainedJoin([leaves], w[1..]);
      ChainedJoin(w[1..], [enters]);
    } else {
      assert w' == w + [enters];
      ChainedJoin(w, [enters]);
    }
  }

  // ----- what depends on the book alone

  ghost function BagTotal(names: multiset<string>, f: string -> real): real {
    if names == multiset{} then 0.0 else
      var x :| x in names;
      f(x) + BagTotal(names - multiset{x}, f)
  }

  lemma {:induction false} BagPick(names: multiset<string>, x: string, f: string -> real)
    requires x in names
    ensures BagTotal(names, f) == f(x) + BagTotal(names - multiset{x}, f)
  {
    var p := BagFirst(names, f);
    hide BagTotal;
    if p != x {
      TwoOut(names, p, x);
      BagPick(names - multiset{p}, x, f);
      BagPick(names - multiset{x}, p, f);
    }
  }

  lemma BagFirst(names: multiset<string>, f: string -> real) returns (p: string)
    requires names != multiset{}
    ensures p in names && BagTotal(names, f) == f(p) + BagTotal(names - multiset{p}, f)
  {
    p :| p in names && BagTotal(names, f) == f(p) + BagTotal(names - multiset{p}, f);
  }

  lemma TwoOut(names: multiset<string>, p: string, x: string)
    requires p in names && x in names && p != x
    ensures x in names - multiset{p} && p in names - multiset{x}
    ensures names - multiset{p} - multiset{x} == names - multiset{x} - multiset{p}
    ensures |names - multiset{p}| < |names| && |names - multiset{x}| < |names|
  {
  }

  lemma {:induction false} BagJoin(names: multiset<string>, sleeve: set<string>, f: string -> real)
    ensures BagTotal(names + multiset(sleeve), f) == BagTotal(names, f) + SumOver(sleeve, f)
  {
    if sleeve == {} {
      assert names + multiset(sleeve) == names;
    } else {
      var x :| x in sleeve;
      BagJoin(names, sleeve - {x}, f);
      BagPick(names + multiset(sleeve), x, f);
      SumOverPick(sleeve, x, f);
      assert names + multiset(sleeve) - multiset{x} == names + multiset(sleeve - {x});
    }
  }

  lemma {:induction false} TotalsOfBook(held: seq<set<string>>, rows: seq<Row>)
    ensures HeldTotal(held, rows) == BagTotal(Chained(held), ReturnFn(rows))
    ensures HeldCount(held) == |Chained(held)| && forall name :: name in HeldNames(held) <==> name in Chained(held)
  {
    hide ReturnFn, BagTotal;
    if held == [] {
      EmptyBag(ReturnFn(rows));
    } else {
      var front := held[..|held| - 1];
      TotalsOfBook(front, rows);
      BagJoin(Chained(front), held[|held| - 1], ReturnFn(rows));
    }
  }

  lemma EmptyBag(f: string -> real)
    ensures BagTotal(multiset{}, f) == 0.0
  {
  }

  /** The same names held, however they are spread over the sleeves: the same return, the same number of names. */
  lemma SameBookSameReturn(a: seq<set<string>>, b: seq<set<string>>, rows: seq<Row>)
    requires Chained(a) == Chained(b)
    ensures HeldTotal(a, rows) == HeldTotal(b, rows) && HeldCount(a) == HeldCount(b) && HeldNames(a) == HeldNames(b)
  {
    hide HeldTotal, HeldCount, HeldNames, BagTotal;
    TotalsOfBook(a, rows);
    TotalsOfBook(b, rows);
  }

  // ----- a line of the book, written out

  /** The return of a name on a session: that of its last row there, nothing when it has none. */
  ghost predicate IsReturn(value: real, rows: seq<Row>, name: string) {
    if forall i | 0 <= i < |rows| :: rows[i].symbol != name then value == 0.0
    else exists i :: 0 <= i < |rows| && rows[i].symbol == name && value == rows[i].nextReturn
                     && forall j | i < j < |rows| :: rows[j].symbol != name
  }

  lemma {:induction false} ReturnIs(rows: seq<Row>, name: string)
    ensures IsReturn(ReturnOf(rows, name), rows, name)
  {
    if rows != [] {
      var n := |rows| - 1;
      ReturnIs(rows[..n], name);
      if rows[n].symbol == name {
        assert rows[n].nextReturn == ReturnOf(rows, name);
      } else if i :| 0 <= i < n && rows[..n][i].symbol == name && ReturnOf(rows[..n], name) == rows[..n][i].nextReturn
                     && forall j | i < j < n :: rows[..n][j].symbol != name {
        assert rows[i].symbol == name;
        forall j | i < j < |rows| ensures rows[j].symbol != name {
          assert j < n ==> rows[..n][j] == rows[j];
        }
      } else {
        forall j | 0 <= j < |rows| ensures rows[j].symbol != name {
          assert j < n ==> rows[..n][j] == rows[j];
        }
      }
    }
  }

  /** The names selected over a window of sessions, each as often as it is, and what they earn together. */
  ghost function Picked(window: seq<seq<Row>>, rule: Rule): multiset<string> {
    if window == [] then multiset{} else
      Picked(window[..|window| - 1], rule) + multiset(Selected(window[|window| - 1], rule))
  }

  lemma {:induction false} PickedIsChained(window: seq<seq<Row>>, rule: Rule)
    ensures Picked(window, rule) == Chained(Selections(window, rule))
  {
    hide Selected;
    if window != [] {
      var n := |window| - 1;
      PickedIsChained(window[..n], rule);
      assert Selections(window, rule)[..n] == Selections(window[..n], rule);
    }
  }

  /** What one session of the overlapping book earns: the mean return there over the names selected in the last
      `tranches` sessions, each counted as often as it was, less the cost. */
  lemma GrossInFull(sessions: seq<seq<Row>>, rule: Rule, tranches: nat, costs: Costs, t: nat, gains: string -> real)
    requires tranches > 0 && t < |sessions| && sessions[t] != []
    requires forall name :: IsReturn(gains(name), sessions[t], name)
    ensures var line := OverlapLine(EntryAt(sessions, rule, tranches, costs, t), sessions[t]);
            var names := Picked(sessions[if t < tranches then 0 else t - tranches + 1..t + 1], rule);
            && |names| > 0 && line.gross * |names| as real == BagTotal(names, gains)
            && line.net == line.gross - line.cost
            && line.positions == |set name | name in names|
  {
    hide *;
    var rows, held := sessions[t], EntryAt(sessions, rule, tranches, costs, t).held;
    var window := sessions[if t < tranches then 0 else t - tranches + 1..t + 1];
    WindowIs(sessions, tranches, t);
    BookIsWindow(sessions, rule, tranches, t + 1);
    PickedIsChained(window, rule);
    SleevesAreHeld(sessions, rule, tranches, costs, t);
    TotalsOfBook(held, rows);
    SameReturns(Picked(window, rule), rows, gains);
    BookNeverEmpty(sessions, rule, tranches, costs, t);
    NamesOf(held, Picked(window, rule));
    LineFrom(sessions, rule, tranches, costs, t);
    MeanBack(HeldTotal(held, rows), HeldCount(held));
  }

  /** What it is charged: the names of the session that were not among those of `tranches` sessions before, as a
      share of the book, and their prices. */
  lemma ChargesInFull(sessions: seq<seq<Row>>, rule: Rule, tranches: nat, costs: Costs, t: nat, prices: string -> real)
    requires tranches > 0 && t < |sessions| && sessions[t] != []
    requires forall name :: IsPrice(prices(name), costs, name)
    ensures var line := OverlapLine(EntryAt(sessions, rule, tranches, costs, t), sessions[t]);
            var mine := Selected(sessions[t], rule);
            var entered := mine - (if t < tranches then {} else Selected(sessions[t - tranches], rule));
            && IsSpread(line.turnover, |entered| as real, |mine|, tranches)
            && IsSpread(line.cost * 10000.0, SumOver(entered, prices), |mine|, tranches)
  {
    hide *;
    var mine := Selected(sessions[t], rule);
    var entered := mine - (if t < tranches then {} else Selected(sessions[t - tranches], rule));
    SelectedNonEmpty(sessions[t], rule);
    EnteredIs(sessions, rule, tranches, t);
    RefreshInFull(entered, |mine|, tranches, costs, prices);
    LineFrom(sessions, rule, tranches, costs, t);
  }

  /** One session of the daily book: the mean of the returns of the rows selected, less the cost; what was not held the
      session before is entered, and charged as in the overlapping book. */
  lemma DailyInFull(rows: seq<Row>, rule: Rule, costs: Costs, previous: set<string>, prices: string -> real,
                    earned: seq<real>)
    requires rows != [] && forall name :: IsPrice(prices(name), costs, name)
    requires |earned| == |Top(rows, rule)| && forall i | 0 <= i < |earned| :: earned[i] == Top(rows, rule)[i].nextReturn
    ensures var line, held := DailyLineFrom(rows, rule, costs, previous), Selected(rows, rule);
            && line.gross * |earned| as real == Sum(earned) && line.net == line.gross - line.cost
            && line.positions == |held| && IsSpread(line.turnover, |held - previous| as real, |held|, 1)
            && IsSpread(line.cost * 10000.0, SumOver(held - previous, prices), |held|, 1)
  {
    hide *;
    var held := Selected(rows, rule);
    SelectedNonEmpty(rows, rule);
    TopNonEmpty(rows, rule);
    ReturnsListed(Top(rows, rule), earned);
    MeanBack(Sum(earned), |earned|);
    RefreshInFull(held - previous, |held|, 1, costs, prices);
    DailyFrom(rows, rule, costs, previous);
  }

  lemma TopNonEmpty(rows: seq<Row>, rule: Rule)
    requires rows != []
    ensures Top(rows, rule) != []
  {
    hide Top;
    TopSize(rows, rule);
  }

  lemma DailyFrom(rows: seq<Row>, rule: Rule, costs: Costs, previous: set<string>)
    requires rows != []
    ensures var line, top, held := DailyLineFrom(rows, rule, costs, previous), Top(rows, rule), Selected(rows, rule);
            && line.gross == Mean(Sum(NextReturns(top)), |top|) && line.net == line.gross - line.cost
            && line.turnover == Turnover(held - previous, |held|, 1) && line.positions == |held|
            && line.cost == CostOf(held - previous, |held|, 1, costs)
  {
    hide Top, Selected, CostOf, NextReturns, Sum;
  }

  lemma {:induction false} ReturnsListed(rows: seq<Row>, all: seq<real>)
    requires |all| == |rows| && forall i | 0 <= i < |all| :: all[i] == rows[i].nextReturn
    ensures NextReturns(rows) == all
  {
    if rows != [] {
      ReturnsListed(rows[1..], all[1..]);
      assert all == [all[0]] + all[1..];
    }
  }

  lemma WindowIs(sessions: seq<seq<Row>>, tranches: nat, t: nat)
    requires tranches > 0 && t < |sessions|
    ensures LastN(sessions[..t + 1], tranches) == sessions[if t < tranches then 0 else t - tranches + 1..t + 1]
  {
  }

  lemma SleevesAreHeld(sessions: seq<seq<Row>>, rule: Rule, tranches: nat, costs: Costs, t: nat)
    requires tranches > 0 && t < |sessions|
    ensures EntryAt(sessions, rule, tranches, costs, t).held == Sleeves(sessions, rule, tranches, t + 1)
  {
    hide SleeveAt, Entered, Turnover, CostOf, Selected;
  }

  lemma EnteredIs(sessions: seq<seq<Row>>, rule: Rule, tranches: nat, t: nat)
    requires tranches > 0 && t < |sessions|
    ensures Entered(sessions, rule, tranches, t) == Selected(sessions[t], rule)
              - (if t < tranches then {} else Selected(sessions[t - tranches], rule))
  {
    hide Selected, SleeveAt;
    ReplacedSleeve(sessions, rule, tranches, t);
  }

  lemma LineFrom(sessions: seq<seq<Row>>, rule: Rule, tranches: nat, costs: Costs, t: nat)
    requires tranches > 0 && t < |sessions|
    ensures var e, entered, size := EntryAt(sessions, rule, tranches, costs, t), Entered(sessions, rule, tranches, t),
                                    |Selected(sessions[t], rule)|;
            var line := OverlapLine(e, sessions[t]);
            && line.gross == Mean(HeldTotal(e.held, sessions[t]), HeldCount(e.held))
            && line.net == line.gross - line.cost
            && line.turnover == Turnover(entered, size, tranches) && line.cost == CostOf(entered, size, tranches, costs)
            && line.positions == |HeldNames(e.held)|
  {
    hide SleeveAt, Entered, Turnover, CostOf, Selected, HeldTotal, HeldCount, HeldNames, Mean;
  }

  lemma NamesOf(held: seq<set<string>>, names: multiset<string>)
    requires Chained(held) == names
    ensures HeldNames(held) == set name | name in names
  {
    hide HeldNames, Chained;
    TotalsOfBook(held, []);
  }

  lemma MeanBack(total: real, count: nat)
    requires count > 0
    ensures Mean(total, count) * count as real == total
  {
  }

  lemma ReturnUnique(a: real, b: real, rows: seq<Row>, name: string)
    requires IsReturn(a, rows, name) && IsReturn(b, rows, name)
    ensures a == b
  {
  }

  lemma {:induction false} SameReturns(names: multiset<string>, rows: seq<Row>, gains: string -> real)
    requires forall name :: IsReturn(gains(name), rows, name)
    ensures BagTotal(names, ReturnFn(rows)) == BagTotal(names, gains)
  {
    hide IsReturn;
    if names != multiset{} {
      var x := BagFirst(names, gains);
      BagPick(names, x, ReturnFn(rows));
      ReturnIs(rows, x);
      ReturnUnique(ReturnOf(rows, x), gains(x), rows, x);
      SameReturns(names - multiset{x}, rows, gains);
    }
  }
}

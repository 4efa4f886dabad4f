/** The books' return series, and when the different entry points describe the same book. */
module PortfolioBooks {
  import opened Common
  import opened Sorting
  import opened Portfolio

  /** What every report is computed from: net returns, gross returns, turnover, cost and names held. */
  datatype Line = Line(net: real, gross: real, turnover: real, cost: real, positions: nat)

  // ----- gross return of a book

  /** `{symbols[i]: next_returns[i] for i in rows}.get(name, 0.0)`: the last row of a name wins. */
  function ReturnOf(rows: seq<Row>, name: string): real {
    if rows == [] then 0.0
    else if rows[|rows| - 1].symbol == name then rows[|rows| - 1].nextReturn
    else ReturnOf(rows[..|rows| - 1], name)
  }

  ghost function ReturnFn(rows: seq<Row>): string -> real {
    (name: string) => ReturnOf(rows, name)
  }

  /** The sleeves' holdings chained: a name counts once per sleeve that holds it. */
  ghost function HeldTotal(held: seq<set<string>>, rows: seq<Row>): real {
    if held == [] then 0.0 else
      HeldTotal(held[..|held| - 1], rows) + SumOver(held[|held| - 1], ReturnFn(rows))
  }

  function HeldCount(held: seq<set<string>>): nat {
    if held == [] then 0 else HeldCount(held[..|held| - 1]) + |held[|held| - 1]|
  }

  function HeldNames(held: seq<set<string>>): set<string> {
    if held == [] then {} else HeldNames(held[..|held| - 1]) + held[|held| - 1]
  }

  function Mean(total: real, count: nat): real {
    if count == 0 then 0.0 else total / count as real
  }

  method SleeveTotal(sleeve: set<string>, rows: seq<Row>) returns (total: real)
    ensures total == SumOver(sleeve, ReturnFn(rows))
  {
    total := 0.0;
    var left := sleeve;
    while left != {}
      invariant left <= sleeve
      invariant total + SumOver(left, ReturnFn(rows)) == SumOver(sleeve, ReturnFn(rows))
      decreases left
    {
      var name :| name in left;
      SumOverPick(left, name, ReturnFn(rows));
      total := total + ReturnOf(rows, name);
      left := left - {name};
    }
  }

  ghost function OverlapLine(e: Entry, rows: seq<Row>): Line {
    var gross := Mean(HeldTotal(e.held, rows), HeldCount(e.held));
    Line(gross - e.cost, gross, e.turnover, e.cost, |HeldNames(e.held)|)
  }

  /** `np.mean([returns_by_symbol.get(name, 0.0) for name in held])`, and how many different names are held. */
  method BookGross(held: seq<set<string>>, rows: seq<Row>) returns (gross: real, positions: nat)
    ensures gross == Mean(HeldTotal(held, rows), HeldCount(held)) && positions == |HeldNames(held)|
  {
    var total, count, names := 0.0, 0, {};
    for j := 0 to |held|
      invariant total == HeldTotal(held[..j], rows)
      invariant count == HeldCount(held[..j])
      invariant names == HeldNames(held[..j])
    {
      assert held[..j + 1][..j] == held[..j];
      var sleeve := SleeveTotal(held[j], rows);
      total, count, names := total + sleeve, count + |held[j]|, names + held[j];
    }
    assert held[..|held|] == held;
    gross, positions := Mean(total, count), |names|;
  }

  method BookLine(e: Entry, rows: seq<Row>) returns (line: Line)
    ensures line == OverlapLine(e, rows)
  {
    var gross, positions := BookGross(e.held, rows);
    line := Line(gross - e.cost, gross, e.turnover, e.cost, positions);
  }

  // ----- the overlapping book

  ghost function EntryAt(sessions: seq<seq<Row>>, rule: Rule, tranches: nat, costs: Costs, t: nat): Entry
    requires tranches > 0 && t < |sessions|
  {
    var entered, size := Entered(sessions, rule, tranches, t), |Selected(sessions[t], rule)|;
    Entry(seq(tranches, j requires 0 <= j < tranches => SleeveAt(sessions, rule, tranches, t, j)),
          Turnover(entered, size, tranches), CostOf(entered, size, tranches, costs))
  }

  lemma EntryUnique(e: Entry, sessions: seq<seq<Row>>, rule: Rule, tranches: nat, costs: Costs, t: nat)
    requires tranches > 0 && t < |sessions| && IsEntry(e, sessions, rule, tranches, costs, t)
    ensures e == EntryAt(sessions, rule, tranches, costs, t)
  {
    hide SleeveAt, Entered, Turnover, CostOf, Selected;
    assert e.held == EntryAt(sessions, rule, tranches, costs, t).held;
  }

  /** The series a book of `tranches` sleeves produces, up to session `n`. */
  ghost function OverlapSeries(sessions: seq<seq<Row>>, rule: Rule, tranches: nat, costs: Costs, n: nat): (r: seq<Line>)
    requires tranches > 0 && n <= |sessions|
    ensures |r| == n
  {
    if n == 0 then [] else
      OverlapSeries(sessions, rule, tranches, costs, n - 1)
      + [OverlapLine(EntryAt(sessions, rule, tranches, costs, n - 1), sessions[n - 1])]
  }

  /** The sessions of a panel are never empty: each date has at least the row that named it. */
  ghost predicate Populated(sessions: seq<seq<Row>>) {
    forall t | 0 <= t < |sessions| :: sessions[t] != []
  }

  /** `_overlapping_portfolio` */
  method OverlappingPortfolio(sessions: seq<seq<Row>>, rule: Rule, tranches: nat,
                              costs: Costs) returns (lines: seq<Line>)
    requires tranches > 0 && Populated(sessions)
    ensures lines == OverlapSeries(sessions, rule, tranches, costs, |sessions|)
  {
    var book := TrancheHoldings(sessions, rule, tranches, costs);
    lines := [];
    hide IsEntry, EntryAt, OverlapLine;
    for t := 0 to |sessions|
      invariant lines == OverlapSeries(sessions, rule, tranches, costs, t)
    {
      EntryUnique(book[t], sessions, rule, tranches, costs, t);
      var line := BookLine(book[t], sessions[t]);
      lines := lines + [line];
    }
  }

  lemma {:induction false} OverlapSeriesAt(sessions: seq<seq<Row>>, rule: Rule, tranches: nat, costs: Costs, n: nat,
                                           t: nat)
    requires tranches > 0 && t < n <= |sessions|
    ensures OverlapSeries(sessions, rule, tranches, costs, n)[t]
         == OverlapLine(EntryAt(sessions, rule, tranches, costs, t), sessions[t])
  {
    hide OverlapLine, EntryAt;
    if t < n - 1 {
      OverlapSeriesAt(sessions, rule, tranches, costs, n - 1, t);
    }
  }

  lemma SelectedNonEmpty(rows: seq<Row>, rule: Rule)
    requires rows != []
    ensures Selected(rows, rule) != {}
  {
    MultisetSize(rows, StableSort(rows, ByProb(rule.highest)));
    assert Top(rows, rule)[0].symbol in Selected(rows, rule);
  }

  lemma {:induction false} HeldCountAtLeast(held: seq<set<string>>, j: nat)
    requires j < |held|
    ensures HeldCount(held) >= |held[j]|
  {
    if j < |held| - 1 {
      HeldCountAtLeast(held[..|held| - 1], j);
    }
  }

  /** The refreshed sleeve always holds something, so no loop over the book ever meets an empty one. */
  lemma BookNeverEmpty(sessions: seq<seq<Row>>, rule: Rule, tranches: nat, costs: Costs, t: nat)
    requires tranches > 0 && t < |sessions| && sessions[t] != []
    ensures HeldCount(EntryAt(sessions, rule, tranches, costs, t).held) > 0
  {
    hide Selected, SleeveAt, CostOf, Turnover;
    SelectedNonEmpty(sessions[t], rule);
    SleeveStep(sessions, rule, tranches, t, Active(t, tranches));
    HeldCountAtLeast(EntryAt(sessions, rule, tranches, costs, t).held, Active(t, tranches));
  }

  // ----- the daily book

  function NextReturns(rows: seq<Row>): (r: seq<real>)
    ensures |r| == |rows|
  {
    if rows == [] then [] else [rows[0].nextReturn] + NextReturns(rows[1..])
  }

  function Previous(sessions: seq<seq<Row>>, rule: Rule, t: nat): set<string>
    requires t <= |sessions|
  {
    if t == 0 then {} else Selected(sessions[t - 1], rule)
  }

  /** One session of the daily book, given the names held after the one before. */
  ghost function DailyLineFrom(rows: seq<Row>, rule: Rule, costs: Costs, previous: set<string>): Line {
    var top, held := Top(rows, rule), Selected(rows, rule);
    var entered := held - previous;
    var gross := Mean(Sum(NextReturns(top)), |top|);
    var cost := CostOf(entered, |held|, 1, costs);
    Line(gross - cost, gross, Mean(|entered| as real, |held|), cost, |held|)
  }

  ghost function DailyLine(sessions: seq<seq<Row>>, rule: Rule, costs: Costs, t: nat): Line
    requires t < |sessions|
  {
    DailyLineFrom(sessions[t], rule, costs, Previous(sessions, rule, t))
  }

  ghost function DailySeries(sessions: seq<seq<Row>>, rule: Rule, costs: Costs, n: nat): (r: seq<Line>)
    requires n <= |sessions|
    ensures |r| == n
  {
    if n == 0 then [] else DailySeries(sessions, rule, costs, n - 1) + [DailyLine(sessions, rule, costs, n - 1)]
  }

  method DailyStep(rows: seq<Row>, rule: Rule, costs: Costs, previous: set<string>) returns (line: Line,
                   held: set<string>)
    ensures held == Selected(rows, rule)
    ensures line == DailyLineFrom(rows, rule, costs, previous)
  {
    hide Top, CostOf;
    var top := Top(rows, rule);
    held := Names(top);
    var gross := Mean(Sum(NextReturns(top)), |top|);
    var entered := if previous == {} then held else held - previous;
    assert entered == held - previous;
    var turnover := Mean(|entered| as real, |held|);
    var cost := SessionCost(entered, |held|, 1, costs);
    line := Line(gross - cost, gross, turnover, cost, |held|);
  }

  /** `top_quantile_portfolio` up to its summary statistics: tranches above 1 run the overlapping book. */
  method TopQuantilePortfolio(sessions: seq<seq<Row>>, quantile: real, tranches: nat,
                              costs: Costs) returns (lines: seq<Line>)
    requires Populated(sessions)
    ensures tranches > 1 ==> lines == OverlapSeries(sessions, Rule(quantile, true), tranches, costs, |sessions|)
    ensures tranches <= 1 ==> lines == DailySeries(sessions, Rule(quantile, true), costs, |sessions|)
  {
    var rule := Rule(quantile, true);
    if tranches > 1 {
      lines := OverlappingPortfolio(sessions, rule, tranches, costs);
      return;
    }
    hide Selected, DailyLineFrom, OverlapSeries;
    lines := [];
    var previous := {};
    for t := 0 to |sessions|
      invariant previous == Previous(sessions, rule, t)
      invariant lines == DailySeries(sessions, rule, costs, t)
    {
      var line, held := DailyStep(sessions[t], rule, costs, previous);
      lines := lines + [line];
      previous := held;
    }
  }

  // ----- one sleeve is the daily book

  ghost predicate OneRowPerSymbol(rows: seq<Row>) {
    forall i, j | 0 <= i < j < |rows| :: rows[i].symbol != rows[j].symbol
  }

  lemma {:induction false} ReturnOfRow(rows: seq<Row>, i: nat)
    requires OneRowPerSymbol(rows) && i < |rows|
    ensures ReturnOf(rows, rows[i].symbol) == rows[i].nextReturn
  {
    if i < |rows| - 1 {
      ReturnOfRow(rows[..|rows| - 1], i);
    }
  }

  lemma SortKeepsOneRow(rows: seq<Row>, sorted: seq<Row>)
    requires OneRowPerSymbol(rows) && multiset(rows) == multiset(sorted)
    ensures OneRowPerSymbol(sorted)
    ensures forall i | 0 <= i < |sorted| :: sorted[i] in rows
  {
    MultisetSize(rows, sorted);
    UniqueElements(rows, sorted);
    forall i, j | 0 <= i < j < |sorted| ensures sorted[i].symbol != sorted[j].symbol {
      assert sorted[i] in sorted && sorted[j] in sorted;
      var a :| 0 <= a < |rows| && rows[a] == sorted[i];
      var b :| 0 <= b < |rows| && rows[b] == sorted[j];
      assert a != b;
    }
    forall i | 0 <= i < |sorted| ensures sorted[i] in rows {
      assert sorted[i] in sorted;
    }
  }

  /** Summing by name over a set of rows is summing over the rows. */
  lemma {:induction false} SumByName(picked: seq<Row>, rows: seq<Row>)
    requires OneRowPerSymbol(picked) && OneRowPerSymbol(rows) && forall i | 0 <= i < |picked| :: picked[i] in rows
    ensures SumOver(Names(picked), ReturnFn(rows)) == Sum(NextReturns(picked))
    ensures |Names(picked)| == |picked|
  {
    if picked != [] {
      var r, rest := picked[0], picked[1..];
      SumByName(rest, rows);
      assert picked == [r] + rest;
      forall i | 0 <= i < |rest| ensures rest[i].symbol != r.symbol {
        assert picked[0].symbol != picked[i + 1].symbol;
      }
      NamesCons(r, rest);
      SumOverAdd(Names(rest), r.symbol, ReturnFn(rows));
      assert r in rows;
      var k :| 0 <= k < |rows| && rows[k] == r;
      ReturnOfRow(rows, k);
    }
  }

  lemma NamesCons(r: Row, rest: seq<Row>)
    requires forall i | 0 <= i < |rest| :: rest[i].symbol != r.symbol
    ensures Names([r] + rest) == Names(rest) + {r.symbol}
    ensures r.symbol !in Names(rest)
  {
    var all := [r] + rest;
    forall name ensures name in Names(all) <==> name in Names(rest) + {r.symbol} {
      if name in Names(rest) {
        var i :| 0 <= i < |rest| && rest[i].symbol == name;
        assert all[i + 1].symbol == name;
      }
      if name == r.symbol {
        assert all[0].symbol == name;
      }
    }
  }

  lemma GrossOfOneSleeve(rows: seq<Row>, rule: Rule)
    requires OneRowPerSymbol(rows)
    ensures SumOver(Selected(rows, rule), ReturnFn(rows)) == Sum(NextReturns(Top(rows, rule)))
    ensures |Selected(rows, rule)| == |Top(rows, rule)|
  {
    var sorted := StableSort(rows, ByProb(rule.highest));
    SortKeepsOneRow(rows, sorted);
    SumByName(Top(rows, rule), rows);
  }

  lemma OneSleeveHolds(sessions: seq<seq<Row>>, rule: Rule, t: int)
    requires t < |sessions|
    ensures t >= 0 ==> SleeveAt(sessions, rule, 1, t, 0) == Selected(sessions[t], rule)
    ensures t < 0 ==> SleeveAt(sessions, rule, 1, t, 0) == {}
  {
  }

  lemma OneSleeveLine(sessions: seq<seq<Row>>, rule: Rule, costs: Costs, t: nat)
    requires t < |sessions| && OneRowPerSymbol(sessions[t])
    ensures OverlapLine(EntryAt(sessions, rule, 1, costs, t), sessions[t]) == DailyLine(sessions, rule, costs, t)
  {
    hide Selected, Top, CostOf, SumOver, SleeveAt;
    var rows, held := sessions[t], Selected(sessions[t], rule);
    OneSleeveHolds(sessions, rule, t);
    OneSleeveHolds(sessions, rule, t - 1);
    GrossOfOneSleeve(rows, rule);
    var e := EntryAt(sessions, rule, 1, costs, t);
    assert Active(t, 1) == 0;
    assert e.held == [held];
    assert HeldTotal([held], rows) == HeldTotal([], rows) + SumOver(held, ReturnFn(rows)) by {
      assert [held][..0] == [];
    }
    assert HeldCount([held]) == |held| by {
      assert [held][..0] == [];
    }
    assert HeldNames([held]) == held by {
      assert [held][..0] == [];
    }
    var entered := held - Previous(sessions, rule, t);
    assert Entered(sessions, rule, 1, t) == entered;
    assert Turnover(entered, |held|, 1) == Mean(|entered| as real, |held|);
  }

  /** With one tranche the overlapping construction is the daily book: same returns, turnover, cost and names. */
  lemma {:induction false} OneTrancheIsDaily(sessions: seq<seq<Row>>, rule: Rule, costs: Costs, n: nat)
    requires n <= |sessions| && forall t | 0 <= t < n :: OneRowPerSymbol(sessions[t])
    ensures OverlapSeries(sessions, rule, 1, costs, n) == DailySeries(sessions, rule, costs, n)
  {
    hide OverlapLine, DailyLine, EntryAt, OneRowPerSymbol;
    if n > 0 {
      OneTrancheIsDaily(sessions, rule, costs, n - 1);
      OneSleeveLine(sessions, rule, costs, n - 1);
    }
  }
}

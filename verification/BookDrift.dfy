/**
 On which sessions the two books can differ: for given row counts, exactly those within `tranches` of a one-row
 session. The panels that show it have one row per symbol in every session.
 */
module BookDrift {
  import opened Common
  import opened Portfolio
  import opened PortfolioBooks
  import opened BookWindow
  import opened RelativeBook

  /** The same number of rows, session by session. */
  ghost predicate SameShape(a: seq<seq<Row>>, b: seq<seq<Row>>) {
    |a| == |b| && forall u | 0 <= u < |a| :: |a[u]| == |b[u]|
  }

  lemma {:induction false} ShapeDecides(a: seq<seq<Row>>, b: seq<seq<Row>>, t: nat)
    requires SameShape(a, b) && t <= |a|
    ensures KeptBefore(a, t) == KeptBefore(b, t) && OneRowBefore(a, t) == OneRowBefore(b, t)
    ensures forall lo, hi | hi <= |a| :: NoneSkipped(a, lo, hi) <==> NoneSkipped(b, lo, hi)
    ensures forall u | 0 <= u < |a| :: Keeps(a[u]) <==> Keeps(b[u])
  {
    if t > 0 {
      ShapeDecides(a, b, t - 1);
      assert a[..t][..t - 1] == a[..t - 1] && b[..t][..t - 1] == b[..t - 1];
    }
  }

  // ----- the rows of the panels

  function Name(tag: char, i: nat): string {
    [tag] + seq(i, _ => 'x')
  }

  lemma NamesDiffer(a: char, i: nat, b: char, j: nat)
    ensures Name(a, i) == Name(b, j) <==> a == b && i == j
  {
    assert |Name(a, i)| == i + 1 && |Name(b, j)| == j + 1;
    assert Name(a, i)[0] == a && Name(b, j)[0] == b;
  }

  /** The first row ranks strictly best. */
  function BestFirst(rule: Rule, i: nat): real {
    if i > 0 then 0.0 else if rule.highest then 1.0 else -1.0
  }

  /** The first row gains 1, the second loses 1. */
  function Swing(i: nat): real {
    if i == 0 then 1.0 else if i == 1 then -1.0 else 0.0
  }

  function Rows(rule: Rule, tag: char, n: nat): (r: seq<Row>)
    ensures |r| == n
    ensures forall i | 0 <= i < n :: r[i] == Row(Name(tag, i), BestFirst(rule, i), Swing(i))
  {
    seq(n, i requires 0 <= i < n => Row(Name(tag, i), BestFirst(rule, i), Swing(i)))
  }

  lemma RowsAreOnePerSymbol(rule: Rule, tag: char, n: nat)
    ensures OneRowPerSymbol(Rows(rule, tag, n))
  {
    forall i, j | 0 <= i < j < n ensures Rows(rule, tag, n)[i].symbol != Rows(rule, tag, n)[j].symbol {
      NamesDiffer(tag, i, tag, j);
    }
  }

  /** A row that ranks strictly best is selected. */
  lemma BestIsSelected(rows: seq<Row>, rule: Rule, i: nat)
    requires i < |rows|
    requires forall j | 0 <= j < |rows| && j != i :: if rule.highest then rows[j].prob < rows[i].prob
             else rows[j].prob > rows[i].prob
    ensures rows[i].symbol in Selected(rows, rule)
  {
    hide Top, Quota;
    var rest := TopIsBest(rows, rule);
    var best, top := rows[i], Top(rows, rule);
    SomethingSelected(rows, rule);
    assert top[0] in multiset(rows);
    var j :| 0 <= j < |rows| && rows[j] == top[0];
    assert best in multiset(rows);
    if j != i {
      assert best !in rest;
      assert best in multiset(top);
    }
    var k :| 0 <= k < |top| && top[k] == best;
  }

  lemma SomethingSelected(rows: seq<Row>, rule: Rule)
    requires rows != []
    ensures |Top(rows, rule)| > 0 && Quota(rule.quantile, |rows|) >= 1
  {
    SelectedNonEmpty(rows, rule);
    hide Quota;
  }

  lemma SelectedAreRows(rows: seq<Row>, rule: Rule, name: string)
    requires name in Selected(rows, rule)
    ensures exists i :: 0 <= i < |rows| && rows[i].symbol == name
  {
    hide Top;
    var rest := TopIsBest(rows, rule);
    var i :| 0 <= i < |Top(rows, rule)| && Top(rows, rule)[i].symbol == name;
    assert Top(rows, rule)[i] in multiset(rows);
  }

  lemma FirstIsSelected(rule: Rule, tag: char, n: nat)
    requires n > 0
    ensures Name(tag, 0) in Selected(Rows(rule, tag, n), rule)
    ensures forall name | name in Selected(Rows(rule, tag, n), rule) :: exists i: nat :: i < n && name == Name(tag, i)
  {
    hide Selected, Name;
    var rows := Rows(rule, tag, n);
    BestIsSelected(rows, rule, 0);
    forall name | name in Selected(rows, rule) ensures exists i: nat :: i < n && name == Name(tag, i) {
      SelectedAreRows(rows, rule, name);
      var i :| 0 <= i < |rows| && rows[i].symbol == name;
      assert name == Name(tag, i);
    }
  }

  lemma TagsApart(rule: Rule, n: nat, m: nat)
    ensures Selected(Rows(rule, 'T', n), rule) !! Selected(Rows(rule, 'O', m), rule)
  {
    hide Selected, Rows, Name;
    if name :| name in Selected(Rows(rule, 'T', n), rule) && name in Selected(Rows(rule, 'O', m), rule) {
      SelectedAreRows(Rows(rule, 'T', n), rule, name);
      SelectedAreRows(Rows(rule, 'O', m), rule, name);
      var i :| 0 <= i < n && Rows(rule, 'T', n)[i].symbol == name;
      var j :| 0 <= j < m && Rows(rule, 'O', m)[j].symbol == name;
      NamesDiffer('T', i, 'O', j);
    }
  }

  /** Rows of one tag on the marked sessions, of another on the rest. */
  function Tagged(sessions: seq<seq<Row>>, rule: Rule, marked: set<nat>): (r: seq<seq<Row>>)
    ensures |r| == |sessions|
    ensures forall u | 0 <= u < |r| :: r[u] == Rows(rule, if u in marked then 'T' else 'O', |sessions[u]|)
  {
    seq(|sessions|, u requires 0 <= u < |sessions| => Rows(rule, if u in marked then 'T' else 'O', |sessions[u]|))
  }

  ghost predicate RealPanel(panel: seq<seq<Row>>) {
    forall u | 0 <= u < |panel| :: OneRowPerSymbol(panel[u])
  }

  lemma TaggedIsReal(sessions: seq<seq<Row>>, rule: Rule, marked: set<nat>)
    ensures RealPanel(Tagged(sessions, rule, marked)) && SameShape(Tagged(sessions, rule, marked), sessions)
  {
    hide OneRowPerSymbol, Rows;
    var p := Tagged(sessions, rule, marked);
    forall u | 0 <= u < |p| ensures OneRowPerSymbol(p[u]) {
      RowsAreOnePerSymbol(rule, if u in marked then 'T' else 'O', |sessions[u]|);
    }
  }

  // ----- turnover

  /** Both replace the same session's selection, or neither replaces any. */
  lemma ReplacedElsewhere(sessions: seq<seq<Row>>, tranches: nat, t: nat)
    requires 0 < tranches <= t < |sessions| && Keeps(sessions[t]) && !NoneSkipped(sessions, t - tranches, t)
    ensures KeptBefore(sessions, t) <= |Kept(sessions)|
    ensures var k := KeptBefore(sessions, t); k >= tranches ==> Kept(sessions)[k - tranches] < t - tranches
  {
    hide Ranked, Kept, Keeps, OneRowBefore, KeptBefore;
    KeptAtRank(sessions, t);
    KeptMeaning(sessions);
    var k := KeptBefore(sessions, t);
    if k >= tranches {
      var u := Kept(sessions)[k - tranches];
      if u >= t - tranches {
        if u > t {
          RankMonotone(sessions, t, u);
        }
        RankMonotone(sessions, t - tranches, u);
        RankPlusOneRow(sessions, t);
        RankPlusOneRow(sessions, t - tranches);
        SkippedCounts(sessions, t - tranches, t);
      }
    }
  }

  lemma {:induction false} SkippedCounts(sessions: seq<seq<Row>>, lo: nat, hi: nat)
    requires lo <= hi <= |sessions| && !NoneSkipped(sessions, lo, hi)
    ensures OneRowBefore(sessions, hi) > OneRowBefore(sessions, lo)
  {
    if NoneSkipped(sessions, lo, hi - 1) {
      OneRowMonotone(sessions, lo, hi - 1);
      assert !Keeps(sessions[hi - 1]);
    } else {
      SkippedCounts(sessions, lo, hi - 1);
    }
  }

  lemma TurnoverStrict(a: nat, b: nat, size: nat, tranches: nat)
    requires a < b <= size && tranches > 0
    ensures (if size == 0 then 0.0 else a as real / size as real) / tranches as real
         != (if size == 0 then 0.0 else b as real / size as real) / tranches as real
  {
    var s, n := size as real, tranches as real;
    var x, y := a as real / s, b as real / s;
    assert x * s == a as real && y * s == b as real;
    assert x != y;
    assert x / n * n == x && y / n * n == y;
  }

  /** A panel of the given shape on which the turnovers of session `t` differ. */
  lemma TurnoverDiffers(sessions: seq<seq<Row>>, rule: Rule, tranches: nat, t: nat) returns (p: seq<seq<Row>>)
    requires Populated(sessions) && 0 < tranches <= t < |sessions| && Keeps(sessions[t])
    requires !NoneSkipped(sessions, t - tranches, t)
    ensures SameShape(p, sessions) && RealPanel(p) && !TurnoversAgree(p, rule, tranches, t)
    ensures KeptBefore(p, t) < |Ranked(p)| && Ranked(p)[KeptBefore(p, t)] == p[t]
  {
    assert sessions[t] != [] && sessions[t - tranches] != [];
    hide *;
    p := Tagged(sessions, rule, {t, t - tranches});
    TaggedIsReal(sessions, rule, {t, t - tranches});
    ShapeDecides(p, sessions, t);
    assert Keeps(p[t]) && !NoneSkipped(p, t - tranches, t);
    KeptAtRank(p, t);
    KeptMeaning(p);
    GateEntersFewer(p, rule, tranches, t, |sessions[t]|, |sessions[t - tranches]|);
    MetricsEnterAll(sessions, p, rule, tranches, t);
    TurnoversDisagree(p, rule, tranches, t);
  }

  lemma TurnoversDisagree(p: seq<seq<Row>>, rule: Rule, tranches: nat, t: nat)
    requires tranches > 0 && t < |p| && KeptBefore(p, t) < |Ranked(p)| && Ranked(p)[KeptBefore(p, t)] == p[t]
    requires |Entered(p, rule, tranches, t)| < |Selected(p[t], rule)|
    requires Entered(Ranked(p), rule, tranches, KeptBefore(p, t)) == Selected(p[t], rule)
    ensures !TurnoversAgree(p, rule, tranches, t)
  {
    hide Entered, Selected, Ranked, KeptBefore;
    TurnoverStrict(|Entered(p, rule, tranches, t)|, |Selected(p[t], rule)|, |Selected(p[t], rule)|, tranches);
  }

  lemma GateEntersFewer(p: seq<seq<Row>>, rule: Rule, tranches: nat, t: nat, n: nat, back: nat)
    requires 0 < tranches <= t < |p| && n > 0 && back > 0
    requires p[t] == Rows(rule, 'T', n) && p[t - tranches] == Rows(rule, 'T', back)
    ensures |Entered(p, rule, tranches, t)| < |Selected(p[t], rule)|
  {
    hide Selected, Rows, SleeveAt, Name;
    FirstIsSelected(rule, 'T', n);
    FirstIsSelected(rule, 'T', back);
    ReplacedSleeve(p, rule, tranches, t);
    var now := Selected(p[t], rule);
    SubsetSize(Entered(p, rule, tranches, t), now - {Name('T', 0)});
  }

  lemma MetricsEnterAll(sessions: seq<seq<Row>>, p: seq<seq<Row>>, rule: Rule, tranches: nat, t: nat)
    requires 0 < tranches <= t < |sessions| && p == Tagged(sessions, rule, {t, t - tranches})
    requires Keeps(p[t]) && !NoneSkipped(p, t - tranches, t)
    requires KeptBefore(p, t) < |Ranked(p)| && Ranked(p)[KeptBefore(p, t)] == p[t]
    ensures Entered(Ranked(p), rule, tranches, KeptBefore(p, t)) == Selected(p[t], rule)
  {
    hide Ranked, Kept, Keeps, KeptBefore, Selected, Rows, SleeveAt, NoneSkipped;
    KeptMeaning(p);
    ReplacedElsewhere(p, tranches, t);
    var k := KeptBefore(p, t);
    ReplacedSleeve(Ranked(p), rule, tranches, k);
    if k >= tranches {
      TagsApart(rule, |sessions[t]|, |sessions[Kept(p)[k - tranches]]|);
    }
  }

  /** On every panel of these row counts the two books turn over alike on session `t`, exactly when it is too early to
      replace anything or none of the last `tranches` sessions was skipped. */
  lemma TurnoversAgreeIff(sessions: seq<seq<Row>>, rule: Rule, tranches: nat, t: nat)
    requires Populated(sessions) && 0 < tranches && t < |sessions| && Keeps(sessions[t])
    ensures (forall p | SameShape(p, sessions) :: TurnoversAgree(p, rule, tranches, t))
       <==> t < tranches || NoneSkipped(sessions, t - tranches, t)
  {
    hide Turnover, Selected, Ranked, Keeps, KeptBefore, SleeveAt;
    if t < tranches || NoneSkipped(sessions, t - tranches, t) {
      forall p | SameShape(p, sessions) ensures TurnoversAgree(p, rule, tranches, t) {
        ShapeDecides(p, sessions, t);
        SameEntered(p, rule, tranches, t);
      }
    } else {
      var p := TurnoverDiffers(sessions, rule, tranches, t);
    }
  }

  // ----- gross return, and the book itself

  /** What the names of tag 'T' gain on the tagged session; a name of no row there gains nothing. */
  lemma SwingOf(rule: Rule, n: nat, i: nat)
    ensures ReturnOf(Rows(rule, 'T', n), Name('T', i)) == if i < n then Swing(i) else 0.0
    ensures ReturnOf(Rows(rule, 'T', n), Name('O', i)) == 0.0
  {
    hide Name;
    var rows := Rows(rule, 'T', n);
    if i < n {
      RowsAreOnePerSymbol(rule, 'T', n);
      ReturnOfRow(rows, i);
    } else {
      forall j | 0 <= j < n ensures rows[j].symbol != Name('T', i) {
        NamesDiffer('T', j, 'T', i);
      }
      NoSuchRow(rows, Name('T', i));
    }
    forall j | 0 <= j < n ensures rows[j].symbol != Name('O', i) {
      NamesDiffer('T', j, 'O', i);
    }
    NoSuchRow(rows, Name('O', i));
  }

  lemma {:induction false} NoSuchRow(rows: seq<Row>, name: string)
    requires forall j | 0 <= j < |rows| :: rows[j].symbol != name
    ensures ReturnOf(rows, name) == 0.0
  {
    if rows != [] {
      NoSuchRow(rows[..|rows| - 1], name);
    }
  }

  lemma {:induction false} NothingGained(names: set<string>, f: string -> real)
    requires forall name | name in names :: f(name) == 0.0
    ensures SumOver(names, f) == 0.0
  {
    if names != {} {
      var name :| name in names;
      SumOverPick(names, name, f);
      NothingGained(names - {name}, f);
    }
  }

  /** The first row, always selected, and the second, perhaps: what the tagged session's own selection gains on it. */
  lemma OwnGain(rule: Rule, n: nat)
    requires n >= 2
    ensures var rows := Rows(rule, 'T', n);
            SumOver(Selected(rows, rule), ReturnFn(rows)) == if Name('T', 1) in Selected(rows, rule) then 0.0 else 1.0
  {
    hide Selected, Name, ReturnOf;
    var rows := Rows(rule, 'T', n);
    var f, all := ReturnFn(rows), Selected(rows, rule);
    FirstIsSelected(rule, 'T', n);
    NamesDiffer('T', 0, 'T', 1);
    SwingOf(rule, n, 0);
    SwingOf(rule, n, 1);
    SumOverPick(all, Name('T', 0), f);
    var rest := all - {Name('T', 0)};
    if Name('T', 1) in all {
      SumOverPick(rest, Name('T', 1), f);
    }
    forall name | name in rest - {Name('T', 1)} ensures f(name) == 0.0 {
      var i: nat :| i < n && name == Name('T', i);
      SwingOf(rule, n, i);
    }
    NothingGained(rest - {Name('T', 1)}, f);
    assert Name('T', 1) !in all ==> rest - {Name('T', 1)} == rest;
  }

  lemma OthersGainNothing(rule: Rule, n: nat, m: nat)
    ensures SumOver(Selected(Rows(rule, 'O', m), rule), ReturnFn(Rows(rule, 'T', n))) == 0.0
  {
    hide Selected, Name, ReturnOf;
    var f := ReturnFn(Rows(rule, 'T', n));
    var names := Selected(Rows(rule, 'O', m), rule);
    forall name | name in names ensures f(name) == 0.0 {
      SelectedAreRows(Rows(rule, 'O', m), rule, name);
      var i :| 0 <= i < m && Rows(rule, 'O', m)[i].symbol == name;
      SwingOf(rule, n, i);
    }
    NothingGained(names, f);
  }

  lemma OneRowSelected(row: Row, rule: Rule)
    ensures Selected([row], rule) == {row.symbol}
  {
    hide Selected;
    BestIsSelected([row], rule, 0);
    forall name | name in Selected([row], rule) ensures name == row.symbol {
      SelectedAreRows([row], rule, name);
    }
  }

  lemma {:induction false} TotalsJoin(a: seq<set<string>>, b: seq<set<string>>, rows: seq<Row>)
    ensures HeldTotal(a + b, rows) == HeldTotal(a, rows) + HeldTotal(b, rows)
  {
    if b == [] {
      assert a + b == a;
    } else {
      var n := |b| - 1;
      assert (a + b)[..|a + b| - 1] == a + b[..n];
      TotalsJoin(a, b[..n], rows);
    }
  }

  /** What a session's selection gains on `rows`. */
  ghost function Gain(session: seq<Row>, rule: Rule, rows: seq<Row>): real {
    SumOver(Selected(session, rule), ReturnFn(rows))
  }

  ghost predicate GainNothing(sessions: seq<seq<Row>>, rule: Rule, rows: seq<Row>) {
    forall i | 0 <= i < |sessions| :: Gain(sessions[i], rule, rows) == 0.0
  }

  lemma {:induction false} NoTotal(sessions: seq<seq<Row>>, rule: Rule, rows: seq<Row>)
    requires GainNothing(sessions, rule, rows)
    ensures HeldTotal(Selections(sessions, rule), rows) == 0.0
  {
    hide Selected, SumOver;
    if sessions != [] {
      var n := |sessions| - 1;
      NoTotal(sessions[..n], rule, rows);
      assert Selections(sessions, rule)[..n] == Selections(sessions[..n], rule);
    }
  }

  lemma OneTotal(session: seq<Row>, rule: Rule, rows: seq<Row>)
    ensures HeldTotal(Selections([session], rule), rows) == Gain(session, rule, rows)
  {
    hide Selected, SumOver;
    var held := Selections([session], rule);
    assert held == [Selected(session, rule)] && held[..0] == [];
  }

  lemma SelectionsJoin(a: seq<seq<Row>>, b: seq<seq<Row>>, rule: Rule)
    ensures Selections(a + b, rule) == Selections(a, rule) + Selections(b, rule)
  {
    hide Selected;
  }

  /** Only the last session of a window gains. */
  lemma TotalOfLast(a: seq<seq<Row>>, last: seq<Row>, rule: Rule, rows: seq<Row>)
    requires GainNothing(a, rule, rows)
    ensures HeldTotal(Selections(a + [last], rule), rows) == Gain(last, rule, rows)
  {
    hide *;
    SelectionsJoin(a, [last], rule);
    TotalsJoin(Selections(a, rule), Selections([last], rule), rows);
    NoTotal(a, rule, rows);
    OneTotal(last, rule, rows);
  }

  /** The skipped session's only row carries a name of the tagged session. */
  function Skip(rule: Rule, n: nat): Row {
    Row(Name('T', if Name('T', 1) in Selected(Rows(rule, 'T', n), rule) then 0 else 1), 0.0, 0.0)
  }

  function GrossPanel(sessions: seq<seq<Row>>, rule: Rule, w: nat, t: nat): (r: seq<seq<Row>>)
    requires w < t < |sessions|
    ensures |r| == |sessions|
    ensures forall u | 0 <= u < |r| ::
              r[u] == if u == w then [Skip(rule, |sessions[t]|)]
              else Rows(rule, if u == t then 'T' else 'O', |sessions[u]|)
  {
    Tagged(sessions, rule, {t})[w := [Skip(rule, |sessions[t]|)]]
  }

  /** Exactly one of the two books gains on session `t`. */
  lemma SkipGain(rule: Rule, n: nat)
    requires n >= 2
    ensures var rows := Rows(rule, 'T', n);
            var own := Gain(rows, rule, rows);
            var skipped := Gain([Skip(rule, n)], rule, rows);
            own + skipped == 0.0 <==> own != 0.0
  {
    hide Selected, Name, ReturnOf;
    var rows := Rows(rule, 'T', n);
    OwnGain(rule, n);
    var row := Skip(rule, n);
    OneRowSelected(row, rule);
    SwingOf(rule, n, 0);
    SwingOf(rule, n, 1);
    SumOverPick({row.symbol}, row.symbol, ReturnFn(rows));
    assert {row.symbol} - {row.symbol} == {};
  }

  /** Only one session and the last of a window gain. */
  lemma TotalOfTwo(a: seq<seq<Row>>, x: seq<Row>, b: seq<seq<Row>>, last: seq<Row>, rule: Rule, rows: seq<Row>)
    requires GainNothing(a, rule, rows) && GainNothing(b, rule, rows)
    ensures HeldTotal(Selections((a + [x]) + (b + [last]), rule), rows)
         == Gain(x, rule, rows) + Gain(last, rule, rows)
  {
    hide *;
    TotalOfLast(a, x, rule, rows);
    TotalOfLast(b, last, rule, rows);
    SelectionsJoin(a + [x], b + [last], rule);
    TotalsJoin(Selections(a + [x], rule), Selections(b + [last], rule), rows);
  }

  lemma BookTotal(p: seq<seq<Row>>, rule: Rule, tranches: nat, m: nat, window: seq<seq<Row>>, rows: seq<Row>)
    requires tranches > 0 && m <= |p| && window == LastN(p[..m], tranches)
    ensures HeldTotal(Sleeves(p, rule, tranches, m), rows) == HeldTotal(Selections(window, rule), rows)
  {
    hide *;
    BookIsWindow(p, rule, tranches, m);
    SameBookSameReturn(Sleeves(p, rule, tranches, m), Selections(window, rule), rows);
  }

  lemma WindowAround<T>(p: seq<T>, n: nat, w: nat, t: nat)
    requires w < t < |p| && t - n < w
    ensures var lo := MaxInt(t + 1 - n, 0);
            0 <= lo <= w && LastN(p[..t + 1], n) == (p[lo..w] + [p[w]]) + (p[w + 1..t] + [p[t]])
  {
  }

  lemma OthersInPanel(sessions: seq<seq<Row>>, rule: Rule, w: nat, t: nat, lo: nat, hi: nat)
    requires w < t < |sessions| && lo <= hi <= |sessions| && (hi <= w || w < lo) && hi <= t
    ensures GainNothing(GrossPanel(sessions, rule, w, t)[lo..hi], rule, Rows(rule, 'T', |sessions[t]|))
  {
    hide Rows, GrossPanel, Skip;
    forall u | lo <= u < hi
      ensures Gain(GrossPanel(sessions, rule, w, t)[u], rule, Rows(rule, 'T', |sessions[t]|)) == 0.0 {
      OthersGainNothing(rule, |sessions[t]|, |sessions[u]|);
    }
    hide Gain;
  }

  lemma GateTotal(sessions: seq<seq<Row>>, rule: Rule, tranches: nat, w: nat, t: nat)
    requires w < t < |sessions| && t - tranches < w && tranches > 0
    ensures HeldTotal(Sleeves(GrossPanel(sessions, rule, w, t), rule, tranches, t + 1), Rows(rule, 'T', |sessions[t]|))
         == Gain([Skip(rule, |sessions[t]|)], rule, Rows(rule, 'T', |sessions[t]|))
            + Gain(Rows(rule, 'T', |sessions[t]|), rule, Rows(rule, 'T', |sessions[t]|))
  {
    hide *;
    var p, rows := GrossPanel(sessions, rule, w, t), Rows(rule, 'T', |sessions[t]|);
    var lo := MaxInt(t + 1 - tranches, 0);
    WindowAround(p, tranches, w, t);
    BookTotal(p, rule, tranches, t + 1, (p[lo..w] + [p[w]]) + (p[w + 1..t] + [p[t]]), rows);
    OthersInPanel(sessions, rule, w, t, lo, w);
    OthersInPanel(sessions, rule, w, t, w + 1, t);
    TotalOfTwo(p[lo..w], p[w], p[w + 1..t], p[t], rule, rows);
  }

  lemma MetricsTotal(sessions: seq<seq<Row>>, rule: Rule, tranches: nat, w: nat, t: nat)
    requires w < t < |sessions| && tranches > 0 && |sessions[t]| >= 2
    ensures var p, rows := GrossPanel(sessions, rule, w, t), Rows(rule, 'T', |sessions[t]|);
            var k := KeptBefore(p, t);
            k < |Ranked(p)| && HeldTotal(Sleeves(Ranked(p), rule, tranches, k + 1), rows)
                            == Gain(rows, rule, rows)
  {
    hide Selected, Rows, SumOver, HeldTotal, Chained, SleeveAt, ReturnFn, Selections, Skip, GrossPanel, Sleeves,
         Ranked, KeptBefore, Kept;
    var p, rows := GrossPanel(sessions, rule, w, t), Rows(rule, 'T', |sessions[t]|);
    var k := KeptBefore(p, t);
    KeptNext(p, t);
    var ranked := Ranked(p)[..k + 1];
    var a := LastN(ranked, tranches)[..|LastN(ranked, tranches)| - 1];
    assert LastN(ranked, tranches) == a + [rows];
    BookTotal(Ranked(p), rule, tranches, k + 1, a + [rows], rows);
    forall i | 0 <= i < k ensures Gain(Ranked(p)[i], rule, rows) == 0.0 {
      var u := KeptElsewhere(p, t, i);
      OthersGainNothing(rule, |sessions[t]|, |sessions[u]|);
    }
    forall i | 0 <= i < |a| ensures a[i] in Ranked(p)[..k] {
    }
    TotalOfLast(a, rows, rule, rows);
  }

  lemma KeptElsewhere(p: seq<seq<Row>>, t: nat, i: nat) returns (u: nat)
    requires t < |p| && Keeps(p[t]) && i < KeptBefore(p, t)
    ensures i < |Ranked(p)| && u < |p| && u != t && Keeps(p[u]) && Ranked(p)[i] == p[u]
  {
    hide Ranked, Kept, Keeps, KeptBefore;
    KeptAtRank(p, t);
    KeptMeaning(p);
    u := Kept(p)[i];
  }

  lemma GrossPanelIsReal(sessions: seq<seq<Row>>, rule: Rule, w: nat, t: nat)
    requires w < t < |sessions| && |sessions[w]| == 1
    ensures RealPanel(GrossPanel(sessions, rule, w, t)) && SameShape(GrossPanel(sessions, rule, w, t), sessions)
  {
    hide Rows, Skip;
    TaggedIsReal(sessions, rule, {t});
  }

  lemma MeanIsZeroIff(total: real, count: nat)
    requires count > 0
    ensures Mean(total, count) == 0.0 <==> total == 0.0
  {
    assert total / count as real * count as real == total;
  }

  lemma CountAtLeastOne(p: seq<seq<Row>>, rule: Rule, tranches: nat, t: nat)
    requires tranches > 0 && t < |p| && p[t] != []
    ensures HeldCount(Sleeves(p, rule, tranches, t + 1)) > 0
  {
    hide *;
    BookNeverEmpty(p, rule, tranches, Costs(0.0, None), t);
    HeldIs(p, rule, tranches, Costs(0.0, None), t);
  }

  /** A panel of the given shape on which the gross returns of session `t` differ: one book gains, the other does
      not. */
  lemma GrossDiffers(sessions: seq<seq<Row>>, rule: Rule, tranches: nat, w: nat, t: nat) returns (p: seq<seq<Row>>)
    requires w < t < |sessions| && t - tranches < w && tranches > 0 && |sessions[w]| == 1 && Keeps(sessions[t])
    ensures SameShape(p, sessions) && RealPanel(p) && !GrossAgrees(p, rule, tranches, t)
  {
    p := GrossPanel(sessions, rule, w, t);
    assert |sessions[t]| >= 2 && Keeps(p[t]) && p[t] != [];
    assert p[t] == Rows(rule, 'T', |sessions[t]|);
    hide *;
    GrossPanelIsReal(sessions, rule, w, t);
    KeptNext(p, t);
    GateTotal(sessions, rule, tranches, w, t);
    MetricsTotal(sessions, rule, tranches, w, t);
    SkipGain(rule, |sessions[t]|);
    CountAtLeastOne(p, rule, tranches, t);
    CountAtLeastOne(Ranked(p), rule, tranches, KeptBefore(p, t));
    GrossDisagrees(p, rule, tranches, t);
  }

  lemma GrossDisagrees(p: seq<seq<Row>>, rule: Rule, tranches: nat, t: nat)
    requires tranches > 0 && t < |p| && KeptBefore(p, t) < |Ranked(p)| && Ranked(p)[KeptBefore(p, t)] == p[t]
    requires var gate := Sleeves(p, rule, tranches, t + 1);
             var metrics := Sleeves(Ranked(p), rule, tranches, KeptBefore(p, t) + 1);
             && HeldCount(gate) > 0 && HeldCount(metrics) > 0
             && (HeldTotal(gate, p[t]) == 0.0 <==> HeldTotal(metrics, p[t]) != 0.0)
    ensures !GrossAgrees(p, rule, tranches, t)
  {
    hide HeldCount, HeldTotal, Ranked, KeptBefore, Sleeves, Mean;
    var gate, metrics := Sleeves(p, rule, tranches, t + 1), Sleeves(Ranked(p), rule, tranches, KeptBefore(p, t) + 1);
    MeanIsZeroIff(HeldTotal(gate, p[t]), HeldCount(gate));
    MeanIsZeroIff(HeldTotal(metrics, p[t]), HeldCount(metrics));
  }

  /** On every panel of these row counts the two books hold the same names on session `t`, exactly when none of the last
      `tranches` sessions was skipped; and exactly then they earn the same before costs. */
  lemma BooksAgreeIff(sessions: seq<seq<Row>>, rule: Rule, tranches: nat, t: nat)
    requires Populated(sessions) && tranches > 0 && t < |sessions| && Keeps(sessions[t])
    ensures (forall p | SameShape(p, sessions) :: BooksAgree(p, rule, tranches, t))
       <==> NoneSkipped(sessions, t - tranches + 1, t)
    ensures (forall p | SameShape(p, sessions) :: GrossAgrees(p, rule, tranches, t))
       <==> NoneSkipped(sessions, t - tranches + 1, t)
  {
    hide BooksAgree, GrossAgrees;
    if NoneSkipped(sessions, t - tranches + 1, t) {
      forall p | SameShape(p, sessions) ensures BooksAgree(p, rule, tranches, t) && GrossAgrees(p, rule, tranches, t) {
        ShapeDecides(p, sessions, t);
        SameBookWhenNoneSkipped(p, rule, tranches, t);
        SameBookSameGross(p, rule, tranches, t);
      }
    } else {
      var w :| 0 <= w && t - tranches + 1 <= w < t && !Keeps(sessions[w]);
      var p := GrossDiffers(sessions, rule, tranches, w, t);
      ShapeDecides(p, sessions, t);
      if BooksAgree(p, rule, tranches, t) {
        SameBookSameGross(p, rule, tranches, t);
      }
    }
  }

  // ----- the whole line

  lemma LineParts(p: seq<seq<Row>>, rule: Rule, tranches: nat, costs: Costs, t: nat)
    requires tranches > 0 && t < |p| && Keeps(p[t]) && LinesAgree(p, rule, tranches, costs, t)
    ensures GrossAgrees(p, rule, tranches, t) && TurnoversAgree(p, rule, tranches, t)
  {
    hide Ranked, KeptBefore, Keeps, Sleeves, HeldTotal, HeldCount, HeldNames, Entered, Turnover, CostOf, Selected,
         SleeveAt, GrossOf;
    HeldIs(p, rule, tranches, costs, t);
    HeldIs(Ranked(p), rule, tranches, costs, KeptBefore(p, t));
  }

  /** On every panel of these row counts, at any costs, the two lines of session `t` are the same, exactly when no
      session in the window, nor the one replaced, was skipped. */
  lemma LinesAgreeIff(sessions: seq<seq<Row>>, rule: Rule, tranches: nat, t: nat)
    requires Populated(sessions) && tranches > 0 && t < |sessions| && Keeps(sessions[t])
    ensures (forall p, costs | SameShape(p, sessions) :: LinesAgree(p, rule, tranches, costs, t))
       <==> NoneSkipped(sessions, t - tranches, t)
  {
    hide LinesAgree, GrossAgrees, TurnoversAgree;
    if NoneSkipped(sessions, t - tranches, t) {
      forall p, costs | SameShape(p, sessions) ensures LinesAgree(p, rule, tranches, costs, t) {
        ShapeDecides(p, sessions, t);
        SameLineWhenNoneSkipped(p, rule, tranches, costs, t);
      }
    } else {
      var w :| 0 <= w && t - tranches <= w < t && !Keeps(sessions[w]);
      var p;
      if w > t - tranches {
        p := GrossDiffers(sessions, rule, tranches, w, t);
      } else {
        p := TurnoverDiffers(sessions, rule, tranches, t);
      }
      ShapeDecides(p, sessions, t);
      if LinesAgree(p, rule, tranches, Costs(0.0, None), t) {
        LineParts(p, rule, tranches, Costs(0.0, None), t);
      }
    }
  }

  // ----- cost

  ghost predicate CostsAgree(sessions: seq<seq<Row>>, rule: Rule, tranches: nat, costs: Costs, t: nat)
    requires tranches > 0 && t < |sessions|
  {
    var k := KeptBefore(sessions, t);
    k < |Ranked(sessions)| && EntryAt(sessions, rule, tranches, costs, t).cost
                           == EntryAt(Ranked(sessions), rule, tranches, costs, k).cost
  }

  /** A flat rate of 100% charges the turnover itself. */
  lemma UnitCost(sessions: seq<seq<Row>>, rule: Rule, tranches: nat, t: nat)
    requires tranches > 0 && t < |sessions| && sessions[t] != []
    ensures EntryAt(sessions, rule, tranches, Costs(10000.0, None), t).cost
         == Turnover(Entered(sessions, rule, tranches, t), |Selected(sessions[t], rule)|, tranches)
  {
    hide Selected, SleeveAt, Turnover, CostOf;
    SelectedNonEmpty(sessions[t], rule);
    FlatCostIsTurnover(Entered(sessions, rule, tranches, t), |Selected(sessions[t], rule)|, tranches,
                       Costs(10000.0, None));
  }

  /** The cost agrees exactly when the turnover does. */
  lemma CostsAgreeIff(sessions: seq<seq<Row>>, rule: Rule, tranches: nat, t: nat)
    requires Populated(sessions) && 0 < tranches && t < |sessions| && Keeps(sessions[t])
    ensures (forall p, costs | SameShape(p, sessions) :: CostsAgree(p, rule, tranches, costs, t))
       <==> t < tranches || NoneSkipped(sessions, t - tranches, t)
  {
    hide Turnover, Selected, Ranked, Keeps, KeptBefore, SleeveAt, CostOf;
    if t < tranches || NoneSkipped(sessions, t - tranches, t) {
      forall p, costs | SameShape(p, sessions) ensures CostsAgree(p, rule, tranches, costs, t) {
        ShapeDecides(p, sessions, t);
        SameEntered(p, rule, tranches, t);
      }
    } else {
      assert sessions[t] != [];
      var p := TurnoverDiffers(sessions, rule, tranches, t);
      UnitCost(p, rule, tranches, t);
      UnitCost(Ranked(p), rule, tranches, KeptBefore(p, t));
      assert !CostsAgree(p, rule, tranches, Costs(10000.0, None), t);
    }
  }

  // ----- whole panels

  /** A one-row session comes before a ranked one. */
  ghost predicate SkipsBeforeRanked(sessions: seq<seq<Row>>) {
    exists w, t :: 0 <= w < t < |sessions| && Keeps(sessions[t]) && !Keeps(sessions[w])
  }

  /** On every panel of these row counts the metrics' long book is the gate's on every session they rank, exactly
      when there is one tranche or no one-row session comes before a ranked one. */
  lemma RelativeBookIsGateBookIff(sessions: seq<seq<Row>>, rule: Rule, tranches: nat)
    requires Populated(sessions) && tranches > 0
    ensures (forall p, t | SameShape(p, sessions) && 0 <= t < |p| && Keeps(p[t]) :: BooksAgree(p, rule, tranches, t))
       <==> tranches == 1 || !SkipsBeforeRanked(sessions)
  {
    hide Keeps, BooksAgree, KeptBefore;
    if tranches == 1 || !SkipsBeforeRanked(sessions) {
      forall p, t | SameShape(p, sessions) && 0 <= t < |p| && Keeps(p[t]) ensures BooksAgree(p, rule, tranches, t) {
        ShapeDecides(p, sessions, t);
        SameBookWhenNoneSkipped(p, rule, tranches, t);
      }
    } else {
      var next := AfterSkip(sessions);
      assert !NoneSkipped(sessions, next - tranches + 1, next);
      BooksAgreeIff(sessions, rule, tranches, next);
      var p :| SameShape(p, sessions) && !BooksAgree(p, rule, tranches, next);
      ShapeDecides(p, sessions, next);
      assert Keeps(p[next]);
    }
  }

  lemma AfterSkip(sessions: seq<seq<Row>>) returns (next: nat)
    requires SkipsBeforeRanked(sessions)
    ensures 0 < next < |sessions| && Keeps(sessions[next]) && !Keeps(sessions[next - 1])
  {
    hide Keeps;
    var w, t :| 0 <= w < t < |sessions| && Keeps(sessions[t]) && !Keeps(sessions[w]);
    next := NextKept(sessions, w, t);
  }

  /** The first ranked session after a skipped one follows a skipped one. */
  lemma {:induction false} NextKept(sessions: seq<seq<Row>>, w: nat, t: nat) returns (next: nat)
    requires w < t < |sessions| && !Keeps(sessions[w]) && Keeps(sessions[t])
    ensures w < next <= t && Keeps(sessions[next]) && !Keeps(sessions[next - 1])
    decreases t
  {
    if Keeps(sessions[t - 1]) {
      next := NextKept(sessions, w, t - 1);
    } else {
      next := t;
    }
  }

  /** They report the same lines throughout exactly when no one-row session comes before a ranked one, whatever the
      tranches. */
  lemma RelativeLinesAreGateLinesIff(sessions: seq<seq<Row>>, rule: Rule, tranches: nat)
    requires Populated(sessions) && tranches > 0
    ensures (forall p, costs, t | SameShape(p, sessions) && 0 <= t < |p| && Keeps(p[t]) ::
               LinesAgree(p, rule, tranches, costs, t))
       <==> !SkipsBeforeRanked(sessions)
  {
    hide Keeps, LinesAgree, KeptBefore;
    if !SkipsBeforeRanked(sessions) {
      forall p, costs, t | SameShape(p, sessions) && 0 <= t < |p| && Keeps(p[t])
        ensures LinesAgree(p, rule, tranches, costs, t)
      {
        ShapeDecides(p, sessions, t);
        SameLineWhenNoneSkipped(p, rule, tranches, costs, t);
      }
    } else {
      var next := AfterSkip(sessions);
      assert !NoneSkipped(sessions, next - tranches, next);
      LinesAgreeIff(sessions, rule, tranches, next);
      var p, costs :| SameShape(p, sessions) && !LinesAgree(p, rule, tranches, costs, next);
      ShapeDecides(p, sessions, next);
      assert Keeps(p[next]);
    }
  }

  // ----- one panel

  /** Two ranked sessions around one with a single row. */
  function ThreeSessions(): seq<seq<Row>> {
    [[Row("A", 0.9, 0.0), Row("B", 0.1, 0.0)], [Row("C", 0.9, 0.0)], [Row("D", 0.9, 0.0), Row("C", 0.1, 0.1)]]
  }

  lemma PicksFirst(rows: seq<Row>, rule: Rule)
    requires rule == Rule(0.5, true) && 1 <= |rows| <= 2 && (|rows| == 2 ==> rows[0].prob > rows[1].prob)
    ensures Selected(rows, rule) == {rows[0].symbol}
  {
    assert Quota(0.5, 1) == 1 && Quota(0.5, 2) == 1;
    hide Top, Quota;
    var rest := TopIsBest(rows, rule);
    BestIsSelected(rows, rule, 0);
    assert |Top(rows, rule)| == 1;
    forall name | name in Selected(rows, rule) ensures name == rows[0].symbol {
    }
  }

  /** A book of two sleeves, each a single name. */
  lemma TwoNames(a: seq<Row>, b: seq<Row>, rule: Rule, x: string, y: string, rows: seq<Row>)
    requires Selected(a, rule) == {x} && Selected(b, rule) == {y}
    ensures var held := Selections([a, b], rule);
            && Chained(held) == multiset{x, y}
            && GrossOf(held, rows) == (ReturnOf(rows, x) + ReturnOf(rows, y)) / 2.0
  {
    hide Selected, ReturnOf, HeldTotal, HeldCount, Chained;
    var held := Selections([a, b], rule);
    assert held == [{x}] + [{y}];
    OneName(x, rows);
    OneName(y, rows);
    ChainedJoin([{x}], [{y}]);
    TotalsJoin([{x}], [{y}], rows);
    TotalsOfBook(held, rows);
  }

  lemma OneName(x: string, rows: seq<Row>)
    ensures Chained([{x}]) == multiset{x} && HeldTotal([{x}], rows) == ReturnOf(rows, x)
  {
    hide ReturnOf;
    ChainedOne({x});
    assert [{x}][..0] == [];
    SumOverPick({x}, x, ReturnFn(rows));
    assert {x} - {x} == {};
  }

  /** Two tranches, the best half of each session: after the one-row session the gate holds C and D and gains, the
      metrics hold A and D and do not. */
  lemma BooksDifferAfterOneRow()
    ensures var p, rule := ThreeSessions(), Rule(0.5, true);
            && Ranked(p) == [p[0], p[2]] && KeptBefore(p, 2) == 1
            && Chained(Sleeves(p, rule, 2, 3)) == multiset{"C", "D"}
            && Chained(Sleeves(Ranked(p), rule, 2, 2)) == multiset{"A", "D"}
            && GrossOf(Sleeves(p, rule, 2, 3), p[2]) == 0.05 && GrossOf(Sleeves(Ranked(p), rule, 2, 2), p[2]) == 0.0
  {
    hide Chained, Selected, SleeveAt, HeldTotal, HeldCount, HeldNames;
    var p, rule := ThreeSessions(), Rule(0.5, true);
    assert p[..3] == p && p[..2][..1] == p[..1] && p[..1][..0] == [];
    assert Ranked(p[..1]) == [p[0]] && Ranked(p[..2]) == [p[0]] && Ranked(p) == [p[0], p[2]];
    PicksFirst(p[0], rule);
    PicksFirst(p[1], rule);
    PicksFirst(p[2], rule);
    assert LastN(p[..3], 2) == [p[1], p[2]] && LastN(Ranked(p)[..2], 2) == [p[0], p[2]];
    BookIsWindow(p, rule, 2, 3);
    BookIsWindow(Ranked(p), rule, 2, 2);
    SameBookSameReturn(Sleeves(p, rule, 2, 3), Selections([p[1], p[2]], rule), p[2]);
    SameBookSameReturn(Sleeves(Ranked(p), rule, 2, 2), Selections([p[0], p[2]], rule), p[2]);
    TwoNames(p[1], p[2], rule, "C", "D", p[2]);
    TwoNames(p[0], p[2], rule, "A", "D", p[2]);
    LastReturns(p[2]);
  }

  lemma LastReturns(rows: seq<Row>)
    requires rows == [Row("D", 0.9, 0.0), Row("C", 0.1, 0.1)]
    ensures ReturnOf(rows, "A") == 0.0 && ReturnOf(rows, "C") == 0.1 && ReturnOf(rows, "D") == 0.0
  {
    var first := rows[..1];
    assert first == [Row("D", 0.9, 0.0)] && first[..0] == [];
    assert ReturnOf(first, "A") == 0.0 && ReturnOf(first, "D") == 0.0;
  }
}

/**
 The top-quantile books of `evaluation.py`: the overlapping tranche book (`_tranche_holdings`,
 `_overlapping_portfolio`), the daily book (`top_quantile_portfolio`) and the costs both are charged. The
 cross-section of each session comes grouped, in session order.
 */
module Portfolio {
  import opened Common
  import opened Sorting

  datatype Row = Row(symbol: string, prob: real, nextReturn: real)

  datatype Costs = Costs(bps: real, table: Option<map<string, real>>)

  datatype Rule = Rule(quantile: real, highest: bool)

  // ----- selection

  function ByProb(highest: bool): (Row, Row) -> bool {
    if highest then (a: Row, b: Row) => a.prob >= b.prob else (a: Row, b: Row) => a.prob <= b.prob
  }

  function Quota(quantile: real, n: nat): nat {
    MaxInt(1, Ceil(quantile * n as real))
  }

  /** `sorted(rows, key=prob, reverse=highest)[:k]` */
  function Top(rows: seq<Row>, rule: Rule): seq<Row> {
    StableSort(rows, ByProb(rule.highest))[..MinInt(Quota(rule.quantile, |rows|),
                                                    |StableSort(rows, ByProb(rule.highest))|)]
  }

  function Names(rows: seq<Row>): set<string> {
    set i | 0 <= i < |rows| :: rows[i].symbol
  }

  /** The names a session selects. */
  function Selected(rows: seq<Row>, rule: Rule): set<string> {
    Names(Top(rows, rule))
  }

  lemma ByProbTotal(highest: bool)
    ensures TotalPreorder(ByProb(highest))
  {
  }

  /** The rows selected and the rest make up the session, and no row left out ranks strictly better than one
      selected. */
  lemma TopIsBest(rows: seq<Row>, rule: Rule) returns (rest: seq<Row>)
    ensures |Top(rows, rule)| == MinInt(Quota(rule.quantile, |rows|), |rows|)
    ensures multiset(Top(rows, rule)) + multiset(rest) == multiset(rows)
    ensures forall a, b | a in Top(rows, rule) && b in rest ::
              if rule.highest then a.prob >= b.prob else a.prob <= b.prob
  {
    hide StableSort, TotalPreorder, Quota;
    var sorted := StableSort(rows, ByProb(rule.highest));
    MultisetSize(rows, sorted);
    ByProbTotal(rule.highest);
    StableSortSorts(rows, ByProb(rule.highest));
    var k := |Top(rows, rule)|;
    rest := sorted[k..];
    assert sorted == Top(rows, rule) + rest;
    forall a, b | a in Top(rows, rule) && b in rest
      ensures if rule.highest then a.prob >= b.prob else a.prob <= b.prob
    {
      var i :| 0 <= i < k && sorted[i] == a;
      var j :| 0 <= j < |rest| && rest[j] == b;
      assert sorted[k + j] == b;
    }
  }

  /** The least whole number of rows that makes up the quantile, and at least one. */
  lemma QuotaIs(quantile: real, n: nat)
    ensures var k, x := Quota(quantile, n), quantile * n as real;
            k >= 1 && k as real >= x && (k > 1 ==> (k - 1) as real < x)
  {
    var x := quantile * n as real;
    assert ((-x).Floor as real) <= -x < ((-x).Floor as real) + 1.0;
  }

  /** So the selection is the least number of rows that makes up the quantile, at least one, and no more than there
      are. */
  lemma TopSize(rows: seq<Row>, rule: Rule)
    ensures var k, n := |Top(rows, rule)|, |rows|;
            && k <= n && (n > 0 ==> k >= 1)
            && (k < n ==> k as real >= rule.quantile * n as real)
            && (k > 1 ==> (k - 1) as real < rule.quantile * n as real)
    ensures forall name :: name in Selected(rows, rule) <==>
                             exists i :: 0 <= i < |Top(rows, rule)| && Top(rows, rule)[i].symbol == name
  {
    hide Top, Quota;
    QuotaIs(rule.quantile, |rows|);
    var rest := TopIsBest(rows, rule);
  }

  // ----- cost

  ghost function PriceFn(costs: Costs): string -> real {
    (name: string) => NameCost(costs, name)
  }

  /** A name missing from the table pays the flat rate. */
  function NameCost(costs: Costs, name: string): real {
    if costs.table.Some? && name in costs.table.value then costs.table.value[name] else costs.bps
  }

  ghost function TotalCost(entered: set<string>, costs: Costs): real {
    if costs.table.None? then costs.bps * |entered| as real else SumOver(entered, PriceFn(costs))
  }

  function PerBook(total: real, bookSize: nat, tranches: nat): real
    requires bookSize > 0 && tranches > 0
  {
    BookWeightPositive(bookSize, tranches);
    total / 10000.0 / (bookSize * tranches) as real
  }

  lemma BookWeightPositive(bookSize: nat, tranches: nat)
    requires bookSize > 0 && tranches > 0
    ensures bookSize * tranches > 0
  {
  }

  ghost function CostOf(entered: set<string>, bookSize: nat, tranches: nat, costs: Costs): real
    requires tranches > 0
  {
    if bookSize == 0 || entered == {} then 0.0 else PerBook(TotalCost(entered, costs), bookSize, tranches)
  }

  /** `_session_cost` */
  method SessionCost(entered: set<string>, bookSize: nat, tranches: nat, costs: Costs) returns (cost: real)
    requires tranches > 0
    ensures cost == CostOf(entered, bookSize, tranches, costs)
  {
    if bookSize == 0 || entered == {} {
      return 0.0;
    }
    var total := 0.0;
    if costs.table.None? {
      total := costs.bps * |entered| as real;
    } else {
      var left := entered;
      while left != {}
        invariant left <= entered
        invariant total + SumOver(left, PriceFn(costs)) == SumOver(entered, PriceFn(costs))
        decreases left
      {
        var name :| name in left;
        SumOverPick(left, name, PriceFn(costs));
        total := total + NameCost(costs, name);
        left := left - {name};
      }
    }
    cost := PerBook(total, bookSize, tranches);
  }

  /** The fraction of the book a refresh replaces. */
  function Turnover(entered: set<string>, bookSize: nat, tranches: nat): real
    requires tranches > 0
  {
    (if bookSize == 0 then 0.0 else |entered| as real / bookSize as real) / tranches as real
  }

  lemma {:induction false} FlatTable(entered: set<string>, costs: Costs)
    requires forall name | name in entered :: NameCost(costs, name) == costs.bps
    ensures SumOver(entered, PriceFn(costs)) == costs.bps * |entered| as real
  {
    if entered != {} {
      var name :| name in entered;
      SumOverPick(entered, name, PriceFn(costs));
      FlatTable(entered - {name}, costs);
      assert |entered| == |entered - {name}| + 1;
      assert costs.bps * (|entered - {name}| + 1) as real == costs.bps * |entered - {name}| as real + costs.bps;
    }
  }

  /** A flat rate, given as a number or as a table that says the same of every entrant, charges exactly
      `bps / 10000` per unit of turnover. */
  lemma FlatCostIsTurnover(entered: set<string>, bookSize: nat, tranches: nat, costs: Costs)
    requires tranches > 0 && (entered == {} || bookSize > 0)
    requires forall name | name in entered :: NameCost(costs, name) == costs.bps
    ensures CostOf(entered, bookSize, tranches, costs) == costs.bps / 10000.0 * Turnover(entered, bookSize, tranches)
  {
    FlatTable(entered, costs);
    if entered != {} {
      FlatArithmetic(costs.bps, |entered| as real, bookSize, tranches);
    } else {
      assert |entered| == 0;
      NoTurnover(bookSize, tranches);
    }
  }

  lemma NoTurnover(bookSize: nat, tranches: nat)
    requires tranches > 0
    ensures Turnover({}, bookSize, tranches) == 0.0
  {
    var none: set<string> := {};
    assert |none| as real == 0.0;
    ZeroOver(bookSize as real);
    ZeroOver(tranches as real);
  }

  lemma ZeroOver(d: real)
    ensures d != 0.0 ==> 0.0 / d == 0.0
  {
  }

  lemma FlatArithmetic(bps: real, e: real, bookSize: nat, tranches: nat)
    requires bookSize > 0 && tranches > 0
    ensures PerBook(bps * e, bookSize, tranches) == bps / 10000.0 * (e / bookSize as real / tranches as real)
  {
    var b, t := bookSize as real, tranches as real;
    assert (bookSize * tranches) as real == b * t;
    BookWeightPositive(bookSize, tranches);
    var x := e / b / t;
    assert x * (b * t) == e by {
      assert e / b / t * t == e / b;
      assert e / b * b == e;
      assert x * (b * t) == x * t * b;
    }
    var y := bps / 10000.0;
    assert y * x * (b * t) == y * e;
    assert bps * e / 10000.0 == y * e;
    QuotientUnique(y * e, b * t, y * x);
  }

  // ----- what a refresh costs, written out

  /** The price of taking a name in: its own in the table, the flat rate when it has none. */
  ghost predicate IsPrice(price: real, costs: Costs, name: string) {
    price == match costs.table
             case None => costs.bps
             case Some(table) => if name in table then table[name] else costs.bps
  }

  /** `share` is `amount` spread over every name of every sleeve of the book. */
  ghost predicate IsSpread(share: real, amount: real, bookSize: nat, tranches: nat) {
    bookSize > 0 && share * (bookSize * tranches) as real == amount
  }

  /** The cost times the book's weight is the sum of the entrants' prices, in basis points; the turnover times it
      their number. */
  lemma RefreshInFull(entered: set<string>, bookSize: nat, tranches: nat, costs: Costs, prices: string -> real)
    requires tranches > 0 && bookSize > 0 && forall name :: IsPrice(prices(name), costs, name)
    ensures IsSpread(CostOf(entered, bookSize, tranches, costs) * 10000.0, SumOver(entered, prices), bookSize, tranches)
    ensures IsSpread(Turnover(entered, bookSize, tranches), |entered| as real, bookSize, tranches)
  {
    hide SumOver;
    WeighedBack(|entered| as real, bookSize, tranches);
    forall name | name in entered ensures PriceFn(costs)(name) == prices(name) {
      assert IsPrice(prices(name), costs, name);
    }
    SumOverCong(entered, PriceFn(costs), prices);
    if costs.table.None? {
      forall name | name in entered ensures NameCost(costs, name) == costs.bps {
      }
      FlatTable(entered, costs);
    }
    if entered == {} {
      EmptySum(prices);
    } else {
      ChargedBack(TotalCost(entered, costs), bookSize, tranches);
    }
  }

  lemma EmptySum(f: string -> real)
    ensures SumOver({}, f) == 0.0
  {
  }

  lemma ChargedBack(total: real, bookSize: nat, tranches: nat)
    requires bookSize > 0 && tranches > 0
    ensures PerBook(total, bookSize, tranches) * 10000.0 * (bookSize * tranches) as real == total
  {
    BookWeightPositive(bookSize, tranches);
    var w := (bookSize * tranches) as real;
    var x := total / 10000.0;
    assert x / w * w == x && x * 10000.0 == total;
    assert x / w * 10000.0 * w == x / w * w * 10000.0;
  }

  lemma WeighedBack(e: real, bookSize: nat, tranches: nat)
    requires bookSize > 0 && tranches > 0
    ensures e / bookSize as real / tranches as real * (bookSize * tranches) as real == e
  {
    var b, t := bookSize as real, tranches as real;
    assert (bookSize * tranches) as real == b * t;
    var x := e / b / t;
    assert x * t == e / b && e / b * b == e;
    assert x * (b * t) == x * t * b;
  }

  // ----- the rotating sleeves

  /** The sleeve refreshed on session `t`. */
  function Active(t: nat, tranches: nat): (j: nat)
    requires tranches > 0
    ensures j < tranches
  {
    t % tranches
  }

  /** The latest session `s <= t` on which sleeve `j` is refreshed; -1 when there is none. */
  function Latest(t: int, j: nat, tranches: nat): int
    requires tranches > 0
    decreases t + 1
  {
    if t < 0 then -1 else if Active(t, tranches) == j then t else Latest(t - 1, j, tranches)
  }

  lemma {:induction false} LatestMeaning(t: int, j: nat, tranches: nat)
    requires tranches > 0 && t >= -1
    ensures var s := Latest(t, j, tranches);
            && -1 <= s <= t && (s >= 0 ==> s % tranches == j)
            && forall s' | 0 <= s' <= t && s' > s :: s' % tranches != j
    decreases t + 1
  {
    if t >= 0 && t % tranches != j {
      LatestMeaning(t - 1, j, tranches);
    }
  }

  /** What sleeve `j` holds after session `t`. */
  function SleeveAt(sessions: seq<seq<Row>>, rule: Rule, tranches: nat, t: int, j: nat): set<string>
    requires tranches > 0 && t < |sessions|
  {
    LatestBound(t, j, tranches);
    var s := Latest(t, j, tranches);
    if s < 0 then {} else Selected(sessions[s], rule)
  }

  lemma {:induction false} LatestBound(t: int, j: nat, tranches: nat)
    requires tranches > 0
    ensures Latest(t, j, tranches) <= MaxInt(t, -1)
    decreases t + 1
  {
    if t >= 0 && t % tranches != j {
      LatestBound(t - 1, j, tranches);
    }
  }

  /** One line of the book: what each sleeve holds, the turnover, and the cost charged. */
  datatype Entry = Entry(held: seq<set<string>>, turnover: real, cost: real)

  /** The names sleeve `t mod tranches` takes in on session `t`. */
  function Entered(sessions: seq<seq<Row>>, rule: Rule, tranches: nat, t: nat): set<string>
    requires tranches > 0 && t < |sessions|
  {
    Selected(sessions[t], rule) - SleeveAt(sessions, rule, tranches, t - 1, Active(t, tranches))
  }

  ghost predicate IsEntry(e: Entry, sessions: seq<seq<Row>>, rule: Rule, tranches: nat, costs: Costs, t: nat)
    requires tranches > 0 && t < |sessions|
  {
    var entered, size := Entered(sessions, rule, tranches, t), |Selected(sessions[t], rule)|;
    && |e.held| == tranches
    && (forall j | 0 <= j < tranches :: e.held[j] == SleeveAt(sessions, rule, tranches, t, j))
    && e.turnover == Turnover(entered, size, tranches)
    && e.cost == CostOf(entered, size, tranches, costs)
  }

  /** `_tranche_holdings`: after session `t` every sleeve holds the selection of the latest session it was
      refreshed on. */
  method TrancheHoldings(sessions: seq<seq<Row>>, rule: Rule, tranches: nat, costs: Costs) returns (out: seq<Entry>)
    requires tranches > 0
    ensures |out| == |sessions|
    ensures forall t | 0 <= t < |sessions| :: IsEntry(out[t], sessions, rule, tranches, costs, t)
  {
    hide *;
    var sleeves := new set<string>[tranches](_ => {});
    out := [];
    forall j | 0 <= j < tranches ensures SleeveAt(sessions, rule, tranches, -1, j) == {} {
      EmptySleeve(sessions, rule, tranches, j);
    }
    for t := 0 to |sessions|
      invariant |out| == t
      invariant forall j | 0 <= j < tranches :: sleeves[j] == SleeveAt(sessions, rule, tranches, t - 1, j)
      invariant forall s | 0 <= s < t :: IsEntry(out[s], sessions, rule, tranches, costs, s)
    {
      var refreshed := Selected(sessions[t], rule);
      var active := Active(t, tranches);
      var entered := refreshed - sleeves[active];
      var turnover := Turnover(entered, |refreshed|, tranches);
      var cost := SessionCost(entered, |refreshed|, tranches, costs);
      forall j | 0 <= j < tranches
        ensures SleeveAt(sessions, rule, tranches, t, j)
             == if j == active then refreshed else SleeveAt(sessions, rule, tranches, t - 1, j)
      {
        SleeveStep(sessions, rule, tranches, t, j);
      }
      sleeves[active] := refreshed;
      var entry := Entry(sleeves[..], turnover, cost);
      EntryIs(entry, sessions, rule, tranches, costs, t, entered);
      out := out + [entry];
    }
  }

  lemma EmptySleeve(sessions: seq<seq<Row>>, rule: Rule, tranches: nat, j: nat)
    requires tranches > 0
    ensures SleeveAt(sessions, rule, tranches, -1, j) == {}
  {
  }

  lemma SleeveStep(sessions: seq<seq<Row>>, rule: Rule, tranches: nat, t: nat, j: nat)
    requires tranches > 0 && t < |sessions|
    ensures SleeveAt(sessions, rule, tranches, t, j)
         == if j == Active(t, tranches) then Selected(sessions[t], rule)
         else SleeveAt(sessions, rule, tranches, t - 1, j)
  {
  }

  lemma EntryIs(e: Entry, sessions: seq<seq<Row>>, rule: Rule, tranches: nat, costs: Costs, t: nat,
                entered: set<string>)
    requires tranches > 0 && t < |sessions|
    requires entered == Selected(sessions[t], rule) - SleeveAt(sessions, rule, tranches, t - 1, Active(t, tranches))
    requires |e.held| == tranches
    requires forall j | 0 <= j < tranches :: e.held[j] == SleeveAt(sessions, rule, tranches, t, j)
    requires e.turnover == Turnover(entered, |Selected(sessions[t], rule)|, tranches)
    requires e.cost == CostOf(entered, |Selected(sessions[t], rule)|, tranches, costs)
    ensures IsEntry(e, sessions, rule, tranches, costs, t)
  {
    hide Turnover, CostOf, Selected, SleeveAt, Active;
  }

  /** A refreshed sleeve is left alone for the next `tranches - 1` sessions. */
  lemma {:induction false} HeldForTranches(s: nat, tranches: nat, t: nat)
    requires tranches > 0 && s <= t < s + tranches
    ensures Latest(t, s % tranches, tranches) == s
    decreases t
  {
    if t > s {
      HeldForTranches(s, tranches, t - 1);
      ModApart(s, t - s, tranches);
    }
  }

  lemma ModApart(s: nat, d: nat, n: nat)
    requires 0 < d < n
    ensures (s + d) % n != s % n
  {
    var q, r := s / n, s % n;
    assert s == n * q + r;
    var q', r' := (s + d) / n, (s + d) % n;
    assert s + d == n * q' + r';
    if r == r' {
      assert d == n * (q' - q) by {
        assert n * q' - n * q == n * (q' - q);
      }
      Multiple(n, q' - q);
    }
  }

  lemma Multiple(n: nat, k: int)
    requires n > 0
    ensures n * k <= 0 || n * k >= n
  {
    if k >= 1 {
      assert n * k >= n * 1;
    } else {
      assert n * k <= n * 0;
    }
  }

  /** At most one sleeve's worth of the book turns over in a session. */
  lemma TurnoverBounds(sessions: seq<seq<Row>>, rule: Rule, tranches: nat, t: nat)
    requires tranches > 0 && t < |sessions|
    ensures var u := Turnover(Entered(sessions, rule, tranches, t), |Selected(sessions[t], rule)|, tranches);
            0.0 <= u <= 1.0 / tranches as real
  {
    var book, entered := Selected(sessions[t], rule), Entered(sessions, rule, tranches, t);
    SubsetSize(entered, book);
    FractionBounds(|entered|, |book|, tranches);
  }

  lemma FractionBounds(e: nat, b: nat, n: nat)
    requires e <= b && n > 0
    ensures 0.0 <= (if b == 0 then 0.0 else e as real / b as real) / n as real <= 1.0 / n as real
  {
    var f := if b == 0 then 0.0 else e as real / b as real;
    assert 0.0 <= f <= 1.0;
    OverPositive(f, 1.0, n as real);
  }

  lemma OverPositive(x: real, y: real, d: real)
    requires 0.0 <= x <= y && d > 0.0
    ensures 0.0 <= x / d <= y / d
  {
  }
}

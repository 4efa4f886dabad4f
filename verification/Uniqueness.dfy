/** Average-uniqueness weights for overlapping labels, and the exact conservation law they obey. */
module Uniqueness {
  import opened Common

  datatype Span = Span(symbol: string, first: int, last: int)

  /** One symbol on one session. */
  datatype Cell = Cell(symbol: string, t: int)

  /** `max(first, last)`: a span always covers its first session. */
  function Hi(s: Span): int {
    MaxInt(s.first, s.last)
  }

  function Length(s: Span): nat {
    Hi(s) - s.first + 1
  }

  predicate Covers(s: Span, c: Cell) {
    s.symbol == c.symbol && s.first <= c.t <= Hi(s)
  }

  /** The label is open on the session: from its first to its last one, and on its first whatever its last. */
  ghost predicate IsOpen(s: Span, symbol: string, t: int) {
    s.symbol == symbol && s.first <= t && (t <= s.last || t == s.first)
  }

  lemma OpenIsCovered(s: Span, c: Cell)
    ensures Covers(s, c) <==> IsOpen(s, c.symbol, c.t)
  {
  }

  /** How many labels are open on a cell. */
  function Count(spans: seq<Span>, c: Cell): nat {
    if spans == [] then 0 else Count(spans[..|spans| - 1], c) + if Covers(spans[|spans| - 1], c) then 1 else 0
  }

  lemma {:induction false} CountPositive(spans: seq<Span>, c: Cell)
    ensures Count(spans, c) > 0 <==> exists k :: 0 <= k < |spans| && Covers(spans[k], c)
  {
    if spans != [] {
      var n := |spans| - 1;
      CountPositive(spans[..n], c);
      if Count(spans[..n], c) > 0 {
        var k :| 0 <= k < n && Covers(spans[..n][k], c);
        assert Covers(spans[k], c);
      }
      if k :| 0 <= k < |spans| && Covers(spans[k], c) {
        assert k < n ==> Covers(spans[..n][k], c);
      }
    }
  }

  /** One over the number of labels sharing the cell. */
  function Share(spans: seq<Span>, c: Cell): real {
    if Count(spans, c) == 0 then 0.0 else 1.0 / Count(spans, c) as real
  }

  lemma ShareBounds(spans: seq<Span>, c: Cell)
    requires Count(spans, c) > 0
    ensures 0.0 < Share(spans, c) <= 1.0
    ensures Share(spans, c) == 1.0 <==> Count(spans, c) == 1
    ensures Count(spans, c) as real * Share(spans, c) == 1.0
  {
    Reciprocal(Count(spans, c) as real);
  }

  lemma Reciprocal(x: real)
    requires x >= 1.0
    ensures 0.0 < 1.0 / x <= 1.0 && x * (1.0 / x) == 1.0
    ensures 1.0 / x == 1.0 <==> x == 1.0
  {
    var r := 1.0 / x;
    assert r * x == 1.0;
  }

  /** The shares of sessions `lo .. hi` of one symbol. */
  function ShareSum(spans: seq<Span>, symbol: string, lo: int, hi: int): real
    decreases hi - lo
  {
    if hi < lo then 0.0 else ShareSum(spans, symbol, lo, hi - 1) + Share(spans, Cell(symbol, hi))
  }

  /** `np.mean([1.0 / counter[t] for t in sessions])` */
  function Weight(spans: seq<Span>, s: Span): real {
    ShareSum(spans, s.symbol, s.first, Hi(s)) / Length(s) as real
  }

  // ----- the weight, written out

  /** The labels open on a session. */
  ghost function Openings(spans: seq<Span>, symbol: string, t: int): set<int> {
    set j | 0 <= j < |spans| && IsOpen(spans[j], symbol, t)
  }

  /** The mean, over the sessions the label is open on, of one over the number of labels of the symbol open there. */
  ghost predicate IsWeight(w: real, spans: seq<Span>, k: int) {
    && 0 <= k < |spans|
    && exists shares :: AreShares(shares, spans, spans[k]) && w * |shares| as real == Sum(shares)
  }

  /** Session by session of the label, one over the number of labels of the symbol open there. */
  ghost predicate AreShares(shares: seq<real>, spans: seq<Span>, s: Span) {
    && |shares| == (if s.last >= s.first then s.last - s.first + 1 else 1)
    && forall i | 0 <= i < |shares| :: shares[i] * |Openings(spans, s.symbol, s.first + i)| as real == 1.0
  }

  lemma {:induction false} CountIsOpenings(spans: seq<Span>, c: Cell)
    ensures Count(spans, c) == |Openings(spans, c.symbol, c.t)|
  {
    hide Covers;
    if spans == [] {
      assert Openings(spans, c.symbol, c.t) == {};
    } else {
      var n := |spans| - 1;
      CountIsOpenings(spans[..n], c);
      OpenIsCovered(spans[n], c);
      var before, all := Openings(spans[..n], c.symbol, c.t), Openings(spans, c.symbol, c.t);
      assert all == if Covers(spans[n], c) then before + {n} else before;
    }
  }

  ghost function SharesOf(spans: seq<Span>, symbol: string, lo: int, n: nat): (r: seq<real>)
    ensures |r| == n && forall i | 0 <= i < n :: r[i] == Share(spans, Cell(symbol, lo + i))
  {
    seq(n, i requires 0 <= i < n => Share(spans, Cell(symbol, lo + i)))
  }

  lemma {:induction false} SharesAddUp(spans: seq<Span>, symbol: string, lo: int, n: nat)
    ensures Sum(SharesOf(spans, symbol, lo, n)) == ShareSum(spans, symbol, lo, lo + n - 1)
  {
    hide Share;
    if n > 0 {
      SharesAddUp(spans, symbol, lo, n - 1);
      assert SharesOf(spans, symbol, lo, n)
           == SharesOf(spans, symbol, lo, n - 1) + [Share(spans, Cell(symbol, lo + n - 1))];
      SumConcat(SharesOf(spans, symbol, lo, n - 1), [Share(spans, Cell(symbol, lo + n - 1))]);
      assert [Share(spans, Cell(symbol, lo + n - 1))][1..] == [];
    }
  }

  lemma WeightInFull(spans: seq<Span>, k: nat)
    requires k < |spans|
    ensures IsWeight(Weight(spans, spans[k]), spans, k)
  {
    hide Share, ShareSum, Count;
    var s := spans[k];
    var n := Length(s);
    var shares := SharesOf(spans, s.symbol, s.first, n);
    SharesAddUp(spans, s.symbol, s.first, n);
    forall i | 0 <= i < n ensures shares[i] * |Openings(spans, s.symbol, s.first + i)| as real == 1.0 {
      var c := Cell(s.symbol, s.first + i);
      assert Covers(s, c);
      CoveredIsCounted(spans, s, c);
      ShareBounds(spans, c);
      CountIsOpenings(spans, c);
    }
    MultiplyBack(ShareSum(spans, s.symbol, s.first, Hi(s)), n as real);
    assert AreShares(shares, spans, s);
  }

  lemma {:induction false} SameShares(a: seq<real>, b: seq<real>, counts: seq<nat>)
    requires |a| == |b| == |counts|
    requires forall i | 0 <= i < |a| :: a[i] * counts[i] as real == 1.0 && b[i] * counts[i] as real == 1.0
    ensures a == b
  {
    forall i | 0 <= i < |a| ensures a[i] == b[i] {
      OneReciprocal(a[i], b[i], counts[i] as real);
    }
  }

  lemma OneReciprocal(x: real, y: real, n: real)
    requires x * n == 1.0 && y * n == 1.0
    ensures x == y
  {
    assert x == x * (y * n) == y * (x * n);
  }

  lemma WeightUnique(w: real, spans: seq<Span>, k: nat)
    requires k < |spans| && IsWeight(w, spans, k)
    ensures w == Weight(spans, spans[k])
  {
    hide Weight, AreShares;
    WeightInFull(spans, k);
    var v := Weight(spans, spans[k]);
    var a :| AreShares(a, spans, spans[k]) && w * |a| as real == Sum(a);
    var b :| AreShares(b, spans, spans[k]) && v * |b| as real == Sum(b);
    SharesUnique(a, b, spans, spans[k]);
    SameFactor(w, v, |a| as real);
  }

  lemma SharesUnique(a: seq<real>, b: seq<real>, spans: seq<Span>, s: Span)
    requires AreShares(a, spans, s) && AreShares(b, spans, s)
    ensures a == b && |a| >= 1
  {
    hide Openings;
    SameShares(a, b, seq(|a|, i requires 0 <= i < |a| => |Openings(spans, s.symbol, s.first + i)|));
  }

  lemma SameFactor(w: real, v: real, n: real)
    requires n > 0.0 && w * n == v * n
    ensures w == v
  {
    assert (w - v) * n == 0.0;
  }

  // ----- the two passes

  ghost predicate Counts(counter: map<Cell, nat>, spans: seq<Span>) {
    forall c: Cell :: (if c in counter then counter[c] else 0) == Count(spans, c)
  }

  /** `average_uniqueness` (the per-symbol counters are one map keyed by symbol and session). */
  method AverageUniqueness(spans: seq<Span>) returns (weights: seq<real>)
    ensures |weights| == |spans|
    ensures forall k | 0 <= k < |spans| :: weights[k] == Weight(spans, spans[k]) && IsWeight(weights[k], spans, k)
  {
    var counter: map<Cell, nat> := map[];
    for k := 0 to |spans|
      invariant Counts(counter, spans[..k])
    {
      counter := CountSpan(counter, spans[..k], spans[k]);
      assert spans[..k + 1] == spans[..k] + [spans[k]];
    }
    assert spans[..|spans|] == spans;
    var out := new real[|spans|];
    for k := 0 to |spans|
      invariant forall j | 0 <= j < k :: out[j] == Weight(spans, spans[j])
    {
      out[k] := MeanShare(counter, spans, spans[k]);
    }
    weights := out[..];
    forall k | 0 <= k < |spans| ensures IsWeight(weights[k], spans, k) {
      WeightInFull(spans, k);
    }
  }

  method CountSpan(counter: map<Cell, nat>, ghost before: seq<Span>, s: Span) returns (r: map<Cell, nat>)
    requires Counts(counter, before)
    ensures Counts(r, before + [s])
  {
    r := counter;
    for t := s.first to Hi(s) + 1
      invariant forall c: Cell :: (if c in r then r[c] else 0)
                  == Count(before, c) + if c.symbol == s.symbol && s.first <= c.t < t then 1 else 0
    {
      var c := Cell(s.symbol, t);
      r := r[c := (if c in r then r[c] else 0) + 1];
    }
    assert (before + [s])[..|before|] == before;
  }

  method MeanShare(counter: map<Cell, nat>, ghost spans: seq<Span>, s: Span) returns (w: real)
    requires Counts(counter, spans) && s in spans
    ensures w == Weight(spans, s)
  {
    var total := 0.0;
    for t := s.first to Hi(s) + 1
      invariant total == ShareSum(spans, s.symbol, s.first, t - 1)
    {
      var c := Cell(s.symbol, t);
      CoveredIsCounted(spans, s, c);
      assert c in counter && counter[c] == Count(spans, c);
      total := total + 1.0 / counter[c] as real;
    }
    w := total / (Hi(s) - s.first + 1) as real;
  }

  lemma CoveredIsCounted(spans: seq<Span>, s: Span, c: Cell)
    requires s in spans && Covers(s, c)
    ensures Count(spans, c) > 0
  {
    var k :| 0 <= k < |spans| && spans[k] == s;
    CountPositive(spans, c);
  }

  // ----- weights lie in (0, 1], and a label nobody overlaps keeps weight 1

  lemma {:induction false} ShareSumBounds(spans: seq<Span>, s: Span, hi: int)
    requires s in spans && s.first - 1 <= hi <= Hi(s)
    ensures var n := (hi - s.first + 1) as real;
            && (n > 0.0 ==> 0.0 < ShareSum(spans, s.symbol, s.first, hi)) && ShareSum(spans, s.symbol, s.first, hi) <= n
            && (ShareSum(spans, s.symbol, s.first, hi) == n
                <==> forall t | s.first <= t <= hi :: Count(spans, Cell(s.symbol, t)) == 1)
    decreases hi - s.first
  {
    if s.first <= hi {
      hide Share, Count;
      ShareSumBounds(spans, s, hi - 1);
      CoveredIsCounted(spans, s, Cell(s.symbol, hi));
      ShareBounds(spans, Cell(s.symbol, hi));
    }
  }

  /** No other row's label shares a session with row `k`. */
  ghost predicate Alone(spans: seq<Span>, k: nat)
    requires k < |spans|
  {
    forall j, t | 0 <= j < |spans| && j != k && IsOpen(spans[k], spans[k].symbol, t) ::
      !IsOpen(spans[j], spans[k].symbol, t)
  }

  lemma AloneIsUncovered(spans: seq<Span>, k: nat)
    requires k < |spans|
    ensures Alone(spans, k) <==> forall j, c | 0 <= j < |spans| && j != k && Covers(spans[k], c) :: !Covers(spans[j], c)
  {
    hide Covers, IsOpen;
    forall s: Span, c: Cell ensures Covers(s, c) <==> IsOpen(s, c.symbol, c.t) {
      OpenIsCovered(s, c);
    }
    if Alone(spans, k) {
      forall j, c | 0 <= j < |spans| && j != k && Covers(spans[k], c) ensures !Covers(spans[j], c) {
        OpenOnOwn(spans[k], c);
      }
    } else {
      var j, t :| 0 <= j < |spans| && j != k && IsOpen(spans[k], spans[k].symbol, t)
                  && IsOpen(spans[j], spans[k].symbol, t);
      assert Covers(spans[k], Cell(spans[k].symbol, t)) && Covers(spans[j], Cell(spans[k].symbol, t));
    }
  }

  lemma OpenOnOwn(s: Span, c: Cell)
    ensures Covers(s, c) ==> c.symbol == s.symbol
  {
  }

  lemma {:induction false} CountOneIff(spans: seq<Span>, k: nat, c: Cell)
    requires k < |spans| && Covers(spans[k], c)
    ensures Count(spans, c) == 1 <==> forall j | 0 <= j < |spans| && j != k :: !Covers(spans[j], c)
  {
    var n := |spans| - 1;
    var init := spans[..n];
    assert forall j | 0 <= j < n :: init[j] == spans[j];
    CountPositive(init, c);
    if k < n {
      CountOneIff(init, k, c);
      if Covers(spans[n], c) {
        assert Covers(init[k], c);
      }
    }
  }

  lemma AloneIffCountOne(spans: seq<Span>, k: nat)
    requires k < |spans|
    ensures Alone(spans, k)
       <==> forall t | spans[k].first <= t <= Hi(spans[k]) :: Count(spans, Cell(spans[k].symbol, t)) == 1
  {
    var s := spans[k];
    AloneIsUncovered(spans, k);
    hide Alone, IsOpen;
    forall c | Covers(s, c)
      ensures Count(spans, c) == 1 <==> forall j | 0 <= j < |spans| && j != k :: !Covers(spans[j], c)
    {
      CountOneIff(spans, k, c);
    }
    if forall t | s.first <= t <= Hi(s) :: Count(spans, Cell(s.symbol, t)) == 1 {
      forall j, c | 0 <= j < |spans| && j != k && Covers(spans[k], c) ensures !Covers(spans[j], c) {
        assert c == Cell(s.symbol, c.t);
      }
    }
    if Alone(spans, k) {
      forall t | s.first <= t <= Hi(s) ensures Count(spans, Cell(s.symbol, t)) == 1 {
        assert Covers(s, Cell(s.symbol, t));
      }
    }
  }

  lemma WeightBounds(spans: seq<Span>, k: nat)
    requires k < |spans|
    ensures 0.0 < Weight(spans, spans[k]) <= 1.0
    ensures Weight(spans, spans[k]) == 1.0 <==> Alone(spans, k)
  {
    var s := spans[k];
    ShareSumBounds(spans, s, Hi(s));
    AloneIffCountOne(spans, k);
    MeanBounds(ShareSum(spans, s.symbol, s.first, Hi(s)), Length(s) as real);
  }

  function Weights(spans: seq<Span>): (w: seq<real>)
    ensures |w| == |spans| && forall k | 0 <= k < |spans| :: w[k] == Weight(spans, spans[k])
  {
    seq(|spans|, k requires 0 <= k < |spans| => Weight(spans, spans[k]))
  }

  lemma {:induction false} SumOfShares(w: seq<real>)
    requires forall k | 0 <= k < |w| :: 0.0 < w[k] <= 1.0
    ensures Sum(w) <= |w| as real && (w != [] ==> Sum(w) > 0.0)
    ensures Sum(w) == |w| as real <==> forall k | 0 <= k < |w| :: w[k] == 1.0
  {
    if w != [] {
      var rest := w[1..];
      assert forall k | 0 <= k < |rest| :: rest[k] == w[k + 1];
      SumOfShares(rest);
      assert (forall k | 0 <= k < |w| :: w[k] == 1.0) <==> w[0] == 1.0 && forall k | 0 <= k < |rest| :: rest[k] == 1.0;
    }
  }

  /** `effective_rows`: never more than the rows there are, and as many exactly when no two labels overlap. */
  lemma EffectiveRowsBounds(spans: seq<Span>)
    ensures 0.0 <= Sum(Weights(spans)) <= |spans| as real
    ensures spans != [] ==> Sum(Weights(spans)) > 0.0
    ensures Sum(Weights(spans)) == |spans| as real <==> forall k | 0 <= k < |spans| :: Alone(spans, k)
  {
    hide Weight, Alone;
    forall k | 0 <= k < |spans|
      ensures 0.0 < Weight(spans, spans[k]) <= 1.0 && (Weight(spans, spans[k]) == 1.0 <==> Alone(spans, k))
    {
      WeightBounds(spans, k);
    }
    SumOfShares(Weights(spans));
  }

  lemma MeanBounds(x: real, n: real)
    requires 0.0 < x <= n
    ensures 0.0 < x / n <= 1.0 && (x / n == 1.0 <==> x == n) && n * (x / n) == x
  {
    var q := x / n;
    assert q * n == x;
  }

  // ----- conservation

  function CellsOf(symbol: string, lo: int, hi: int): set<Cell> {
    set t | lo <= t <= hi :: Cell(symbol, t)
  }

  /** Every (symbol, session) pair covered by some label. */
  function Covered(spans: seq<Span>): set<Cell> {
    if spans == [] then {} else
      var s := spans[|spans| - 1];
      Covered(spans[..|spans| - 1]) + CellsOf(s.symbol, s.first, Hi(s))
  }

  lemma {:induction false} CoveredMeaning(spans: seq<Span>, c: Cell)
    ensures c in Covered(spans) <==> Count(spans, c) > 0
    ensures c in Covered(spans) <==> exists k :: 0 <= k < |spans| && IsOpen(spans[k], c.symbol, c.t)
  {
    CountPositive(spans, c);
    if spans != [] {
      CoveredMeaning(spans[..|spans| - 1], c);
      var s := spans[|spans| - 1];
      assert c in CellsOf(s.symbol, s.first, Hi(s)) <==> Covers(s, c);
    }
  }

  /** What a row claims: its span length times its weight. */
  function Claim(all: seq<Span>, s: Span): real {
    Length(s) as real * Weight(all, s)
  }

  function TotalClaim(rows: seq<Span>, all: seq<Span>): real {
    if rows == [] then 0.0 else
      TotalClaim(rows[..|rows| - 1], all) + Claim(all, rows[|rows| - 1])
  }

  ghost function ShareFn(all: seq<Span>): Cell -> real {
    (c: Cell) => Share(all, c)
  }

  /** What the rows in `rows` take of each cell. */
  ghost function TakenFn(rows: seq<Span>, all: seq<Span>): Cell -> real {
    (c: Cell) => Count(rows, c) as real * Share(all, c)
  }

  lemma {:induction false} ShareSumIsSetSum(all: seq<Span>, symbol: string, lo: int, hi: int)
    ensures ShareSum(all, symbol, lo, hi) == SumOver(CellsOf(symbol, lo, hi), ShareFn(all))
    decreases hi - lo
  {
    if hi < lo {
      assert CellsOf(symbol, lo, hi) == {};
    } else {
      hide Share;
      ShareSumIsSetSum(all, symbol, lo, hi - 1);
      var init := CellsOf(symbol, lo, hi - 1);
      assert CellsOf(symbol, lo, hi) == init + {Cell(symbol, hi)};
      SumOverAdd(init, Cell(symbol, hi), ShareFn(all));
    }
  }

  /** The cells of `u` that `s` covers. */
  function Within(u: set<Cell>, s: Span): set<Cell> {
    set c | c in u && Covers(s, c)
  }

  /** Adding row `s` takes one more share of each of its cells. */
  lemma {:induction false} TakenStep(u: set<Cell>, rows: seq<Span>, s: Span, all: seq<Span>)
    ensures SumOver(u, TakenFn(rows + [s], all))
         == SumOver(u, TakenFn(rows, all)) + SumOver(Within(u, s), ShareFn(all))
  {
    var covered := Within(u, s);
    if u != {} {
      var c :| c in u;
      var u' := u - {c};
      TakenStep(u', rows, s, all);
      SumOverPick(u, c, TakenFn(rows + [s], all));
      SumOverPick(u, c, TakenFn(rows, all));
      TakenAt(rows, s, all, c);
      var covered' := Within(u', s);
      if Covers(s, c) {
        assert covered == covered' + {c};
        SumOverAdd(covered', c, ShareFn(all));
      } else {
        assert covered == covered';
      }
    }
  }

  lemma TakenAt(rows: seq<Span>, s: Span, all: seq<Span>, c: Cell)
    ensures TakenFn(rows + [s], all)(c) == TakenFn(rows, all)(c) + if Covers(s, c) then ShareFn(all)(c) else 0.0
  {
    assert (rows + [s])[..|rows|] == rows;
    OneMore(Count(rows, c) as real, Share(all, c));
  }

  lemma OneMore(n: real, x: real)
    ensures (n + 1.0) * x == n * x + x
  {
  }

  lemma {:induction false} NothingTaken(u: set<Cell>, all: seq<Span>)
    ensures SumOver(u, TakenFn([], all)) == 0.0
  {
    if u != {} {
      var c :| c in u;
      SumOverPick(u, c, TakenFn([], all));
      NothingTaken(u - {c}, all);
    }
  }

  lemma {:induction false} ClaimsAreTakings(rows: seq<Span>, all: seq<Span>, u: set<Cell>)
    requires forall k | 0 <= k < |rows| :: CellsOf(rows[k].symbol, rows[k].first, Hi(rows[k])) <= u
    ensures TotalClaim(rows, all) == SumOver(u, TakenFn(rows, all))
  {
    if rows == [] {
      NothingTaken(u, all);
    } else {
      var init, s := rows[..|rows| - 1], rows[|rows| - 1];
      hide Share, Count, SumOver, TakenFn, ShareFn, Within, CellsOf, ShareSum, Claim, Hi;
      assert CellsOf(s.symbol, s.first, Hi(s)) <= u;
      ClaimsAreTakings(init, all, u);
      assert rows == init + [s];
      TakenStep(u, init, s, all);
      CellsInside(u, s);
      ShareSumIsSetSum(all, s.symbol, s.first, Hi(s));
      ClaimOfOne(all, s);
    }
  }

  lemma CellsInside(u: set<Cell>, s: Span)
    requires CellsOf(s.symbol, s.first, Hi(s)) <= u
    ensures Within(u, s) == CellsOf(s.symbol, s.first, Hi(s))
  {
    forall c | Covers(s, c) ensures c in CellsOf(s.symbol, s.first, Hi(s)) {
      assert c == Cell(s.symbol, c.t);
    }
  }

  lemma ClaimOfOne(all: seq<Span>, s: Span)
    ensures Claim(all, s) == ShareSum(all, s.symbol, s.first, Hi(s))
  {
    MultiplyBack(ShareSum(all, s.symbol, s.first, Hi(s)), Length(s) as real);
  }

  lemma MultiplyBack(x: real, n: real)
    requires n > 0.0
    ensures n * (x / n) == x
  {
  }

  lemma {:induction false} CellsSumToOne(all: seq<Span>, u: set<Cell>)
    requires forall c | c in u :: Count(all, c) > 0
    ensures SumOver(u, TakenFn(all, all)) == |u| as real
  {
    if u == {} {
      EmptySum(TakenFn(all, all));
    } else {
      hide *;
      var c :| c in u;
      SumOverPick(u, c, TakenFn(all, all));
      CellsSumToOne(all, u - {c});
      FullyTaken(all, c);
      assert |u| == |u - {c}| + 1;
    }
  }

  lemma EmptySum(f: Cell -> real)
    ensures SumOver({}, f) == 0.0
  {
  }

  lemma FullyTaken(all: seq<Span>, c: Cell)
    requires Count(all, c) > 0
    ensures TakenFn(all, all)(c) == 1.0
  {
    hide Count, Share;
    ShareBounds(all, c);
  }

  /** Conservation: span length times weight, summed over all rows, is the number of distinct covered cells. */
  lemma ClaimsConserveCoverage(spans: seq<Span>)
    ensures TotalClaim(spans, spans) == |Covered(spans)| as real
  {
    var u := Covered(spans);
    forall c | c in u ensures Count(spans, c) > 0 {
      CoveredMeaning(spans, c);
    }
    forall k | 0 <= k < |spans| ensures CellsOf(spans[k].symbol, spans[k].first, Hi(spans[k])) <= u {
      forall c | c in CellsOf(spans[k].symbol, spans[k].first, Hi(spans[k])) ensures c in u {
        assert Covers(spans[k], c);
        CountPositive(spans, c);
        CoveredMeaning(spans, c);
      }
    }
    ClaimsAreTakings(spans, spans, u);
    CellsSumToOne(spans, u);
  }

  lemma {:induction false} ClaimsAddUp(rows: seq<Span>, all: seq<Span>, claims: seq<real>)
    requires |claims| == |rows| && forall k | 0 <= k < |rows| :: claims[k] == Claim(all, rows[k])
    ensures Sum(claims) == TotalClaim(rows, all)
  {
    hide Claim;
    if rows != [] {
      var n := |rows| - 1;
      ClaimsAddUp(rows[..n], all, claims[..n]);
      assert claims == claims[..n] + [claims[n]] && [claims[n]][1..] == [];
      SumConcat(claims[..n], [claims[n]]);
    }
  }

  /** Over any labels, number of sessions times weight adds up to the number of (symbol, session) pairs some label is
      open on. */
  lemma WeightsConserveCoverage(spans: seq<Span>, weights: seq<real>, claims: seq<real>, covered: set<Cell>)
    requires |weights| == |claims| == |spans| && forall k | 0 <= k < |spans| :: IsWeight(weights[k], spans, k)
    requires forall k | 0 <= k < |spans| ::
               claims[k] == (if spans[k].last >= spans[k].first then spans[k].last - spans[k].first + 1 else 1) as real
                            * weights[k]
    requires forall c :: c in covered <==> exists k :: 0 <= k < |spans| && IsOpen(spans[k], c.symbol, c.t)
    ensures Sum(claims) == |covered| as real
  {
    hide Weight, IsWeight, IsOpen, Covered;
    forall k | 0 <= k < |spans| ensures claims[k] == Claim(spans, spans[k]) {
      WeightUnique(weights[k], spans, k);
    }
    ClaimsAddUp(spans, spans, claims);
    ClaimsConserveCoverage(spans);
    forall c ensures c in covered <==> c in Covered(spans) {
      CoveredMeaning(spans, c);
    }
    assert covered == Covered(spans);
  }
}

/**
 Backtest scoring: what a position path earned, what a registered rule's positions are, and how results compose.
 The Sharpe ratio is not part of this model.
 */
module Backtest {
  import opened Common

  const FEATURE_LOOKBACK := 300

  // ----- the rule's positions

  datatype Signal = BUY | SELL | HOLD

  /** `decide` is the feature vector followed by the rule, both pure; `requiredRanks` names the cross-sectional
      inputs. */
  datatype Rule<!T> = Rule(requiredRanks: set<string>, decide: seq<T> -> Signal)

  function Window<T>(bars: seq<T>, t: nat): seq<T>
    requires t < |bars|
  {
    bars[MaxInt(0, t - FEATURE_LOOKBACK + 1)..t + 1]
  }

  function DecisionAt<T>(bars: seq<T>, rule: Rule<T>, t: nat): Signal
    requires t < |bars|
  {
    rule.decide(Window(bars, t))
  }

  /** BUY enters, SELL exits, HOLD carries. */
  function PositionAt<T>(bars: seq<T>, rule: Rule<T>, t: nat): real
    requires t < |bars|
  {
    match DecisionAt(bars, rule, t)
    case BUY => 1.0
    case SELL => 0.0
    case HOLD => if t == 0 then 0.0 else PositionAt(bars, rule, t - 1)
  }

  function Positions<T>(bars: seq<T>, rule: Rule<T>): (r: seq<real>)
    ensures |r| == |bars| && forall t | 0 <= t < |bars| :: r[t] == PositionAt(bars, rule, t)
  {
    seq(|bars|, t requires 0 <= t < |bars| => PositionAt(bars, rule, t))
  }

  /** `None` is the refusal of a rule that needs a universe. */
  method RulePositions<T>(bars: seq<T>, rule: Rule<T>) returns (position: Option<seq<real>>)
    ensures position == if rule.requiredRanks == {} then Some(Positions(bars, rule)) else None
  {
    if rule.requiredRanks != {} {
      return None;
    }
    var decided: seq<real> := [];
    var current := 0.0;
    for t := 0 to |bars|
      invariant |decided| == t && forall k | 0 <= k < t :: decided[k] == PositionAt(bars, rule, k)
      invariant current == if t == 0 then 0.0 else PositionAt(bars, rule, t - 1)
    {
      var decision := DecisionAt(bars, rule, t);
      if decision == BUY {
        current := 1.0;
      } else if decision == SELL {
        current := 0.0;
      }
      decided := decided + [current];
    }
    assert decided == Positions(bars, rule);
    position := Some(decided);
  }

  /** What the rule answers when shown bar `k` and up to 299 bars before it. */
  ghost predicate Answers<T>(bars: seq<T>, rule: Rule<T>, k: int, answer: Signal) {
    0 <= k < |bars| && rule.decide(bars[if k < 299 then 0 else k - 299..k + 1]) == answer
  }

  lemma AnswersIs<T>(bars: seq<T>, rule: Rule<T>, k: nat)
    requires k < |bars|
    ensures forall answer :: Answers(bars, rule, k, answer) <==> DecisionAt(bars, rule, k) == answer
  {
  }

  /** Long exactly when the last answer that was not HOLD was a BUY. */
  lemma {:induction false} LongIffLastActedBuy<T>(bars: seq<T>, rule: Rule<T>, t: nat)
    requires t < |bars|
    ensures PositionAt(bars, rule, t) == 1.0 || PositionAt(bars, rule, t) == 0.0
    ensures PositionAt(bars, rule, t) == 1.0
       <==> exists k ::
              0 <= k <= t && Answers(bars, rule, k, BUY) && forall j | k < j <= t :: Answers(bars, rule, j, HOLD)
  {
    hide DecisionAt, Answers;
    AnswersIs(bars, rule, t);
    if DecisionAt(bars, rule, t) == HOLD {
      if t > 0 {
        LongIffLastActedBuy(bars, rule, t - 1);
      }
    } else {
      assert !Answers(bars, rule, t, HOLD);
      assert Answers(bars, rule, t, BUY) <==> DecisionAt(bars, rule, t) == BUY;
    }
  }

  /** What is decided at a bar depends on nothing later. */
  lemma {:induction false} PositionCausal<T>(bars: seq<T>, rule: Rule<T>, n: nat, t: nat)
    requires t < n <= |bars|
    ensures PositionAt(bars[..n], rule, t) == PositionAt(bars, rule, t)
  {
    assert Window(bars[..n], t) == Window(bars, t);
    if t > 0 {
      PositionCausal(bars, rule, n, t - 1);
    }
  }

  lemma PositionsCausal<T>(bars: seq<T>, rule: Rule<T>, n: nat)
    requires n <= |bars|
    ensures Positions(bars[..n], rule) == Positions(bars, rule)[..n]
  {
    forall t | 0 <= t < n ensures Positions(bars[..n], rule)[t] == Positions(bars, rule)[t] {
      PositionCausal(bars, rule, n, t);
    }
  }

  /** Dropping the oldest bars changes nothing from the first full-window decision that is not HOLD. */
  lemma {:induction false} TrimmedHistoryAgrees<T>(bars: seq<T>, rule: Rule<T>, s: nat, k: nat, t: nat)
    requires s + FEATURE_LOOKBACK - 1 <= k <= t < |bars| && DecisionAt(bars, rule, k) != HOLD
    ensures PositionAt(bars[s..], rule, t - s) == PositionAt(bars, rule, t)
    decreases t
  {
    assert Window(bars[s..], t - s) == Window(bars, t);
    if t > k {
      TrimmedHistoryAgrees(bars, rule, s, k, t - 1);
    }
  }

  // ----- returns

  datatype Path = Path(prices: seq<real>, position: seq<real>)

  predicate Scorable(p: Path) {
    |p.prices| >= 2 && |p.position| == |p.prices|
  }

  function Upto(p: Path, n: nat): (r: Path)
    ensures |p.position| == |p.prices| ==> |r.position| == |r.prices| == MinInt(n, |p.prices|)
  {
    Path(p.prices[..MinInt(n, |p.prices|)], p.position[..MinInt(n, |p.position|)])
  }

  /** The trade that established `position[i]`; the path starts flat. */
  function Trade(p: Path, i: nat): real
    requires i < |p.position|
  {
    AbsReal(p.position[i] - (if i == 0 then 0.0 else p.position[i - 1]))
  }

  function BarReturn(p: Path, costBps: real, i: nat): real
    requires Scorable(p) && i + 1 < |p.prices|
  {
    Times(p.position[i], Ratio(p.prices[i + 1], p.prices[i]) - 1.0) - Times(Trade(p, i), costBps / 10000.0)
  }

  /** Entry `i` is what was decided at bar `i` and earned by bar `i + 1`. */
  function StrategyReturns(p: Path, costBps: real): (r: seq<real>)
    requires Scorable(p)
    ensures |r| == |p.prices| - 1 && forall i | 0 <= i < |r| :: r[i] == BarReturn(p, costBps, i)
  {
    seq(|p.prices| - 1, i requires 0 <= i < |p.prices| - 1 => BarReturn(p, costBps, i))
  }

  function Trades(p: Path): (r: seq<real>)
    requires Scorable(p)
    ensures |r| == |p.prices| - 1 && forall i | 0 <= i < |r| :: r[i] == Trade(p, i)
  {
    seq(|p.prices| - 1, i requires 0 <= i < |p.prices| - 1 => Trade(p, i))
  }

  // ----- the score

  function Compound(r: seq<real>): real {
    if r == [] then 1.0 else Times(Compound(r[..|r| - 1]), 1.0 + r[|r| - 1])
  }

  /** `np.cumprod(1 + r)` */
  function CumProd(r: seq<real>): (e: seq<real>)
    ensures |e| == |r| && forall k | 0 <= k < |r| :: e[k] == Compound(r[..k + 1])
  {
    seq(|r|, k requires 0 <= k < |r| => Compound(r[..k + 1]))
  }

  function CountPositive(s: seq<real>): nat {
    if s == [] then 0 else CountPositive(s[..|s| - 1]) + if s[|s| - 1] > 0.0 then 1 else 0
  }

  function MaxOf(s: seq<real>): real
    requires s != []
  {
    if |s| == 1 then s[0] else MaxReal(MaxOf(s[..|s| - 1]), s[|s| - 1])
  }

  /** `np.maximum.accumulate` */
  function RunningMax(e: seq<real>): (m: seq<real>)
    ensures |m| == |e| && forall k | 0 <= k < |e| :: m[k] == MaxOf(e[..k + 1])
  {
    seq(|e|, k requires 0 <= k < |e| => MaxOf(e[..k + 1]))
  }

  function Drawdowns(e: seq<real>): (d: seq<real>)
    ensures |d| == |e| && forall k | 0 <= k < |e| :: d[k] == Ratio(RunningMax(e)[k] - e[k], RunningMax(e)[k])
  {
    seq(|e|, k requires 0 <= k < |e| => Ratio(RunningMax(e)[k] - e[k], RunningMax(e)[k]))
  }

  function MaxDrawdown(e: seq<real>): real {
    if e == [] then 0.0 else MaxOf(Drawdowns(e))
  }

  datatype Result = Result(totalReturn: real, maxDrawdown: real, nTrades: nat, nBars: nat, equityCurve: seq<real>)

  const EMPTY_RESULT: Result := Result(0.0, 0.0, 0, 0, [])

  /** How many leading return observations `first_bar` leaves out. */
  function Skip(first: int, n: nat): (k: nat)
    ensures k <= n
  {
    MinInt(MaxInt(first, 1) - 1, n)
  }

  function ScoreReturns(scored: seq<real>, trades: seq<real>): Result {
    if scored == [] then EMPTY_RESULT else
      var equity := CumProd(scored);
      Result(equity[|equity| - 1] - 1.0, MaxDrawdown(equity), CountPositive(trades), |scored|, equity)
  }

  /** `score_positions` */
  function ScorePositions(p: Path, costBps: real, first: int): Result {
    if !Scorable(p) then EMPTY_RESULT else
      var n := |p.prices| - 1;
      ScoreReturns(StrategyReturns(p, costBps)[Skip(first, n)..], Trades(p)[Skip(first, n)..])
  }

  // ----- a score, written out

  /** What bar `i + 1` earned: the position decided at bar `i` times the price change, less the cost of establishing
      it. */
  ghost predicate IsEarned(r: real, p: Path, costBps: real, i: nat)
    requires |p.prices| == |p.position| && i + 1 < |p.prices|
  {
    var before := if i == 0 then 0.0 else p.position[i - 1];
    var turn := if p.position[i] >= before then p.position[i] - before else before - p.position[i];
    p.prices[i] != 0.0 ==> r == p.position[i] * (p.prices[i + 1] / p.prices[i] - 1.0) - turn * (costBps / 10000.0)
  }

  ghost predicate Changes(position: seq<real>, i: int) {
    0 <= i < |position| && position[i] != (if i == 0 then 0.0 else position[i - 1])
  }

  /** Point `k` of the curve is the one before it grown by what was earned. */
  ghost predicate Grows(curve: seq<real>, p: Path, costBps: real, from: nat, k: int) {
    && |p.prices| == |p.position| && 0 < k < |curve| && from + k + 1 < |p.prices|
    && exists r, i: nat ::
         i == from + k && i + 1 < |p.prices| && IsEarned(r, p, costBps, i) && curve[k] == curve[k - 1] * (1.0 + r)
  }

  /** The score of a position path from bar `first` on: growth compounded return by return from the first one scored,
      the trades being the position changes that established what was scored. `from` is the first return counted. */
  lemma ScoreInFull(p: Path, costBps: real, first: int, from: nat)
    requires from == if first < 1 then 0 else first - 1
    ensures var s, n := ScorePositions(p, costBps, first), |p.prices| - 1;
            if |p.prices| < 2 || |p.position| != |p.prices| || from >= n then s == Result(0.0, 0.0, 0, 0, [])
            else
              && s.nBars == |s.equityCurve| == n - from && s.totalReturn == s.equityCurve[n - from - 1] - 1.0
              && IsEarned(s.equityCurve[0] - 1.0, p, costBps, from)
              && (forall k | 0 < k < n - from :: Grows(s.equityCurve, p, costBps, from, k))
              && s.nTrades == |set i | from <= i < n && Changes(p.position, i)|
  {
    hide MaxDrawdown, Ratio, Compound, CountPositive, BarReturn, Trade, IsEarned, Grows, Changes, Skip;
    var n := |p.prices| - 1;
    if |p.prices| >= 2 && |p.position| == |p.prices| {
      SkipIs(first, n, from);
      if from < n {
        var scored, trades := StrategyReturns(p, costBps)[from..], Trades(p)[from..];
        TotalIsCompound(scored, trades);
        EarnedIs(p, costBps, from);
        CompoundOne(scored[0]);
        assert scored[..1] == [scored[0]] && scored[..|scored|] == scored;
        forall k | 0 < k < n - from ensures Grows(CumProd(scored), p, costBps, from, k) {
          CurveGrows(p, costBps, scored, from, k);
        }
        assert trades == Trades(p)[from..n];
        TradesCounted(p, from, n);
      }
    }
  }

  lemma CurveGrows(p: Path, costBps: real, scored: seq<real>, from: nat, k: nat)
    requires Scorable(p) && from + k + 1 < |p.prices| && 0 < k && scored == StrategyReturns(p, costBps)[from..]
    ensures Grows(CumProd(scored), p, costBps, from, k)
  {
    hide IsEarned, BarReturn, Compound;
    EarnedIs(p, costBps, from + k);
    CompoundNext(scored, k);
    assert IsEarned(scored[k], p, costBps, from + k);
  }

  lemma SkipIs(first: int, n: nat, from: nat)
    requires from == if first < 1 then 0 else first - 1
    ensures Skip(first, n) == if from < n then from else n
  {
  }

  lemma EarnedIs(p: Path, costBps: real, i: nat)
    requires Scorable(p) && i + 1 < |p.prices|
    ensures IsEarned(BarReturn(p, costBps, i), p, costBps, i)
  {
  }

  lemma CompoundNext(r: seq<real>, k: nat)
    requires 0 < k < |r|
    ensures Compound(r[..k + 1]) == Compound(r[..k]) * (1.0 + r[k])
  {
    assert r[..k + 1][..k] == r[..k];
  }

  lemma TradesStep(p: Path, from: nat, till: nat)
    requires Scorable(p) && from < till < |p.prices|
    ensures CountPositive(Trades(p)[from..till])
         == CountPositive(Trades(p)[from..till - 1]) + if Changes(p.position, till - 1) then 1 else 0
  {
    assert Trades(p)[from..till][..till - 1 - from] == Trades(p)[from..till - 1];
  }

  lemma {:induction false} TradesCounted(p: Path, from: nat, till: nat)
    requires Scorable(p) && from <= till < |p.prices|
    ensures CountPositive(Trades(p)[from..till]) == |set i | from <= i < till && Changes(p.position, i)|
    decreases till
  {
    hide CountPositive, Trade, Changes;
    var changed := set i | from <= i < till && Changes(p.position, i);
    if from == till {
      assert changed == {};
      CountNone();
      assert Trades(p)[from..till] == [];
    } else {
      TradesCounted(p, from, till - 1);
      TradesStep(p, from, till);
      var before := set i | from <= i < till - 1 && Changes(p.position, i);
      assert changed == if Changes(p.position, till - 1) then before + {till - 1} else before;
    }
  }

  lemma CountNone()
    ensures CountPositive([]) == 0
  {
  }

  // ----- composition

  lemma TimesAssociates(a: real, b: real, c: real)
    ensures Times(Times(a, b), c) == Times(a, Times(b, c)) && Times(a, 1.0) == a && Times(1.0, a) == a
  {
  }

  lemma {:induction false} CompoundConcat(a: seq<real>, b: seq<real>)
    ensures Compound(a + b) == Times(Compound(a), Compound(b))
  {
    hide Times;
    if b == [] {
      assert a + b == a;
      TimesAssociates(Compound(a), 1.0, 1.0);
    } else {
      var front := b[..|b| - 1];
      assert (a + b)[..|a + b| - 1] == a + front;
      CompoundConcat(a, front);
      TimesAssociates(Compound(a), Compound(front), 1.0 + b[|b| - 1]);
    }
  }

  lemma {:induction false} CountConcat(a: seq<real>, b: seq<real>)
    ensures CountPositive(a + b) == CountPositive(a) + CountPositive(b)
  {
    if b == [] {
      assert a + b == a;
    } else {
      assert (a + b)[..|a + b| - 1] == a + b[..|b| - 1];
      CountConcat(a, b[..|b| - 1]);
    }
  }

  function Scaled(e: seq<real>, factor: real): (r: seq<real>)
    ensures |r| == |e| && forall k | 0 <= k < |e| :: r[k] == Times(factor, e[k])
  {
    seq(|e|, k requires 0 <= k < |e| => Times(factor, e[k]))
  }

  /** Growth multiplies, trades and bars add, and the curve goes on from where `head` ended. */
  ghost predicate Continues(whole: Result, head: Result, tail: Result) {
    && 1.0 + whole.totalReturn == Times(1.0 + head.totalReturn, 1.0 + tail.totalReturn)
    && whole.nTrades == head.nTrades + tail.nTrades && whole.nBars == head.nBars + tail.nBars
    && whole.equityCurve == head.equityCurve + Scaled(tail.equityCurve, 1.0 + head.totalReturn)
  }

  lemma TotalIsCompound(scored: seq<real>, trades: seq<real>)
    ensures 1.0 + ScoreReturns(scored, trades).totalReturn == Compound(scored)
    ensures |ScoreReturns(scored, trades).equityCurve| == ScoreReturns(scored, trades).nBars == |scored|
    ensures |trades| == |scored| ==> ScoreReturns(scored, trades).nTrades == CountPositive(trades)
    ensures ScoreReturns(scored, trades).equityCurve == CumProd(scored)
  {
    hide MaxDrawdown;
    assert scored[..|scored|] == scored;
  }

  lemma ScoresContinue(a: seq<real>, b: seq<real>, ta: seq<real>, tb: seq<real>)
    requires |ta| == |a| && |tb| == |b|
    ensures Continues(ScoreReturns(a + b, ta + tb), ScoreReturns(a, ta), ScoreReturns(b, tb))
  {
    hide ScoreReturns, Times, Compound, CountPositive;
    TotalIsCompound(a, ta);
    TotalIsCompound(b, tb);
    TotalIsCompound(a + b, ta + tb);
    CompoundConcat(a, b);
    CountConcat(ta, tb);
    var whole, head, tail := ScoreReturns(a + b, ta + tb), ScoreReturns(a, ta), ScoreReturns(b, tb);
    forall k | 0 <= k < |a| ensures head.equityCurve[k] == whole.equityCurve[k] {
      assert (a + b)[..k + 1] == a[..k + 1];
    }
    forall k | 0 <= k < |b| ensures whole.equityCurve[|a| + k] == Times(Compound(a), tail.equityCurve[k]) {
      assert (a + b)[..|a| + k + 1] == a + b[..k + 1];
      CompoundConcat(a, b[..k + 1]);
    }
  }

  lemma ReturnsCausal(p: Path, costBps: real, n: nat)
    requires Scorable(p) && 2 <= n <= |p.prices|
    ensures StrategyReturns(Upto(p, n), costBps) == StrategyReturns(p, costBps)[..n - 1]
    ensures Trades(Upto(p, n)) == Trades(p)[..n - 1]
  {
    hide Times, Ratio;
    var head := Upto(p, n);
    assert Scorable(head);
    forall i | 0 <= i < n - 1
      ensures BarReturn(head, costBps, i) == BarReturn(p, costBps, i) && Trade(head, i) == Trade(p, i) {
    }
  }

  lemma Slices(r: seq<real>, from: nat, to: nat)
    requires from <= to <= |r|
    ensures r[from..to] + r[to..] == r[from..] && r[..to][from..] == r[from..to]
  {
  }

  lemma HeadScore(p: Path, costBps: real, g: int, f: nat)
    requires Scorable(p) && g <= f
    ensures var n := |p.prices| - 1;
            var from, to := Skip(g, n), Skip(f, n);
            from <= to && ScorePositions(Upto(p, f), costBps, g)
                       == ScoreReturns(StrategyReturns(p, costBps)[from..to], Trades(p)[from..to])
  {
    hide ScoreReturns, StrategyReturns, Trades;
    var n := |p.prices| - 1;
    var from, to := Skip(g, n), Skip(f, n);
    if f >= 2 {
      ReturnsCausal(p, costBps, MinInt(f, n + 1));
      assert Upto(p, f) == Upto(p, MinInt(f, n + 1));
      Slices(StrategyReturns(p, costBps), from, to);
      Slices(Trades(p), from, to);
    } else {
      EmptyScores(Trades(p)[from..to]);
    }
  }

  /** The bars before `f` and the bars from `f` make up the whole, for every start `g` and split `f`. */
  lemma ScoreSplits(p: Path, costBps: real, g: int, f: nat)
    requires |p.position| == |p.prices| && g <= f
    ensures Continues(ScorePositions(p, costBps, g), ScorePositions(Upto(p, f), costBps, g),
                      ScorePositions(p, costBps, f))
  {
    hide ScoreReturns, StrategyReturns, Trades, Continues, Upto;
    if Scorable(p) {
      var n := |p.prices| - 1;
      var r, t := StrategyReturns(p, costBps), Trades(p);
      var from, to := Skip(g, n), Skip(f, n);
      HeadScore(p, costBps, g, f);
      Slices(r, from, to);
      Slices(t, from, to);
      ScoresContinue(r[from..to], r[to..], t[from..to], t[to..]);
    } else {
      UptoScorable(p, f);
      EmptyContinues();
    }
  }

  lemma UptoScorable(p: Path, n: nat)
    requires |p.position| == |p.prices|
    ensures Scorable(Upto(p, n)) ==> Scorable(p)
  {
  }

  lemma EmptyScores(trades: seq<real>)
    ensures ScoreReturns([], trades) == EMPTY_RESULT
  {
  }

  lemma EmptyContinues()
    ensures Continues(EMPTY_RESULT, EMPTY_RESULT, EMPTY_RESULT)
  {
  }

  // ----- what a path earns

  /** The position of a bar earns the next bar: returns up to a bar depend on nothing decided at it or later. */
  lemma EarnedAfterDecided(p: Path, q: Path, costBps: real, m: nat)
    requires Scorable(p) && Scorable(q) && m < |p.prices| && m < |q.prices|
    requires p.prices[..m + 1] == q.prices[..m + 1] && p.position[..m] == q.position[..m]
    ensures StrategyReturns(p, costBps)[..m] == StrategyReturns(q, costBps)[..m]
  {
    hide Times, Ratio;
    forall i | 0 <= i < m ensures BarReturn(p, costBps, i) == BarReturn(q, costBps, i) {
      assert p.prices[..m + 1][i] == p.prices[i] && p.prices[..m + 1][i + 1] == p.prices[i + 1];
      assert q.prices[..m + 1][i] == q.prices[i] && q.prices[..m + 1][i + 1] == q.prices[i + 1];
      assert p.position[..m][i] == p.position[i] && q.position[..m][i] == q.position[i];
      assert i > 0 ==> p.position[..m][i - 1] == p.position[i - 1] && q.position[..m][i - 1] == q.position[i - 1];
    }
  }

  function Constant(v: real, n: nat): (r: seq<real>)
    ensures |r| == n && forall k | 0 <= k < n :: r[k] == v
  {
    seq(n, _ => v)
  }

  lemma RatioChain(a: real, b: real, c: real)
    requires a > 0.0 && b > 0.0
    ensures Times(Ratio(b, a), Ratio(c, b)) == Ratio(c, a)
  {
    assert (b / a) * (c / b) == c / a by {
      assert (b / a) * a == b && (c / b) * b == c;
      assert ((b / a) * (c / b)) * a == c;
    }
  }

  lemma {:induction false} HeldCompounds(prices: seq<real>, from: nat, to: nat)
    requires from <= to < |prices| && forall k | 0 <= k < |prices| :: prices[k] > 0.0
    requires |prices| >= 2
    ensures Compound(StrategyReturns(Path(prices, Constant(1.0, |prices|)), 0.0)[from..to])
         == Ratio(prices[to], prices[from])
  {
    var p := Path(prices, Constant(1.0, |prices|));
    hide Times;
    var r := StrategyReturns(p, 0.0);
    if from == to {
      SelfRatio(prices[from]);
    } else {
      HeldCompounds(prices, from, to - 1);
      assert r[from..to][..|r[from..to]| - 1] == r[from..to - 1];
      CostIsPaidOnEntry(p, 0.0, to - 1);
      ZeroTimes(0.0);
      RatioChain(prices[from], prices[to - 1], prices[to]);
    }
  }

  lemma SelfRatio(a: real)
    requires a > 0.0
    ensures Ratio(a, a) == 1.0
  {
  }

  /** An entry is charged one turn on the bar it first earns, and holding on is charged nothing. */
  lemma CostIsPaidOnEntry(p: Path, costBps: real, i: nat)
    requires Scorable(p) && i + 1 < |p.prices|
    requires p.position[i] == 1.0 && (i == 0 || p.position[i - 1] == 0.0 || p.position[i - 1] == 1.0)
    ensures BarReturn(p, costBps, i) == Ratio(p.prices[i + 1], p.prices[i]) - 1.0
            - (if i == 0 || p.position[i - 1] == 0.0 then costBps / 10000.0 else 0.0)
  {
    hide Ratio;
    TimesAssociates(Ratio(p.prices[i + 1], p.prices[i]) - 1.0, 0.0, 0.0);
    TimesAssociates(costBps / 10000.0, 0.0, 0.0);
    ZeroTimes(costBps / 10000.0);
  }

  /** One turn is charged on the first bar of a path that is always long, and nothing after it. */
  lemma HeldReturns(prices: seq<real>, costBps: real)
    requires |prices| >= 2
    ensures var p, n := Path(prices, Constant(1.0, |prices|)), |prices| - 1;
            && StrategyReturns(p, costBps)[1..n] == StrategyReturns(p, 0.0)[1..n]
            && StrategyReturns(p, costBps)[0] == Ratio(prices[1], prices[0]) - 1.0 - costBps / 10000.0
  {
    hide Ratio, BarReturn;
    var p := Path(prices, Constant(1.0, |prices|));
    CostIsPaidOnEntry(p, costBps, 0);
    forall i | 1 <= i < |prices| - 1 ensures BarReturn(p, costBps, i) == BarReturn(p, 0.0, i) {
      CostIsPaidOnEntry(p, costBps, i);
      CostIsPaidOnEntry(p, 0.0, i);
    }
  }

  /** Holding throughout earns exactly the price ratio over the scored bars, less one turn on the first bar of all
      when that one is scored. */
  lemma BuyAndHoldEarnsThePriceRatio(prices: seq<real>, costBps: real, first: int)
    requires |prices| >= 2 && forall k | 0 <= k < |prices| :: prices[k] > 0.0
    requires first < |prices|
    ensures 1.0 + ScorePositions(Path(prices, Constant(1.0, |prices|)), costBps, first).totalReturn
         == if Skip(first, |prices| - 1) > 0 then Ratio(prices[|prices| - 1], prices[Skip(first, |prices| - 1)])
            else Times(Ratio(prices[1], prices[0]) - costBps / 10000.0, Ratio(prices[|prices| - 1], prices[1]))
  {
    hide ScoreReturns, StrategyReturns, Trades, Compound, Ratio, Times;
    var p, n, k := Path(prices, Constant(1.0, |prices|)), |prices| - 1, Skip(first, |prices| - 1);
    var r := StrategyReturns(p, costBps);
    TotalIsCompound(r[k..], Trades(p)[k..]);
    HeldReturns(prices, costBps);
    assert r[k..] == r[k..n];
    if k > 0 {
      HeldCompounds(prices, k, n);
      assert r[k..n] == r[1..n][k - 1..] == StrategyReturns(p, 0.0)[1..n][k - 1..] == StrategyReturns(p, 0.0)[k..n];
    } else {
      assert r[0..n] == [r[0]] + r[1..n];
      CompoundConcat([r[0]], r[1..n]);
      CompoundOne(r[0]);
      HeldCompounds(prices, 1, n);
    }
  }

  lemma CompoundOne(x: real)
    ensures Compound([x]) == 1.0 + x
  {
    assert [x][..0] == [];
    TimesAssociates(1.0 + x, 1.0, 1.0);
  }

  lemma {:induction false} NothingEarned(r: seq<real>)
    requires forall k | 0 <= k < |r| :: r[k] == 0.0
    ensures Compound(r) == 1.0 && CountPositive(r) == 0
  {
    if r != [] {
      NothingEarned(r[..|r| - 1]);
    }
  }

  /** Staying flat earns nothing and trades nothing, at any cost. */
  lemma FlatEarnsNothing(prices: seq<real>, costBps: real, first: int)
    requires |prices| >= 2
    ensures var s := ScorePositions(Path(prices, Constant(0.0, |prices|)), costBps, first);
            s.totalReturn == 0.0 && s.nTrades == 0
  {
    hide ScoreReturns, Compound, CountPositive;
    var p, n := Path(prices, Constant(0.0, |prices|)), |prices| - 1;
    var r, t := StrategyReturns(p, costBps), Trades(p);
    forall i | 0 <= i < n ensures r[i] == 0.0 && t[i] == 0.0 {
      FlatReturn(p, costBps, i);
    }
    NothingEarned(r[Skip(first, n)..]);
    NothingEarned(t[Skip(first, n)..]);
    TotalIsCompound(r[Skip(first, n)..], t[Skip(first, n)..]);
  }

  lemma FlatReturn(p: Path, costBps: real, i: nat)
    requires Scorable(p) && i + 1 < |p.prices| && p.position == Constant(0.0, |p.prices|)
    ensures BarReturn(p, costBps, i) == 0.0 && Trade(p, i) == 0.0
  {
    hide Ratio;
    ZeroTimes(Ratio(p.prices[i + 1], p.prices[i]) - 1.0);
    ZeroTimes(costBps / 10000.0);
  }

  // ----- drawdown

  /** The loss from point `i` to point `j`, as a share of the former. */
  function Drop(e: seq<real>, i: nat, j: nat): real
    requires i < |e| && j < |e|
  {
    Ratio(e[i] - e[j], e[i])
  }

  /** Going from point `i` to the later point `j` loses the share `d` of what was there. */
  ghost predicate Loses(e: seq<real>, i: int, j: int, d: real) {
    0 <= i <= j < |e| && e[i] > 0.0 && d == (e[i] - e[j]) / e[i]
  }

  /** `d` is the largest loss from any point to a later one. */
  ghost predicate IsWorstDrop(e: seq<real>, d: real) {
    (exists i, j :: Loses(e, i, j, d)) && forall i, j, x | Loses(e, i, j, x) :: x <= d
  }

  lemma DropIsLost(e: seq<real>, i: nat, j: nat)
    requires i <= j < |e| && e[i] > 0.0
    ensures forall x :: Loses(e, i, j, x) <==> x == Drop(e, i, j)
  {
  }

  lemma {:induction false} MaxOfIsMax(s: seq<real>)
    requires s != []
    ensures forall k | 0 <= k < |s| :: s[k] <= MaxOf(s)
    ensures exists k :: 0 <= k < |s| && s[k] == MaxOf(s)
  {
    if |s| == 1 {
      assert s[0] == MaxOf(s);
    } else {
      var front := s[..|s| - 1];
      MaxOfIsMax(front);
      var k :| 0 <= k < |front| && front[k] == MaxOf(front);
      assert s[k] == front[k];
      assert forall k | 0 <= k < |front| :: s[k] == front[k];
    }
  }

  lemma RatioMonotone(a: real, m: real, x: real)
    requires 0.0 < a <= m && x > 0.0
    ensures Ratio(a - x, a) <= Ratio(m - x, m)
  {
    assert a * m > 0.0;
    assert (a - x) * m <= (m - x) * a;
    assert (a - x) / a == (a - x) * m / (a * m);
    assert (m - x) / m == (m - x) * a / (a * m);
    DivideBy((a - x) * m, (m - x) * a, a * m);
  }

  lemma DivideBy(x: real, y: real, z: real)
    requires x <= y && z > 0.0
    ensures x / z <= y / z
  {
  }

  lemma DrawdownAt(e: seq<real>, j: nat)
    requires j < |e| && forall k | 0 <= k < |e| :: e[k] > 0.0
    ensures exists i :: 0 <= i <= j && Drawdowns(e)[j] == Drop(e, i, j)
    ensures forall i | 0 <= i <= j :: Drop(e, i, j) <= Drawdowns(e)[j]
  {
    hide Ratio, MaxOf;
    MaxOfIsMax(e[..j + 1]);
    var i :| 0 <= i < j + 1 && e[..j + 1][i] == MaxOf(e[..j + 1]);
    assert Drawdowns(e)[j] == Drop(e, i, j);
    forall i | 0 <= i <= j ensures Drop(e, i, j) <= Drawdowns(e)[j] {
      assert e[..j + 1][i] == e[i];
      RatioMonotone(e[i], MaxOf(e[..j + 1]), e[j]);
    }
  }

  lemma WorstOfDrops(e: seq<real>)
    requires e != [] && forall k | 0 <= k < |e| :: e[k] > 0.0
    ensures exists i, j :: 0 <= i <= j < |e| && MaxDrawdown(e) == Drop(e, i, j)
    ensures forall i, j | 0 <= i <= j < |e| :: Drop(e, i, j) <= MaxDrawdown(e)
  {
    hide Drop, MaxOf;
    var d := Drawdowns(e);
    MaxOfIsMax(d);
    var worst :| 0 <= worst < |d| && d[worst] == MaxOf(d);
    DrawdownAt(e, worst);
    var from :| 0 <= from <= worst && d[worst] == Drop(e, from, worst);
    assert MaxDrawdown(e) == Drop(e, from, worst);
    forall i, j | 0 <= i <= j < |e| ensures Drop(e, i, j) <= MaxDrawdown(e) {
      DrawdownAt(e, j);
    }
  }

  /** On a positive curve the running-maximum form is the largest loss over all pairs of points. */
  lemma MaxDrawdownIsWorstDrop(e: seq<real>)
    requires e != [] && forall k | 0 <= k < |e| :: e[k] > 0.0
    ensures IsWorstDrop(e, MaxDrawdown(e))
  {
    hide Drop, MaxDrawdown;
    WorstOfDrops(e);
    var i, j :| 0 <= i <= j < |e| && MaxDrawdown(e) == Drop(e, i, j);
    DropIsLost(e, i, j);
    assert Loses(e, i, j, MaxDrawdown(e));
    forall i, j, x | Loses(e, i, j, x) ensures x <= MaxDrawdown(e) {
      DropIsLost(e, i, j);
    }
  }

  lemma CurveHead(scored: seq<real>, trades: seq<real>)
    requires scored != []
    ensures ScoreReturns(scored, trades).equityCurve != []
    ensures ScoreReturns(scored, trades).equityCurve[0] == 1.0 + scored[0]
    ensures ScoreReturns(scored, trades).maxDrawdown == MaxDrawdown(ScoreReturns(scored, trades).equityCurve)
  {
    hide MaxDrawdown;
    var first := scored[..1];
    assert first == [scored[0]] && first[..0] == [];
    TimesAssociates(1.0 + scored[0], 1.0, 1.0);
    assert Compound(first) == 1.0 + scored[0];
  }

  /** The curve starts after the first scored return, so at the capital of 1.0 only if that return is zero. */
  lemma CurveStartsAfterFirstReturn(p: Path, costBps: real, first: int)
    requires Scorable(p) && Skip(first, |p.prices| - 1) < |p.prices| - 1
    ensures var curve := ScorePositions(p, costBps, first).equityCurve;
            && |curve| == |p.prices| - 1 - Skip(first, |p.prices| - 1)
            && curve[0] == 1.0 + StrategyReturns(p, costBps)[Skip(first, |p.prices| - 1)]
    ensures ScorePositions(p, costBps, first).maxDrawdown == MaxDrawdown(ScorePositions(p, costBps, first).equityCurve)
  {
    hide ScoreReturns, MaxDrawdown, StrategyReturns, Trades;
    var k := Skip(first, |p.prices| - 1);
    CurveHead(StrategyReturns(p, costBps)[k..], Trades(p)[k..]);
    TotalIsCompound(StrategyReturns(p, costBps)[k..], Trades(p)[k..]);
  }

  /** The reported drawdown is the one measured from the starting capital on. */
  predicate CapitalCounted(r: Result) {
    MaxDrawdown([1.0] + r.equityCurve) == r.maxDrawdown
  }

  predicate Solvent(r: Result) {
    forall k | 0 <= k < |r.equityCurve| :: r.equityCurve[k] > 0.0
  }

  predicate ContinuesPath(q: Path, p: Path) {
    |p.prices| <= |q.prices| && Scorable(q) && Upto(q, |p.prices|) == p
  }

  /** The reported drawdown is that of the curve with its starting capital exactly when no point lies further below
      the capital than the reported drawdown. */
  lemma StartMissedIff(e: seq<real>)
    requires e != [] && forall k | 0 <= k < |e| :: e[k] > 0.0
    ensures MaxDrawdown([1.0] + e) == MaxDrawdown(e) <==> forall j | 0 <= j < |e| :: 1.0 - e[j] <= MaxDrawdown(e)
  {
    hide MaxDrawdown, Drop;
    var s := [1.0] + e;
    WorstOfDrops(e);
    WorstOfDrops(s);
    ShiftedDrops(e);
    assert forall j | 0 <= j < |e| :: Drop(s, 0, j + 1) == 1.0 - e[j];
    var i, j :| 0 <= i <= j < |e| && MaxDrawdown(e) == Drop(e, i, j);
    assert Drop(s, i + 1, j + 1) <= MaxDrawdown(s);
    var a, b :| 0 <= a <= b < |s| && MaxDrawdown(s) == Drop(s, a, b);
    if a > 0 {
      assert Drop(s, a, b) == Drop(e, a - 1, b - 1);
    } else if b > 0 {
      assert Drop(s, 0, b) == 1.0 - e[b - 1];
    } else {
      assert Drop(e, 0, 0) == 0.0 == Drop(s, 0, 0);
    }
  }

  lemma ShiftedDrops(e: seq<real>)
    requires e != []
    ensures forall j | 0 <= j < |e| :: Drop([1.0] + e, 0, j + 1) == 1.0 - e[j]
    ensures forall i, j | 0 <= i < |e| && 0 <= j < |e| :: Drop([1.0] + e, i + 1, j + 1) == Drop(e, i, j)
    ensures Drop(e, 0, 0) == 0.0 == Drop([1.0] + e, 0, 0)
  {
  }

  lemma GainCoversCapital(e: seq<real>)
    requires e != [] && e[0] >= 1.0 && forall k | 0 <= k < |e| :: e[k] > 0.0
    ensures MaxDrawdown([1.0] + e) == MaxDrawdown(e)
  {
    hide MaxDrawdown;
    WorstOfDrops(e);
    StartMissedIff(e);
    forall j | 0 <= j < |e| ensures 1.0 - e[j] <= MaxDrawdown(e) {
      assert Drop(e, 0, j) <= MaxDrawdown(e);
      RatioMonotone(1.0, e[0], e[j]);
    }
  }

  lemma LossMissesCapital(a: real)
    requires 0.0 < a < 1.0
    ensures MaxDrawdown([a]) == 0.0 && MaxDrawdown([1.0] + [a]) == 1.0 - a
  {
    hide MaxDrawdown;
    WorstOfDrops([a]);
    assert Drop([a], 0, 0) == 0.0;
    var s := [1.0] + [a];
    WorstOfDrops(s);
    assert Drop(s, 0, 1) == 1.0 - a && Drop(s, 0, 0) == 0.0 == Drop(s, 1, 1);
  }

  /** `p` ends on its first scored bar, which leaves it solvent. Every solvent continuation reports its drawdown from
      the starting capital exactly when that first return is not a loss. */
  lemma CapitalCountedIffFirstGain(p: Path, costBps: real, first: int)
    requires Scorable(p) && Skip(first, |p.prices| - 1) == |p.prices| - 2
    requires StrategyReturns(p, costBps)[|p.prices| - 2] > -1.0
    ensures (forall q | ContinuesPath(q, p) && Solvent(ScorePositions(q, costBps, first)) ::
               CapitalCounted(ScorePositions(q, costBps, first)))
       <==> StrategyReturns(p, costBps)[|p.prices| - 2] >= 0.0
  {
    hide ScorePositions, StrategyReturns, MaxDrawdown;
    var k := |p.prices| - 2;
    if StrategyReturns(p, costBps)[k] >= 0.0 {
      forall q | ContinuesPath(q, p) && Solvent(ScorePositions(q, costBps, first))
        ensures CapitalCounted(ScorePositions(q, costBps, first))
      {
        CurveStartsAfterFirstReturn(q, costBps, first);
        ReturnsCausal(q, costBps, |p.prices|);
        GainCoversCapital(ScorePositions(q, costBps, first).equityCurve);
      }
    } else {
      CurveStartsAfterFirstReturn(p, costBps, first);
      var e := ScorePositions(p, costBps, first).equityCurve;
      assert e == [e[0]];
      LossMissesCapital(e[0]);
      assert ContinuesPath(p, p);
    }
  }

  /** Held through a halving price: the total return is -0.5, the reported drawdown 0, the loss from the capital 0.5. */
  lemma HalvingIsNoDrawdown()
    ensures var s := ScorePositions(Path([2.0, 1.0], [1.0, 1.0]), 0.0, 1);
            s.equityCurve == [0.5] && s.totalReturn == -0.5 && s.maxDrawdown == 0.0 && MaxDrawdown([1.0, 0.5]) == 0.5
  {
    var p := Path([2.0, 1.0], [1.0, 1.0]);
    hide MaxDrawdown, ScorePositions, ScoreReturns;
    assert StrategyReturns(p, 0.0)[0] == -0.5 by {
      assert Ratio(1.0, 2.0) == 0.5;
    }
    CurveStartsAfterFirstReturn(p, 0.0, 1);
    HalvingScore();
    LossMissesCapital(0.5);
    assert [1.0] + [0.5] == [1.0, 0.5];
  }

  lemma HalvingScore()
    ensures ScorePositions(Path([2.0, 1.0], [1.0, 1.0]), 0.0, 1).equityCurve == [0.5]
    ensures ScorePositions(Path([2.0, 1.0], [1.0, 1.0]), 0.0, 1).totalReturn == -0.5
  {
    var p := Path([2.0, 1.0], [1.0, 1.0]);
    hide MaxDrawdown, ScoreReturns;
    assert StrategyReturns(p, 0.0) == [-0.5] by {
      assert Ratio(1.0, 2.0) == 0.5;
    }
    TotalIsCompound([-0.5], Trades(p));
    assert [-0.5][..0] == [];
    assert Compound([-0.5]) == Times(1.0, 0.5);
    assert [-0.5][..1] == [-0.5];
    assert StrategyReturns(p, 0.0)[Skip(1, 1)..] == [-0.5] && Trades(p)[Skip(1, 1)..] == Trades(p);
  }

  // ----- the whole backtest

  datatype Outcome = Refused | Scored(result: Result)

  function Start(startIndex: Option<int>): int {
    if startIndex.Some? then MaxInt(startIndex.value, 1) else 1
  }

  function RuleBacktest<T>(bars: seq<T>, rule: Rule<T>, prices: seq<real>, costBps: real,
                           startIndex: Option<int>): Outcome {
    if |bars| < 2 then Scored(EMPTY_RESULT)
    else if rule.requiredRanks != {} then Refused
    else Scored(ScorePositions(Path(prices, Positions(bars, rule)), costBps, Start(startIndex)))
  }

  method RunRuleBacktest<T>(bars: seq<T>, rule: Rule<T>, prices: seq<real>, costBps: real, startIndex: Option<int>)
    returns (outcome: Outcome)
    ensures outcome == RuleBacktest(bars, rule, prices, costBps, startIndex)
    ensures outcome.Refused? <==> |bars| >= 2 && rule.requiredRanks != {}
    ensures outcome.Scored? ==> |outcome.result.equityCurve| == outcome.result.nBars
    ensures outcome.Scored? && |prices| == |bars| ==> outcome.result.nBars == MaxInt(0, |bars| - Start(startIndex))
  {
    hide MaxDrawdown;
    if |bars| < 2 {
      return Scored(EMPTY_RESULT);
    }
    var position := RulePositions(bars, rule);
    if position.None? {
      return Refused;
    }
    outcome := Scored(ScorePositions(Path(prices, position.value), costBps, Start(startIndex)));
  }

  /** A backtest stopped after `f` bars, and one measured from bar `f` on, make up the whole; in particular the bars
      after `f` change nothing in what was measured before them. */
  lemma BacktestSplits<T>(bars: seq<T>, rule: Rule<T>, prices: seq<real>, costBps: real, startIndex: Option<int>,
                          f: nat)
    requires |prices| == |bars| && rule.requiredRanks == {} && Start(startIndex) <= f <= |bars|
    ensures Continues(RuleBacktest(bars, rule, prices, costBps, startIndex).result,
                      RuleBacktest(bars[..f], rule, prices[..f], costBps, startIndex).result,
                      RuleBacktest(bars, rule, prices, costBps, Some(f)).result)
  {
    hide Continues, PositionAt, ScoreReturns, StrategyReturns, Trades;
    var p := Path(prices, Positions(bars, rule));
    PositionsCausal(bars, rule, f);
    assert Upto(p, f) == Path(prices[..f], Positions(bars[..f], rule));
    ScoreSplits(p, costBps, Start(startIndex), f);
    EmptyContinues();
  }
}

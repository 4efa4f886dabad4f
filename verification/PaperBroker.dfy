/**
 The paper broker: mutable cash, positions, highs, dedup set and equity curve.
 Every method is proved to step the ledger value of `Ledger`, and a snapshot to restore it exactly.
 The clock's reading is the parameter `today`.
 */
module PaperBroker {
  import opened Common
  import opened Ledger

  datatype Fill = Fill(orderId: OrderId, symbol: string, side: Side, quantity: real, price: real)

  datatype Trigger = StopLoss | TakeProfit

  datatype Metrics = Metrics(value: real, exposurePct: real, drawdownPct: real, dailyLossPct: real)

  /** The persisted form. A layout written before a field existed lacks it (`None`). */
  datatype Snapshot = Snapshot(cash: real, peakEquity: real, dayStartEquity: real, dayStartDate: Option<int>,
                               processedOrders: Option<seq<OrderId>>, equityCurve: Option<seq<Point>>,
                               positions: Option<map<string, Position>>)

  // ----- protective levels

  predicate StopHit(p: Position) {
    p.stopLoss.Some? && p.lastPrice <= p.stopLoss.value
  }

  predicate TargetHit(p: Position) {
    p.takeProfit.Some? && p.lastPrice >= p.takeProfit.value
  }

  /** Strictly inside whichever levels are set. */
  predicate InsideLevels(p: Position) {
    && (p.stopLoss.Some? ==> p.stopLoss.value < p.lastPrice)
    && (p.takeProfit.Some? ==> p.lastPrice < p.takeProfit.value)
  }

  // ----- metrics

  function GrossOf(p: Position): real {
    Times(AbsReal(p.quantity), p.lastPrice)
  }

  ghost function GrossFn(positions: map<string, Position>): string -> real {
    (symbol: string) => GrossOf(Held(positions, symbol))
  }

  ghost function GrossExposure(positions: map<string, Position>): real {
    SumOver(positions.Keys, GrossFn(positions))
  }

  /** How far `value` is below `base`, as a share of it; zero when it is above or the base is not positive. */
  function Shortfall(base: real, value: real): real {
    if base > 0.0 then MaxReal(0.0, (base - value) / base) else 0.0
  }

  ghost function MetricsOf(l: Ledger): Metrics {
    Metrics(Equity(l), if Equity(l) > 0.0 then GrossExposure(l.positions) / Equity(l) else 0.0,
            Shortfall(l.peakEquity, Equity(l)), Shortfall(l.dayStartEquity, Equity(l)))
  }

  /** The four metrics, written out. */
  lemma MetricsInFull(l: Ledger)
    ensures var m, value := MetricsOf(l), l.cash + SumOver(l.positions.Keys, ValueFn(l.positions));
            && m.value == value
            && m.exposurePct == (if value > 0.0 then SumOver(l.positions.Keys, GrossFn(l.positions)) / value else 0.0)
            && m.drawdownPct == (if l.peakEquity > value && l.peakEquity > 0.0
                                 then (l.peakEquity - value) / l.peakEquity else 0.0)
            && m.dailyLossPct == (if l.dayStartEquity > value && l.dayStartEquity > 0.0
                                  then (l.dayStartEquity - value) / l.dayStartEquity else 0.0)
    ensures forall s :: ValueFn(l.positions)(s) == Held(l.positions, s).quantity * Held(l.positions, s).lastPrice
    ensures forall s ::
              var p := Held(l.positions, s);
              GrossFn(l.positions)(s) == (if p.quantity >= 0.0 then p.quantity else -p.quantity) * p.lastPrice
  {
    hide SumOver;
    ShareSign(l.peakEquity, Equity(l));
    ShareSign(l.dayStartEquity, Equity(l));
  }

  lemma ShareSign(base: real, value: real)
    ensures base > 0.0 ==> ((base - value) / base > 0.0 <==> base > value)
  {
    if base > 0.0 {
      assert (base - value) / base * base == base - value;
    }
  }

  lemma ShortfallMeaning(base: real, value: real)
    requires base > 0.0 && value <= base
    ensures value == (1.0 - Shortfall(base, value)) * base
    ensures Shortfall(base, value) == 0.0 <==> value == base
  {
    var share := (base - value) / base;
    assert share * base == base - value;
    assert share >= 0.0;
  }

  /** After any run the reported drawdown is measured from the highest equity of the whole run. */
  lemma DrawdownIsFromTheTop(cfg: Config, openedOn: int, ops: seq<Op>, n: nat)
    requires n <= |ops| && cfg.initialCash > 0.0
    ensures var l0 := Opening(cfg, openedOn);
            var l, top := Run(l0, cfg, ops, n), HighestEquity(l0, cfg, ops, n);
            && Equity(l) == (1.0 - MetricsOf(l).drawdownPct) * top
            && (MetricsOf(l).drawdownPct == 0.0 <==> Equity(l) == top)
  {
    hide Shortfall, Equity, Run, Opening, GrossExposure;
    PeakIsHighest(cfg, openedOn, ops, n);
    TopIsPositive(cfg, openedOn, ops, n);
    var l := Run(Opening(cfg, openedOn), cfg, ops, n);
    ShortfallMeaning(l.peakEquity, Equity(l));
  }

  lemma {:induction false} TopIsPositive(cfg: Config, openedOn: int, ops: seq<Op>, n: nat)
    requires n <= |ops|
    ensures HighestEquity(Opening(cfg, openedOn), cfg, ops, n) >= cfg.initialCash
  {
    hide Opening, Equity, Run;
    if n == 0 {
      OpeningEquity(cfg, openedOn);
    } else {
      TopIsPositive(cfg, openedOn, ops, n - 1);
    }
  }

  // ----- persistence

  function Or<T>(o: Option<T>, fallback: T): T {
    if o.Some? then o.value else fallback
  }

  /** What `restore` makes of a snapshot on day `today`. */
  function Restored(s: Snapshot, today: int): Ledger {
    Ledger(s.cash, Or(s.positions, map[]), s.peakEquity, s.dayStartEquity, Or(s.dayStartDate, today),
           Elements(Or(s.processedOrders, [])), Or(s.equityCurve, []))
  }

  /** `s` is a snapshot of `l`: the dedup set as a duplicate-free list, in whatever order. */
  ghost predicate Describes(s: Snapshot, l: Ledger) {
    && s.cash == l.cash && s.peakEquity == l.peakEquity && s.dayStartEquity == l.dayStartEquity
    && s.dayStartDate == Some(l.dayStartDate) && s.equityCurve == Some(l.curve) && s.positions == Some(l.positions)
    && s.processedOrders.Some?
    && |s.processedOrders.value| == |l.processed| && forall id :: id in s.processedOrders.value <==> id in l.processed
  }

  /** A snapshot brings back the state it was taken from, whenever it is restored. */
  lemma SnapshotRoundTrip(s: Snapshot, l: Ledger, today: int)
    requires Describes(s, l)
    ensures Restored(s, today) == l
  {
    assert Elements(s.processedOrders.value) == l.processed;
  }

  /** Two snapshots of different states are never confused. */
  lemma SnapshotDeterminesState(s: Snapshot, l: Ledger, m: Ledger)
    requires Describes(s, l) && Describes(s, m)
    ensures l == m
  {
    SnapshotRoundTrip(s, l, 0);
    SnapshotRoundTrip(s, m, 0);
  }

  method ListIds(ids: set<OrderId>) returns (list: seq<OrderId>)
    ensures |list| == |ids| && forall id :: id in list <==> id in ids
  {
    var rest := ids;
    list := [];
    while rest != {}
      invariant rest <= ids && |list| + |rest| == |ids|
      invariant forall id :: id in list <==> id in ids - rest
      decreases rest
    {
      var id :| id in rest;
      list := list + [id];
      rest := rest - {id};
    }
  }

  class PaperBroker {
    const cfg: Config
    var cash: real
    var positions: map<string, Position>
    var peakEquity: real
    var dayStartEquity: real
    var dayStartDate: int
    var processedOrders: set<OrderId>
    var equityCurve: seq<Point>

    ghost function State(): Ledger
      reads this
    {
      Ledger(cash, positions, peakEquity, dayStartEquity, dayStartDate, processedOrders, equityCurve)
    }

    constructor (cfg: Config, today: int)
      ensures this.cfg == cfg
      ensures State() == Opening(cfg, today)
    {
      this.cfg := cfg;
      cash := cfg.initialCash;
      positions := map[];
      peakEquity := cfg.initialCash;
      dayStartEquity := cfg.initialCash;
      dayStartDate := today;
      processedOrders := {};
      equityCurve := [];
      new;
      OpeningEquity(cfg, today);
      RecordEquity(today);
    }

    method PositionsValue() returns (total: real)
      ensures total == BookValue(positions)
    {
      hide Times;
      var rest := positions.Keys;
      total := 0.0;
      ghost var f := ValueFn(positions);
      while rest != {}
        invariant rest <= positions.Keys
        invariant total + SumOver(rest, f) == SumOver(positions.Keys, f)
        decreases rest
      {
        var symbol :| symbol in rest;
        SumOverPick(rest, symbol, f);
        total := total + Times(positions[symbol].quantity, positions[symbol].lastPrice);
        rest := rest - {symbol};
      }
    }

    method GrossExposureValue() returns (total: real)
      ensures total == GrossExposure(positions)
    {
      hide GrossOf;
      var rest := positions.Keys;
      total := 0.0;
      ghost var f := GrossFn(positions);
      while rest != {}
        invariant rest <= positions.Keys
        invariant total + SumOver(rest, f) == SumOver(positions.Keys, f)
        decreases rest
      {
        var symbol :| symbol in rest;
        SumOverPick(rest, symbol, f);
        total := total + GrossOf(positions[symbol]);
        rest := rest - {symbol};
      }
    }

    method EquityValue() returns (equity: real)
      ensures equity == Equity(State())
    {
      var value := PositionsValue();
      equity := cash + value;
    }

    method RecordEquity(today: int)
      modifies this`equityCurve
      ensures State() == old(State()).(curve := Recorded(old(equityCurve), today, Equity(old(State())),
                                                         cfg.historyLimit))
    {
      hide BookValue;
      var equity := EquityValue();
      var point := Point(today, equity);
      if equityCurve != [] && equityCurve[|equityCurve| - 1].day == today {
        equityCurve := equityCurve[|equityCurve| - 1 := point];
        return;
      }
      equityCurve := equityCurve + [point];
      if |equityCurve| > cfg.historyLimit {
        equityCurve := if cfg.historyLimit <= 0 then [] else equityCurve[|equityCurve| - cfg.historyLimit..];
      }
    }

    method RollDayIfNeeded(today: int)
      modifies this`dayStartDate, this`dayStartEquity
      ensures State() == RolledDay(old(State()), today)
    {
      hide BookValue;
      if today != dayStartDate {
        dayStartDate := today;
        dayStartEquity := EquityValue();
      }
    }

    /** The tail every mutation shares: raise the peak, then record the day's point. */
    method Revalue(today: int)
      modifies this`peakEquity, this`equityCurve
      ensures State() == Revalued(old(State()), cfg, today)
    {
      hide BookValue, Recorded;
      var equity := EquityValue();
      peakEquity := MaxReal(peakEquity, equity);
      RecordEquity(today);
    }

    predicate IsProcessed(id: OrderId)
      reads this
    {
      id in processedOrders
    }

    method DoFill(o: Order, today: int) returns (fill: Option<Fill>)
      modifies this
      ensures State() == Filled(old(State()), cfg, o, today)
      ensures fill.None? <==> o.id in old(processedOrders)
      ensures fill.Some? ==> fill.value == Fill(o.id, o.symbol, o.side, o.quantity, FillPrice(cfg, o.side, o.price))
    {
      hide Times, FillPrice, Recorded, BookValue;
      if o.id in processedOrders {
        return None;
      }
      RollDayIfNeeded(today);
      var fillPrice := FillPrice(cfg, o.side, o.price);
      var pos := Held(positions, o.symbol);
      MinusTimes(o.quantity, fillPrice);
      if o.side == BUY {
        cash := cash - Times(o.quantity, fillPrice);
        pos := pos.(quantity := pos.quantity + o.quantity);
        if o.stopLoss.Some? {
          pos := pos.(stopLoss := o.stopLoss);
        }
        if o.takeProfit.Some? {
          pos := pos.(takeProfit := o.takeProfit);
        }
      } else {
        cash := cash + Times(o.quantity, fillPrice);
        pos := pos.(quantity := pos.quantity - o.quantity);
        if pos.quantity <= 0.0 {
          pos := pos.(stopLoss := None, takeProfit := None);
        }
      }
      pos := pos.(lastPrice := fillPrice);
      positions := positions[o.symbol := pos];
      Revalue(today);
      processedOrders := processedOrders + {o.id};
      return Some(Fill(o.id, o.symbol, o.side, o.quantity, fillPrice));
    }

    method Mark(symbol: string, price: real, today: int)
      modifies this
      ensures State() == Marked(old(State()), cfg, symbol, price, today)
    {
      hide Recorded, BookValue;
      if symbol !in positions || positions[symbol].quantity == 0.0 {
        return;
      }
      RollDayIfNeeded(today);
      positions := positions[symbol := positions[symbol].(lastPrice := price)];
      Revalue(today);
    }

    method PositionQty(symbol: string) returns (quantity: real)
      ensures quantity == Held(positions, symbol).quantity
    {
      quantity := if symbol in positions then positions[symbol].quantity else 0.0;
    }

    /** No trigger exactly when flat or strictly inside the levels set; the stop wins over the target. */
    method ProtectiveTrigger(symbol: string) returns (trigger: Option<Trigger>)
      ensures trigger.None? <==> Held(positions, symbol).quantity <= 0.0 || InsideLevels(Held(positions, symbol))
      ensures trigger == Some(StopLoss) <==> Held(positions, symbol).quantity > 0.0 && StopHit(Held(positions, symbol))
      ensures trigger == Some(TakeProfit) ==> TargetHit(Held(positions, symbol)) && !StopHit(Held(positions, symbol))
    {
      if symbol !in positions || positions[symbol].quantity <= 0.0 {
        return None;
      }
      var pos := positions[symbol];
      if pos.stopLoss.Some? && pos.lastPrice <= pos.stopLoss.value {
        return Some(StopLoss);
      }
      if pos.takeProfit.Some? && pos.lastPrice >= pos.takeProfit.value {
        return Some(TakeProfit);
      }
      return None;
    }

    method CurrentMetrics() returns (m: Metrics)
      ensures m == MetricsOf(State())
    {
      hide GrossExposure, BookValue;
      var equity := EquityValue();
      var gross := GrossExposureValue();
      m := Metrics(equity, if equity > 0.0 then gross / equity else 0.0,
                   Shortfall(peakEquity, equity), Shortfall(dayStartEquity, equity));
    }

    method TakeSnapshot() returns (s: Snapshot)
      ensures Describes(s, State())
    {
      var ids := ListIds(processedOrders);
      s := Snapshot(cash, peakEquity, dayStartEquity, Some(dayStartDate), Some(ids), Some(equityCurve),
                    Some(positions));
    }

    method Restore(s: Snapshot, today: int)
      modifies this
      ensures State() == Restored(s, today)
      ensures forall l | Describes(s, l) :: State() == l
    {
      cash := s.cash;
      peakEquity := s.peakEquity;
      dayStartEquity := s.dayStartEquity;
      dayStartDate := if s.dayStartDate.Some? then s.dayStartDate.value else today;
      processedOrders := if s.processedOrders.Some? then set id | id in s.processedOrders.value else {};
      equityCurve := if s.equityCurve.Some? then s.equityCurve.value else [];
      positions := if s.positions.Some? then s.positions.value else map[];
      assert processedOrders == Elements(Or(s.processedOrders, []));
      forall l | Describes(s, l) ensures State() == l {
        SnapshotRoundTrip(s, l, today);
      }
    }
  }

  lemma MinusTimes(a: real, b: real)
    ensures Times(-a, b) == -Times(a, b)
  {
  }
}

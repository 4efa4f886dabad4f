/**
 The paper broker's ledger as a value, one function per mutation, and the laws every run of fills and marks obeys.
 `PaperBroker` is proved to step exactly this way.
 */
module Ledger {
  import opened Common

  /** The event carries a string: the broker treats whatever is not BUY as a sale. */
  datatype Side = BUY | SELL | Other(text: string)

  /** Requested orders carry their event id; liquidations and protective exits carry a generated one. */
  datatype OrderId = Requested(event: string) | Liquidation(uuid: nat) | ProtectiveExit(uuid: nat)

  datatype Position = Position(quantity: real, lastPrice: real, stopLoss: Option<real>, takeProfit: Option<real>)

  datatype Order = Order(id: OrderId, symbol: string, side: Side, quantity: real, price: real,
                         stopLoss: Option<real>, takeProfit: Option<real>)

  /** Dates are day numbers. */
  datatype Point = Point(day: int, equity: real)

  datatype Config = Config(initialCash: real, slippageBps: real, historyLimit: int)

  datatype Ledger = Ledger(cash: real, positions: map<string, Position>, peakEquity: real,
                           dayStartEquity: real, dayStartDate: int, processed: set<OrderId>, curve: seq<Point>)

  const NO_POSITION: Position := Position(0.0, 0.0, None, None)

  function Held(positions: map<string, Position>, symbol: string): Position {
    if symbol in positions then positions[symbol] else NO_POSITION
  }

  // ----- valuation

  function Value(positions: map<string, Position>, symbol: string): real {
    Times(Held(positions, symbol).quantity, Held(positions, symbol).lastPrice)
  }

  ghost function ValueFn(positions: map<string, Position>): string -> real {
    (symbol: string) => Value(positions, symbol)
  }

  ghost function BookValue(positions: map<string, Position>): real {
    SumOver(positions.Keys, ValueFn(positions))
  }

  ghost function Equity(l: Ledger): real {
    l.cash + BookValue(l.positions)
  }

  /** Changing one position changes the book by that position's change in value. */
  lemma ValueUpdate(positions: map<string, Position>, symbol: string, p: Position)
    ensures BookValue(positions[symbol := p])
         == BookValue(positions) - Value(positions, symbol) + Times(p.quantity, p.lastPrice)
  {
    hide Times, SumOver;
    var after := positions[symbol := p];
    var others := positions.Keys - {symbol};
    SumOverCong(others, ValueFn(positions), ValueFn(after));
    SumOverPick(after.Keys, symbol, ValueFn(after));
    assert after.Keys - {symbol} == others;
    if symbol in positions {
      SumOverPick(positions.Keys, symbol, ValueFn(positions));
    } else {
      assert others == positions.Keys;
      NothingHeldIsWorthNothing();
    }
  }

  lemma NothingHeldIsWorthNothing()
    ensures Times(0.0, 0.0) == 0.0
  {
  }

  // ----- the steps

  function Last<T>(s: seq<T>): T
    requires s != []
  {
    s[|s| - 1]
  }

  /** Drop from the front down to `limit` points. */
  function Trimmed(curve: seq<Point>, limit: int): seq<Point> {
    if |curve| > limit then (if limit <= 0 then [] else curve[|curve| - limit..]) else curve
  }

  /** One point per day: today's is replaced, a new day's is appended. */
  function Recorded(curve: seq<Point>, today: int, equity: real, limit: int): seq<Point> {
    if curve != [] && Last(curve).day == today then curve[|curve| - 1 := Point(today, equity)]
    else Trimmed(curve + [Point(today, equity)], limit)
  }

  ghost function RolledDay(l: Ledger, today: int): Ledger {
    if today != l.dayStartDate then l.(dayStartDate := today, dayStartEquity := Equity(l)) else l
  }

  ghost function Revalued(l: Ledger, cfg: Config, today: int): Ledger {
    l.(peakEquity := MaxReal(l.peakEquity, Equity(l)), curve := Recorded(l.curve, today, Equity(l), cfg.historyLimit))
  }

  ghost function Opening(cfg: Config, today: int): Ledger {
    Revalued(Ledger(cfg.initialCash, map[], cfg.initialCash, cfg.initialCash, today, {}, []), cfg, today)
  }

  function Slip(cfg: Config): real {
    cfg.slippageBps / 10000.0
  }

  function FillPrice(cfg: Config, side: Side, price: real): real {
    Times(price, if side == BUY then 1.0 + Slip(cfg) else 1.0 - Slip(cfg))
  }

  /** The quantity an order adds: positive for a buy, negative for a sell. */
  function Signed(side: Side, quantity: real): real {
    if side == BUY then quantity else -quantity
  }

  function NewPosition(pos: Position, o: Order, fillPrice: real): Position {
    var quantity := pos.quantity + Signed(o.side, o.quantity);
    if o.side == BUY then
      Position(quantity, fillPrice, if o.stopLoss.Some? then o.stopLoss else pos.stopLoss,
               if o.takeProfit.Some? then o.takeProfit else pos.takeProfit)
    else if quantity <= 0.0 then Position(quantity, fillPrice, None, None)
    else Position(quantity, fillPrice, pos.stopLoss, pos.takeProfit)
  }

  /** What a fill adds to cash. */
  function CashFlow(cfg: Config, o: Order): real {
    -Times(Signed(o.side, o.quantity), FillPrice(cfg, o.side, o.price))
  }

  /** `fill`: a known order id changes nothing. */
  ghost function Filled(l: Ledger, cfg: Config, o: Order, today: int): Ledger {
    if o.id in l.processed then l else
      var rolled := RolledDay(l, today);
      var position := NewPosition(Held(l.positions, o.symbol), o, FillPrice(cfg, o.side, o.price));
      var booked := rolled.(cash := l.cash + CashFlow(cfg, o), positions := l.positions[o.symbol := position]);
      Revalued(booked, cfg, today).(processed := l.processed + {o.id})
  }

  /** `mark`: only an open position is re-marked. */
  ghost function Marked(l: Ledger, cfg: Config, symbol: string, price: real, today: int): Ledger {
    if Held(l.positions, symbol).quantity == 0.0 then l else
      var position := Held(l.positions, symbol).(lastPrice := price);
      Revalued(RolledDay(l, today).(positions := l.positions[symbol := position]), cfg, today)
  }

  // ----- a fill moves equity by the re-pricing of what was already held

  lemma Distribute(a: real, b: real, c: real)
    ensures Times(a + b, c) == Times(a, c) + Times(b, c)
    ensures Times(a, b - c) == Times(a, b) - Times(a, c)
    ensures Times(-a, c) == -Times(a, c)
  {
  }

  /** Whatever is bought or sold, the trade itself is worth nothing: equity moves by (quantity held before) x
      (fill price - last price). */
  lemma FillMovesEquity(l: Ledger, cfg: Config, o: Order, today: int)
    requires o.id !in l.processed
    ensures Equity(Filled(l, cfg, o, today))
         == Equity(l) + Times(Held(l.positions, o.symbol).quantity,
                              FillPrice(cfg, o.side, o.price) - Held(l.positions, o.symbol).lastPrice)
  {
    hide Times, FillPrice, SumOver, BookValue;
    var pos, price := Held(l.positions, o.symbol), FillPrice(cfg, o.side, o.price);
    ValueUpdate(l.positions, o.symbol, NewPosition(pos, o, price));
    Distribute(pos.quantity, Signed(o.side, o.quantity), price);
    Distribute(pos.quantity, price, pos.lastPrice);
  }

  /** A mark moves equity by the re-pricing of the position. */
  lemma MarkMovesEquity(l: Ledger, cfg: Config, symbol: string, price: real, today: int)
    ensures Equity(Marked(l, cfg, symbol, price, today))
         == Equity(l) + Times(Held(l.positions, symbol).quantity, price - Held(l.positions, symbol).lastPrice)
  {
    hide SumOver, BookValue;
    var pos := Held(l.positions, symbol);
    ValueUpdate(l.positions, symbol, pos.(lastPrice := price));
    Distribute(pos.quantity, price, pos.lastPrice);
    assert pos.quantity == 0.0 ==> Times(pos.quantity, price - pos.lastPrice) == 0.0;
  }

  // ----- a fill, written out

  /** What a fill of a new id does to the money and to the position, and that it does nothing else to either. */
  lemma FilledInFull(l: Ledger, cfg: Config, o: Order, today: int)
    requires o.id !in l.processed
    ensures var price := if o.side == BUY then o.price * (1.0 + cfg.slippageBps / 10000.0)
                         else o.price * (1.0 - cfg.slippageBps / 10000.0);
            var l', before := Filled(l, cfg, o, today), Held(l.positions, o.symbol);
            var after := Held(l'.positions, o.symbol);
            && l'.cash == (if o.side == BUY then l.cash - o.quantity * price else l.cash + o.quantity * price)
            && after.quantity == (if o.side == BUY then before.quantity + o.quantity else before.quantity - o.quantity)
            && after.lastPrice == price
            && after.stopLoss == (if o.side == BUY then (if o.stopLoss.Some? then o.stopLoss else before.stopLoss)
                                  else if after.quantity <= 0.0 then None else before.stopLoss)
            && after.takeProfit
               == (if o.side == BUY then (if o.takeProfit.Some? then o.takeProfit else before.takeProfit)
                   else if after.quantity <= 0.0 then None else before.takeProfit)
            && (forall s | s != o.symbol :: Held(l'.positions, s) == Held(l.positions, s))
            && l'.processed == l.processed + {o.id}
  {
    hide Equity, Recorded;
    var price := FillPrice(cfg, o.side, o.price);
    NegatedTimes(o.quantity, price);
  }

  lemma NegatedTimes(a: real, b: real)
    ensures -Times(a, b) == -(a * b) && -Times(-a, b) == a * b
  {
  }

  /** Buying and selling the same quantity at the same price costs the slippage twice over, and leaves the position
      as it was. */
  lemma RoundTripCostsSlippageTwice(l: Ledger, cfg: Config, buy: Order, sell: Order, today: int)
    requires buy.id !in l.processed && sell.id !in l.processed && buy.id != sell.id
    requires buy.side == BUY && sell.side == SELL && buy.symbol == sell.symbol
    requires buy.quantity == sell.quantity && buy.price == sell.price
    ensures var after := Filled(Filled(l, cfg, buy, today), cfg, sell, today);
            && after.cash == l.cash - 2.0 * (cfg.slippageBps / 10000.0) * (buy.quantity * buy.price)
            && Held(after.positions, buy.symbol).quantity == Held(l.positions, buy.symbol).quantity
  {
    hide Filled;
    FilledInFull(l, cfg, buy, today);
    FilledInFull(Filled(l, cfg, buy, today), cfg, sell, today);
    SpreadArithmetic(buy.quantity, buy.price, cfg.slippageBps / 10000.0);
  }

  lemma SpreadArithmetic(q: real, p: real, slip: real)
    ensures q * (p * (1.0 - slip)) - q * (p * (1.0 + slip)) == -(2.0 * slip * (q * p))
  {
    assert p * (1.0 - slip) - p * (1.0 + slip) == -(2.0 * slip) * p;
    assert q * (-(2.0 * slip) * p) == -(2.0 * slip * (q * p));
  }

  // ----- runs

  datatype Op = FillOp(order: Order, today: int) | MarkOp(symbol: string, price: real, today: int)

  ghost function Stepped(l: Ledger, cfg: Config, op: Op): Ledger {
    match op
    case FillOp(o, today) => Filled(l, cfg, o, today)
    case MarkOp(symbol, price, today) => Marked(l, cfg, symbol, price, today)
  }

  /** The ledger after the first `n` operations. */
  ghost function Run(l: Ledger, cfg: Config, ops: seq<Op>, n: nat): Ledger
    requires n <= |ops|
  {
    if n == 0 then l else Stepped(Run(l, cfg, ops, n - 1), cfg, ops[n - 1])
  }

  /** The fills a ledger reflects after one more operation: a duplicate adds none. */
  function FillsAfter(l: Ledger, fills: seq<Order>, op: Op): seq<Order> {
    if op.FillOp? && op.order.id !in l.processed then fills + [op.order] else fills
  }

  /** The fills among the first `n` operations that were not duplicates. */
  ghost function Applied(l: Ledger, cfg: Config, ops: seq<Op>, n: nat): seq<Order>
    requires n <= |ops|
  {
    if n == 0 then [] else FillsAfter(Run(l, cfg, ops, n - 1), Applied(l, cfg, ops, n - 1), ops[n - 1])
  }

  function TotalCashFlow(cfg: Config, orders: seq<Order>): real {
    if orders == [] then 0.0 else TotalCashFlow(cfg, orders[..|orders| - 1]) + CashFlow(cfg, Last(orders))
  }

  function NetQuantity(orders: seq<Order>, symbol: string): real {
    if orders == [] then 0.0 else
      NetQuantity(orders[..|orders| - 1], symbol)
      + (if Last(orders).symbol == symbol then Signed(Last(orders).side, Last(orders).quantity) else 0.0)
  }

  function Ids(orders: seq<Order>): set<OrderId> {
    set i | 0 <= i < |orders| :: orders[i].id
  }

  ghost predicate DistinctIds(orders: seq<Order>) {
    forall i, j | 0 <= i < j < |orders| :: orders[i].id != orders[j].id
  }

  lemma IdsAppend(orders: seq<Order>, o: Order)
    ensures Ids(orders + [o]) == Ids(orders) + {o.id}
  {
    var all := orders + [o];
    assert all[|orders|] == o;
    forall id ensures id in Ids(all) <==> id in Ids(orders) + {o.id} {
      if i :| 0 <= i < |orders| && orders[i].id == id {
        assert all[i].id == id;
      }
    }
  }

  /** The ledger is the opening one plus the signed sums of the fills applied; each id is applied once, and the
      processed set is exactly the applied ids. */
  ghost predicate Accounts(l0: Ledger, l: Ledger, cfg: Config, applied: seq<Order>) {
    && l.cash == l0.cash + TotalCashFlow(cfg, applied)
    && (forall s :: Held(l.positions, s).quantity == Held(l0.positions, s).quantity + NetQuantity(applied, s))
    && l.processed == l0.processed + Ids(applied)
    && DistinctIds(applied)
    && l0.processed !! Ids(applied)
  }

  lemma FillAccounts(l0: Ledger, l: Ledger, cfg: Config, applied: seq<Order>, o: Order, today: int)
    requires Accounts(l0, l, cfg, applied) && o.id !in l.processed
    ensures Accounts(l0, Filled(l, cfg, o, today), cfg, applied + [o])
  {
    hide CashFlow, FillPrice, Equity, Recorded;
    IdsAppend(applied, o);
    var all, l' := applied + [o], Filled(l, cfg, o, today);
    assert all[..|applied|] == applied && Last(all) == o;
    assert o.id !in Ids(applied);
    forall i | 0 <= i < |applied| ensures applied[i].id != o.id {
      assert applied[i].id in Ids(applied);
    }
    forall s ensures Held(l'.positions, s).quantity == Held(l0.positions, s).quantity + NetQuantity(all, s) {
    }
  }

  lemma MarkAccounts(l0: Ledger, l: Ledger, cfg: Config, applied: seq<Order>, symbol: string, price: real, today: int)
    requires Accounts(l0, l, cfg, applied)
    ensures Accounts(l0, Marked(l, cfg, symbol, price, today), cfg, applied)
  {
    hide Equity, Recorded, TotalCashFlow, NetQuantity, DistinctIds, Ids;
    var l' := Marked(l, cfg, symbol, price, today);
    forall s ensures Held(l'.positions, s).quantity == Held(l.positions, s).quantity {
    }
  }

  lemma OpAccounts(l0: Ledger, l: Ledger, cfg: Config, applied: seq<Order>, op: Op)
    requires Accounts(l0, l, cfg, applied)
    ensures Accounts(l0, Stepped(l, cfg, op), cfg, FillsAfter(l, applied, op))
  {
    hide Accounts, Filled, Marked;
    match op
    case FillOp(o, today) =>
      if o.id in l.processed {
        DuplicateFill(l, cfg, o, today);
      } else {
        FillAccounts(l0, l, cfg, applied, o, today);
      }
    case MarkOp(symbol, price, today) =>
      MarkAccounts(l0, l, cfg, applied, symbol, price, today);
  }

  /** Cash and quantities are the signed sums of the applied fills, over every run. */
  lemma {:induction false} RunAccounts(l0: Ledger, cfg: Config, ops: seq<Op>, n: nat)
    requires n <= |ops|
    ensures Accounts(l0, Run(l0, cfg, ops, n), cfg, Applied(l0, cfg, ops, n))
  {
    if n == 0 {
      NothingApplied(l0, cfg);
    } else {
      hide Accounts, Stepped, FillsAfter;
      RunAccounts(l0, cfg, ops, n - 1);
      OpAccounts(l0, Run(l0, cfg, ops, n - 1), cfg, Applied(l0, cfg, ops, n - 1), ops[n - 1]);
    }
  }

  lemma NothingApplied(l0: Ledger, cfg: Config)
    ensures Accounts(l0, l0, cfg, [])
  {
  }

  lemma DuplicateFill(l: Ledger, cfg: Config, o: Order, today: int)
    requires o.id in l.processed
    ensures Filled(l, cfg, o, today) == l
  {
  }

  // ----- peak equity

  /** The highest equity over the run's first `n + 1` states. */
  ghost function HighestEquity(l: Ledger, cfg: Config, ops: seq<Op>, n: nat): real
    requires n <= |ops|
  {
    if n == 0 then Equity(l) else MaxReal(HighestEquity(l, cfg, ops, n - 1), Equity(Run(l, cfg, ops, n)))
  }

  lemma StepPeak(l: Ledger, cfg: Config, op: Op)
    requires l.peakEquity >= Equity(l)
    ensures Stepped(l, cfg, op).peakEquity == MaxReal(l.peakEquity, Equity(Stepped(l, cfg, op)))
  {
    hide BookValue, NewPosition, CashFlow, Recorded;
  }

  /** Peak equity is the maximum equity ever reached. */
  lemma {:induction false} PeakIsHighest(cfg: Config, openedOn: int, ops: seq<Op>, n: nat)
    requires n <= |ops|
    ensures var l0 := Opening(cfg, openedOn);
            Run(l0, cfg, ops, n).peakEquity == HighestEquity(l0, cfg, ops, n) >= Equity(Run(l0, cfg, ops, n))
  {
    var l0 := Opening(cfg, openedOn);
    if n == 0 {
      OpeningEquity(cfg, openedOn);
    } else {
      hide Stepped, Equity, Opening;
      PeakIsHighest(cfg, openedOn, ops, n - 1);
      StepPeak(Run(l0, cfg, ops, n - 1), cfg, ops[n - 1]);
    }
  }

  lemma OpeningEquity(cfg: Config, openedOn: int)
    ensures Equity(Opening(cfg, openedOn)) == cfg.initialCash == Opening(cfg, openedOn).peakEquity
    ensures cfg.historyLimit >= 1 ==> Opening(cfg, openedOn).curve == [Point(openedOn, cfg.initialCash)]
  {
    var l := Ledger(cfg.initialCash, map[], cfg.initialCash, cfg.initialCash, openedOn, {}, []);
    assert l.positions.Keys == {};
    assert Equity(l) == cfg.initialCash;
  }

  // ----- the equity curve

  ghost predicate IncreasingDays(curve: seq<Point>) {
    forall i, j | 0 <= i < j < |curve| :: curve[i].day < curve[j].day
  }

  /** One point per day in order, within the limit, the last one being current equity. */
  ghost predicate CurveOk(l: Ledger, cfg: Config, now: int) {
    && l.curve != [] && |l.curve| <= cfg.historyLimit
    && IncreasingDays(l.curve) && Last(l.curve).day <= now
    && Last(l.curve).equity == Equity(l)
  }

  /** Recording keeps the days increasing exactly when the clock has not gone back. */
  lemma RecordedIncreasingIff(curve: seq<Point>, today: int, equity: real, limit: int)
    requires curve != [] && IncreasingDays(curve) && 1 <= |curve| <= limit && limit >= 2
    ensures IncreasingDays(Recorded(curve, today, equity, limit)) <==> Last(curve).day <= today
  {
    var r := Recorded(curve, today, equity, limit);
    if Last(curve).day == today {
      assert forall i | 0 <= i < |r| :: r[i].day == curve[i].day;
    } else if |curve| < limit {
      assert r == curve + [Point(today, equity)];
      assert r[|curve| - 1] == Last(curve) && r[|curve|].day == today;
    } else {
      assert r == (curve + [Point(today, equity)])[1..];
      assert r[|r| - 2] == Last(curve) && r[|r| - 1].day == today;
    }
  }

  lemma RecordedOk(curve: seq<Point>, today: int, equity: real, limit: int)
    requires |curve| <= limit && limit >= 1 && IncreasingDays(curve) && (curve != [] ==> Last(curve).day <= today)
    ensures var r := Recorded(curve, today, equity, limit);
            r != [] && |r| <= limit && IncreasingDays(r) && Last(r) == Point(today, equity)
  {
    var r := Recorded(curve, today, equity, limit);
    if curve != [] && Last(curve).day == today {
      assert forall i | 0 <= i < |r| :: r[i].day == curve[i].day;
    } else {
      var all := curve + [Point(today, equity)];
      forall i | 0 <= i < |curve| ensures all[i].day < today {
        assert i == |curve| - 1 || curve[i].day < Last(curve).day;
      }
      assert IncreasingDays(all);
      assert r == Trimmed(all, limit);
      assert |all| > limit ==> r == all[1..];
    }
  }

  function OpDay(op: Op): int {
    op.today
  }

  lemma RevaluedCurve(l: Ledger, cfg: Config, today: int)
    requires cfg.historyLimit >= 1 && |l.curve| <= cfg.historyLimit && IncreasingDays(l.curve)
    requires l.curve != [] ==> Last(l.curve).day <= today
    ensures CurveOk(Revalued(l, cfg, today), cfg, today)
  {
    hide BookValue, Recorded;
    RecordedOk(l.curve, today, Equity(l), cfg.historyLimit);
  }

  lemma StepCurve(l: Ledger, cfg: Config, op: Op, now: int)
    requires cfg.historyLimit >= 1 && CurveOk(l, cfg, now) && now <= OpDay(op)
    ensures CurveOk(Stepped(l, cfg, op), cfg, OpDay(op))
  {
    var today := OpDay(op);
    hide BookValue, Revalued, NewPosition, CashFlow;
    match op
    case FillOp(o, _) =>
      if o.id !in l.processed {
        var position := NewPosition(Held(l.positions, o.symbol), o, FillPrice(cfg, o.side, o.price));
        var booked := RolledDay(l, today).(cash := l.cash + CashFlow(cfg, o),
                                           positions := l.positions[o.symbol := position]);
        RevaluedCurve(booked, cfg, today);
        ProcessedApart(Revalued(booked, cfg, today), cfg, today, l.processed + {o.id});
      }
    case MarkOp(symbol, price, _) =>
      if Held(l.positions, symbol).quantity != 0.0 {
        var position := Held(l.positions, symbol).(lastPrice := price);
        RevaluedCurve(RolledDay(l, today).(positions := l.positions[symbol := position]), cfg, today);
      }
  }

  lemma ProcessedApart(l: Ledger, cfg: Config, today: int, ids: set<OrderId>)
    requires CurveOk(l, cfg, today)
    ensures CurveOk(l.(processed := ids), cfg, today)
  {
  }

  ghost predicate MonotoneClock(openedOn: int, ops: seq<Op>) {
    && (forall i | 0 <= i < |ops| :: openedOn <= OpDay(ops[i]))
    && (forall i, j | 0 <= i < j < |ops| :: OpDay(ops[i]) <= OpDay(ops[j]))
  }

  /** Under a clock that never goes back the curve is well formed after every operation. */
  lemma {:induction false} RunCurve(cfg: Config, openedOn: int, ops: seq<Op>, n: nat)
    requires n <= |ops| && cfg.historyLimit >= 1 && MonotoneClock(openedOn, ops)
    ensures CurveOk(Run(Opening(cfg, openedOn), cfg, ops, n), cfg, if n == 0 then openedOn else OpDay(ops[n - 1]))
  {
    if n == 0 {
      OpeningEquity(cfg, openedOn);
    } else {
      hide Stepped, CurveOk, Opening;
      RunCurve(cfg, openedOn, ops, n - 1);
      StepCurve(Run(Opening(cfg, openedOn), cfg, ops, n - 1), cfg, ops[n - 1],
                if n == 1 then openedOn else OpDay(ops[n - 2]));
    }
  }

  // ----- what the curve holds

  /** The operations that reach the books: new order ids, and marks of an open position. */
  ghost predicate TakesEffect(l: Ledger, op: Op) {
    match op
    case FillOp(o, _) => o.id !in l.processed
    case MarkOp(symbol, _, _) => Held(l.positions, symbol).quantity != 0.0
  }

  /** Every equity the run went through, dated, oldest first. */
  ghost function Recordings(cfg: Config, openedOn: int, ops: seq<Op>, n: nat): seq<Point>
    requires n <= |ops|
  {
    var l0 := Opening(cfg, openedOn);
    if n == 0 then [Point(openedOn, cfg.initialCash)] else
      Recordings(cfg, openedOn, ops, n - 1)
      + (if TakesEffect(Run(l0, cfg, ops, n - 1), ops[n - 1])
         then [Point(OpDay(ops[n - 1]), Equity(Run(l0, cfg, ops, n)))]
         else [])
  }

  /** The points no later point of the same day overrides. */
  function DayEnds(points: seq<Point>): seq<Point> {
    if points == [] then []
    else if |points| >= 2 && points[0].day == points[1].day then DayEnds(points[1..])
    else [points[0]] + DayEnds(points[1..])
  }

  lemma {:induction false} DayEndsAppend(points: seq<Point>, p: Point)
    requires points != []
    ensures DayEnds(points) != [] && Last(DayEnds(points)) == Last(points)
    ensures var ends := DayEnds(points);
            DayEnds(points + [p]) == if Last(points).day == p.day then ends[|ends| - 1 := p] else ends + [p]
  {
    var all := points + [p];
    assert all[1..] == points[1..] + [p];
    if |points| == 1 {
      assert all == [points[0], p] && points[1..] == [] && all[1..] == [p] && [p][1..] == [];
      assert DayEnds([p]) == [p];
    } else {
      DayEndsAppend(points[1..], p);
      assert Last(points[1..]) == Last(points);
    }
  }

  lemma RecordedIsDayEnds(curve: seq<Point>, points: seq<Point>, today: int, equity: real, limit: nat)
    requires limit >= 1 && points != [] && curve == LastN(DayEnds(points), limit)
    ensures Recorded(curve, today, equity, limit) == LastN(DayEnds(points + [Point(today, equity)]), limit)
  {
    hide *;
    DayEndsAppend(points, Point(today, equity));
    RecordedLatest(DayEnds(points), today, equity, limit);
  }

  /** Trimming as one goes is trimming at the end. */
  lemma RecordedLatest(ends: seq<Point>, today: int, equity: real, limit: nat)
    requires limit >= 1 && ends != []
    ensures Recorded(LastN(ends, limit), today, equity, limit)
         == LastN(if Last(ends).day == today then ends[|ends| - 1 := Point(today, equity)]
                  else ends + [Point(today, equity)], limit)
  {
    var kept, p := LastN(ends, limit), Point(today, equity);
    assert Last(kept) == Last(ends);
    if Last(ends).day == today {
      assert kept[|kept| - 1 := p] == LastN(ends[|ends| - 1 := p], limit);
    } else if |ends| < limit {
      assert Trimmed(kept + [p], limit) == ends + [p];
    } else {
      assert kept == ends[|ends| - limit..];
      assert Trimmed(kept + [p], limit) == (kept + [p])[1..] == (ends + [p])[|ends| + 1 - limit..];
    }
  }

  lemma StepRecords(l: Ledger, cfg: Config, op: Op)
    ensures Stepped(l, cfg, op).curve
         == if TakesEffect(l, op) then Recorded(l.curve, OpDay(op), Equity(Stepped(l, cfg, op)), cfg.historyLimit)
         else l.curve
  {
    hide BookValue, Recorded, NewPosition, CashFlow;
  }

  /** The curve is the day-end equities of the whole run, only the oldest beyond the limit forgotten. */
  lemma {:induction false} CurveIsDayEnds(cfg: Config, openedOn: int, ops: seq<Op>, n: nat)
    requires n <= |ops| && cfg.historyLimit >= 1
    ensures Recordings(cfg, openedOn, ops, n) != []
    ensures Run(Opening(cfg, openedOn), cfg, ops, n).curve
         == LastN(DayEnds(Recordings(cfg, openedOn, ops, n)), cfg.historyLimit)
  {
    if n == 0 {
      OpeningEquity(cfg, openedOn);
      assert [Point(openedOn, cfg.initialCash)][1..] == [];
    } else {
      hide Stepped, Opening, Recorded, DayEnds, LastN, TakesEffect, Equity;
      CurveIsDayEnds(cfg, openedOn, ops, n - 1);
      var l, points := Run(Opening(cfg, openedOn), cfg, ops, n - 1), Recordings(cfg, openedOn, ops, n - 1);
      assert points + [] == points;
      StepRecords(l, cfg, ops[n - 1]);
      RecordedIsDayEnds(l.curve, points, OpDay(ops[n - 1]), Equity(Stepped(l, cfg, ops[n - 1])), cfg.historyLimit);
    }
  }
}

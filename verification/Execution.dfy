/**
 The execution service's handlers as steps of the ledger: long-only orders, liquidation and protective exits.
 Each handler is one step; `ExecutionService` is proved to take exactly these.
 */
module Execution {
  import opened Common
  import opened Ledger
  import opened PaperBroker

  /** The parts of `OrderRequestedEvent` the service reads. */
  datatype Request = Request(eventId: string, symbol: string, side: Side, quantity: real, price: real,
                             stopLoss: Option<real>, takeProfit: Option<real>)

  // ----- execute

  /** Sales are capped at the quantity held. */
  function FilledQuantity(l: Ledger, r: Request): real {
    var held := Held(l.positions, r.symbol).quantity;
    if r.side == SELL && held < r.quantity then held else r.quantity
  }

  function OrderOf(l: Ledger, r: Request): Order {
    Order(Requested(r.eventId), r.symbol, r.side, FilledQuantity(l, r), r.price,
          if r.side == BUY then r.stopLoss else None, if r.side == BUY then r.takeProfit else None)
  }

  /** A duplicate delivery, or a sale with nothing held. */
  predicate Skipped(l: Ledger, r: Request) {
    Requested(r.eventId) in l.processed || (r.side == SELL && Held(l.positions, r.symbol).quantity <= 0.0)
  }

  ghost function Executed(l: Ledger, cfg: Config, r: Request, today: int): Ledger {
    if Skipped(l, r) then l else Filled(l, cfg, OrderOf(l, r), today)
  }

  // ----- mark_position

  ghost function ExitOrder(l: Ledger, symbol: string, price: real, uuid: nat): Order {
    Order(ProtectiveExit(uuid), symbol, SELL, Held(l.positions, symbol).quantity, price, None, None)
  }

  ghost predicate Triggered(p: Position) {
    p.quantity > 0.0 && !InsideLevels(p)
  }

  ghost function MarkedAndExited(l: Ledger, cfg: Config, symbol: string, close: Option<real>, uuid: nat,
                                 today: int): Ledger {
    if Held(l.positions, symbol).quantity == 0.0 || close.None? then l else
      var marked := Marked(l, cfg, symbol, close.value, today);
      if Triggered(Held(marked.positions, symbol)) then
        Filled(marked, cfg, ExitOrder(marked, symbol, close.value, uuid), today)
      else marked
  }

  // ----- flatten_all

  predicate Open(positions: map<string, Position>, symbol: string) {
    Held(positions, symbol).quantity != 0.0
  }

  /** The positions liquidation closes: it passes over short ones and ones without a positive mark. */
  predicate Closable(positions: map<string, Position>, symbol: string) {
    Held(positions, symbol).quantity > 0.0 && Held(positions, symbol).lastPrice > 0.0
  }

  ghost predicate IsLiquidation(l: Ledger, o: Order) {
    && o.id.Liquidation? && o.id !in l.processed && o.side == SELL && Closable(l.positions, o.symbol)
    && o.quantity == Held(l.positions, o.symbol).quantity && o.price == Held(l.positions, o.symbol).lastPrice
    && o.stopLoss.None? && o.takeProfit.None?
  }

  ghost predicate Liquidates(l: Ledger, orders: seq<Order>) {
    && (forall i | 0 <= i < |orders| :: IsLiquidation(l, orders[i]))
    && (forall i, j | 0 <= i < j < |orders| :: orders[i].symbol != orders[j].symbol)
    && DistinctIds(orders)
  }

  function SymbolsOf(orders: seq<Order>): set<string> {
    set i | 0 <= i < |orders| :: orders[i].symbol
  }

  ghost predicate LiquidatesAll(l: Ledger, orders: seq<Order>) {
    Liquidates(l, orders) && forall s | Closable(l.positions, s) :: s in SymbolsOf(orders)
  }

  ghost function FillAll(l: Ledger, cfg: Config, orders: seq<Order>, today: int): Ledger {
    if orders == [] then l else Filled(FillAll(l, cfg, orders[..|orders| - 1], today), cfg, Last(orders), today)
  }

  function Exposure(orders: seq<Order>): real {
    if orders == [] then 0.0 else Exposure(orders[..|orders| - 1]) + Times(Last(orders).quantity, Last(orders).price)
  }

  // ----- an order is effective once, and long-only

  /** Long-only is kept exactly by sales, skips, and orders whose signed quantity leaves the position non-negative. */
  lemma LongOnlyKeptIff(l: Ledger, cfg: Config, r: Request, today: int)
    requires forall s :: Held(l.positions, s).quantity >= 0.0
    ensures (forall s :: Held(Executed(l, cfg, r, today).positions, s).quantity >= 0.0)
       <==> r.side == SELL || Skipped(l, r) || Held(l.positions, r.symbol).quantity + Signed(r.side, r.quantity) >= 0.0
  {
    hide Equity, Recorded, FillPrice, CashFlow;
    var l' := Executed(l, cfg, r, today);
    if !Skipped(l, r) {
      assert Held(l'.positions, r.symbol).quantity
          == Held(l.positions, r.symbol).quantity + Signed(r.side, FilledQuantity(l, r));
      assert forall s | s != r.symbol :: Held(l'.positions, s) == Held(l.positions, s);
    }
  }

  /** A side the service does not know is sold without the cap: a fresh book goes short. */
  lemma UnknownSideGoesShort(cfg: Config, today: int)
    ensures var r := Request("e", "X", Other("sell"), 1.0, 10.0, None, None);
            Held(Executed(Opening(cfg, today), cfg, r, today).positions, "X").quantity == -1.0
  {
    hide Equity, Recorded, FillPrice, CashFlow;
  }

  /** A sale that is filled is an exit: of the quantity asked for, or of the whole position when that is less. */
  lemma SaleIsExit(l: Ledger, cfg: Config, r: Request, today: int)
    requires r.side == SELL && r.quantity > 0.0 && !Skipped(l, r)
    ensures var held := Held(l.positions, r.symbol).quantity;
            var left := Held(Executed(l, cfg, r, today).positions, r.symbol).quantity;
            && 0.0 < FilledQuantity(l, r) <= r.quantity && left == held - FilledQuantity(l, r)
            && 0.0 <= left < held && (left == 0.0 <==> r.quantity >= held)
  {
    hide Equity, Recorded, FillPrice, CashFlow;
  }

  /** An order, written out from the request: when it is skipped, and otherwise the quantity filled, the money, the
      position and the protective levels it leaves. */
  lemma ExecutedInFull(l: Ledger, cfg: Config, r: Request, today: int)
    ensures var l', before := Executed(l, cfg, r, today), Held(l.positions, r.symbol);
            var after := Held(l'.positions, r.symbol);
            var slip := cfg.slippageBps / 10000.0;
            var q := if r.side == SELL && before.quantity < r.quantity then before.quantity else r.quantity;
            var skipped := Requested(r.eventId) in l.processed || (r.side == SELL && before.quantity <= 0.0);
            if skipped then l' == l
            else if r.side == BUY then
              && l'.cash == l.cash - q * (r.price * (1.0 + slip)) && after.lastPrice == r.price * (1.0 + slip)
              && after.quantity == before.quantity + q
              && after.stopLoss == (if r.stopLoss.Some? then r.stopLoss else before.stopLoss)
              && after.takeProfit == (if r.takeProfit.Some? then r.takeProfit else before.takeProfit)
            else
              && l'.cash == l.cash + q * (r.price * (1.0 - slip)) && after.lastPrice == r.price * (1.0 - slip)
              && after.quantity == before.quantity - q
              && after.stopLoss == (if after.quantity <= 0.0 then None else before.stopLoss)
              && after.takeProfit == (if after.quantity <= 0.0 then None else before.takeProfit)
    ensures forall s | s != r.symbol :: Held(Executed(l, cfg, r, today).positions, s) == Held(l.positions, s)
    ensures !Skipped(l, r) ==> Executed(l, cfg, r, today).processed == l.processed + {Requested(r.eventId)}
  {
    hide Filled;
    if !Skipped(l, r) {
      FilledInFull(l, cfg, OrderOf(l, r), today);
    }
  }

  // ----- healthy books

  /** Never short, and every open position is marked above zero. */
  ghost predicate Healthy(l: Ledger) {
    forall s :: HealthyPosition(Held(l.positions, s))
  }

  ghost predicate HealthyPosition(p: Position) {
    p.quantity == 0.0 || (p.quantity > 0.0 && p.lastPrice > 0.0)
  }

  /** Slippage of either sign, as long as a positive price fills at a positive one. */
  ghost predicate SaneCosts(cfg: Config) {
    -1.0 < Slip(cfg) < 1.0
  }

  ghost predicate SaneRequest(r: Request) {
    r.quantity > 0.0 && r.price > 0.0 && (r.side == BUY || r.side == SELL)
  }

  lemma FillPricePositive(cfg: Config, side: Side, price: real)
    requires SaneCosts(cfg) && price > 0.0
    ensures FillPrice(cfg, side, price) > 0.0
  {
    hide Slip;
    var factor := if side == BUY then 1.0 + Slip(cfg) else 1.0 - Slip(cfg);
    assert factor > 0.0;
    PositiveTimes(price, factor);
  }

  lemma PositiveTimes(a: real, b: real)
    requires a > 0.0 && b > 0.0
    ensures Times(a, b) > 0.0
  {
  }

  lemma FillKeepsHealthy(l: Ledger, cfg: Config, o: Order, today: int)
    requires Healthy(l) && SaneCosts(cfg) && o.price > 0.0
    requires Held(l.positions, o.symbol).quantity + Signed(o.side, o.quantity) >= 0.0
    ensures Healthy(Filled(l, cfg, o, today))
  {
    hide Equity, Recorded, FillPrice, CashFlow, Slip;
    FillPricePositive(cfg, o.side, o.price);
    var l' := Filled(l, cfg, o, today);
    forall s ensures HealthyPosition(Held(l'.positions, s)) {
      assert HealthyPosition(Held(l.positions, s));
    }
  }

  lemma ExecuteKeepsHealthy(l: Ledger, cfg: Config, r: Request, today: int)
    requires Healthy(l) && SaneCosts(cfg) && SaneRequest(r)
    ensures Healthy(Executed(l, cfg, r, today))
  {
    hide Filled, SaneCosts;
    assert HealthyPosition(Held(l.positions, r.symbol));
    if !Skipped(l, r) {
      FillKeepsHealthy(l, cfg, OrderOf(l, r), today);
    }
  }

  lemma MarkKeepsHealthy(l: Ledger, cfg: Config, symbol: string, price: real, today: int)
    requires Healthy(l) && price > 0.0
    ensures Healthy(Marked(l, cfg, symbol, price, today))
  {
    hide Equity, Recorded;
    var l' := Marked(l, cfg, symbol, price, today);
    forall s ensures HealthyPosition(Held(l'.positions, s)) {
      assert HealthyPosition(Held(l.positions, s));
    }
  }

  lemma MarkAndExitKeepsHealthy(l: Ledger, cfg: Config, symbol: string, close: Option<real>, uuid: nat, today: int)
    requires Healthy(l) && SaneCosts(cfg) && (close.Some? ==> close.value > 0.0)
    ensures Healthy(MarkedAndExited(l, cfg, symbol, close, uuid, today))
  {
    hide Filled, Marked, Healthy, SaneCosts;
    if Held(l.positions, symbol).quantity != 0.0 && close.Some? {
      MarkKeepsHealthy(l, cfg, symbol, close.value, today);
      var marked := Marked(l, cfg, symbol, close.value, today);
      if Triggered(Held(marked.positions, symbol)) {
        FillKeepsHealthy(marked, cfg, ExitOrder(marked, symbol, close.value, uuid), today);
      }
    }
  }

  // ----- protective exits

  /** After a mark at a known price a long position is flat, or open and strictly inside the levels it had; it is
      exited exactly when the price breaches one. */
  lemma MarkLeavesInsideOrFlat(l: Ledger, cfg: Config, symbol: string, close: real, uuid: nat, today: int)
    requires Held(l.positions, symbol).quantity > 0.0 && ProtectiveExit(uuid) !in l.processed
    ensures var before, l' := Held(l.positions, symbol), MarkedAndExited(l, cfg, symbol, Some(close), uuid, today);
            var after := Held(l'.positions, symbol);
            var inside := (before.stopLoss.Some? ==> before.stopLoss.value < close)
                          && (before.takeProfit.Some? ==> close < before.takeProfit.value);
            if inside then after == before.(lastPrice := close) && l'.cash == l.cash
            else && after.quantity == 0.0 && after.stopLoss.None? && after.takeProfit.None?
                 && l'.cash == l.cash + before.quantity * (close * (1.0 - cfg.slippageBps / 10000.0))
  {
    hide Equity, Recorded, Filled;
    var marked := Marked(l, cfg, symbol, close, today);
    assert Held(marked.positions, symbol) == Held(l.positions, symbol).(lastPrice := close);
    assert marked.processed == l.processed && marked.cash == l.cash;
    FilledInFull(marked, cfg, ExitOrder(marked, symbol, close, uuid), today);
  }

  // ----- liquidation

  lemma LiquidationsPrefix(l: Ledger, orders: seq<Order>)
    requires Liquidates(l, orders) && orders != []
    ensures Liquidates(l, orders[..|orders| - 1])
    ensures IsLiquidation(l, Last(orders)) && Last(orders).symbol !in SymbolsOf(orders[..|orders| - 1])
    ensures Last(orders).id !in Ids(orders[..|orders| - 1])
    ensures SymbolsOf(orders) == SymbolsOf(orders[..|orders| - 1]) + {Last(orders).symbol}
    ensures Ids(orders) == Ids(orders[..|orders| - 1]) + {Last(orders).id}
  {
    hide IsLiquidation;
    var front := orders[..|orders| - 1];
    assert forall i | 0 <= i < |front| :: front[i] == orders[i];
    assert front + [Last(orders)] == orders;
    IdsAppend(front, Last(orders));
    forall s ensures s in SymbolsOf(orders) <==> s in SymbolsOf(front) + {Last(orders).symbol} {
      if i :| 0 <= i < |front| && front[i].symbol == s {
        assert orders[i].symbol == s;
      }
    }
  }

  /** What a liquidation leaves of one position. */
  ghost function Liquidated(l: Ledger, cfg: Config, symbol: string, orders: seq<Order>): Position {
    if symbol in SymbolsOf(orders)
    then Position(0.0, FillPrice(cfg, SELL, Held(l.positions, symbol).lastPrice), None, None)
    else Held(l.positions, symbol)
  }

  lemma SaleClosesPosition(l: Ledger, cfg: Config, o: Order, today: int)
    requires o.id !in l.processed && o.side == SELL && o.quantity == Held(l.positions, o.symbol).quantity
    ensures var l' := Filled(l, cfg, o, today);
            && Held(l'.positions, o.symbol) == Position(0.0, FillPrice(cfg, SELL, o.price), None, None)
            && (forall s | s != o.symbol :: Held(l'.positions, s) == Held(l.positions, s))
            && l'.processed == l.processed + {o.id}
            && l'.cash == l.cash + CashFlow(cfg, o)
  {
    hide Equity, Recorded, FillPrice, CashFlow;
  }

  /** Each named position is closed once and no other touched. */
  lemma {:induction false} FillAllPositions(l: Ledger, cfg: Config, orders: seq<Order>, today: int)
    requires Liquidates(l, orders)
    ensures forall s :: Held(FillAll(l, cfg, orders, today).positions, s) == Liquidated(l, cfg, s, orders)
    ensures FillAll(l, cfg, orders, today).processed == l.processed + Ids(orders)
  {
    hide Filled, FillPrice, Liquidates;
    if orders != [] {
      var front, o := orders[..|orders| - 1], Last(orders);
      LiquidationsPrefix(l, orders);
      FillAllPositions(l, cfg, front, today);
      var mid := FillAll(l, cfg, front, today);
      assert Held(mid.positions, o.symbol) == Held(l.positions, o.symbol);
      SaleClosesPosition(mid, cfg, o, today);
      var l' := FillAll(l, cfg, orders, today);
      forall s ensures Held(l'.positions, s) == Liquidated(l, cfg, s, orders) {
      }
    }
  }

  lemma SaleProceeds(cfg: Config, o: Order)
    requires o.side == SELL
    ensures CashFlow(cfg, o) == Times(1.0 - Slip(cfg), Times(o.quantity, o.price))
    ensures Times(o.quantity, FillPrice(cfg, SELL, o.price) - o.price) == -Times(Slip(cfg), Times(o.quantity, o.price))
  {
    hide Slip;
    ProceedsArithmetic(o.quantity, o.price, Slip(cfg));
  }

  lemma ProceedsArithmetic(q: real, p: real, slip: real)
    ensures -Times(-q, Times(p, 1.0 - slip)) == Times(1.0 - slip, Times(q, p))
    ensures Times(q, Times(p, 1.0 - slip) - p) == -Times(slip, Times(q, p))
  {
    assert p * (1.0 - slip) - p == -(p * slip);
    assert q * (p * (1.0 - slip)) == (q * p) * (1.0 - slip);
    assert q * (p * slip) == (q * p) * slip;
  }

  /** Liquidation turns exposure into cash and costs exactly the slippage on it. */
  lemma {:induction false} FillAllMoney(l: Ledger, cfg: Config, orders: seq<Order>, today: int)
    requires Liquidates(l, orders)
    ensures var l' := FillAll(l, cfg, orders, today);
            && l'.cash == l.cash + Times(1.0 - Slip(cfg), Exposure(orders))
            && Equity(l') == Equity(l) - Times(Slip(cfg), Exposure(orders))
  {
    hide Filled, FillPrice, CashFlow, Liquidates, Equity, Times, Slip;
    if orders == [] {
      ZeroTimes(Slip(cfg));
      ZeroTimes(1.0 - Slip(cfg));
    } else {
      var front, o := orders[..|orders| - 1], Last(orders);
      LiquidationsPrefix(l, orders);
      FillAllMoney(l, cfg, front, today);
      FillAllPositions(l, cfg, front, today);
      var mid := FillAll(l, cfg, front, today);
      assert Held(mid.positions, o.symbol) == Held(l.positions, o.symbol);
      SaleClosesPosition(mid, cfg, o, today);
      FillMovesEquity(mid, cfg, o, today);
      SaleProceeds(cfg, o);
      SplitTimes(Slip(cfg), Exposure(front), Times(o.quantity, o.price));
    }
  }

  lemma SplitTimes(a: real, b: real, c: real)
    ensures Times(a, b + c) == Times(a, b) + Times(a, c)
    ensures Times(1.0 - a, b + c) == Times(1.0 - a, b) + Times(1.0 - a, c)
  {
  }

  lemma {:induction false} ExposureIsGross(l: Ledger, orders: seq<Order>)
    requires Liquidates(l, orders)
    ensures Exposure(orders) == SumOver(SymbolsOf(orders), GrossFn(l.positions))
  {
    hide Liquidates;
    if orders == [] {
      assert SymbolsOf(orders) == {};
    } else {
      var front, o := orders[..|orders| - 1], Last(orders);
      LiquidationsPrefix(l, orders);
      ExposureIsGross(l, front);
      SumOverAdd(SymbolsOf(front), o.symbol, GrossFn(l.positions));
    }
  }

  lemma {:induction false} SumOverIgnoresZeros(s: set<string>, t: set<string>, f: string -> real)
    requires t <= s && forall k | k in s - t :: f(k) == 0.0
    ensures SumOver(s, f) == SumOver(t, f)
  {
    if s != t {
      var k :| k in s && k !in t;
      SumOverPick(s, k, f);
      SumOverIgnoresZeros(s - {k}, t, f);
    }
  }

  /** Nothing is left open exactly when no open position was short or without a positive mark. */
  lemma FlattenLeavesNothingOpenIff(l: Ledger, cfg: Config, orders: seq<Order>, today: int)
    requires LiquidatesAll(l, orders)
    ensures (forall s :: !Open(FillAll(l, cfg, orders, today).positions, s)) <==> Healthy(l)
  {
    hide FillAll, Liquidates, FillPrice;
    FillAllPositions(l, cfg, orders, today);
    var l' := FillAll(l, cfg, orders, today);
    OnlyClosables(l, orders);
    forall s ensures Open(l'.positions, s) <==> !HealthyPosition(Held(l.positions, s)) {
      assert Held(l'.positions, s) == Liquidated(l, cfg, s, orders);
    }
  }

  lemma OnlyClosables(l: Ledger, orders: seq<Order>)
    requires Liquidates(l, orders)
    ensures forall s | s in SymbolsOf(orders) :: Closable(l.positions, s)
  {
    forall s | s in SymbolsOf(orders) ensures Closable(l.positions, s) {
      var i :| 0 <= i < |orders| && orders[i].symbol == s;
      assert IsLiquidation(l, orders[i]);
    }
  }

  /** Flattening a healthy book closes it, leaving only cash: equity falls by exactly slip x gross exposure. */
  lemma FlattenCostsSlippage(l: Ledger, cfg: Config, orders: seq<Order>, today: int)
    requires LiquidatesAll(l, orders) && Healthy(l)
    ensures var l' := FillAll(l, cfg, orders, today);
            Equity(l') == l'.cash == Equity(l) - Times(Slip(cfg), GrossExposure(l.positions))
  {
    hide FillAll, Liquidates, Times, Slip, SumOver, BookValue;
    FillAllMoney(l, cfg, orders, today);
    ExposureIsGross(l, orders);
    OnlyClosables(l, orders);
    var f := GrossFn(l.positions);
    forall s | s in l.positions.Keys - SymbolsOf(orders) ensures f(s) == 0.0 {
      assert HealthyPosition(Held(l.positions, s));
      FlatIsWorthNothing(Held(l.positions, s));
    }
    SumOverIgnoresZeros(l.positions.Keys, SymbolsOf(orders), f);
    FlattenLeavesNothingOpenIff(l, cfg, orders, today);
    ClosedBookIsCash(FillAll(l, cfg, orders, today));
  }

  lemma FlatIsWorthNothing(p: Position)
    ensures p.quantity == 0.0 ==> GrossOf(p) == 0.0 && Times(p.quantity, p.lastPrice) == 0.0
  {
  }

  lemma ClosedBookIsCash(l: Ledger)
    requires forall s :: !Open(l.positions, s)
    ensures Equity(l) == l.cash
  {
    hide Times;
    var f := ValueFn(l.positions);
    forall s | s in l.positions.Keys ensures f(s) == 0.0 {
      assert !Open(l.positions, s);
      FlatIsWorthNothing(Held(l.positions, s));
    }
    SumOverIgnoresZeros(l.positions.Keys, {}, f);
  }

  lemma FlattenKeepsHealthy(l: Ledger, cfg: Config, orders: seq<Order>, today: int)
    requires Healthy(l) && Liquidates(l, orders)
    ensures Healthy(FillAll(l, cfg, orders, today))
  {
    hide FillAll, Liquidates, FillPrice;
    FillAllPositions(l, cfg, orders, today);
    var l' := FillAll(l, cfg, orders, today);
    forall s ensures HealthyPosition(Held(l'.positions, s)) {
      assert HealthyPosition(Held(l.positions, s));
      assert Held(l'.positions, s) == Liquidated(l, cfg, s, orders);
    }
  }

  // ----- every run of the handlers

  datatype Call = ExecuteCall(request: Request, today: int)
                | MarkCall(symbol: string, close: Option<real>, uuid: nat, today: int)
                | FlattenCall(orders: seq<Order>, today: int)

  ghost predicate SaneCall(l: Ledger, c: Call) {
    match c
    case ExecuteCall(r, _) => SaneRequest(r)
    case MarkCall(_, close, uuid, _) => close.Some? ==> close.value > 0.0
    case FlattenCall(orders, _) => LiquidatesAll(l, orders)
  }

  ghost function After(l: Ledger, cfg: Config, c: Call): Ledger {
    match c
    case ExecuteCall(r, today) => Executed(l, cfg, r, today)
    case MarkCall(symbol, close, uuid, today) => MarkedAndExited(l, cfg, symbol, close, uuid, today)
    case FlattenCall(orders, today) => FillAll(l, cfg, orders, today)
  }

  ghost function AfterCalls(l: Ledger, cfg: Config, calls: seq<Call>): Ledger {
    if calls == [] then l else After(AfterCalls(l, cfg, calls[..|calls| - 1]), cfg, Last(calls))
  }

  ghost predicate SaneCalls(l: Ledger, cfg: Config, calls: seq<Call>) {
    forall n | 0 <= n < |calls| :: SaneCall(AfterCalls(l, cfg, calls[..n]), calls[n])
  }

  // ----- never short

  ghost predicate NeverShort(l: Ledger) {
    forall s :: Held(l.positions, s).quantity >= 0.0
  }

  /** All that long-only asks for: a side the service knows, and no buy of a negative quantity. */
  ghost predicate LongOnlyCall(l: Ledger, c: Call) {
    match c
    case ExecuteCall(r, _) => r.side == SELL || (r.side == BUY && r.quantity >= 0.0)
    case MarkCall(_, _, _, _) => true
    case FlattenCall(orders, _) => LiquidatesAll(l, orders)
  }

  ghost predicate LongOnlyCalls(l: Ledger, cfg: Config, calls: seq<Call>) {
    forall n | 0 <= n < |calls| :: LongOnlyCall(AfterCalls(l, cfg, calls[..n]), calls[n])
  }

  lemma FillNeverShort(l: Ledger, cfg: Config, o: Order, today: int)
    requires NeverShort(l) && Held(l.positions, o.symbol).quantity + Signed(o.side, o.quantity) >= 0.0
    ensures NeverShort(Filled(l, cfg, o, today))
  {
    hide Equity, Recorded, FillPrice, CashFlow;
    var l' := Filled(l, cfg, o, today);
    forall s ensures Held(l'.positions, s).quantity >= 0.0 {
      assert Held(l.positions, s).quantity >= 0.0;
    }
  }

  lemma MarkNeverShort(l: Ledger, cfg: Config, symbol: string, price: real, today: int)
    requires NeverShort(l)
    ensures NeverShort(Marked(l, cfg, symbol, price, today))
  {
    hide Equity, Recorded;
    var l' := Marked(l, cfg, symbol, price, today);
    forall s ensures Held(l'.positions, s).quantity >= 0.0 {
      assert Held(l.positions, s).quantity >= 0.0;
    }
  }

  lemma MarkAndExitNeverShort(l: Ledger, cfg: Config, symbol: string, close: Option<real>, uuid: nat, today: int)
    requires NeverShort(l)
    ensures NeverShort(MarkedAndExited(l, cfg, symbol, close, uuid, today))
  {
    hide Filled, Marked, NeverShort;
    if Held(l.positions, symbol).quantity != 0.0 && close.Some? {
      MarkNeverShort(l, cfg, symbol, close.value, today);
      var marked := Marked(l, cfg, symbol, close.value, today);
      if Triggered(Held(marked.positions, symbol)) {
        FillNeverShort(marked, cfg, ExitOrder(marked, symbol, close.value, uuid), today);
      }
    }
  }

  lemma FlattenNeverShort(l: Ledger, cfg: Config, orders: seq<Order>, today: int)
    requires NeverShort(l) && Liquidates(l, orders)
    ensures NeverShort(FillAll(l, cfg, orders, today))
  {
    hide FillAll, Liquidates, FillPrice;
    FillAllPositions(l, cfg, orders, today);
    var l' := FillAll(l, cfg, orders, today);
    forall s ensures Held(l'.positions, s).quantity >= 0.0 {
      assert Held(l'.positions, s) == Liquidated(l, cfg, s, orders);
    }
  }

  lemma ExecuteNeverShort(l: Ledger, cfg: Config, r: Request, today: int)
    requires NeverShort(l) && (r.side == SELL || (r.side == BUY && r.quantity >= 0.0))
    ensures NeverShort(Executed(l, cfg, r, today))
  {
    hide Executed;
    LongOnlyKeptIff(l, cfg, r, today);
  }

  /** No run of the handlers goes short, at any prices and any slippage. */
  lemma {:induction false} EveryRunIsLongOnly(l: Ledger, cfg: Config, calls: seq<Call>)
    requires NeverShort(l) && LongOnlyCalls(l, cfg, calls)
    ensures NeverShort(AfterCalls(l, cfg, calls))
  {
    hide NeverShort, Executed, MarkedAndExited, FillAll, Liquidates;
    if calls != [] {
      var n := |calls| - 1;
      var front := calls[..n];
      assert forall k | 0 <= k < n :: front[..k] == calls[..k] && front[k] == calls[k];
      EveryRunIsLongOnly(l, cfg, front);
      var mid := AfterCalls(l, cfg, front);
      assert LongOnlyCall(mid, calls[n]);
      match calls[n]
      case ExecuteCall(r, today) => ExecuteNeverShort(mid, cfg, r, today);
      case MarkCall(symbol, close, uuid, today) => MarkAndExitNeverShort(mid, cfg, symbol, close, uuid, today);
      case FlattenCall(orders, today) => FlattenNeverShort(mid, cfg, orders, today);
    }
  }

  /** With positive orders and prices every open position is moreover marked above zero, as liquidation needs. */
  lemma {:induction false} EveryRunIsHealthy(l: Ledger, cfg: Config, calls: seq<Call>)
    requires Healthy(l) && SaneCosts(cfg) && SaneCalls(l, cfg, calls)
    ensures Healthy(AfterCalls(l, cfg, calls))
  {
    hide Healthy, SaneCosts, Executed, MarkedAndExited, FillAll, SaneRequest, Liquidates;
    if calls != [] {
      var n := |calls| - 1;
      var front := calls[..n];
      assert forall k | 0 <= k < n :: front[..k] == calls[..k] && front[k] == calls[k];
      EveryRunIsHealthy(l, cfg, front);
      var mid := AfterCalls(l, cfg, front);
      assert SaneCall(mid, calls[n]);
      match calls[n]
      case ExecuteCall(r, today) => ExecuteKeepsHealthy(mid, cfg, r, today);
      case MarkCall(symbol, close, uuid, today) => MarkAndExitKeepsHealthy(mid, cfg, symbol, close, uuid, today);
      case FlattenCall(orders, today) => FlattenKeepsHealthy(mid, cfg, orders, today);
    }
  }
}

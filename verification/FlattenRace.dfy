/**
 Liquidation beside other handlers. A flatten captures the whole book before it first awaits, so what it sells later
 may no longer be held: the one way orders of known side can leave the book short.
 */
module FlattenRace {
  import opened Common
  import opened Ledger
  import opened PaperBroker
  import opened Execution
  import opened ExecutionService
  import opened Delivery
  import opened Exits

  // ----- which steps keep the book long-only

  lemma FillStaysLongIff(l: Ledger, cfg: Config, o: Order, today: int)
    requires NeverShort(l) && o.id !in l.processed
    ensures NeverShort(Filled(l, cfg, o, today))
       <==> Held(l.positions, o.symbol).quantity + Signed(o.side, o.quantity) >= 0.0
  {
    hide Equity, Recorded, FillPrice, CashFlow;
    var l' := Filled(l, cfg, o, today);
    assert Held(l'.positions, o.symbol).quantity == Held(l.positions, o.symbol).quantity + Signed(o.side, o.quantity);
    if Held(l.positions, o.symbol).quantity + Signed(o.side, o.quantity) >= 0.0 {
      FillNeverShort(l, cfg, o, today);
    }
  }

  /** What the step would have to see to keep the book long-only. */
  ghost predicate SellsHeld(w: World, l: Ledger, step: Step) {
    match step
    case Liquidate(_, o, _) => o.quantity <= Held(l.positions, o.symbol).quantity
    case Deliver(msg, _) =>
      msg < |w.stream| && w.stream[msg].OrderMessage? &&
      var r := w.stream[msg].request;
      r.side == SELL || Skipped(l, r) || Held(l.positions, r.symbol).quantity + Signed(r.side, r.quantity) >= 0.0
    case _ => true
  }

  /** While the process lives a step keeps the book long-only exactly when the liquidation it fills is still held, or
      the order it fills leaves the position non-negative. */
  lemma StepStaysLongIff(w: World, s: State, step: Step)
    requires Invariant(w, s) && Enabled(w, s, step) && s.memory.Some? && NeverShort(s.memory.value) && !step.Crash?
    ensures Take(w, s, step).memory.Some?
    ensures NeverShort(Take(w, s, step).memory.value) <==> SellsHeld(w, s.memory.value, step)
  {
    hide Books, Queue, InFlight, TasksOk, AnnouncedDurable, AnnouncedOnce, NeverShort, Filled, MarkedAndExited,
         Executed, Describes, FillEvent, Opening, Restored, Skipped, OrderOf, ExitOf;
    var l := s.memory.value;
    match step
    case Deliver(msg, today) => DeliverStaysLongIff(w, s, msg, today);
    case BeginFlatten(orders, today) =>
      if orders != [] {
        assert IsLiquidation(l, orders[0]);
        FillStaysLongIff(l, w.cfg, orders[0], today);
      }
    case Liquidate(task, o, today) =>
      TaskIsOk(s, task);
      assert o in s.tasks[task].rest;
      FillStaysLongIff(l, w.cfg, o, today);
    case Mark(symbol, close, uuid, today) => MarkAndExitNeverShort(l, w.cfg, symbol, Some(close), uuid, today);
    case _ =>
  }

  lemma DeliverStaysLongIff(w: World, s: State, msg: nat, today: int)
    requires CanDeliver(w, s, msg) && w.stream[msg].OrderMessage? && NeverShort(s.memory.value)
    ensures NeverShort(Delivered(w, s, msg, today).memory.value) <==> SellsHeld(w, s.memory.value, Deliver(msg, today))
  {
    hide Filled, Skipped, OrderOf;
    LongOnlyKeptIff(s.memory.value, w.cfg, w.stream[msg].request, today);
    SkippedStays(s.memory.value, w.cfg, w.stream[msg].request, today);
  }

  lemma SkippedStays(l: Ledger, cfg: Config, r: Request, today: int)
    ensures Executed(l, cfg, r, today) == if Skipped(l, r) then l else Filled(l, cfg, OrderOf(l, r), today)
  {
    hide Filled, Skipped, OrderOf;
  }

  // ----- a sale filled while the flatten awaits

  /** From any reachable state with two positions to close: after the first sale a SELL order for the second symbol is
      delivered and filled, and the flatten then sells that position again. */
  lemma FlattenSellsTwice(w: World, today: int, steps: seq<Step>, orders: seq<Order>, msg: nat, day: int)
    requires StateAfter(w, today, steps).Some? && |orders| >= 2
    requires Enabled(w, StateAfter(w, today, steps).value, BeginFlatten(orders, day))
    requires CanDeliver(w, StateAfter(w, today, steps).value, msg) && w.stream[msg].OrderMessage?
    requires var r := w.stream[msg].request;
             && r.side == SELL && r.symbol == orders[1].symbol && r.quantity >= orders[1].quantity
             && Requested(r.eventId) !in StateAfter(w, today, steps).value.memory.value.processed
    ensures var task := |StateAfter(w, today, steps).value.tasks|;
            var after := StateAfter(w, today, steps + [BeginFlatten(orders, day), Deliver(msg, day),
                                                       AnnounceExit(task, orders[0], false),
                                                       Liquidate(task, orders[1], day)]);
            && after.Some? && after.value.memory.Some?
            && Held(after.value.memory.value.positions, orders[1].symbol).quantity == -orders[1].quantity < 0.0
  {
    hide StateAfter, Filled, FillEvent, FillPrice, Describes;
    var s, r, a, b := StateAfter(w, today, steps).value, w.stream[msg].request, orders[0], orders[1];
    var l0 := s.memory.value;
    assert IsLiquidation(l0, a) && IsLiquidation(l0, b) && a.symbol != b.symbol && a.id != b.id;
    var begin, deliver, sell := BeginFlatten(orders, day), Deliver(msg, day), Liquidate(|s.tasks|, b, day);
    OneMore(w, today, steps, begin);
    var s1 := Take(w, s, begin);
    SaleClosesPosition(l0, w.cfg, a, day);
    var l1 := s1.memory.value;
    assert Held(l1.positions, b.symbol) == Held(l0.positions, b.symbol);
    OneMore(w, today, steps + [begin], deliver);
    var s2 := Take(w, s1, deliver);
    SaleClosesPosition(l1, w.cfg, OrderOf(l1, r), day);
    var l2 := s2.memory.value;
    var announce := AnnounceExit(|s.tasks|, a, false);
    OneMore(w, today, steps + [begin] + [deliver], announce);
    OneMore(w, today, steps + [begin] + [deliver] + [announce], sell);
    SaleOfNothing(l2, w.cfg, b, day);
    assert steps + [begin] + [deliver] + [announce] + [sell] == steps + [begin, deliver, announce, sell];
  }

  lemma SaleOfNothing(l: Ledger, cfg: Config, o: Order, today: int)
    requires o.id !in l.processed && o.side == SELL && Held(l.positions, o.symbol).quantity == 0.0
    ensures Held(Filled(l, cfg, o, today).positions, o.symbol).quantity == -o.quantity
  {
    hide Equity, Recorded, FillPrice, CashFlow;
  }

  // ----- reaching such states

  function BuyOne(id: string, symbol: string): Payload {
    OrderMessage(Request(id, symbol, BUY, 1.0, 10.0, None, None))
  }

  function SaleOf(uuid: nat, symbol: string, p: Position): Order {
    Order(Liquidation(uuid), symbol, SELL, p.quantity, p.lastPrice, None, None)
  }

  lemma BuyOpens(l: Ledger, cfg: Config, id: string, symbol: string, today: int)
    requires SaneCosts(cfg) && Requested(id) !in l.processed && Held(l.positions, symbol).quantity == 0.0
    ensures var r := Request(id, symbol, BUY, 1.0, 10.0, None, None);
            var l' := Executed(l, cfg, r, today);
            && !Skipped(l, r) && OrderOf(l, r).id == Requested(id)
            && Held(l'.positions, symbol).quantity == 1.0 && Closable(l'.positions, symbol)
            && (forall s | s != symbol :: Held(l'.positions, s) == Held(l.positions, s))
            && l'.processed == l.processed + {Requested(id)}
  {
    hide Equity, Recorded, FillPrice, CashFlow, SaneCosts;
    FillPricePositive(cfg, BUY, 10.0);
  }

  /** One unit of one symbol held: the liquidation there is to fill. */
  lemma OnlyPosition(l: Ledger, symbol: string, uuid: nat)
    requires Closable(l.positions, symbol) && forall s | s != symbol :: Held(l.positions, s).quantity == 0.0
    requires Liquidation(uuid) !in l.processed
    ensures LiquidatesAll(l, [SaleOf(uuid, symbol, Held(l.positions, symbol))])
    ensures exists s :: Open(l.positions, s)
  {
    var orders := [SaleOf(uuid, symbol, Held(l.positions, symbol))];
    assert Open(l.positions, symbol);
    assert orders[0].symbol in SymbolsOf(orders);
    forall s | Closable(l.positions, s) ensures s in SymbolsOf(orders) {
      assert s == symbol;
    }
  }

  /** An order bought, saved, announced and acknowledged; its liquidation announced; a crash; and the sale is
      nowhere. */
  lemma LiquidationOfABuyIsLost(cfg: Config, today: int, uuid: nat) returns (steps: seq<Step>, o: Order)
    requires SaneCosts(cfg)
    ensures var lost := StateAfter(World(cfg, [BuyOne("a", "A")], 1), today, steps);
            && lost.Some? && FillEvent(cfg, o) in lost.value.exitsAnnounced
            && !BackedBy(FillEvent(cfg, o), lost.value.memoryFills, cfg)
  {
    hide StateAfter, Filled, Executed, FillEvent, FillPrice, BackedBy, LiquidatesAll, SaneCosts, Skipped, OrderOf,
         Closable, Open, Completes, SaleOf, Equity, Recorded;
    var w := World(cfg, [BuyOne("a", "A")], 1);
    NoSteps(w, today);
    var l0 := Opening(cfg, today);
    BuyOpens(l0, cfg, "a", "A", today);
    var snapshot := OrderCompletes(w, today, [], 0, today);
    steps := [] + Completes(0, today, snapshot);
    var s := StateAfter(w, today, steps).value;
    OnlyPosition(s.memory.value, "A", uuid);
    o := SaleOf(uuid, "A", Held(s.memory.value.positions, "A"));
    CrashLosesLiquidation(w, today, steps, [o], today);
    steps := steps + [BeginFlatten([o], today), AnnounceExit(|s.tasks|, o, false), Crash];
  }

  lemma TwoPositions(l: Ledger, uuid: nat)
    requires Closable(l.positions, "A") && Closable(l.positions, "B")
    requires forall s | s != "A" && s != "B" :: Held(l.positions, s).quantity == 0.0
    requires Liquidation(uuid) !in l.processed && Liquidation(uuid + 1) !in l.processed
    ensures LiquidatesAll(l, [SaleOf(uuid, "A", Held(l.positions, "A")), SaleOf(uuid + 1, "B", Held(l.positions, "B"))])
    ensures exists s :: Open(l.positions, s)
  {
    var orders := [SaleOf(uuid, "A", Held(l.positions, "A")), SaleOf(uuid + 1, "B", Held(l.positions, "B"))];
    assert Open(l.positions, "A");
    assert orders[0].symbol in SymbolsOf(orders) && orders[1].symbol in SymbolsOf(orders);
    forall s | Closable(l.positions, s) ensures s in SymbolsOf(orders) {
      assert s == "A" || s == "B";
    }
  }

  /** Two positions bought one after the other; a flatten; a SELL of the second delivered while the first sale is being
      announced: the book ends short, with orders of known sides and positive quantities alone. */
  lemma FlattenGoesShort(cfg: Config, today: int, uuid: nat) returns (steps: seq<Step>)
    requires SaneCosts(cfg)
    ensures var stream := [BuyOne("a", "A"), BuyOne("b", "B"),
                           OrderMessage(Request("c", "B", SELL, 1.0, 10.0, None, None))];
            var short := StateAfter(World(cfg, stream, 1), today, steps);
            && short.Some? && short.value.memory.Some?
            && Held(short.value.memory.value.positions, "B").quantity == -1.0
  {
    hide StateAfter, Filled, Executed, FillEvent, FillPrice, LiquidatesAll, SaneCosts, Skipped, OrderOf, Closable, Open,
         Completes, Equity, Recorded;
    var stream := [BuyOne("a", "A"), BuyOne("b", "B"), OrderMessage(Request("c", "B", SELL, 1.0, 10.0, None, None))];
    var w := World(cfg, stream, 1);
    NoSteps(w, today);
    var s0 := Init(w, today);
    BuyOpens(s0.memory.value, cfg, "a", "A", today);
    var snapshot := OrderCompletes(w, today, [], 0, today);
    steps := [] + Completes(0, today, snapshot);
    var s1 := StateAfter(w, today, steps).value;
    assert s1.messages[1] == s0.messages[1] && s1.messages[2] == s0.messages[2];
    BuyOpens(s1.memory.value, cfg, "b", "B", today);
    snapshot := OrderCompletes(w, today, steps, 1, today);
    steps := steps + Completes(1, today, snapshot);
    var s2 := StateAfter(w, today, steps).value;
    assert s2.messages[2] == s1.messages[2];
    var l := s2.memory.value;
    StillClosable(s1.memory.value.positions, l.positions, "A");
    TwoPositions(l, uuid);
    var orders := [SaleOf(uuid, "A", Held(l.positions, "A")), SaleOf(uuid + 1, "B", Held(l.positions, "B"))];
    FlattenSellsTwice(w, today, steps, orders, 2, today);
    steps := steps + [BeginFlatten(orders, today), Deliver(2, today), AnnounceExit(|s2.tasks|, orders[0], false),
                      Liquidate(|s2.tasks|, orders[1], today)];
  }

  lemma StillClosable(before: map<string, Position>, after: map<string, Position>, symbol: string)
    requires Closable(before, symbol) && Held(after, symbol) == Held(before, symbol)
    ensures Closable(after, symbol)
  {
  }
}

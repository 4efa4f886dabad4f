/**
 The execution service: handlers over a mutable broker, the durable snapshot cell, and the order in which state is
 saved, announced and pushed. Each handler runs to completion; `Delivery` covers failures and crashes between the steps.
 */
module ExecutionService {
  import opened Common
  import opened Ledger
  import opened PaperBroker
  import opened Execution

  datatype OrderFilled = OrderFilled(orderId: OrderId, symbol: string, filledQuantity: real, filledPrice: real)

  /** What the outside sees: the durable write, the announcement, the portfolio sent to risk management. */
  datatype Effect = Saved(snapshot: Snapshot) | Published(event: OrderFilled) | Pushed(metrics: Metrics)

  class BrokerRepository {
    var stored: Option<Snapshot>

    constructor (stored: Option<Snapshot>)
      ensures this.stored == stored
    {
      this.stored := stored;
    }

    method Load() returns (s: Option<Snapshot>)
      ensures s == stored
    {
      s := stored;
    }

    method Save(s: Snapshot)
      modifies this
      ensures stored == Some(s)
    {
      stored := Some(s);
    }
  }

  // ----- generated order ids

  /** No id generated from `drawn` on is in use. */
  ghost predicate Unused(ids: set<OrderId>, drawn: nat) {
    forall k: nat | k >= drawn :: Liquidation(k) !in ids && ProtectiveExit(k) !in ids
  }

  ghost predicate StoredUnused(stored: Option<Snapshot>, drawn: nat) {
    stored.Some? ==> Unused(Restored(stored.value, 0).processed, drawn)
  }

  lemma UnusedAfter(ids: set<OrderId>, drawn: nat, id: OrderId)
    requires Unused(ids, drawn)
    ensures id == Liquidation(drawn) || id == ProtectiveExit(drawn) || id.Requested? ==> Unused(ids + {id}, drawn + 1)
    ensures id.Requested? ==> Unused(ids + {id}, drawn)
  {
  }

  // ----- growing a liquidation by one order

  lemma AppendOrder(l: Ledger, cfg: Config, orders: seq<Order>, o: Order, today: int)
    ensures FillAll(l, cfg, orders + [o], today) == Filled(FillAll(l, cfg, orders, today), cfg, o, today)
    ensures SymbolsOf(orders + [o]) == SymbolsOf(orders) + {o.symbol}
  {
    hide Filled;
    var all := orders + [o];
    assert all[..|all| - 1] == orders && Last(all) == o;
    forall s ensures s in SymbolsOf(all) <==> s in SymbolsOf(orders) + {o.symbol} {
      assert all[|orders|] == o;
      if i :| 0 <= i < |orders| && orders[i].symbol == s {
        assert all[i].symbol == s;
      }
    }
  }

  lemma AppendLiquidation(l: Ledger, orders: seq<Order>, o: Order)
    requires Liquidates(l, orders) && IsLiquidation(l, o)
    requires o.symbol !in SymbolsOf(orders) && o.id !in Ids(orders)
    ensures Liquidates(l, orders + [o])
  {
    hide IsLiquidation;
    var all := orders + [o];
    forall i | 0 <= i < |orders| ensures orders[i].symbol != o.symbol && orders[i].id != o.id {
      assert orders[i].symbol in SymbolsOf(orders) && orders[i].id in Ids(orders);
    }
    assert forall i | 0 <= i < |all| :: all[i] == if i < |orders| then orders[i] else o;
  }

  /** The fill each order is announced with. */
  function FillEvent(cfg: Config, o: Order): OrderFilled {
    OrderFilled(o.id, o.symbol, o.quantity, FillPrice(cfg, o.side, o.price))
  }

  /** What is announced is what the books show: the quantity traded, the cash paid or received for it, the price
      marked. */
  lemma AnnouncedIsBooked(l: Ledger, cfg: Config, o: Order, today: int)
    requires o.id !in l.processed
    ensures var after, e := Filled(l, cfg, o, today), FillEvent(cfg, o);
            var before, position := Held(l.positions, e.symbol), Held(after.positions, e.symbol);
            && e.orderId in after.processed && position.lastPrice == e.filledPrice
            && (if o.side == BUY then position.quantity - before.quantity == e.filledQuantity
                else before.quantity - position.quantity == e.filledQuantity)
            && (if o.side == BUY then l.cash - after.cash == e.filledQuantity * e.filledPrice
                else after.cash - l.cash == e.filledQuantity * e.filledPrice)
  {
    hide Filled;
    FilledInFull(l, cfg, o, today);
  }

  function FillEvents(cfg: Config, orders: seq<Order>): seq<OrderFilled> {
    seq(|orders|, i requires 0 <= i < |orders| => FillEvent(cfg, orders[i]))
  }

  function Announcements(events: seq<OrderFilled>): seq<Effect> {
    seq(|events|, i requires 0 <= i < |events| => Published(events[i]))
  }

  class ExecutionService {
    const broker: PaperBroker
    const repository: BrokerRepository
    var effects: seq<Effect>
    /** How many order ids have been generated: a generated id never repeats, not even across restarts. */
    var drawn: nat

    constructor (broker: PaperBroker, repository: BrokerRepository, drawn: nat)
      requires Unused(broker.processedOrders, drawn) && StoredUnused(repository.stored, drawn)
      ensures this.broker == broker && this.repository == repository && effects == []
      ensures Valid()
    {
      this.broker := broker;
      this.repository := repository;
      this.effects := [];
      this.drawn := drawn;
    }

    ghost predicate Valid()
      reads this, broker, repository
    {
      Unused(broker.processedOrders, drawn) && StoredUnused(repository.stored, drawn)
    }

    method RestoreState(today: int)
      requires Valid()
      modifies broker
      ensures Valid() && repository.stored == old(repository.stored)
      ensures broker.State() == if repository.stored.Some? then Restored(repository.stored.value, today)
                                else old(broker.State())
      ensures forall l | repository.stored.Some? && Describes(repository.stored.value, l) :: broker.State() == l
    {
      var snapshot := repository.Load();
      if snapshot.None? {
        return;
      }
      broker.Restore(snapshot.value, today);
    }

    /** Persist the broker's state. */
    method SaveState()
      requires Unused(broker.processedOrders, drawn)
      modifies repository, this`effects
      ensures Valid()
      ensures repository.stored.Some? && Describes(repository.stored.value, broker.State())
      ensures effects == old(effects) + [Saved(repository.stored.value)]
    {
      hide Unused;
      var s := broker.TakeSnapshot();
      SnapshotRoundTrip(s, broker.State(), 0);
      repository.Save(s);
      effects := effects + [Saved(s)];
    }

    method Push()
      modifies this`effects
      ensures effects == old(effects) + [Pushed(MetricsOf(broker.State()))]
    {
      hide MetricsOf;
      var m := broker.CurrentMetrics();
      effects := effects + [Pushed(m)];
    }

    /** Fill a requested order: saved, then announced, then pushed. A skip touches nothing. */
    method Execute(r: Request, today: int) returns (fill: Option<OrderFilled>)
      requires Valid()
      modifies this`effects, broker, repository
      ensures Valid()
      ensures broker.State() == Executed(old(broker.State()), broker.cfg, r, today)
      ensures fill.None? <==> Skipped(old(broker.State()), r)
      ensures fill.Some? ==>
                var p, before := Held(broker.positions, r.symbol), old(Held(broker.positions, r.symbol));
                if r.side == BUY
                then p.stopLoss == (if r.stopLoss.Some? then r.stopLoss else before.stopLoss)
                     && p.takeProfit == (if r.takeProfit.Some? then r.takeProfit else before.takeProfit)
                else p.stopLoss == (if p.quantity <= 0.0 then None else before.stopLoss)
                     && p.takeProfit == (if p.quantity <= 0.0 then None else before.takeProfit)
      ensures fill.None? ==> effects == old(effects) && repository.stored == old(repository.stored)
      ensures fill.Some? ==>
                && fill.value == FillEvent(broker.cfg, OrderOf(old(broker.State()), r))
                && repository.stored.Some? && Describes(repository.stored.value, broker.State())
                && effects == old(effects)
                            + [Saved(repository.stored.value), Published(fill.value), Pushed(MetricsOf(broker.State()))]
    {
      hide FillPrice, MetricsOf, Unused, Describes, Filled;
      if broker.IsProcessed(Requested(r.eventId)) {
        return None;
      }
      var quantity := r.quantity;
      if r.side == SELL {
        var held := broker.PositionQty(r.symbol);
        if held <= 0.0 {
          return None;
        }
        quantity := if held < quantity then held else quantity;
      }
      var o := Order(Requested(r.eventId), r.symbol, r.side, quantity, r.price,
                     if r.side == BUY then r.stopLoss else None, if r.side == BUY then r.takeProfit else None);
      assert o == OrderOf(broker.State(), r);
      ghost var before := broker.State();
      var filled := broker.DoFill(o, today);
      FilledAddsId(before, broker.cfg, o, today);
      UnusedAfter(before.processed, drawn, o.id);
      ExecutedInFull(before, broker.cfg, r, today);
      var event := OrderFilled(filled.value.orderId, filled.value.symbol, filled.value.quantity, filled.value.price);
      SaveState();
      effects := effects + [Published(event)];
      Push();
      return Some(event);
    }

    /** Close every long position that has a positive mark, at that mark. */
    method FlattenAll(today: int) returns (fills: seq<OrderFilled>, ghost orders: seq<Order>)
      requires Valid()
      modifies this, broker, repository
      ensures Valid()
      ensures LiquidatesAll(old(broker.State()), orders) && fills == FillEvents(broker.cfg, orders)
      ensures broker.State() == FillAll(old(broker.State()), broker.cfg, orders, today)
      ensures if forall s :: !Open(old(broker.positions), s)
              then orders == [] && effects == old(effects) && repository.stored == old(repository.stored)
              else repository.stored.Some? && Describes(repository.stored.value, broker.State())
                   && effects == old(effects) + Announcements(fills)
                               + [Saved(repository.stored.value), Pushed(MetricsOf(broker.State()))]
    {
      hide Filled, FillAll, FillEvent, MetricsOf, Describes, Liquidates, FillPrice, IsLiquidation, Unused;
      ghost var l0 := broker.State();
      var book := broker.positions;
      var rest := set s | s in book && book[s].quantity != 0.0;
      orders := [];
      fills := [];
      NoOrders(l0, broker.cfg, today);
      if rest == {} {
        assert forall s :: Open(book, s) ==> s in rest;
        return;
      }
      assert exists s :: Open(book, s) by {
        var s :| s in rest;
        assert Open(book, s);
      }
      ghost var todo := rest;
      while rest != {}
        invariant rest <= todo && Liquidates(l0, orders)
        invariant broker.State() == FillAll(l0, broker.cfg, orders, today)
        invariant fills == FillEvents(broker.cfg, orders) && effects == old(effects) + Announcements(fills)
        invariant forall s | Closable(book, s) :: s in rest || s in SymbolsOf(orders)
        invariant SymbolsOf(orders) !! rest
        invariant Unused(broker.processedOrders, drawn) && StoredUnused(repository.stored, drawn)
        decreases rest
      {
        var symbol :| symbol in rest;
        rest := rest - {symbol};
        var quantity, price := book[symbol].quantity, book[symbol].lastPrice;
        if quantity > 0.0 && price > 0.0 {
          var o := Order(Liquidation(drawn), symbol, SELL, quantity, price, None, None);
          NextLiquidation(l0, broker.cfg, orders, o, drawn, today);
          ghost var before := broker.State();
          var filled := broker.DoFill(o, today);
          FilledAddsId(before, broker.cfg, o, today);
          UnusedAfter(before.processed, drawn, o.id);
          StoredStaysUnused(repository.stored, drawn);
          drawn := drawn + 1;
          AppendLiquidation(l0, orders, o);
          AppendOrder(l0, broker.cfg, orders, o, today);
          var event := OrderFilled(filled.value.orderId, filled.value.symbol, filled.value.quantity,
                                   filled.value.price);
          EventsAppend(broker.cfg, orders, o);
          assert event == FillEvent(broker.cfg, o) by { IsFillEvent(broker.cfg, o); }
          AnnouncementsAppend(fills, event);
          effects := effects + [Published(event)];
          fills := fills + [event];
          orders := orders + [o];
        }
      }
      SaveState();
      Push();
    }

    /** Re-mark a held position, and exit it when a protective level is breached. */
    method MarkPosition(symbol: string, close: Option<real>, today: int) returns (exit: Option<OrderFilled>)
      requires Valid()
      modifies this, broker, repository
      ensures Valid()
      ensures broker.State() == MarkedAndExited(old(broker.State()), broker.cfg, symbol, close, old(drawn), today)
      ensures var reached := Open(old(broker.positions), symbol) && close.Some?;
              if !reached then exit.None? && effects == old(effects) && repository.stored == old(repository.stored)
              else repository.stored.Some? && Describes(repository.stored.value, broker.State())
                   && (exit.Some? <==> Triggered(old(Held(broker.positions, symbol)).(lastPrice := close.value)))
                   && (exit.Some? ==> exit.value == FillEvent(broker.cfg,
                         ExitOrder(old(broker.State()), symbol, close.value, old(drawn))))
                   && effects == old(effects) + (if exit.Some? then [Published(exit.value)] else [])
                               + [Saved(repository.stored.value), Pushed(MetricsOf(broker.State()))]
    {
      hide Filled, MetricsOf, Describes, Unused, FillPrice, Marked, InsideLevels;
      if symbol !in broker.positions || broker.positions[symbol].quantity == 0.0 {
        return None;
      }
      if close.None? {
        return None;
      }
      ghost var before := broker.State();
      broker.Mark(symbol, close.value, today);
      MarkedMeaning(before, broker.cfg, symbol, close.value, today);
      exit := MaybeProtectiveExit(symbol, close.value, today);
      SaveState();
      Push();
    }

    method MaybeProtectiveExit(symbol: string, price: real, today: int) returns (exit: Option<OrderFilled>)
      requires Valid()
      modifies this, broker
      ensures Valid() && repository.stored == old(repository.stored)
      ensures exit.Some? <==> Triggered(old(Held(broker.positions, symbol)))
      ensures broker.State() == if exit.None? then old(broker.State())
                                else Filled(old(broker.State()), broker.cfg,
                                            ExitOrder(old(broker.State()), symbol, price, old(drawn)), today)
      ensures exit.Some? ==>
                exit.value == FillEvent(broker.cfg, ExitOrder(old(broker.State()), symbol, price, old(drawn)))
      ensures effects == old(effects) + (if exit.Some? then [Published(exit.value)] else [])
    {
      hide Filled, FillPrice, InsideLevels, Unused;
      var trigger := broker.ProtectiveTrigger(symbol);
      if trigger.None? {
        return None;
      }
      var quantity := broker.PositionQty(symbol);
      var o := Order(ProtectiveExit(drawn), symbol, SELL, quantity, price, None, None);
      IsUnused(broker.processedOrders, drawn);
      ghost var before := broker.State();
      var filled := broker.DoFill(o, today);
      FilledAddsId(before, broker.cfg, o, today);
      UnusedAfter(before.processed, drawn, o.id);
      StoredStaysUnused(repository.stored, drawn);
      drawn := drawn + 1;
      var event := OrderFilled(filled.value.orderId, filled.value.symbol, filled.value.quantity, filled.value.price);
      effects := effects + [Published(event)];
      return Some(event);
    }

    /** Only the flatten action closes the book. */
    method HandleCircuitBreaker(actionTaken: string, today: int) returns (ghost orders: seq<Order>)
      requires Valid()
      modifies this, broker, repository
      ensures Valid()
      ensures broker.State() == FillAll(old(broker.State()), broker.cfg, orders, today)
      ensures actionTaken != "flatten_all" ==> orders == []
      ensures actionTaken == "flatten_all" ==> LiquidatesAll(old(broker.State()), orders)
      ensures if actionTaken != "flatten_all" || forall s :: !Open(old(broker.positions), s)
              then effects == old(effects) && repository.stored == old(repository.stored)
              else repository.stored.Some? && Describes(repository.stored.value, broker.State())
                   && effects == old(effects) + Announcements(FillEvents(broker.cfg, orders))
                               + [Saved(repository.stored.value), Pushed(MetricsOf(broker.State()))]
    {
      hide FillAll, Liquidates, MetricsOf, Describes, Unused;
      orders := [];
      NoOrders(broker.State(), broker.cfg, today);
      if actionTaken != "flatten_all" {
        return;
      }
      var fills;
      fills, orders := FlattenAll(today);
    }
  }

  // ----- steps of the proofs above

  lemma NoOrders(l: Ledger, cfg: Config, today: int)
    ensures FillAll(l, cfg, [], today) == l && Liquidates(l, []) && SymbolsOf([]) == {} && FillEvents(cfg, []) == []
    ensures Announcements([]) == []
  {
  }

  lemma FilledAddsId(l: Ledger, cfg: Config, o: Order, today: int)
    ensures Filled(l, cfg, o, today).processed == l.processed + {o.id}
  {
    hide Equity, Recorded, FillPrice, CashFlow;
  }

  lemma MarkedMeaning(l: Ledger, cfg: Config, symbol: string, price: real, today: int)
    requires Held(l.positions, symbol).quantity != 0.0
    ensures var l' := Marked(l, cfg, symbol, price, today);
            l'.processed == l.processed && Held(l'.positions, symbol) == Held(l.positions, symbol).(lastPrice := price)
  {
    hide Equity, Recorded;
  }

  lemma IsUnused(ids: set<OrderId>, drawn: nat)
    requires Unused(ids, drawn)
    ensures Liquidation(drawn) !in ids && ProtectiveExit(drawn) !in ids
  {
  }

  lemma StoredStaysUnused(stored: Option<Snapshot>, drawn: nat)
    requires StoredUnused(stored, drawn)
    ensures StoredUnused(stored, drawn + 1)
  {
  }

  lemma IsFillEvent(cfg: Config, o: Order)
    ensures FillEvent(cfg, o) == OrderFilled(o.id, o.symbol, o.quantity, FillPrice(cfg, o.side, o.price))
  {
  }

  /** The next order of a liquidation in progress is still one against the book it started from. */
  lemma NextLiquidation(l: Ledger, cfg: Config, orders: seq<Order>, o: Order, drawn: nat, today: int)
    requires Liquidates(l, orders) && Closable(l.positions, o.symbol)
    requires o == Order(Liquidation(drawn), o.symbol, SELL, Held(l.positions, o.symbol).quantity,
                        Held(l.positions, o.symbol).lastPrice, None, None)
    requires Unused(FillAll(l, cfg, orders, today).processed, drawn)
    ensures IsLiquidation(l, o) && o.id !in Ids(orders) && o.id !in FillAll(l, cfg, orders, today).processed
  {
    hide FillAll, Liquidates, FillPrice;
    FillAllPositions(l, cfg, orders, today);
    IsUnused(FillAll(l, cfg, orders, today).processed, drawn);
  }

  lemma EventsAppend(cfg: Config, orders: seq<Order>, o: Order)
    ensures FillEvents(cfg, orders + [o]) == FillEvents(cfg, orders) + [FillEvent(cfg, o)]
  {
  }

  lemma AnnouncementsAppend(events: seq<OrderFilled>, e: OrderFilled)
    ensures Announcements(events + [e]) == Announcements(events) + [Published(e)]
  {
  }
}

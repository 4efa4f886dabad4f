/**
 Order delivery as a state machine: at-least-once redelivery, a handler that fills, saves, publishes, pushes and
 acknowledges, background marks and exits in between, and crashes at any point. One order handler runs at a time, as
 the subscription awaits its callback; taking the snapshot and writing it is one step.
 */
module Delivery {
  import opened Common
  import opened Ledger
  import opened LedgerRuns
  import opened PaperBroker
  import opened Execution
  import opened ExecutionService

  datatype Payload = OrderMessage(request: Request) | Malformed

  /** `stream` may hold the same event more than once. */
  datatype World = World(cfg: Config, stream: seq<Payload>, maxDeliver: nat)

  datatype Settled = Outstanding | Acked | Terminated

  /** `soldNothing`: some delivery of it was a sale with nothing held, skipped. */
  datatype Message = Message(deliveries: nat, settled: Settled, soldNothing: bool)

  /** How far `execute` has come with message `msg`. */
  datatype Handler = Idle
                   | AfterFill(msg: nat, order: Order)
                   | AfterSave(msg: nat, order: Order)
                   | AfterPublish(msg: nat)
                   | Returned(msg: nat)

  /** A liquidation or a re-mark under way: the sales still to fill, at the quantities and prices captured when it
      began, and the one filled and not yet announced. A re-mark has at most the latter. */
  datatype Task = Task(rest: seq<Order>, filled: Option<Order>) | Finished

  /** `memory` is `None` while the process is down. `announced` is what `execute` published, `exitsAnnounced` what
      liquidations and protective exits did. The last two fields are history: the fills that the ledger in memory,
      and the durable snapshot, came from. */
  datatype State = State(memory: Option<Ledger>, durable: Option<Snapshot>, handler: Handler, messages: seq<Message>,
                         tasks: seq<Task>, announced: seq<OrderFilled>, exitsAnnounced: seq<OrderFilled>,
                         memoryFills: seq<Order>, durableFills: seq<Order>)

  /** A failing await ends in `term` when it raised a ValueError (`poison`), else in `nak`. A flatten captures the
      book and fills its first sale before it first awaits; a mark and the exit it triggers are one step too. */
  datatype Step = Deliver(msg: nat, today: int)
                | Poison(msg: nat)
                | Save(snapshot: Snapshot) | SaveFails(poison: bool)
                | Publish | PublishFails(sent: bool, poison: bool)
                | Push | PushFails(poison: bool)
                | Ack | AckFails(poison: bool)
                | BeginFlatten(orders: seq<Order>, today: int) | Liquidate(task: nat, order: Order, today: int)
                | Mark(symbol: string, close: real, uuid: nat, today: int)
                | AnnounceExit(task: nat, order: Order, failed: bool)
                | BackgroundSave(task: nat, snapshot: Snapshot) | TaskFails(task: nat)
                | Crash | Restart(today: int)

  ghost function Init(w: World, today: int): State {
    State(Some(Opening(w.cfg, today)), None, Idle, seq(|w.stream|, _ => Message(0, Outstanding, false)), [], [], [],
          [], [])
  }

  predicate CanDeliver(w: World, s: State, msg: nat) {
    && s.memory.Some? && s.handler.Idle? && msg < |w.stream| && msg < |s.messages|
    && s.messages[msg].settled == Outstanding && s.messages[msg].deliveries < w.maxDeliver
  }

  predicate Running(s: State, task: nat) {
    s.memory.Some? && task < |s.tasks| && s.tasks[task].Task?
  }

  ghost predicate Enabled(w: World, s: State, step: Step) {
    match step
    case Deliver(msg, _) => CanDeliver(w, s, msg) && w.stream[msg].OrderMessage?
    case Poison(msg) => CanDeliver(w, s, msg) && w.stream[msg].Malformed?
    case Save(snapshot) => s.handler.AfterFill? && s.memory.Some? && Describes(snapshot, s.memory.value)
    case SaveFails(_) => s.handler.AfterFill? && s.handler.msg < |s.messages|
    case Publish => s.handler.AfterSave?
    case PublishFails(_, _) => s.handler.AfterSave? && s.handler.msg < |s.messages|
    case Push => s.handler.AfterPublish?
    case PushFails(_) => s.handler.AfterPublish? && s.handler.msg < |s.messages|
    case Ack => s.handler.Returned? && s.handler.msg < |s.messages|
    case AckFails(_) => s.handler.Returned? && s.handler.msg < |s.messages|
    case BeginFlatten(orders, _) =>
      s.memory.Some? && (exists symbol :: Open(s.memory.value.positions, symbol))
      && LiquidatesAll(s.memory.value, orders)
    case Liquidate(task, o, _) =>
      Running(s, task) && s.tasks[task].filled.None? && o.id !in s.memory.value.processed
      && s.tasks[task].rest != [] && s.tasks[task].rest[0] == o
    case Mark(_, _, uuid, _) => s.memory.Some? && ProtectiveExit(uuid) !in s.memory.value.processed
    case AnnounceExit(task, o, _) => Running(s, task) && s.tasks[task].filled == Some(o)
    case BackgroundSave(task, snapshot) =>
      Running(s, task) && s.tasks[task] == Task([], None) && Describes(snapshot, s.memory.value)
    case TaskFails(task) => Running(s, task)
    case Crash => s.memory.Some?
    case Restart(_) => s.memory.None?
  }

  /** The handler's exception reached the subscriber. */
  function Failed(s: State, poison: bool): State
    requires !s.handler.Idle? && s.handler.msg < |s.messages|
  {
    var m := s.messages[s.handler.msg];
    s.(handler := Idle, messages := s.messages[s.handler.msg := if poison then m.(settled := Terminated) else m])
  }

  ghost function Delivered(w: World, s: State, msg: nat, today: int): State
    requires CanDeliver(w, s, msg) && w.stream[msg].OrderMessage?
  {
    var r, l := w.stream[msg].request, s.memory.value;
    var m := s.messages[msg].(deliveries := s.messages[msg].deliveries + 1);
    if Skipped(l, r) then
      s.(handler := Returned(msg),
         messages := s.messages[msg := m.(soldNothing := m.soldNothing || Requested(r.eventId) !in l.processed)])
    else
      s.(memory := Some(Executed(l, w.cfg, r, today)), memoryFills := s.memoryFills + [OrderOf(l, r)],
         handler := AfterFill(msg, OrderOf(l, r)), messages := s.messages[msg := m])
  }

  /** The exit a re-mark fills, if a protective level is breached. */
  ghost function ExitOf(l: Ledger, cfg: Config, symbol: string, close: real, uuid: nat, today: int): Option<Order> {
    var marked := Marked(l, cfg, symbol, close, today);
    if Open(l.positions, symbol) && Triggered(Held(marked.positions, symbol))
    then Some(ExitOrder(marked, symbol, close, uuid)) else None
  }

  /** Fill one sale, and start or continue a task with it to be announced. */
  ghost function Sold(w: World, s: State, o: Order, tasks: seq<Task>, today: int): State
    requires s.memory.Some?
  {
    s.(memory := Some(Filled(s.memory.value, w.cfg, o, today)), memoryFills := s.memoryFills + [o], tasks := tasks)
  }

  ghost function Take(w: World, s: State, step: Step): State
    requires Enabled(w, s, step)
  {
    match step
    case Deliver(msg, today) => Delivered(w, s, msg, today)
    case Poison(msg) =>
      s.(messages := s.messages[msg := s.messages[msg].(deliveries := s.messages[msg].deliveries + 1,
                                                        settled := Terminated)])
    case Save(snapshot) =>
      s.(durable := Some(snapshot), durableFills := s.memoryFills, handler := AfterSave(s.handler.msg, s.handler.order))
    case SaveFails(poison) => Failed(s, poison)
    case Publish => s.(announced := s.announced + [FillEvent(w.cfg, s.handler.order)],
                       handler := AfterPublish(s.handler.msg))
    case PublishFails(sent, poison) =>
      Failed(s, poison).(announced := s.announced + (if sent then [FillEvent(w.cfg, s.handler.order)] else []))
    case Push => s.(handler := Returned(s.handler.msg))
    case PushFails(poison) => Failed(s, poison)
    case Ack =>
      s.(handler := Idle, messages := s.messages[s.handler.msg := s.messages[s.handler.msg].(settled := Acked)])
    case AckFails(poison) => Failed(s, poison)
    case BeginFlatten(orders, today) =>
      if orders == [] then s.(tasks := s.tasks + [Task([], None)])
      else Sold(w, s, orders[0], s.tasks + [Task(orders[1..], Some(orders[0]))], today)
    case Liquidate(task, o, today) => Sold(w, s, o, s.tasks[task := Task(s.tasks[task].rest[1..], Some(o))], today)
    case Mark(symbol, close, uuid, today) =>
      var exit := ExitOf(s.memory.value, w.cfg, symbol, close, uuid, today);
      s.(memory := Some(MarkedAndExited(s.memory.value, w.cfg, symbol, Some(close), uuid, today)),
         memoryFills := s.memoryFills + (if exit.Some? then [exit.value] else []), tasks := s.tasks + [Task([], exit)])
    case AnnounceExit(task, o, failed) =>
      s.(exitsAnnounced := s.exitsAnnounced + [FillEvent(w.cfg, o)],
         tasks := s.tasks[task := if failed then Finished else Task(s.tasks[task].rest, None)])
    case BackgroundSave(task, snapshot) =>
      s.(durable := Some(snapshot), durableFills := s.memoryFills, tasks := s.tasks[task := Finished])
    case TaskFails(task) => s.(tasks := s.tasks[task := Finished])
    case Crash => s.(memory := None, handler := Idle, tasks := [], memoryFills := s.durableFills)
    case Restart(today) =>
      s.(memory := Some(if s.durable.Some? then Restored(s.durable.value, today) else Opening(w.cfg, today)),
         memoryFills := s.durableFills)
  }

  /** The state a sequence of steps leads to, if each is enabled when it is taken. */
  ghost function StateAfter(w: World, today: int, steps: seq<Step>): Option<State> {
    if steps == [] then Some(Init(w, today)) else
      var before := StateAfter(w, today, steps[..|steps| - 1]);
      if before.Some? && Enabled(w, before.value, Last(steps)) then Some(Take(w, before.value, Last(steps))) else None
  }

  lemma NoSteps(w: World, today: int)
    ensures StateAfter(w, today, []) == Some(Init(w, today))
  {
  }

  lemma OneMore(w: World, today: int, steps: seq<Step>, step: Step)
    requires StateAfter(w, today, steps).Some? && Enabled(w, StateAfter(w, today, steps).value, step)
    ensures StateAfter(w, today, steps + [step]) == Some(Take(w, StateAfter(w, today, steps).value, step))
  {
    hide Enabled, Take, Init;
    assert (steps + [step])[..|steps + [step]| - 1] == steps && Last(steps + [step]) == step;
  }

  // ----- what holds in every reachable state

  /** A broker's life without crashes: the day it opened and what it was asked to do. */
  datatype History = History(openedOn: int, ops: seq<Op>)

  ghost predicate IsLife(h: History, l: Ledger, cfg: Config, fills: seq<Order>) {
    && l == Run(Opening(cfg, h.openedOn), cfg, h.ops, |h.ops|)
    && fills == Applied(Opening(cfg, h.openedOn), cfg, h.ops, |h.ops|)
  }

  /** The ledger is what some uninterrupted run of operations makes of an opening one, `fills` being the fills
      applied. */
  ghost predicate Reflects(l: Ledger, cfg: Config, fills: seq<Order>) {
    exists h :: IsLife(h, l, cfg, fills)
  }

  ghost predicate DurableReflects(s: State, cfg: Config) {
    if s.durable.Some? then forall today :: Reflects(Restored(s.durable.value, today), cfg, s.durableFills)
    else s.durableFills == []
  }

  /** A fill asked for by some message: the same terms, a sale perhaps for less. A buy carries the request's own stop
      as its stop and its target as its target, and nothing else carries any. */
  ghost predicate Serves(o: Order, r: Request) {
    && o.id == Requested(r.eventId) && o.symbol == r.symbol && o.side == r.side && o.price == r.price
    && (if r.side == SELL then o.quantity <= r.quantity else o.quantity == r.quantity)
    && (if r.side == BUY then o.stopLoss == r.stopLoss && o.takeProfit == r.takeProfit
        else o.stopLoss.None? && o.takeProfit.None?)
  }

  /** Whatever carries a generated id is a sale. */
  ghost predicate AskedFor(w: World, o: Order) {
    if o.id.Requested?
    then exists i :: 0 <= i < |w.stream| && w.stream[i].OrderMessage? && Serves(o, w.stream[i].request)
    else o.side == SELL
  }

  ghost predicate AllAskedFor(w: World, fills: seq<Order>) {
    forall o | o in fills :: AskedFor(w, o)
  }

  /** Sales still to fill are liquidations; a sale filled and not yet announced is on the books. */
  ghost predicate TaskOk(t: Task, fills: seq<Order>) {
    t.Task? ==> (forall o | o in t.rest :: o.id.Liquidation? && o.side == SELL && o.quantity > 0.0)
                && (t.filled.Some? ==> t.filled.value in fills && !t.filled.value.id.Requested?)
  }

  ghost predicate TasksOk(s: State) {
    forall i | 0 <= i < |s.tasks| :: TaskOk(s.tasks[i], s.memoryFills)
  }

  ghost predicate Books(w: World, s: State) {
    && (s.memory.Some? ==> Reflects(s.memory.value, w.cfg, s.memoryFills))
    && DurableReflects(s, w.cfg)
    && s.durableFills <= s.memoryFills && (s.memory.None? ==> s.memoryFills == s.durableFills)
    && AllAskedFor(w, s.memoryFills)
  }

  ghost predicate Queue(w: World, s: State) {
    && |s.messages| == |w.stream|
    && (forall i | 0 <= i < |s.messages| :: s.messages[i].deliveries <= w.maxDeliver)
    && (!s.handler.Idle? ==> s.memory.Some? && s.handler.msg < |w.stream| && w.stream[s.handler.msg].OrderMessage?)
  }

  ghost predicate IsAnnounced(s: State, id: OrderId) {
    exists k :: 0 <= k < |s.announced| && s.announced[k].orderId == id
  }

  ghost predicate InFlight(w: World, s: State) {
    match s.handler
    case AfterFill(msg, o) => o in s.memoryFills && !IsAnnounced(s, o.id) && IdOf(w, msg) == Some(o.id)
    case AfterSave(msg, o) => o in s.durableFills && !IsAnnounced(s, o.id) && IdOf(w, msg) == Some(o.id)
    case _ => true
  }

  /** `event` is what some fill among `fills` is announced with. */
  ghost predicate BackedBy(event: OrderFilled, fills: seq<Order>, cfg: Config) {
    exists i :: 0 <= i < |fills| && event == FillEvent(cfg, fills[i])
  }

  ghost predicate AnnouncedDurable(s: State, cfg: Config) {
    forall k | 0 <= k < |s.announced| :: BackedBy(s.announced[k], s.durableFills, cfg)
  }

  ghost predicate AnnouncedOnce(s: State) {
    forall j, k | 0 <= j < k < |s.announced| :: s.announced[j].orderId != s.announced[k].orderId
  }

  function IdOf(w: World, msg: nat): Option<OrderId> {
    if msg < |w.stream| && w.stream[msg].OrderMessage? then Some(Requested(w.stream[msg].request.eventId)) else None
  }

  ghost predicate Invariant(w: World, s: State) {
    Queue(w, s) && Books(w, s) && TasksOk(s) && InFlight(w, s) && AnnouncedDurable(s, w.cfg) && AnnouncedOnce(s)
  }

  // ----- books

  lemma OpeningReflects(cfg: Config, today: int)
    ensures Reflects(Opening(cfg, today), cfg, [])
  {
    hide Equity, Recorded;
    assert IsLife(History(today, []), Opening(cfg, today), cfg, []);
  }

  lemma {:induction false} SharedStart(l: Ledger, cfg: Config, a: seq<Op>, b: seq<Op>, n: nat)
    requires n <= |a| && n <= |b| && forall k | 0 <= k < n :: a[k] == b[k]
    ensures Run(l, cfg, a, n) == Run(l, cfg, b, n) && Applied(l, cfg, a, n) == Applied(l, cfg, b, n)
  {
    if n > 0 {
      hide Stepped;
      SharedStart(l, cfg, a, b, n - 1);
    }
  }

  lemma OpReflects(l: Ledger, cfg: Config, fills: seq<Order>, op: Op)
    requires Reflects(l, cfg, fills)
    ensures Reflects(Stepped(l, cfg, op), cfg, FillsAfter(l, fills, op))
  {
    hide Opening, Stepped, FillsAfter;
    var h :| IsLife(h, l, cfg, fills);
    var n := |h.ops|;
    SharedStart(Opening(cfg, h.openedOn), cfg, h.ops, h.ops + [op], n);
    assert (h.ops + [op])[n] == op;
    assert IsLife(History(h.openedOn, h.ops + [op]), Stepped(l, cfg, op), cfg, FillsAfter(l, fills, op));
  }

  /** So its cash and quantities are the signed sums of exactly these fills, each order id among them once, and its
      dedup set is exactly their ids. */
  lemma ReflectsAccounts(l: Ledger, cfg: Config, fills: seq<Order>)
    requires Reflects(l, cfg, fills)
    ensures Accounts(Opening(cfg, 0), l, cfg, fills)
  {
    hide Equity, Recorded, Run, Applied, TotalCashFlow, NetQuantity, Ids;
    var h :| IsLife(h, l, cfg, fills);
    RunAccounts(Opening(cfg, h.openedOn), cfg, h.ops, |h.ops|);
  }

  lemma SnapshotReflects(snapshot: Snapshot, l: Ledger, cfg: Config, fills: seq<Order>)
    requires Describes(snapshot, l) && Reflects(l, cfg, fills)
    ensures forall today :: Reflects(Restored(snapshot, today), cfg, fills)
  {
    hide Reflects, Describes, Restored;
    forall today ensures Reflects(Restored(snapshot, today), cfg, fills) {
      SnapshotRoundTrip(snapshot, l, today);
    }
  }

  lemma ReflectedIds(l: Ledger, cfg: Config, fills: seq<Order>)
    requires Reflects(l, cfg, fills)
    ensures l.processed == Ids(fills) && DistinctIds(fills)
  {
    hide Equity, Recorded, TotalCashFlow, NetQuantity, Ids, Reflects;
    ReflectsAccounts(l, cfg, fills);
  }

  lemma IdOfElement(fills: seq<Order>, o: Order)
    ensures o in fills ==> o.id in Ids(fills)
  {
    if o in fills {
      var i :| 0 <= i < |fills| && fills[i] == o;
    }
  }

  lemma PrefixIds(a: seq<Order>, b: seq<Order>)
    requires a <= b
    ensures Ids(a) <= Ids(b) && forall o | o in a :: o in b
  {
    forall id | id in Ids(a) ensures id in Ids(b) {
      var i :| 0 <= i < |a| && a[i].id == id;
      assert b[i].id == id;
    }
  }

  lemma OrderServes(w: World, l: Ledger, msg: nat)
    requires msg < |w.stream| && w.stream[msg].OrderMessage?
    ensures AskedFor(w, OrderOf(l, w.stream[msg].request)) && OrderOf(l, w.stream[msg].request).id.Requested?
  {
    assert Serves(OrderOf(l, w.stream[msg].request), w.stream[msg].request);
  }

  lemma DeliverBooks(w: World, s: State, msg: nat, today: int)
    requires CanDeliver(w, s, msg) && w.stream[msg].OrderMessage? && Books(w, s)
    ensures Books(w, Delivered(w, s, msg, today))
  {
    hide Reflects, Filled, DurableReflects, AskedFor, OrderOf, Skipped;
    var r, l := w.stream[msg].request, s.memory.value;
    var s' := Delivered(w, s, msg, today);
    DurableFrame(s, s', w.cfg);
    if !Skipped(l, r) {
      SkippedOtherwise(l, r);
      OpReflects(l, w.cfg, s.memoryFills, FillOp(OrderOf(l, r), today));
      OrderServes(w, l, msg);
    }
  }

  lemma SkippedOtherwise(l: Ledger, r: Request)
    requires !Skipped(l, r)
    ensures OrderOf(l, r).id !in l.processed
  {
  }

  lemma DurableFrame(s: State, s': State, cfg: Config)
    requires DurableReflects(s, cfg) && s'.durable == s.durable && s'.durableFills == s.durableFills
    ensures DurableReflects(s', cfg)
  {
    hide Reflects, Restored;
  }

  /** A sale of a generated id that is not in the dedup set yet. */
  lemma SoldBooks(w: World, s: State, o: Order, tasks: seq<Task>, today: int)
    requires Books(w, s) && s.memory.Some? && !o.id.Requested? && o.side == SELL && o.id !in s.memory.value.processed
    ensures Books(w, Sold(w, s, o, tasks, today))
  {
    hide Reflects, DurableReflects, Filled;
    DurableFrame(s, Sold(w, s, o, tasks, today), w.cfg);
    OpReflects(s.memory.value, w.cfg, s.memoryFills, FillOp(o, today));
  }

  lemma MarkBooks(w: World, s: State, symbol: string, close: real, uuid: nat, today: int)
    requires Books(w, s) && Enabled(w, s, Mark(symbol, close, uuid, today))
    ensures Books(w, Take(w, s, Mark(symbol, close, uuid, today)))
  {
    hide Reflects, DurableReflects, Filled, InsideLevels;
    var l := s.memory.value;
    var marked := Marked(l, w.cfg, symbol, close, today);
    DurableFrame(s, Take(w, s, Mark(symbol, close, uuid, today)), w.cfg);
    OpReflects(l, w.cfg, s.memoryFills, MarkOp(symbol, close, today));
    MarkKeepsIds(l, w.cfg, symbol, close, today);
    var exit := ExitOf(l, w.cfg, symbol, close, uuid, today);
    assert s.memoryFills + [] == s.memoryFills;
    if exit.Some? {
      OpReflects(marked, w.cfg, s.memoryFills, FillOp(exit.value, today));
    }
  }

  lemma MarkKeepsIds(l: Ledger, cfg: Config, symbol: string, close: real, today: int)
    ensures Marked(l, cfg, symbol, close, today).processed == l.processed
    ensures !Open(l.positions, symbol) ==> Marked(l, cfg, symbol, close, today) == l
  {
    hide Equity, Recorded;
  }

  lemma SaveBooks(w: World, s: State, s': State, snapshot: Snapshot)
    requires Books(w, s) && s.memory.Some? && Describes(snapshot, s.memory.value)
    requires s'.memory == s.memory && s'.memoryFills == s.memoryFills == s'.durableFills && s'.durable == Some(snapshot)
    ensures Books(w, s')
  {
    hide Reflects, Describes, AskedFor;
    SnapshotReflects(snapshot, s.memory.value, w.cfg, s.memoryFills);
  }

  lemma RestartBooks(w: World, s: State, today: int)
    requires Books(w, s) && s.memory.None?
    ensures Books(w, Take(w, s, Restart(today)))
  {
    hide Reflects, AskedFor, Restored, Opening;
    OpeningReflects(w.cfg, today);
    PrefixIds(s.durableFills, s.memoryFills);
  }

  lemma StepBooks(w: World, s: State, step: Step)
    requires Books(w, s) && TasksOk(s) && Enabled(w, s, step)
    ensures Books(w, Take(w, s, step))
  {
    var s' := Take(w, s, step);
    match step
    case Deliver(msg, today) => DeliverBooks(w, s, msg, today);
    case Save(snapshot) => SaveBooks(w, s, s', snapshot);
    case BackgroundSave(_, snapshot) => SaveBooks(w, s, s', snapshot);
    case BeginFlatten(orders, today) =>
      hide Reflects, AskedFor, DurableReflects, Filled;
      if orders == [] {
        DurableFrame(s, s', w.cfg);
      } else {
        assert IsLiquidation(s.memory.value, orders[0]);
        SoldBooks(w, s, orders[0], s'.tasks, today);
      }
    case Liquidate(task, o, today) =>
      hide Reflects, AskedFor, DurableReflects, Filled;
      assert TaskOk(s.tasks[task], s.memoryFills);
      SoldBooks(w, s, o, s'.tasks, today);
    case Mark(symbol, close, uuid, today) => MarkBooks(w, s, symbol, close, uuid, today);
    case Restart(today) => RestartBooks(w, s, today);
    case Crash =>
      hide Reflects, AskedFor, DurableReflects;
      PrefixIds(s.durableFills, s.memoryFills);
      DurableFrame(s, s', w.cfg);
    case _ =>
      hide Reflects, AskedFor, DurableReflects;
      DurableFrame(s, s', w.cfg);
  }

  // ----- the tasks

  lemma TasksGrow(s: State, s': State)
    requires TasksOk(s) && s.memoryFills <= s'.memoryFills && |s'.tasks| >= |s.tasks|
    requires forall i | 0 <= i < |s'.tasks| && (i < |s.tasks| ==> s'.tasks[i] != s.tasks[i]) ::
               TaskOk(s'.tasks[i], s'.memoryFills)
    ensures TasksOk(s')
  {
    PrefixIds(s.memoryFills, s'.memoryFills);
    forall i | 0 <= i < |s'.tasks| ensures TaskOk(s'.tasks[i], s'.memoryFills) {
      if i < |s.tasks| {
        assert TaskOk(s.tasks[i], s.memoryFills);
      }
    }
  }

  lemma CapturedSell(l: Ledger, orders: seq<Order>)
    requires Liquidates(l, orders)
    ensures forall o | o in orders :: o.id.Liquidation? && o.side == SELL && o.quantity > 0.0
  {
    forall o | o in orders ensures o.id.Liquidation? && o.side == SELL && o.quantity > 0.0 {
      var i :| 0 <= i < |orders| && orders[i] == o;
      assert IsLiquidation(l, orders[i]);
    }
  }

  lemma StepTasks(w: World, s: State, step: Step)
    requires Books(w, s) && TasksOk(s) && Enabled(w, s, step)
    ensures TasksOk(Take(w, s, step))
  {
    hide Reflects, DurableReflects, AllAskedFor, Executed, Filled, Opening, Restored, MarkedAndExited, Describes,
         FillEvent, TasksOk, IsLiquidation;
    var s' := Take(w, s, step);
    match step
    case BeginFlatten(orders, _) =>
      CapturedSell(s.memory.value, orders);
      TasksGrow(s, s');
    case Liquidate(task, o, _) =>
      TaskIsOk(s, task);
      TasksGrow(s, s');
    case Mark(_, _, _, _) => TasksGrow(s, s');
    case AnnounceExit(task, _, _) =>
      TaskIsOk(s, task);
      TasksGrow(s, s');
    case Crash => NoTasks(s');
    case Restart(_) =>
      TasksGrow(s, s');
    case _ => TasksGrow(s, s');
  }

  lemma NoTasks(s: State)
    requires s.tasks == []
    ensures TasksOk(s)
  {
  }

  lemma TaskIsOk(s: State, task: nat)
    requires TasksOk(s) && task < |s.tasks|
    ensures TaskOk(s.tasks[task], s.memoryFills)
  {
  }

  // ----- the queue and the handler

  lemma StepQueue(w: World, s: State, step: Step)
    requires Queue(w, s) && Enabled(w, s, step)
    ensures Queue(w, Take(w, s, step))
  {
    hide Executed, Skipped, OrderOf, Opening, Restored, Filled, MarkedAndExited, FillEvent, Describes;
  }

  /** Nothing announced is missing from memory. */
  lemma AnnouncedIsProcessed(w: World, s: State, id: OrderId)
    requires Books(w, s) && AnnouncedDurable(s, w.cfg) && s.memory.Some? && IsAnnounced(s, id)
    ensures id in s.memory.value.processed
  {
    hide Reflects, DurableReflects, AllAskedFor, Ids;
    var k :| 0 <= k < |s.announced| && s.announced[k].orderId == id;
    assert BackedBy(s.announced[k], s.durableFills, w.cfg);
    var i :| 0 <= i < |s.durableFills| && s.announced[k] == FillEvent(w.cfg, s.durableFills[i]);
    PrefixIds(s.durableFills, s.memoryFills);
    IdOfElement(s.memoryFills, s.durableFills[i]);
    ReflectedIds(s.memory.value, w.cfg, s.memoryFills);
  }

  lemma DeliverInFlight(w: World, s: State, msg: nat, today: int)
    requires Invariant(w, s) && CanDeliver(w, s, msg) && w.stream[msg].OrderMessage?
    ensures InFlight(w, Delivered(w, s, msg, today))
  {
    hide Reflects, Filled, DurableReflects, AskedFor;
    var r, l := w.stream[msg].request, s.memory.value;
    if !Skipped(l, r) {
      if IsAnnounced(s, Requested(r.eventId)) {
        AnnouncedIsProcessed(w, s, Requested(r.eventId));
      }
    }
  }

  lemma StepInFlight(w: World, s: State, step: Step)
    requires Invariant(w, s) && Enabled(w, s, step)
    ensures InFlight(w, Take(w, s, step))
  {
    hide Reflects, Filled, DurableReflects, AskedFor, Describes, Opening, Restored, MarkedAndExited, AnnouncedDurable,
         AnnouncedOnce;
    if step.Deliver? {
      DeliverInFlight(w, s, step.msg, step.today);
    }
  }

  // ----- announcements

  /** The durable fills only ever grow. */
  lemma StepKeepsDurable(w: World, s: State, step: Step)
    requires Books(w, s) && Enabled(w, s, step)
    ensures s.durableFills <= Take(w, s, step).durableFills
  {
    hide Reflects, DurableReflects, AllAskedFor, Executed, Opening, Restored, Describes;
  }

  lemma AnnouncedFrame(s: State, s': State, cfg: Config)
    requires AnnouncedDurable(s, cfg) && AnnouncedOnce(s)
    requires s'.announced == s.announced && s.durableFills <= s'.durableFills
    ensures AnnouncedDurable(s', cfg) && AnnouncedOnce(s')
  {
    forall k | 0 <= k < |s'.announced| ensures BackedBy(s'.announced[k], s'.durableFills, cfg) {
      assert BackedBy(s.announced[k], s.durableFills, cfg);
      var i :| 0 <= i < |s.durableFills| && s.announced[k] == FillEvent(cfg, s.durableFills[i]);
      assert s'.durableFills[i] == s.durableFills[i];
    }
  }

  lemma AnnounceOne(s: State, s': State, cfg: Config, o: Order)
    requires AnnouncedDurable(s, cfg) && AnnouncedOnce(s) && o in s.durableFills && !IsAnnounced(s, o.id)
    requires s'.announced == s.announced + [FillEvent(cfg, o)] && s'.durableFills == s.durableFills
    ensures AnnouncedDurable(s', cfg) && AnnouncedOnce(s')
  {
    hide FillPrice;
    var i :| 0 <= i < |s.durableFills| && s.durableFills[i] == o;
    assert BackedBy(FillEvent(cfg, o), s'.durableFills, cfg);
  }

  lemma StepAnnounced(w: World, s: State, step: Step)
    requires Invariant(w, s) && Enabled(w, s, step)
    ensures AnnouncedDurable(Take(w, s, step), w.cfg) && AnnouncedOnce(Take(w, s, step))
  {
    hide Reflects, DurableReflects, AllAskedFor, AnnouncedDurable, AnnouncedOnce, Executed, Opening,
         Restored, Filled, MarkedAndExited, FillEvent, IsAnnounced, Describes;
    var s' := Take(w, s, step);
    StepKeepsDurable(w, s, step);
    if step.Publish? || (step.PublishFails? && step.sent) {
      AnnounceOne(s, s', w.cfg, s.handler.order);
    } else {
      assert s'.announced == s.announced;
      AnnouncedFrame(s, s', w.cfg);
    }
  }

  // ----- every run

  lemma InitInvariant(w: World, today: int)
    ensures Invariant(w, Init(w, today))
  {
    hide Reflects, Opening;
    OpeningReflects(w.cfg, today);
  }

  lemma StepInvariant(w: World, s: State, step: Step)
    requires Invariant(w, s) && Enabled(w, s, step)
    ensures Invariant(w, Take(w, s, step))
  {
    hide Books, TasksOk, Queue, InFlight, AnnouncedDurable, AnnouncedOnce, Take, Enabled;
    StepBooks(w, s, step);
    StepTasks(w, s, step);
    StepQueue(w, s, step);
    StepInFlight(w, s, step);
    StepAnnounced(w, s, step);
  }

  lemma {:induction false} EveryRunInvariant(w: World, today: int, steps: seq<Step>)
    ensures var s := StateAfter(w, today, steps); s.Some? ==> Invariant(w, s.value)
  {
    hide Invariant, Take, Enabled, Init;
    if steps == [] {
      InitInvariant(w, today);
    } else {
      var front := steps[..|steps| - 1];
      EveryRunInvariant(w, today, front);
      if StateAfter(w, today, steps).Some? {
        StepInvariant(w, StateAfter(w, today, front).value, Last(steps));
      }
    }
  }

  /** Whatever is redelivered, fails or crashes: the ledger in memory and the durable one are the signed sums of fills
      with distinct ids, each a requested order on its own terms, and each dedup set is exactly the ids reflected. */
  lemma EachOrderAtMostOnce(w: World, today: int, steps: seq<Step>)
    requires StateAfter(w, today, steps).Some?
    ensures var s := StateAfter(w, today, steps).value;
            && (s.memory.Some? ==> Accounts(Opening(w.cfg, 0), s.memory.value, w.cfg, s.memoryFills))
            && (s.durable.Some? ==> Accounts(Opening(w.cfg, 0), Restored(s.durable.value, today), w.cfg,
                                             s.durableFills))
            && DistinctIds(s.durableFills) && s.durableFills <= s.memoryFills && AllAskedFor(w, s.memoryFills)
            && (s.durable.Some? ==> Restored(s.durable.value, today).processed == Ids(s.durableFills))
            && forall i | 0 <= i < |s.messages| :: s.messages[i].deliveries <= w.maxDeliver
  {
    hide StateAfter, Reflects, AllAskedFor, Ids, Restored, Accounts;
    EveryRunInvariant(w, today, steps);
    var s := StateAfter(w, today, steps).value;
    if s.memory.Some? {
      ReflectsAccounts(s.memory.value, w.cfg, s.memoryFills);
    }
    if s.durable.Some? {
      ReflectsAccounts(Restored(s.durable.value, today), w.cfg, s.durableFills);
      ReflectedIds(Restored(s.durable.value, today), w.cfg, s.durableFills);
    }
  }

  // ----- a restart leaves no trace on the books

  /** The laws of an uninterrupted run, `fills` being the fills applied. */
  ghost predicate Lawful(l: Ledger, cfg: Config, fills: seq<Order>) {
    && (exists h :: IsLife(h, l, cfg, fills) && PeakAndCurve(h, l, cfg))
    && (forall symbol, kind :: IsLevel(Level(Held(l.positions, symbol), kind), fills, symbol, kind))
  }

  /** The peak is the highest equity of that run, and the curve its newest day-end equities. */
  ghost predicate PeakAndCurve(h: History, l: Ledger, cfg: Config) {
    var l0, n := Opening(cfg, h.openedOn), |h.ops|;
    && l.peakEquity == HighestEquity(l0, cfg, h.ops, n) >= Equity(l)
    && (cfg.historyLimit >= 1 ==> l.curve == LastN(DayEnds(Recordings(cfg, h.openedOn, h.ops, n)), cfg.historyLimit))
  }

  lemma LifeIsLawful(h: History, l: Ledger, cfg: Config, fills: seq<Order>)
    requires IsLife(h, l, cfg, fills)
    ensures Lawful(l, cfg, fills)
  {
    hide Run, Applied, Opening, Equity, HighestEquity, Recordings, DayEnds, IsLevel, Level, LastN;
    var n := |h.ops|;
    PeakIsHighest(cfg, h.openedOn, h.ops, n);
    if cfg.historyLimit >= 1 {
      CurveIsDayEnds(cfg, h.openedOn, h.ops, n);
    }
    assert PeakAndCurve(h, l, cfg);
    forall symbol, kind ensures IsLevel(Level(Held(l.positions, symbol), kind), fills, symbol, kind) {
      RunLevels(cfg, h.openedOn, h.ops, n, symbol, kind);
    }
  }

  /** Whatever crashes and restarts, the ledger in memory and the one any restart would restore are what an
      uninterrupted run makes of an opening one: the laws of runs hold across crashes. */
  lemma EveryLedgerIsLawful(w: World, today: int, steps: seq<Step>)
    requires StateAfter(w, today, steps).Some?
    ensures var s := StateAfter(w, today, steps).value;
            && (s.memory.Some? ==> Lawful(s.memory.value, w.cfg, s.memoryFills))
            && (s.durable.Some? ==> forall day :: Lawful(Restored(s.durable.value, day), w.cfg, s.durableFills))
  {
    hide StateAfter, AllAskedFor, Restored, Lawful, IsLife;
    EveryRunInvariant(w, today, steps);
    var s := StateAfter(w, today, steps).value;
    if s.memory.Some? {
      var h :| IsLife(h, s.memory.value, w.cfg, s.memoryFills);
      LifeIsLawful(h, s.memory.value, w.cfg, s.memoryFills);
    }
    if s.durable.Some? {
      forall day ensures Lawful(Restored(s.durable.value, day), w.cfg, s.durableFills) {
        assert Reflects(Restored(s.durable.value, day), w.cfg, s.durableFills);
        var h :| IsLife(h, Restored(s.durable.value, day), w.cfg, s.durableFills);
        LifeIsLawful(h, Restored(s.durable.value, day), w.cfg, s.durableFills);
      }
    }
  }

  // ----- whose protective levels a position has

  /** Fill `k` is the last to set the level: it serves a BUY of the symbol that carries one, which is the position's,
      and no later buy of the symbol carries one. */
  ghost predicate LevelFrom(w: World, l: Ledger, fills: seq<Order>, symbol: string, kind: Kind, k: int, i: int) {
    && 0 <= k < |fills| && 0 <= i < |w.stream| && w.stream[i].OrderMessage?
    && var r := w.stream[i].request;
       && fills[k].id == Requested(r.eventId) && r.side == BUY && r.symbol == symbol
       && (if kind == Stop then r.stopLoss.Some? && Held(l.positions, symbol).stopLoss == r.stopLoss
           else r.takeProfit.Some? && Held(l.positions, symbol).takeProfit == r.takeProfit)
       && forall j | k < j < |fills| && fills[j].side == BUY && fills[j].symbol == symbol ::
            if kind == Stop then fills[j].stopLoss.None? else fills[j].takeProfit.None?
  }

  lemma LevelIsRequested(w: World, l: Ledger, fills: seq<Order>, symbol: string, kind: Kind)
    requires AllAskedFor(w, fills) && IsLevel(Level(Held(l.positions, symbol), kind), fills, symbol, kind)
    requires if kind == Stop then Held(l.positions, symbol).stopLoss.Some?
             else Held(l.positions, symbol).takeProfit.Some?
    ensures exists k, i :: LevelFrom(w, l, fills, symbol, kind, k, i)
  {
    var k :| 0 <= k < |fills| && IsLast(fills, symbol, kind, k)
             && Level(Held(l.positions, symbol), kind) == if fills[k].side == BUY then OrderLevel(fills[k], kind)
             else None;
    assert AskedFor(w, fills[k]);
    var i :| 0 <= i < |w.stream| && w.stream[i].OrderMessage? && Serves(fills[k], w.stream[i].request);
    forall j | k < j < |fills| && fills[j].side == BUY && fills[j].symbol == symbol
      ensures if kind == Stop then fills[j].stopLoss.None? else fills[j].takeProfit.None?
    {
      assert !Settles(fills, symbol, kind, j);
    }
    assert LevelFrom(w, l, fills, symbol, kind, k, i);
  }

  /** In every reachable state a position's stop is the stop, and its target the target, of the latest BUY request
      filled for the symbol that carried one. */
  lemma LevelsAreRequested(w: World, today: int, steps: seq<Step>, symbol: string)
    requires StateAfter(w, today, steps).Some? && StateAfter(w, today, steps).value.memory.Some?
    ensures var s := StateAfter(w, today, steps).value;
            var p := Held(s.memory.value.positions, symbol);
            && (p.stopLoss.Some? ==> exists k, i :: LevelFrom(w, s.memory.value, s.memoryFills, symbol, Stop, k, i))
            && (p.takeProfit.Some? ==> exists k, i :: LevelFrom(w, s.memory.value, s.memoryFills, symbol, Target, k, i))
  {
    hide StateAfter, Reflects, IsLevel, LevelFrom, IsLife, PeakAndCurve;
    EveryRunInvariant(w, today, steps);
    EveryLedgerIsLawful(w, today, steps);
    var s := StateAfter(w, today, steps).value;
    var p := Held(s.memory.value.positions, symbol);
    assert IsLevel(Level(p, Stop), s.memoryFills, symbol, Stop)
           && IsLevel(Level(p, Target), s.memoryFills, symbol, Target);
    if p.stopLoss.Some? {
      LevelIsRequested(w, s.memory.value, s.memoryFills, symbol, Stop);
    }
    if p.takeProfit.Some? {
      LevelIsRequested(w, s.memory.value, s.memoryFills, symbol, Target);
    }
  }

  // ----- announcements over a run

  /** Every fill `execute` announced is in the durable snapshot, as announced, and no order is announced twice. */
  lemma AnnouncedFillsAreDurable(w: World, today: int, steps: seq<Step>)
    requires StateAfter(w, today, steps).Some?
    ensures var s := StateAfter(w, today, steps).value;
            && (forall k | 0 <= k < |s.announced| :: BackedBy(s.announced[k], s.durableFills, w.cfg))
            && AnnouncedOnce(s)
  {
    hide StateAfter, Books, Queue, InFlight;
    EveryRunInvariant(w, today, steps);
  }

  lemma {:induction false} DurableOnlyGrows(w: World, today: int, steps: seq<Step>, n: nat)
    requires n <= |steps| && StateAfter(w, today, steps).Some?
    ensures StateAfter(w, today, steps[..n]).Some?
    ensures StateAfter(w, today, steps[..n]).value.durableFills <= StateAfter(w, today, steps).value.durableFills
  {
    hide Invariant, Take, Enabled, Init;
    if n == |steps| {
      assert steps[..n] == steps;
    } else {
      var front := steps[..|steps| - 1];
      assert front[..n] == steps[..n];
      DurableOnlyGrows(w, today, front, n);
      EveryRunInvariant(w, today, front);
      BooksOf(w, StateAfter(w, today, front).value);
      StepKeepsDurable(w, StateAfter(w, today, front).value, Last(steps));
    }
  }

  lemma BooksOf(w: World, s: State)
    requires Invariant(w, s)
    ensures Books(w, s) && TasksOk(s) && Queue(w, s) && InFlight(w, s)
  {
    hide Books, TasksOk, Queue, InFlight;
  }
}

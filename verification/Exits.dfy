/**
 Liquidations and protective exits: they are announced before they are saved, and a flatten sells what it captured.
 When an announced exit is lost, and when a flatten sells what is no longer held.
 */
module Exits {
  import opened Common
  import opened Ledger
  import opened PaperBroker
  import opened Execution
  import opened ExecutionService
  import opened Delivery
  import opened Acknowledgement

  /** The step fills the exit of this id, if it fills one. */
  predicate FillsExit(step: Step, id: OrderId) {
    match step
    case BeginFlatten(orders, _) => orders != [] && orders[0].id == id
    case Liquidate(_, o, _) => o.id == id
    case Mark(_, _, uuid, _) => ProtectiveExit(uuid) == id
    case _ => false
  }

  /** Generated ids never repeat. */
  ghost predicate FreshIds(steps: seq<Step>) {
    forall i, j, id | 0 <= i < j < |steps| && FillsExit(steps[i], id) :: !FillsExit(steps[j], id)
  }

  /** An exit is filled at `f` and announced at `a`, and the process dies at `c` with nothing saved since the fill. */
  ghost predicate Exposes(steps: seq<Step>, f: int, a: int, c: int) {
    && 0 <= f < a < c < |steps| && steps[a].AnnounceExit? && FillsExit(steps[f], steps[a].order.id) && steps[c].Crash?
    && forall k | f < k < c :: !Saves(steps[k])
  }

  /** Every announced exit is a fill of the ledger in memory, or of the one a restart would bring back. */
  ghost predicate ExitsHeld(s: State, cfg: Config) {
    forall k | 0 <= k < |s.exitsAnnounced| :: BackedBy(s.exitsAnnounced[k], s.memoryFills, cfg)
  }

  // ----- what becomes of one fill

  datatype Fate = Pending | Kept | Gone

  /** After step `f`, the first save keeps the fill, the first crash loses it. */
  function FateOf(steps: seq<Step>, f: nat): Fate
    requires f < |steps|
  {
    if f == |steps| - 1 then Pending else
      var before := FateOf(steps[..|steps| - 1], f);
      if before != Pending then before
      else if Saves(Last(steps)) then Kept
      else if Last(steps).Crash? then Gone
      else Pending
  }

  lemma {:induction false} GoneIff(steps: seq<Step>, f: nat)
    requires f < |steps|
    ensures FateOf(steps, f) == Gone <==>
              exists c :: f < c < |steps| && steps[c].Crash? && forall k | f < k < c :: !Saves(steps[k])
    ensures FateOf(steps, f) == Pending ==> forall k | f < k < |steps| :: !Saves(steps[k]) && !steps[k].Crash?
    ensures FateOf(steps, f) == Kept ==> exists k :: f < k < |steps| && Saves(steps[k])
                                                     && forall c | f < c < k :: !steps[c].Crash?
  {
    var n := |steps| - 1;
    if f < n {
      var front := steps[..n];
      GoneIff(front, f);
      if FateOf(front, f) == Gone {
        var c :| f < c < n && front[c].Crash? && forall k | f < k < c :: !Saves(front[k]);
        assert steps[c].Crash? && forall k | f < k < c :: steps[k] == front[k];
      } else if FateOf(front, f) == Kept {
        var k :| f < k < n && Saves(front[k]) && forall c | f < c < k :: !front[c].Crash?;
        assert Saves(steps[k]) && forall c | f < c < k :: steps[c] == front[c];
      } else {
        assert forall k | f < k < n :: steps[k] == front[k];
        assert steps[n] == Last(steps);
      }
    }
  }

  lemma NewIds(w: World, s: State, step: Step, id: OrderId)
    requires Enabled(w, s, step) && !id.Requested? && id in Ids(Take(w, s, step).memoryFills)
    requires s.durableFills <= s.memoryFills
    ensures id in Ids(s.memoryFills) || FillsExit(step, id)
  {
    hide Executed, Opening, Restored, Filled, MarkedAndExited, Describes, FillEvent, Ids, IsLiquidation;
    var s' := Take(w, s, step);
    PrefixIds(s.durableFills, s.memoryFills);
    if s'.memoryFills != s.memoryFills && !step.Crash? && !step.Restart? {
      IdsAppend(s.memoryFills, Last(s'.memoryFills));
      assert s'.memoryFills == s.memoryFills + [Last(s'.memoryFills)];
    }
  }

  lemma StepFrame(w: World, s: State, step: Step)
    requires Books(w, s) && Enabled(w, s, step)
    ensures var s' := Take(w, s, step);
            && (if step.Crash? then s'.memoryFills == s.durableFills else s.memoryFills <= s'.memoryFills)
            && (if Saves(step) then s'.durableFills == s.memoryFills else s'.durableFills == s.durableFills)
  {
    hide Reflects, DurableReflects, AllAskedFor, Executed, Opening, Restored, Filled, MarkedAndExited, Describes,
         FillEvent;
  }

  /** What the fate of a fill means for the books. */
  ghost predicate FateHolds(s: State, o: Order, fate: Fate) {
    match fate
    case Pending => o in s.memoryFills && o.id !in Ids(s.durableFills)
    case Kept => o in s.durableFills
    case Gone => o.id !in Ids(s.memoryFills) && o.id !in Ids(s.durableFills)
  }

  lemma StepFate(w: World, s: State, step: Step, o: Order, fate: Fate)
    requires Books(w, s) && Enabled(w, s, step) && FateHolds(s, o, fate) && !o.id.Requested? && !FillsExit(step, o.id)
    ensures FateHolds(Take(w, s, step), o,
                      if fate != Pending then fate else if Saves(step) then Kept else if step.Crash? then Gone
                      else Pending)
  {
    hide Books, Enabled, Take, Ids, FillsExit;
    var s' := Take(w, s, step);
    StepFrame(w, s, step);
    BooksArePrefix(w, s);
    PrefixIds(s.durableFills, s.memoryFills);
    if o.id in Ids(s'.memoryFills) {
      NewIds(w, s, step, o.id);
    }
    if !step.Crash? {
      PrefixIds(s.memoryFills, s'.memoryFills);
    }
  }

  lemma BooksArePrefix(w: World, s: State)
    requires Books(w, s)
    ensures s.durableFills <= s.memoryFills
  {
  }

  lemma FillStarts(w: World, s: State, step: Step, o: Order)
    requires Invariant(w, s) && Enabled(w, s, step) && FillsExit(step, o.id) && o in Take(w, s, step).memoryFills
    ensures !o.id.Requested? && FateHolds(Take(w, s, step), o, Pending)
  {
    hide Reflects, DurableReflects, AllAskedFor, Executed, Filled, MarkedAndExited, Ids, InFlight, Queue,
         AnnouncedDurable, AnnouncedOnce;
    ReflectedIds(s.memory.value, w.cfg, s.memoryFills);
    PrefixIds(s.durableFills, s.memoryFills);
    match step
    case BeginFlatten(orders, _) => assert IsLiquidation(s.memory.value, orders[0]);
    case Liquidate(task, _, _) => TaskIsOk(s, task);
    case Mark(_, _, _, _) =>
  }

  lemma FreshFront(steps: seq<Step>)
    requires FreshIds(steps) && steps != []
    ensures FreshIds(steps[..|steps| - 1])
  {
    hide FillsExit;
    var front := steps[..|steps| - 1];
    assert forall i | 0 <= i < |front| :: front[i] == steps[i];
  }

  lemma {:induction false} RunFate(w: World, today: int, steps: seq<Step>, f: nat, o: Order)
    requires StateAfter(w, today, steps).Some? && FreshIds(steps) && f < |steps| && FillsExit(steps[f], o.id)
    requires StateAfter(w, today, steps[..f + 1]).Some? && o in StateAfter(w, today, steps[..f + 1]).value.memoryFills
    ensures !o.id.Requested? && FateHolds(StateAfter(w, today, steps).value, o, FateOf(steps, f))
  {
    hide Invariant, Take, Enabled, Init, FillsExit, FateHolds, Saves;
    var front := steps[..|steps| - 1];
    var s := StateAfter(w, today, front).value;
    EveryRunInvariant(w, today, front);
    if f == |steps| - 1 {
      assert steps[..f + 1] == steps;
      FillStarts(w, s, steps[f], o);
    } else {
      FreshFront(steps);
      assert front[..f + 1] == steps[..f + 1] && front[f] == steps[f];
      RunFate(w, today, front, f, o);
      BooksOf(w, s);
      StepFate(w, s, Last(steps), o, FateOf(front, f));
    }
  }

  // ----- what was announced, and when it was filled

  /** The announcements of a run, in order. */
  ghost function ExitEvents(w: World, steps: seq<Step>): seq<OrderFilled> {
    if steps == [] then [] else
      ExitEvents(w, steps[..|steps| - 1])
      + (if Last(steps).AnnounceExit? then [FillEvent(w.cfg, Last(steps).order)] else [])
  }

  lemma StepAnnouncesExits(w: World, s: State, step: Step)
    requires Enabled(w, s, step)
    ensures Take(w, s, step).exitsAnnounced
         == s.exitsAnnounced + (if step.AnnounceExit? then [FillEvent(w.cfg, step.order)] else [])
  {
    hide Executed, Opening, Restored, Filled, MarkedAndExited, Describes, FillEvent;
  }

  lemma {:induction false} AnnouncedAre(w: World, today: int, steps: seq<Step>)
    requires StateAfter(w, today, steps).Some?
    ensures StateAfter(w, today, steps).value.exitsAnnounced == ExitEvents(w, steps)
  {
    hide Take, Enabled, FillEvent;
    if steps != [] {
      AnnouncedAre(w, today, steps[..|steps| - 1]);
      StepAnnouncesExits(w, StateAfter(w, today, steps[..|steps| - 1]).value, Last(steps));
    }
  }

  lemma {:induction false} EventsIff(w: World, steps: seq<Step>, event: OrderFilled)
    ensures event in ExitEvents(w, steps) <==>
              exists a :: 0 <= a < |steps| && steps[a].AnnounceExit? && event == FillEvent(w.cfg, steps[a].order)
  {
    hide FillEvent;
    if steps != [] {
      var n := |steps| - 1;
      var front := steps[..n];
      EventsIff(w, front, event);
      if a :| 0 <= a < |steps| && steps[a].AnnounceExit? && event == FillEvent(w.cfg, steps[a].order) {
        assert a < n ==> front[a] == steps[a];
      }
      if event in ExitEvents(w, front) {
        var a :| 0 <= a < n && front[a].AnnounceExit? && event == FillEvent(w.cfg, front[a].order);
        assert steps[a] == front[a];
      }
    }
  }

  /** Step `f` filled `o`, and the process has not died since. */
  ghost predicate FilledAt(w: World, today: int, steps: seq<Step>, f: int, o: Order) {
    && 0 <= f < |steps| && FillsExit(steps[f], o.id)
    && StateAfter(w, today, steps[..f + 1]).Some? && o in StateAfter(w, today, steps[..f + 1]).value.memoryFills
    && forall k | f < k < |steps| :: !steps[k].Crash?
  }

  lemma FilledStill(w: World, today: int, steps: seq<Step>, f: int, o: Order)
    requires steps != [] && !Last(steps).Crash? && FilledAt(w, today, steps[..|steps| - 1], f, o)
    ensures FilledAt(w, today, steps, f, o)
  {
    hide FillsExit, StateAfter;
    var front := steps[..|steps| - 1];
    assert front[..f + 1] == steps[..f + 1];
    assert forall k | 0 <= k < |front| :: front[k] == steps[k];
  }

  ghost predicate HasFilled(s: State, i: int, o: Order) {
    0 <= i < |s.tasks| && s.tasks[i].Task? && s.tasks[i].filled == Some(o)
  }

  lemma NewlyFilled(w: World, s: State, step: Step, i: int, o: Order)
    requires Enabled(w, s, step) && HasFilled(Take(w, s, step), i, o)
    ensures !step.Crash?
    ensures HasFilled(s, i, o) || (FillsExit(step, o.id) && o in Take(w, s, step).memoryFills)
  {
    hide Executed, Opening, Restored, Filled, MarkedAndExited, Describes, FillEvent, IsLiquidation;
  }

  lemma {:induction false} PendingWasFilled(w: World, today: int, steps: seq<Step>, i: int, o: Order) returns (f: int)
    requires StateAfter(w, today, steps).Some? && HasFilled(StateAfter(w, today, steps).value, i, o)
    ensures FilledAt(w, today, steps, f, o)
  {
    hide Take, Enabled, FillsExit, FilledAt, HasFilled;
    if steps == [] {
      NoTaskAtFirst(w, today, i, o);
      assert false;
    } else {
      var front := steps[..|steps| - 1];
      var s := StateAfter(w, today, front).value;
      NewlyFilled(w, s, Last(steps), i, o);
      if HasFilled(s, i, o) {
        f := PendingWasFilled(w, today, front, i, o);
        FilledStill(w, today, steps, f, o);
      } else {
        f := |steps| - 1;
        FilledNow(w, today, steps, o);
      }
    }
  }

  lemma FilledNow(w: World, today: int, steps: seq<Step>, o: Order)
    requires steps != [] && StateAfter(w, today, steps).Some? && FillsExit(Last(steps), o.id)
    requires o in StateAfter(w, today, steps).value.memoryFills
    ensures FilledAt(w, today, steps, |steps| - 1, o)
  {
    hide StateAfter, FillsExit;
    assert steps[..|steps|] == steps;
  }

  lemma NoTaskAtFirst(w: World, today: int, i: int, o: Order)
    ensures !HasFilled(Init(w, today), i, o)
  {
  }

  lemma EnabledAt(w: World, today: int, steps: seq<Step>, n: nat)
    requires StateAfter(w, today, steps).Some? && n < |steps|
    ensures StateAfter(w, today, steps[..n]).Some? && Enabled(w, StateAfter(w, today, steps[..n]).value, steps[n])
  {
    hide Enabled, Take, Init;
    DurableOnlyGrows(w, today, steps, n + 1);
    assert steps[..n + 1][..n] == steps[..n] && Last(steps[..n + 1]) == steps[n];
  }

  /** An announced exit was filled in the same life of the process, and its fate is that of its fill. */
  lemma AnnouncedFate(w: World, today: int, steps: seq<Step>, a: nat) returns (f: int)
    requires StateAfter(w, today, steps).Some? && FreshIds(steps) && a < |steps| && steps[a].AnnounceExit?
    ensures 0 <= f < a && FillsExit(steps[f], steps[a].order.id) && forall k | f < k <= a :: !steps[k].Crash?
    ensures FateHolds(StateAfter(w, today, steps).value, steps[a].order, FateOf(steps, f))
  {
    hide Enabled, Take, Init, FillsExit, FateHolds, StateAfter, FateOf, FreshIds;
    var o := steps[a].order;
    EnabledAt(w, today, steps, a);
    AnnouncesFilled(w, StateAfter(w, today, steps[..a]).value, steps[a]);
    f := PendingWasFilled(w, today, steps[..a], steps[a].task, o);
    assert steps[..a][..f + 1] == steps[..f + 1] && steps[..a][f] == steps[f];
    forall k | f < k <= a ensures !steps[k].Crash? {
      assert k < a ==> steps[..a][k] == steps[k];
    }
    RunFate(w, today, steps, f, o);
  }

  lemma AnnouncesFilled(w: World, s: State, step: Step)
    requires Enabled(w, s, step) && step.AnnounceExit?
    ensures HasFilled(s, step.task, step.order)
  {
  }

  lemma BackedWhen(o: Order, fills: seq<Order>, cfg: Config)
    ensures o in fills ==> BackedBy(FillEvent(cfg, o), fills, cfg)
    ensures BackedBy(FillEvent(cfg, o), fills, cfg) ==> o.id in Ids(fills)
  {
    hide FillPrice;
    if o in fills {
      var i :| 0 <= i < |fills| && fills[i] == o;
      assert FillEvent(cfg, o) == FillEvent(cfg, fills[i]);
    }
    if BackedBy(FillEvent(cfg, o), fills, cfg) {
      var i :| 0 <= i < |fills| && FillEvent(cfg, o) == FillEvent(cfg, fills[i]);
      IdOfElement(fills, fills[i]);
    }
  }

  /** The fate of a fill decides whether its announcement is backed. */
  lemma BackedIff(s: State, o: Order, fate: Fate, cfg: Config)
    requires FateHolds(s, o, fate) && s.durableFills <= s.memoryFills
    ensures BackedBy(FillEvent(cfg, o), s.memoryFills, cfg) <==> fate != Gone
  {
    hide FillEvent, Ids, BackedBy;
    BackedWhen(o, s.memoryFills, cfg);
    PrefixIds(s.durableFills, s.memoryFills);
  }

  lemma FreshFill(steps: seq<Step>, i: int, j: int, id: OrderId)
    requires FreshIds(steps) && 0 <= i < |steps| && 0 <= j < |steps| && FillsExit(steps[i], id)
             && FillsExit(steps[j], id)
    ensures i == j
  {
    hide FillsExit;
  }

  lemma AnnouncedEvent(w: World, today: int, steps: seq<Step>, event: OrderFilled)
    requires StateAfter(w, today, steps).Some?
    ensures event in StateAfter(w, today, steps).value.exitsAnnounced <==>
              exists a :: 0 <= a < |steps| && steps[a].AnnounceExit? && event == FillEvent(w.cfg, steps[a].order)
  {
    hide *;
    AnnouncedAre(w, today, steps);
    EventsIff(w, steps, event);
  }

  /** Every announced exit is on the books exactly when no crash finds one filled and announced since the last save. */
  lemma ExitsHeldIff(w: World, today: int, steps: seq<Step>)
    requires StateAfter(w, today, steps).Some? && FreshIds(steps)
    ensures ExitsHeld(StateAfter(w, today, steps).value, w.cfg) <==> !exists f, a, c :: Exposes(steps, f, a, c)
  {
    hide StateAfter, FillsExit, FreshIds, FateHolds, FateOf, BackedBy, FillEvent, Saves, Books;
    var s := StateAfter(w, today, steps).value;
    EveryRunInvariant(w, today, steps);
    BooksArePrefix(w, s);
    if f, a, c :| Exposes(steps, f, a, c) {
      var event := FillEvent(w.cfg, steps[a].order);
      var f' := AnnouncedFate(w, today, steps, a);
      FreshFill(steps, f, f', steps[a].order.id);
      GoneIff(steps, f);
      BackedIff(s, steps[a].order, Gone, w.cfg);
      AnnouncedEvent(w, today, steps, event);
      assert event in s.exitsAnnounced;
    }
    if !ExitsHeld(s, w.cfg) {
      var k :| 0 <= k < |s.exitsAnnounced| && !BackedBy(s.exitsAnnounced[k], s.memoryFills, w.cfg);
      AnnouncedEvent(w, today, steps, s.exitsAnnounced[k]);
      var a :| 0 <= a < |steps| && steps[a].AnnounceExit? && s.exitsAnnounced[k] == FillEvent(w.cfg, steps[a].order);
      var f := AnnouncedFate(w, today, steps, a);
      BackedIff(s, steps[a].order, FateOf(steps, f), w.cfg);
      GoneIff(steps, f);
      var c :| f < c < |steps| && steps[c].Crash? && forall m | f < m < c :: !Saves(steps[m]);
      assert Exposes(steps, f, a, c);
    }
  }

  // ----- an announced exit that is lost

  /** From any reachable state whose book can be liquidated: the first sale is filled and announced, the process
      dies, and what it restarts from does not have the sale. */
  lemma CrashLosesLiquidation(w: World, today: int, steps: seq<Step>, orders: seq<Order>, day: int)
    requires StateAfter(w, today, steps).Some? && orders != []
    requires Enabled(w, StateAfter(w, today, steps).value, BeginFlatten(orders, day))
    ensures var task := |StateAfter(w, today, steps).value.tasks|;
            var lost := StateAfter(w, today,
                                   steps + [BeginFlatten(orders, day), AnnounceExit(task, orders[0], false), Crash]);
            && lost.Some? && FillEvent(w.cfg, orders[0]) in lost.value.exitsAnnounced
            && !BackedBy(FillEvent(w.cfg, orders[0]), lost.value.memoryFills, w.cfg)
            && lost.value.memoryFills == lost.value.durableFills
  {
    var s := StateAfter(w, today, steps).value;
    assert IsLiquidation(s.memory.value, orders[0]);
    ExitIsLost(w, today, steps, BeginFlatten(orders, day), orders[0]);
  }

  /** So it is with a protective exit. */
  lemma CrashLosesProtectiveExit(w: World, today: int, steps: seq<Step>, symbol: string, close: real, uuid: nat,
                                 day: int)
    requires StateAfter(w, today, steps).Some?
    requires Enabled(w, StateAfter(w, today, steps).value, Mark(symbol, close, uuid, day))
    requires ExitOf(StateAfter(w, today, steps).value.memory.value, w.cfg, symbol, close, uuid, day).Some?
    ensures var s := StateAfter(w, today, steps).value;
            var o := ExitOf(s.memory.value, w.cfg, symbol, close, uuid, day).value;
            var lost := StateAfter(w, today,
                                   steps + [Mark(symbol, close, uuid, day), AnnounceExit(|s.tasks|, o, false), Crash]);
            && lost.Some? && FillEvent(w.cfg, o) in lost.value.exitsAnnounced
            && !BackedBy(FillEvent(w.cfg, o), lost.value.memoryFills, w.cfg)
            && lost.value.memoryFills == lost.value.durableFills
  {
    hide Marked, Triggered, MarkedAndExited;
    var s := StateAfter(w, today, steps).value;
    ExitIsLost(w, today, steps, Mark(symbol, close, uuid, day),
               ExitOf(s.memory.value, w.cfg, symbol, close, uuid, day).value);
  }

  lemma ExitIsLost(w: World, today: int, steps: seq<Step>, begin: Step, o: Order)
    requires StateAfter(w, today, steps).Some? && Enabled(w, StateAfter(w, today, steps).value, begin)
    requires var s := StateAfter(w, today, steps).value;
             && s.memory.Some? && o.id !in s.memory.value.processed && !Saves(begin) && !begin.Crash?
             && HasFilled(Take(w, s, begin), |s.tasks|, o) && Take(w, s, begin).memory.Some?
             && Take(w, s, begin).durableFills == s.durableFills
    ensures var task := |StateAfter(w, today, steps).value.tasks|;
            var lost := StateAfter(w, today, steps + [begin, AnnounceExit(task, o, false), Crash]);
            && lost.Some? && FillEvent(w.cfg, o) in lost.value.exitsAnnounced
            && !BackedBy(FillEvent(w.cfg, o), lost.value.memoryFills, w.cfg)
            && lost.value.memoryFills == lost.value.durableFills
  {
    hide StateAfter, Invariant, Ids, Filled, FillEvent, MarkedAndExited, BackedBy, Executed, IsLiquidation, Describes;
    var s := StateAfter(w, today, steps).value;
    EveryRunInvariant(w, today, steps);
    NotDurable(w, s, o.id);
    OneMore(w, today, steps, begin);
    var s1 := Take(w, s, begin);
    var announce := AnnounceExit(|s.tasks|, o, false);
    OneMore(w, today, steps + [begin], announce);
    var s2 := Take(w, s1, announce);
    assert s2.exitsAnnounced[|s1.exitsAnnounced|] == FillEvent(w.cfg, o);
    OneMore(w, today, steps + [begin] + [announce], Crash);
    assert steps + [begin] + [announce] + [Crash] == steps + [begin, announce, Crash];
    BackedWhen(o, s.durableFills, w.cfg);
  }

  lemma NotDurable(w: World, s: State, id: OrderId)
    requires Invariant(w, s) && s.memory.Some? && id !in s.memory.value.processed
    ensures id !in Ids(s.memoryFills) && id !in Ids(s.durableFills)
  {
    hide Reflects, DurableReflects, AllAskedFor, Ids, TasksOk, InFlight, Queue, AnnouncedDurable, AnnouncedOnce;
    ReflectedIds(s.memory.value, w.cfg, s.memoryFills);
    PrefixIds(s.durableFills, s.memoryFills);
  }

  // ----- reaching such states: an order that goes through

  /** The message is delivered, filled, saved, announced, pushed and acknowledged. */
  function Completes(msg: nat, day: int, snapshot: Snapshot): seq<Step> {
    [Deliver(msg, day), Save(snapshot), Publish, Push, Ack]
  }

  lemma {:induction false} SomeListing(ids: set<OrderId>) returns (list: seq<OrderId>)
    ensures |list| == |ids| && forall id :: id in list <==> id in ids
  {
    if ids == {} {
      list := [];
    } else {
      var id :| id in ids;
      var rest := SomeListing(ids - {id});
      list := [id] + rest;
    }
  }

  lemma SomeSnapshot(l: Ledger) returns (snapshot: Snapshot)
    ensures Describes(snapshot, l)
  {
    var ids := SomeListing(l.processed);
    snapshot := Snapshot(l.cash, l.peakEquity, l.dayStartEquity, Some(l.dayStartDate), Some(ids), Some(l.curve),
                         Some(l.positions));
  }

  /** What an order that goes through leaves behind. */
  ghost predicate Completed(w: World, s: State, s': State, msg: nat, day: int)
    requires CanDeliver(w, s, msg) && w.stream[msg].OrderMessage?
  {
    var r := w.stream[msg].request;
    && s'.memory == Some(Executed(s.memory.value, w.cfg, r, day)) && s'.handler == Idle && s'.tasks == s.tasks
    && s'.memoryFills == s'.durableFills == s.memoryFills + [OrderOf(s.memory.value, r)]
    && |s'.messages| == |s.messages|
    && (forall i | 0 <= i < |s.messages| && i != msg :: s'.messages[i] == s.messages[i])
  }

  lemma OrderCompletes(w: World, today: int, steps: seq<Step>, msg: nat, day: int) returns (snapshot: Snapshot)
    requires StateAfter(w, today, steps).Some? && CanDeliver(w, StateAfter(w, today, steps).value, msg)
    requires w.stream[msg].OrderMessage?
             && !Skipped(StateAfter(w, today, steps).value.memory.value, w.stream[msg].request)
    ensures var done := StateAfter(w, today, steps + Completes(msg, day, snapshot));
            done.Some? && Completed(w, StateAfter(w, today, steps).value, done.value, msg, day)
  {
    hide StateAfter, Executed, OrderOf, Skipped, FillEvent, Describes;
    var s := StateAfter(w, today, steps).value;
    snapshot := SomeSnapshot(Executed(s.memory.value, w.cfg, w.stream[msg].request, day));
    OneMore(w, today, steps, Deliver(msg, day));
    OneMore(w, today, steps + [Deliver(msg, day)], Save(snapshot));
    OneMore(w, today, steps + [Deliver(msg, day)] + [Save(snapshot)], Publish);
    OneMore(w, today, steps + [Deliver(msg, day)] + [Save(snapshot)] + [Publish], Push);
    OneMore(w, today, steps + [Deliver(msg, day)] + [Save(snapshot)] + [Publish] + [Push], Ack);
    assert steps + [Deliver(msg, day)] + [Save(snapshot)] + [Publish] + [Push] + [Ack]
        == steps + Completes(msg, day, snapshot);
  }
}

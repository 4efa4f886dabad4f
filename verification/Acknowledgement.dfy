/**
 What acknowledging an order promises: its fill is on the books for good, unless the process dies after a failed save
 with no later save in between.
 */
module Acknowledgement {
  import opened Ledger
  import opened PaperBroker
  import opened Execution
  import opened ExecutionService
  import opened Delivery

  /** Message `i` needs nothing more: its order is among `fills`, or it was a sale with nothing held. */
  ghost predicate Safe(w: World, s: State, fills: seq<Order>, i: nat) {
    && i < |w.stream| && i < |s.messages|
    && (w.stream[i].OrderMessage? ==> Requested(w.stream[i].request.eventId) in Ids(fills) || s.messages[i].soldNothing)
  }

  ghost predicate AckedAreSafe(w: World, s: State, fills: seq<Order>) {
    forall i | 0 <= i < |s.messages| && s.messages[i].settled == Acked :: Safe(w, s, fills, i)
  }

  ghost predicate PastSaveIsSafe(w: World, s: State, fills: seq<Order>) {
    s.handler.AfterSave? || s.handler.AfterPublish? || s.handler.Returned? ==> Safe(w, s, fills, s.handler.msg)
  }

  ghost predicate AllSafe(w: World, s: State, fills: seq<Order>) {
    AckedAreSafe(w, s, fills) && PastSaveIsSafe(w, s, fills)
  }

  ghost predicate IsDurable(s: State, id: OrderId) {
    id in Ids(s.durableFills)
  }

  /** Every requested fill is durable, but the one about to be saved. */
  ghost predicate RequestedAreDurable(s: State) {
    forall e: string | Requested(e) in Ids(s.memoryFills) ::
      IsDurable(s, Requested(e)) || (s.handler.AfterFill? && s.handler.order.id == Requested(e))
  }

  predicate Saves(step: Step) {
    step.Save? || step.BackgroundSave?
  }

  /** A save of a fill failed, and nothing has been saved since. */
  ghost predicate Unsaved(steps: seq<Step>) {
    exists f :: 0 <= f < |steps| && steps[f].SaveFails? && forall k | f < k < |steps| :: !Saves(steps[k])
  }

  /** The process never dies in that condition. */
  ghost predicate DiesSaved(steps: seq<Step>) {
    forall c | 0 <= c < |steps| && steps[c].Crash? :: !Unsaved(steps[..c])
  }

  lemma UnsavedStep(steps: seq<Step>)
    requires steps != []
    ensures Unsaved(steps) <==> !Saves(Last(steps)) && (Last(steps).SaveFails? || Unsaved(steps[..|steps| - 1]))
  {
    var n := |steps| - 1;
    var front := steps[..n];
    if Unsaved(steps) && !Last(steps).SaveFails? {
      var f :| 0 <= f < |steps| && steps[f].SaveFails? && forall k | f < k < |steps| :: !Saves(steps[k]);
      assert front[f].SaveFails? && forall k | f < k < n :: front[k] == steps[k];
      assert !Saves(steps[n]);
    }
    if !Saves(steps[n]) && Unsaved(front) {
      var f :| 0 <= f < n && front[f].SaveFails? && forall k | f < k < n :: !Saves(front[k]);
      forall k | f < k < |steps| ensures !Saves(steps[k]) {
        assert k < n ==> steps[k] == front[k];
      }
      assert steps[f].SaveFails?;
    }
    if Last(steps).SaveFails? {
      assert steps[n].SaveFails?;
    }
  }

  // ----- one step

  /** More fills, and every message keeping its flag. */
  lemma SafeFrame(w: World, s: State, s': State, fills: seq<Order>, fills': seq<Order>)
    requires fills <= fills' && |s'.messages| == |s.messages|
    requires forall i | 0 <= i < |s.messages| :: s.messages[i].soldNothing ==> s'.messages[i].soldNothing
    ensures forall i: nat | Safe(w, s, fills, i) :: Safe(w, s', fills', i)
  {
    PrefixIds(fills, fills');
  }

  lemma StepMessages(w: World, s: State, step: Step)
    requires Queue(w, s) && Enabled(w, s, step)
    ensures |Take(w, s, step).messages| == |s.messages|
    ensures forall i | 0 <= i < |s.messages| :: s.messages[i].soldNothing ==> Take(w, s, step).messages[i].soldNothing
    ensures forall i | 0 <= i < |s.messages| && Take(w, s, step).messages[i].settled == Acked ::
              s.messages[i].settled == Acked || (step.Ack? && s.handler.Returned? && i == s.handler.msg)
  {
    hide Executed, Skipped, OrderOf, Opening, Restored, Filled, MarkedAndExited, FillEvent, Describes;
  }

  lemma StepMemory(w: World, s: State, step: Step)
    requires Books(w, s) && Enabled(w, s, step) && !step.Crash?
    ensures s.memoryFills <= Take(w, s, step).memoryFills
  {
    hide Reflects, DurableReflects, AllAskedFor, Executed, Opening, Restored, Filled, MarkedAndExited, Describes,
         FillEvent;
  }

  lemma SkippedIsSafe(w: World, s: State, msg: nat, today: int)
    requires Books(w, s) && CanDeliver(w, s, msg) && w.stream[msg].OrderMessage?
    ensures PastSaveIsSafe(w, Delivered(w, s, msg, today), s.memoryFills)
  {
    hide Reflects, DurableReflects, AllAskedFor, Filled, Ids;
    ReflectedIds(s.memory.value, w.cfg, s.memoryFills);
  }

  /** The message past its save is safe on the fills in memory. */
  lemma StepPastSave(w: World, s: State, step: Step)
    requires Invariant(w, s) && PastSaveIsSafe(w, s, s.memoryFills) && Enabled(w, s, step)
    requires forall i: nat | Safe(w, s, s.memoryFills, i) :: Safe(w, Take(w, s, step), Take(w, s, step).memoryFills, i)
    ensures PastSaveIsSafe(w, Take(w, s, step), Take(w, s, step).memoryFills)
  {
    hide Reflects, DurableReflects, AllAskedFor, Executed, Opening, Restored, Filled, MarkedAndExited, FillEvent,
         Describes, Ids, TasksOk, AnnouncedDurable, AnnouncedOnce, IsAnnounced;
    match step
    case Deliver(msg, today) => SkippedIsSafe(w, s, msg, today);
    case Save(_) => IdOfElement(s.memoryFills, s.handler.order);
    case _ =>
  }

  lemma StepSafeInMemory(w: World, s: State, step: Step)
    requires Invariant(w, s) && AllSafe(w, s, s.memoryFills) && Enabled(w, s, step) && !step.Crash?
    ensures AllSafe(w, Take(w, s, step), Take(w, s, step).memoryFills)
  {
    hide Take, Enabled, Books, TasksOk, InFlight, AnnouncedDurable, AnnouncedOnce, Safe;
    var s' := Take(w, s, step);
    StepMessages(w, s, step);
    StepMemory(w, s, step);
    SafeFrame(w, s, s', s.memoryFills, s'.memoryFills);
    StepPastSave(w, s, step);
  }

  lemma RequestedGrow(s: State, s': State, o: Order)
    requires RequestedAreDurable(s) && s'.memoryFills == s.memoryFills + [o] && s'.durableFills == s.durableFills
    requires if o.id.Requested? then s'.handler.AfterFill? && s'.handler.order == o && !s.handler.AfterFill?
             else s'.handler == s.handler
    ensures RequestedAreDurable(s')
  {
    hide Ids;
    IdsAppend(s.memoryFills, o);
  }

  lemma StepRequested(w: World, s: State, step: Step)
    requires TasksOk(s) && RequestedAreDurable(s) && Enabled(w, s, step) && !step.SaveFails? && !Saves(step)
    requires Books(w, s)
    ensures RequestedAreDurable(Take(w, s, step))
  {
    hide Reflects, DurableReflects, AllAskedFor, Executed, Opening, Restored, Filled, MarkedAndExited, FillEvent,
         Describes, Ids, TasksOk, IsLiquidation;
    var s' := Take(w, s, step);
    match step
    case Deliver(msg, today) =>
      if !Skipped(s.memory.value, w.stream[msg].request) {
        RequestedGrow(s, s', OrderOf(s.memory.value, w.stream[msg].request));
      }
    case BeginFlatten(orders, _) =>
      if orders != [] {
        CapturedSell(s.memory.value, orders);
        RequestedGrow(s, s', orders[0]);
      }
    case Liquidate(task, o, _) =>
      TaskIsOk(s, task);
      RequestedGrow(s, s', o);
    case Mark(symbol, close, uuid, today) =>
      var exit := ExitOf(s.memory.value, w.cfg, symbol, close, uuid, today);
      assert s.memoryFills + [] == s.memoryFills;
      if exit.Some? {
        RequestedGrow(s, s', exit.value);
      }
    case _ =>
  }

  lemma DurableKept(w: World, s: State, step: Step)
    requires Enabled(w, s, step) && !Saves(step)
    ensures Take(w, s, step).durableFills == s.durableFills
  {
    hide Executed, Opening, Restored, Filled, MarkedAndExited, Describes, FillEvent;
  }

  lemma SkippedIsSafeOnDurable(w: World, s: State, msg: nat, today: int)
    requires Books(w, s) && RequestedAreDurable(s) && CanDeliver(w, s, msg) && w.stream[msg].OrderMessage?
    ensures PastSaveIsSafe(w, Delivered(w, s, msg, today), s.durableFills)
  {
    hide Reflects, DurableReflects, AllAskedFor, Filled, Ids;
    ReflectedIds(s.memory.value, w.cfg, s.memoryFills);
  }

  lemma StepPastSaveOnDurable(w: World, s: State, step: Step)
    requires Books(w, s) && RequestedAreDurable(s) && PastSaveIsSafe(w, s, s.durableFills)
    requires Enabled(w, s, step) && !step.SaveFails? && !Saves(step)
    requires forall i: nat | Safe(w, s, s.durableFills, i) :: Safe(w, Take(w, s, step), s.durableFills, i)
    ensures PastSaveIsSafe(w, Take(w, s, step), s.durableFills)
  {
    hide Reflects, DurableReflects, AllAskedFor, Executed, Opening, Restored, Filled, MarkedAndExited, FillEvent,
         Describes, Ids;
    match step
    case Deliver(msg, today) => SkippedIsSafeOnDurable(w, s, msg, today);
    case _ =>
  }

  lemma StepSafeOnDurable(w: World, s: State, step: Step)
    requires Invariant(w, s) && RequestedAreDurable(s) && AllSafe(w, s, s.durableFills)
    requires Enabled(w, s, step) && !step.SaveFails? && !Saves(step)
    ensures AllSafe(w, Take(w, s, step), Take(w, s, step).durableFills)
  {
    hide Take, Enabled, Books, TasksOk, InFlight, AnnouncedDurable, AnnouncedOnce, Safe, RequestedAreDurable;
    var s' := Take(w, s, step);
    DurableKept(w, s, step);
    StepMessages(w, s, step);
    SafeFrame(w, s, s', s.durableFills, s'.durableFills);
    StepPastSaveOnDurable(w, s, step);
  }

  lemma SavedIsSafe(w: World, s: State, step: Step)
    requires Enabled(w, s, step) && Saves(step) && AllSafe(w, Take(w, s, step), Take(w, s, step).memoryFills)
    ensures var s' := Take(w, s, step); RequestedAreDurable(s') && AllSafe(w, s', s'.durableFills)
  {
    hide Describes, Ids, Safe;
  }

  lemma CrashedIsSafe(w: World, s: State)
    requires Enabled(w, s, Crash) && AllSafe(w, s, s.durableFills)
    ensures var s' := Take(w, s, Crash);
            RequestedAreDurable(s') && AllSafe(w, s', s'.memoryFills) && AllSafe(w, s', s'.durableFills)
  {
    hide Ids;
  }

  // ----- every run

  lemma InitIsSafe(w: World, today: int)
    ensures var s := Init(w, today);
            AllSafe(w, s, s.memoryFills) && AllSafe(w, s, s.durableFills) && RequestedAreDurable(s)
  {
    assert Ids([]) == {};
  }

  lemma DiesSavedFront(steps: seq<Step>)
    requires DiesSaved(steps) && steps != []
    ensures DiesSaved(steps[..|steps| - 1])
    ensures Last(steps).Crash? ==> !Unsaved(steps[..|steps| - 1])
  {
    hide Unsaved;
    var front := steps[..|steps| - 1];
    forall c | 0 <= c < |front| && front[c].Crash? ensures !Unsaved(front[..c]) {
      assert front[..c] == steps[..c] && steps[c].Crash?;
    }
  }

  /** If the process only ever dies with no failed save open, every acknowledged order is on the books, in memory or,
      while the process is down, in the snapshot it will restart from; or it was a sale with nothing held. With no
      failed save open it is durable already. */
  lemma {:induction false} AckedOrdersAreKept(w: World, today: int, steps: seq<Step>)
    requires StateAfter(w, today, steps).Some? && DiesSaved(steps)
    ensures var s := StateAfter(w, today, steps).value;
            && AllSafe(w, s, s.memoryFills)
            && (!Unsaved(steps) ==> RequestedAreDurable(s) && AllSafe(w, s, s.durableFills))
  {
    hide Invariant, Take, Enabled, Init, AllSafe, RequestedAreDurable, DiesSaved, Unsaved, Saves;
    if steps == [] {
      InitIsSafe(w, today);
    } else {
      var front, last := steps[..|steps| - 1], Last(steps);
      var s := StateAfter(w, today, front).value;
      DiesSavedFront(steps);
      AckedOrdersAreKept(w, today, front);
      EveryRunInvariant(w, today, front);
      UnsavedStep(steps);
      if last.Crash? {
        CrashedIsSafe(w, s);
      } else {
        StepSafeInMemory(w, s, last);
        if Saves(last) {
          SavedIsSafe(w, s, last);
        } else if !Unsaved(steps) {
          BooksOf(w, s);
          StepSafeOnDurable(w, s, last);
          StepRequested(w, s, last);
        }
      }
    }
  }

  // ----- a save that fails while the process lives

  /** From any reachable state about to save an order that is not durable yet, with a delivery to spare: the save
      fails and is survived, the redelivery is taken for a duplicate and acknowledged, the process crashes. The order
      is lost. */
  lemma SurvivingSaveFailureLosesOrder(w: World, today: int, steps: seq<Step>, day: int)
    requires StateAfter(w, today, steps).Some?
    requires var s := StateAfter(w, today, steps).value;
             && s.handler.AfterFill? && !IsDurable(s, s.handler.order.id)
             && s.handler.msg < |s.messages| && s.messages[s.handler.msg].deliveries < w.maxDeliver
             && s.messages[s.handler.msg].settled == Outstanding
    ensures var s := StateAfter(w, today, steps).value;
            var lost := StateAfter(w, today, steps + [SaveFails(false), Deliver(s.handler.msg, day), Ack, Crash]);
            && lost.Some? && |lost.value.messages| == |s.messages|
            && lost.value.messages[s.handler.msg].settled == Acked
            && !IsDurable(lost.value, s.handler.order.id) && lost.value.memoryFills == lost.value.durableFills
  {
    hide StateAfter, Reflects, DurableReflects, AllAskedFor, Executed, Ids, TasksOk, AnnouncedDurable, AnnouncedOnce,
         IsAnnounced;
    EveryRunInvariant(w, today, steps);
    var s := StateAfter(w, today, steps).value;
    var msg, o := s.handler.msg, s.handler.order;
    OneMore(w, today, steps, SaveFails(false));
    var s1 := Take(w, s, SaveFails(false));
    IdOfElement(s.memoryFills, o);
    ReflectedIds(s.memory.value, w.cfg, s.memoryFills);
    OneMore(w, today, steps + [SaveFails(false)], Deliver(msg, day));
    var s2 := Take(w, s1, Deliver(msg, day));
    OneMore(w, today, steps + [SaveFails(false)] + [Deliver(msg, day)], Ack);
    OneMore(w, today, steps + [SaveFails(false)] + [Deliver(msg, day)] + [Ack], Crash);
    assert steps + [SaveFails(false)] + [Deliver(msg, day)] + [Ack] + [Crash]
        == steps + [SaveFails(false), Deliver(msg, day), Ack, Crash];
  }

  /** Such a state is one delivery away: a single BUY order that may be delivered twice. */
  lemma OrderAboutToBeSaved(cfg: Config, r: Request, maxDeliver: nat, today: int, day: int)
    requires r.side == BUY && maxDeliver >= 2
    ensures var w := World(cfg, [OrderMessage(r)], maxDeliver);
            var s := StateAfter(w, today, [Deliver(0, day)]);
            && s.Some? && s.value.handler.AfterFill? && !IsDurable(s.value, s.value.handler.order.id)
            && s.value.handler.msg < |s.value.messages| && s.value.messages[s.value.handler.msg].deliveries < maxDeliver
            && s.value.messages[s.value.handler.msg].settled == Outstanding
  {
    hide Executed, StateAfter, Equity, Recorded;
    var w := World(cfg, [OrderMessage(r)], maxDeliver);
    NoSteps(w, today);
    OneMore(w, today, [], Deliver(0, day));
    assert [] + [Deliver(0, day)] == [Deliver(0, day)];
    assert Ids([]) == {};
  }
}

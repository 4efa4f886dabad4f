/**
 What to fetch (`incremental.py`) and one symbol's sync as a step on the stored bars. Instants are integers in
 seconds; a symbol's bars are a map from instant to bar, on the store's side and on the provider's.
 */
module Incremental {
  import opened Common
  import opened SortedInts

  const DAY: int := 86400

  datatype Bar = Bar(open: real, high: real, low: real, close: real, volume: real, adjClose: Option<real>)

  datatype Stamped = Stamped(ts: int, bar: Bar)

  type History = map<int, Bar>

  // ----- reads

  function Between(h: History, start: Option<int>, end: Option<int>): History {
    map t | t in h && (start.None? || start.value <= t) && (end.None? || t <= end.value) :: h[t]
  }

  /** Bars oldest first. */
  function Chronological(h: History): (r: seq<Stamped>)
    ensures |r| == |h.Keys|
  {
    var ts := SortedSet(h.Keys);
    seq(|ts|, i requires 0 <= i < |ts| => assert ts[i] in ts; Stamped(ts[i], h[ts[i]]))
  }

  /** `get_bars`: the most recent `limit` bars in the window, chronologically. */
  function GetBars(h: History, start: Option<int>, end: Option<int>, limit: nat): seq<Stamped> {
    LastN(Chronological(Between(h, start, end)), limit)
  }

  function LatestTimestamp(h: History): Option<int> {
    if h == map[] then None else Some(Max(h.Keys))
  }

  function EarliestTimestamp(h: History): Option<int> {
    if h == map[] then None else Some(Min(h.Keys))
  }

  function Max(s: set<int>): (m: int)
    requires s != {}
    ensures m in s && forall k | k in s :: k <= m
  {
    SomeElement(s);
    var ts := SortedSet(s);
    assert ts[|ts| - 1] in ts;
    assert forall k | k in s :: k in ts;
    ts[|ts| - 1]
  }

  // ----- plans

  datatype FetchPlan = FetchPlan(start: int, end: int, full: bool)

  function PlanFetch(latest: Option<int>, now: int, overlapDays: int, initialDays: int): FetchPlan {
    if latest.None? then FetchPlan(now - initialDays * DAY, now, true)
    else FetchPlan(MinInt(latest.value - MaxInt(overlapDays, 0) * DAY, now), now, false)
  }

  function FullHistoryPlan(now: int, initialDays: int, earliest: Option<int>): FetchPlan {
    var start := now - initialDays * DAY;
    FetchPlan(if earliest.Some? then MinInt(start, earliest.value) else start, now, true)
  }

  // ----- drift

  const ADJUSTMENT_TOLERANCE: real := 0.0001

  function Factor(b: Bar): Option<real> {
    if b.adjClose.None? || b.close <= 0.0 then None else Some(b.adjClose.value / b.close)
  }

  /** The adjustment factor of a bar held on both sides moved by more than the tolerance. */
  predicate Restated(before: Bar, after: Bar) {
    var a, b := Factor(before), Factor(after);
    a.Some? && b.Some? && a.value > 0.0 && AbsReal(b.value - a.value) / a.value > ADJUSTMENT_TOLERANCE
  }

  /** `adjustment_drifted`, `latestBars` being the fetched bars by timestamp. */
  function AdjustmentDrifted(stored: seq<Stamped>, latestBars: History): bool {
    if stored == [] then false
    else if stored[0].ts in latestBars && Restated(stored[0].bar, latestBars[stored[0].ts]) then true
    else AdjustmentDrifted(stored[1..], latestBars)
  }

  /** The same in the bars' own numbers: both carry an adjusted close, and the stored factor, which is positive, is
      off by more than a ten-thousandth of itself, upwards or downwards. */
  ghost predicate Moved(before: Bar, after: Bar) {
    && before.adjClose.Some? && after.adjClose.Some? && before.close > 0.0 && after.close > 0.0
    && var f, g := before.adjClose.value / before.close, after.adjClose.value / after.close;
       f > 0.0 && (g - f > 0.0001 * f || f - g > 0.0001 * f)
  }

  lemma RestatedIffMoved(before: Bar, after: Bar)
    ensures Restated(before, after) <==> Moved(before, after)
  {
    if before.adjClose.Some? && after.adjClose.Some? && before.close > 0.0 && after.close > 0.0 {
      var f, g := before.adjClose.value / before.close, after.adjClose.value / after.close;
      if f > 0.0 {
        OverIff(AbsReal(g - f), f, 0.0001);
      }
    }
  }

  lemma OverIff(x: real, d: real, bound: real)
    requires d > 0.0
    ensures x / d > bound <==> x > bound * d
  {
    assert x / d * d == x;
  }

  lemma {:induction false} DriftIsRestatement(stored: seq<Stamped>, latestBars: History)
    ensures AdjustmentDrifted(stored, latestBars)
       <==> exists i ::
              0 <= i < |stored| && stored[i].ts in latestBars && Restated(stored[i].bar, latestBars[stored[i].ts])
  {
    hide Restated;
    if stored != [] {
      DriftIsRestatement(stored[1..], latestBars);
      if i :| 0 <= i < |stored| && stored[i].ts in latestBars && Restated(stored[i].bar, latestBars[stored[i].ts]) {
        assert i > 0 ==> stored[1..][i - 1] == stored[i];
      }
      if i :| 0 <= i < |stored[1..]| && stored[1..][i].ts in latestBars
              && Restated(stored[1..][i].bar, latestBars[stored[1..][i].ts]) {
        assert stored[i + 1] == stored[1..][i];
      }
    }
  }

  /** Drift is reported exactly when a bar held on both sides moved. */
  lemma DriftMeaning(stored: seq<Stamped>, latestBars: History)
    ensures AdjustmentDrifted(stored, latestBars)
       <==> exists i ::
              0 <= i < |stored| && stored[i].ts in latestBars && Moved(stored[i].bar, latestBars[stored[i].ts])
  {
    hide Restated, Moved, AdjustmentDrifted;
    DriftIsRestatement(stored, latestBars);
    forall i | 0 <= i < |stored| && stored[i].ts in latestBars
      ensures Restated(stored[i].bar, latestBars[stored[i].ts]) <==> Moved(stored[i].bar, latestBars[stored[i].ts])
    {
      RestatedIffMoved(stored[i].bar, latestBars[stored[i].ts]);
    }
  }

  // ----- one sync

  datatype Settings = Settings(overlapDays: int, initialDays: int)

  /** What an incremental sync compares: the overlap as stored, read with `limit = len(bars) + 10`. */
  predicate DriftSeen(stored: History, provider: History, now: int, s: Settings) {
    var plan := PlanFetch(LatestTimestamp(stored), now, s.overlapDays, s.initialDays);
    var fetched := Between(provider, Some(plan.start), Some(plan.end));
    && !plan.full && fetched != map[]
    && AdjustmentDrifted(GetBars(stored, Some(plan.start), Some(plan.end), |fetched| + 10), fetched)
  }

  /** The bars one sync writes. */
  function Fetched(stored: History, provider: History, now: int, s: Settings): History {
    var plan := if DriftSeen(stored, provider, now, s)
                then FullHistoryPlan(now, s.initialDays, EarliestTimestamp(stored))
                else PlanFetch(LatestTimestamp(stored), now, s.overlapDays, s.initialDays);
    Between(provider, Some(plan.start), Some(plan.end))
  }

  /** `sync_symbol` on the stored bars. */
  function Synced(stored: History, provider: History, now: int, s: Settings): History {
    stored + Fetched(stored, provider, now, s)
  }

  // ----- convergence

  ghost predicate SameBar(a: History, b: History, t: int) {
    (t in a <==> t in b) && (t in a ==> a[t] == b[t])
  }

  ghost predicate SameOver(a: History, b: History, lo: int, hi: int) {
    forall t | lo <= t <= hi :: SameBar(a, b, t)
  }

  /** The store equals the provider from its oldest bar to `now`, and holds nothing later. */
  ghost predicate Converged(stored: History, provider: History, now: int) {
    && (forall t | t in stored :: t <= now)
    && (stored != map[] ==> SameOver(stored, provider, EarliestTimestamp(stored).value, now))
  }

  /** Where the incremental window opens. */
  function WindowStart(stored: History, now: int, s: Settings): int
    requires stored != map[]
  {
    PlanFetch(LatestTimestamp(stored), now, s.overlapDays, s.initialDays).start
  }

  /** Since the last sync the provider rewrote nothing we hold from before the overlap window. */
  ghost predicate OldUnchanged(stored: History, provider: History, now: int, s: Settings)
    requires stored != map[]
  {
    SameOver(stored, provider, EarliestTimestamp(stored).value, WindowStart(stored, now, s) - 1)
  }

  lemma WindowInside(stored: History, now: int, s: Settings)
    requires stored != map[] && forall t | t in stored :: t <= now
    ensures WindowStart(stored, now, s) <= LatestTimestamp(stored).value <= now
  {
    assert LatestTimestamp(stored).value in stored;
  }

  /** Merging a provider window covers it exactly, if the store had nothing there that the provider lacks. */
  lemma MergeWindow(stored: History, provider: History, start: int, now: int, t: int)
    requires start <= t <= now && (t in stored ==> t in provider)
    ensures SameBar(stored + Between(provider, Some(start), Some(now)), provider, t)
  {
  }

  lemma MergeOutside(stored: History, provider: History, start: int, now: int, t: int)
    requires t < start || now < t
    ensures SameBar(stored + Between(provider, Some(start), Some(now)), stored, t)
  {
  }

  /** A first sync takes the provider's window as it is. */
  lemma FirstSyncConverges(provider: History, now: int, s: Settings)
    ensures Converged(Synced(map[], provider, now, s), provider, now)
  {
    var fetched := Between(provider, Some(now - s.initialDays * DAY), Some(now));
    assert Synced(map[], provider, now, s) == fetched;
    if fetched != map[] {
      var lo := EarliestTimestamp(fetched).value;
      assert lo in fetched;
    }
  }

  lemma RepairConverges(stored: History, provider: History, now: int, s: Settings)
    requires stored != map[] && (forall t | t in stored :: t <= now && t in provider)
    requires DriftSeen(stored, provider, now, s)
    ensures Converged(Synced(stored, provider, now, s), provider, now)
  {
    var start := FullHistoryPlan(now, s.initialDays, EarliestTimestamp(stored)).start;
    var result := Synced(stored, provider, now, s);
    hide DriftSeen;
    assert forall t | t in stored :: EarliestTimestamp(stored).value <= t;
    assert forall t | t in result :: start <= t <= now;
    forall t | start <= t <= now ensures SameBar(result, provider, t) {
      MergeWindow(stored, provider, start, now, t);
    }
    if result != map[] {
      assert EarliestTimestamp(result).value in result;
    }
  }

  /** Without a repair the result agrees with the provider everywhere except, possibly, on what it held from
      before the window. */
  lemma IncrementalConvergesIff(stored: History, provider: History, now: int, s: Settings)
    requires stored != map[] && (forall t | t in stored :: t <= now && t in provider)
    requires !DriftSeen(stored, provider, now, s)
    ensures Converged(Synced(stored, provider, now, s), provider, now) <==> OldUnchanged(stored, provider, now, s)
  {
    var start := WindowStart(stored, now, s);
    assert Synced(stored, provider, now, s) == stored + Between(provider, Some(start), Some(now));
    WindowInside(stored, now, s);
    hide DriftSeen, Synced, WindowStart, Converged, SameOver;
    if OldUnchanged(stored, provider, now, s) {
      UnchangedMergeConverges(stored, provider, start, now);
    }
    if Converged(stored + Between(provider, Some(start), Some(now)), provider, now) {
      ConvergedMergeUnchanged(stored, provider, start, now);
    }
  }

  lemma UnchangedMergeConverges(stored: History, provider: History, start: int, now: int)
    requires stored != map[] && (forall t | t in stored :: t <= now && t in provider) && start <= now
    requires SameOver(stored, provider, EarliestTimestamp(stored).value, start - 1)
    ensures Converged(stored + Between(provider, Some(start), Some(now)), provider, now)
  {
    var result := stored + Between(provider, Some(start), Some(now));
    EarliestAfterMerge(stored, provider, start, now);
    hide EarliestTimestamp;
    var lo, lo' := EarliestTimestamp(stored).value, EarliestTimestamp(result).value;
    forall t | lo' <= t <= now ensures SameBar(result, provider, t) {
      if t < start {
        MergeOutside(stored, provider, start, now, t);
        assert SameBar(stored, provider, t);
      } else {
        MergeWindow(stored, provider, start, now, t);
      }
    }
  }

  lemma ConvergedMergeUnchanged(stored: History, provider: History, start: int, now: int)
    requires stored != map[] && start <= now
    requires Converged(stored + Between(provider, Some(start), Some(now)), provider, now)
    ensures SameOver(stored, provider, EarliestTimestamp(stored).value, start - 1)
  {
    var result := stored + Between(provider, Some(start), Some(now));
    EarliestAfterMerge(stored, provider, start, now);
    hide EarliestTimestamp, Between;
    forall t | EarliestTimestamp(stored).value <= t <= start - 1 ensures SameBar(stored, provider, t) {
      MergeOutside(stored, provider, start, now, t);
      assert SameBar(result, provider, t);
    }
  }

  lemma EarliestAfterMerge(stored: History, provider: History, start: int, now: int)
    requires stored != map[]
    ensures var result := stored + Between(provider, Some(start), Some(now));
            var lo := EarliestTimestamp(stored).value;
            var lo' := if result == map[] then 0 else EarliestTimestamp(result).value;
            result != map[] && lo' <= lo && (lo' < lo ==> start <= lo')
  {
    var result := stored + Between(provider, Some(start), Some(now));
    var lo := EarliestTimestamp(stored).value;
    assert lo in stored && lo in result;
    assert EarliestTimestamp(result).value in result;
  }

  /** One sync of a converged store against a provider that drops no bar it holds: the store is converged again
      exactly when nothing older than the window was rewritten, or the drift check saw the restatement. */
  lemma SyncConvergesIff(stored: History, before: History, now0: int, provider: History, now: int, s: Settings)
    requires Converged(stored, before, now0) && now0 <= now && before.Keys <= provider.Keys
    ensures Converged(Synced(stored, provider, now, s), provider, now)
       <==> stored == map[] || OldUnchanged(stored, provider, now, s) || DriftSeen(stored, provider, now, s)
  {
    hide DriftSeen, OldUnchanged, Synced;
    if stored == map[] {
      FirstSyncConverges(provider, now, s);
    } else {
      StoredInProvider(stored, before, now0);
      if DriftSeen(stored, provider, now, s) {
        RepairConverges(stored, provider, now, s);
      } else {
        IncrementalConvergesIff(stored, provider, now, s);
      }
    }
  }

  lemma StoredInProvider(stored: History, provider: History, now: int)
    requires Converged(stored, provider, now) && stored != map[]
    ensures forall t | t in stored :: t in provider && EarliestTimestamp(stored).value <= t <= now
  {
    forall t | t in stored ensures t in provider && EarliestTimestamp(stored).value <= t <= now {
      assert SameBar(stored, provider, t);
    }
  }

  lemma ReadWhole(stored: History, provider: History, start: int, now: int)
    requires forall t | t in stored :: t in provider
    ensures var held, fetched := Between(stored, Some(start), Some(now)), Between(provider, Some(start), Some(now));
            held.Keys <= fetched.Keys && GetBars(stored, Some(start), Some(now), |fetched| + 10) == Chronological(held)
  {
    var held, fetched := Between(stored, Some(start), Some(now)), Between(provider, Some(start), Some(now));
    assert held.Keys <= fetched.Keys;
    SubsetSize(held.Keys, fetched.Keys);
  }

  lemma DriftOver(held: History, fetched: History)
    requires held.Keys <= fetched.Keys
    ensures AdjustmentDrifted(Chronological(held), fetched) <==> exists t :: t in held && Moved(held[t], fetched[t])
  {
    hide Moved, AdjustmentDrifted, Chronological;
    var bars := Chronological(held);
    DriftMeaning(bars, fetched);
    if t :| t in held && Moved(held[t], fetched[t]) {
      ChronologicalHas(held, t);
      var i :| 0 <= i < |bars| && bars[i] == Stamped(t, held[t]);
      assert Moved(bars[i].bar, fetched[bars[i].ts]);
    }
    if i :| 0 <= i < |bars| && bars[i].ts in fetched && Moved(bars[i].bar, fetched[bars[i].ts]) {
      ChronologicalHolds(held, i);
    }
  }

  lemma ChronologicalHolds(h: History, i: nat)
    requires i < |Chronological(h)|
    ensures Chronological(h)[i].ts in h && Chronological(h)[i].bar == h[Chronological(h)[i].ts]
  {
    var ts := SortedSet(h.Keys);
    assert ts[i] in ts;
  }

  /** The drift check sees every stored bar of the window: it reports drift exactly when one of them moved. */
  lemma DriftSeenIff(stored: History, provider: History, now: int, s: Settings)
    requires stored != map[] && forall t | t in stored :: t <= now && t in provider
    ensures DriftSeen(stored, provider, now, s)
       <==> exists t :: t in stored && WindowStart(stored, now, s) <= t && Moved(stored[t], provider[t])
  {
    hide Moved, AdjustmentDrifted, GetBars, Chronological, LatestTimestamp;
    WindowInside(stored, now, s);
    var start := WindowStart(stored, now, s);
    var held, fetched := Between(stored, Some(start), Some(now)), Between(provider, Some(start), Some(now));
    NewestStored(stored);
    ReadWhole(stored, provider, start, now);
    DriftOver(held, fetched);
    assert LatestTimestamp(stored).value in fetched;
    if t :| t in stored && start <= t && Moved(stored[t], provider[t]) {
      assert t in held && Moved(held[t], fetched[t]);
    }
    if t :| t in held && Moved(held[t], fetched[t]) {
      assert Moved(stored[t], provider[t]);
    }
  }

  lemma NewestStored(stored: History)
    requires stored != map[]
    ensures LatestTimestamp(stored).Some? && LatestTimestamp(stored).value in stored
  {
  }

  /** So a bar of the window that moved is never missed. */
  lemma VisibleDriftIsSeen(stored: History, before: History, now0: int, provider: History, now: int, s: Settings,
                           t: int)
    requires Converged(stored, before, now0) && now0 <= now && before.Keys <= provider.Keys
    requires stored != map[] && t in stored && t in provider && WindowStart(stored, now, s) <= t
    requires Moved(stored[t], provider[t])
    ensures DriftSeen(stored, provider, now, s) && Converged(Synced(stored, provider, now, s), provider, now)
  {
    hide DriftSeen, Moved, Synced, WindowStart;
    StoredInProvider(stored, before, now0);
    DriftSeenIff(stored, provider, now, s);
    RepairConverges(stored, provider, now, s);
  }

  lemma ChronologicalHas(h: History, t: int)
    requires t in h
    ensures exists i :: 0 <= i < |Chronological(h)| && Chronological(h)[i] == Stamped(t, h[t])
  {
    var ts := SortedSet(h.Keys);
    assert t in ts;
    var i :| 0 <= i < |ts| && ts[i] == t;
    assert Chronological(h)[i] == Stamped(t, h[t]);
  }

  // ----- what a read returns

  lemma ChronologicalIs(h: History)
    ensures |Chronological(h)| == |h|
    ensures forall i | 0 <= i < |Chronological(h)| ::
              Chronological(h)[i].ts in h && Chronological(h)[i].bar == h[Chronological(h)[i].ts]
    ensures forall i, j | 0 <= i < j < |Chronological(h)| :: Chronological(h)[i].ts < Chronological(h)[j].ts
    ensures forall t | t in h :: exists i :: 0 <= i < |Chronological(h)| && Chronological(h)[i].ts == t
  {
    var ts := SortedSet(h.Keys);
    forall i | 0 <= i < |ts| ensures ts[i] in h {
      assert ts[i] in ts;
    }
    forall t | t in h ensures exists i :: 0 <= i < |Chronological(h)| && Chronological(h)[i].ts == t {
      ChronologicalHas(h, t);
    }
  }

  ghost predicate InWindow(t: int, start: Option<int>, end: Option<int>) {
    (start.Some? ==> start.value <= t) && (end.Some? ==> t <= end.value)
  }

  /** `bars` are the newest `limit` bars the series has in the window, or all of them when there are fewer, oldest
      first. */
  ghost predicate AreNewest(bars: seq<Stamped>, h: History, start: Option<int>, end: Option<int>, limit: nat) {
    && |bars| <= limit
    && (forall i | 0 <= i < |bars| ::
          InWindow(bars[i].ts, start, end) && bars[i].ts in h && bars[i].bar == h[bars[i].ts])
    && (forall i, j | 0 <= i < j < |bars| :: bars[i].ts < bars[j].ts)
    && (forall t | t in h && InWindow(t, start, end) :: IsAmong(t, bars) || (|bars| == limit && IsOlder(t, bars)))
  }

  ghost predicate IsAmong(t: int, bars: seq<Stamped>) {
    exists i :: 0 <= i < |bars| && bars[i].ts == t
  }

  ghost predicate IsOlder(t: int, bars: seq<Stamped>) {
    forall i | 0 <= i < |bars| :: t < bars[i].ts
  }

  lemma ReadsNewest(h: History, start: Option<int>, end: Option<int>, limit: nat)
    ensures AreNewest(GetBars(h, start, end, limit), h, start, end, limit)
  {
    hide Chronological, LastN, IsAmong, IsOlder;
    var seen, bars := Between(h, start, end), GetBars(h, start, end, limit);
    var all := Chronological(seen);
    ChronologicalIs(seen);
    LastNIs(all, limit);
    forall t | t in h && InWindow(t, start, end)
      ensures IsAmong(t, bars) || (|bars| == limit && IsOlder(t, bars))
    {
      assert t in seen;
      var i :| 0 <= i < |all| && all[i].ts == t;
      AmongOrOlder(all, limit, i);
    }
  }

  lemma LastNIs(all: seq<Stamped>, limit: nat)
    ensures |LastN(all, limit)| <= limit && |LastN(all, limit)| <= |all|
    ensures forall i | 0 <= i < |LastN(all, limit)| :: LastN(all, limit)[i] == all[|all| - |LastN(all, limit)| + i]
  {
  }

  lemma AmongOrOlder(all: seq<Stamped>, limit: nat, i: nat)
    requires i < |all| && forall j, k | 0 <= j < k < |all| :: all[j].ts < all[k].ts
    ensures IsAmong(all[i].ts, LastN(all, limit))
            || (|LastN(all, limit)| == limit && IsOlder(all[i].ts, LastN(all, limit)))
  {
    var bars := LastN(all, limit);
    if i >= |all| - |bars| {
      assert bars[i - (|all| - |bars|)] == all[i];
    }
  }

  // ----- one sync in full

  /** What one sync leaves, written out. `from` is where the fetched window opens: an initial depth back when nothing
      is stored; else the overlap back from the newest bar; and when a bar read back from the overlap moved, the initial
      depth back or the oldest bar, whichever is earlier. `read` is what is read back: of the stored bars there, the
      newest, up to ten more than were fetched. Inside the window the provider's bars win, outside it nothing
      changes. */
  lemma SyncInFull(stored: History, provider: History, now: int, s: Settings, oldest: int, newest: int)
    returns (from: int, read: seq<Stamped>)
    requires forall t | t in stored :: oldest <= t <= newest
    requires stored != map[] ==> oldest in stored && newest in stored
    ensures var depth := now - s.initialDays * 86400;
            var overlap := newest - (if s.overlapDays > 0 then s.overlapDays else 0) * 86400;
            var opens := if overlap < now then overlap else now;
            && AreNewest(read, stored, Some(opens), Some(now), |set t | t in provider && opens <= t <= now| + 10)
            && from == if stored == map[] then depth
                       else if exists i ::
                                 0 <= i < |read| && read[i].ts in provider && Moved(read[i].bar, provider[read[i].ts])
                       then (if depth < oldest then depth else oldest)
                       else opens
    ensures var after := Synced(stored, provider, now, s);
            && (forall t :: t in after <==> t in stored || (t in provider && from <= t <= now))
            && forall t | t in after :: after[t] == if t in provider && from <= t <= now then provider[t] else stored[t]
  {
    hide *;
    var overlap := newest - (if s.overlapDays > 0 then s.overlapDays else 0) * 86400;
    var opens := if overlap < now then overlap else now;
    var limit := |set t | t in provider && opens <= t <= now| + 10;
    read := GetBars(stored, Some(opens), Some(now), limit);
    ReadsNewest(stored, Some(opens), Some(now), limit);
    if stored == map[] {
      from := now - s.initialDays * 86400;
      FetchedFirst(provider, now, s);
    } else {
      Extremes(stored, oldest, newest);
      OpensAt(stored, now, s, oldest, newest);
      DriftSeenIn(stored, provider, now, s, opens, read);
      from := FetchedFrom(stored, provider, now, s);
    }
    SyncedFrom(stored, provider, now, s, from);
  }

  lemma OpensAt(stored: History, now: int, s: Settings, oldest: int, newest: int)
    requires stored != map[] && EarliestTimestamp(stored) == Some(oldest) && LatestTimestamp(stored) == Some(newest)
    ensures var depth := now - s.initialDays * 86400;
            var overlap := newest - (if s.overlapDays > 0 then s.overlapDays else 0) * 86400;
            && WindowStart(stored, now, s) == (if overlap < now then overlap else now)
            && FullHistoryPlan(now, s.initialDays, EarliestTimestamp(stored)).start
               == (if depth < oldest then depth else oldest)
  {
  }

  lemma DriftSeenIn(stored: History, provider: History, now: int, s: Settings, opens: int, read: seq<Stamped>)
    requires stored != map[] && opens == WindowStart(stored, now, s)
    requires read == GetBars(stored, Some(opens), Some(now), |set t | t in provider && opens <= t <= now| + 10)
    ensures DriftSeen(stored, provider, now, s)
       <==> exists i :: 0 <= i < |read| && read[i].ts in provider && Moved(read[i].bar, provider[read[i].ts])
  {
    hide Moved, AdjustmentDrifted, GetBars, AreNewest;
    var fetched := Between(provider, Some(opens), Some(now));
    assert fetched.Keys == set t | t in provider && opens <= t <= now;
    DriftMeaning(read, fetched);
    ReadsNewest(stored, Some(opens), Some(now), |fetched| + 10);
    forall i | 0 <= i < |read| ensures opens <= read[i].ts <= now {
      NewestInside(read, stored, opens, now, |fetched| + 10, i);
    }
  }

  lemma NewestInside(bars: seq<Stamped>, h: History, start: int, end: int, limit: nat, i: nat)
    requires AreNewest(bars, h, Some(start), Some(end), limit) && i < |bars|
    ensures start <= bars[i].ts <= end
  {
  }

  lemma FetchedFirst(provider: History, now: int, s: Settings)
    ensures Fetched(map[], provider, now, s) == Between(provider, Some(now - s.initialDays * 86400), Some(now))
  {
  }

  lemma FetchedFrom(stored: History, provider: History, now: int, s: Settings) returns (from: int)
    requires stored != map[]
    ensures from == if DriftSeen(stored, provider, now, s)
                    then FullHistoryPlan(now, s.initialDays, EarliestTimestamp(stored)).start
                    else WindowStart(stored, now, s)
    ensures Fetched(stored, provider, now, s) == Between(provider, Some(from), Some(now))
  {
    hide DriftSeen;
    from := if DriftSeen(stored, provider, now, s)
            then FullHistoryPlan(now, s.initialDays, EarliestTimestamp(stored)).start else WindowStart(stored, now, s);
  }

  lemma SyncedFrom(stored: History, provider: History, now: int, s: Settings, from: int)
    requires Fetched(stored, provider, now, s) == Between(provider, Some(from), Some(now))
    ensures var after := Synced(stored, provider, now, s);
            && (forall t :: t in after <==> t in stored || (t in provider && from <= t <= now))
            && forall t | t in after :: after[t] == if t in provider && from <= t <= now then provider[t] else stored[t]
  {
    hide Fetched;
  }

  lemma Extremes(stored: History, oldest: int, newest: int)
    requires oldest in stored && newest in stored && forall t | t in stored :: oldest <= t <= newest
    ensures EarliestTimestamp(stored) == Some(oldest) && LatestTimestamp(stored) == Some(newest)
  {
  }

  // ----- whole runs

  /** What the provider served when a sync ran, and when that was. */
  datatype Moment = Moment(provider: History, now: int)

  /** The store after the first `n` syncs. */
  function StoreAfter(moments: seq<Moment>, s: Settings, n: nat): History
    requires n <= |moments|
  {
    if n == 0 then map[]
    else Synced(StoreAfter(moments, s, n - 1), moments[n - 1].provider, moments[n - 1].now, s)
  }

  /** Between two syncs the provider keeps its bars, and rewrites a bar from before the overlap only together with
      the factor of a stored bar inside it, visibly. How long the gap was does not matter. */
  ghost predicate FaithfulStep(stored: History, a: Moment, b: Moment, s: Settings) {
    && a.now <= b.now && a.provider.Keys <= b.provider.Keys
    && (stored == map[] || OldUnchanged(stored, b.provider, b.now, s)
        || exists t :: t in stored && t in b.provider && WindowStart(stored, b.now, s) <= t
                     && Moved(stored[t], b.provider[t]))
  }

  /** After every sync of such a run the store equals the provider from its oldest bar up to that moment. */
  lemma {:induction false} EverySyncConverges(moments: seq<Moment>, s: Settings, n: nat)
    requires 0 < n <= |moments|
    requires forall i | 0 < i < n :: FaithfulStep(StoreAfter(moments, s, i), moments[i - 1], moments[i], s)
    ensures Converged(StoreAfter(moments, s, n), moments[n - 1].provider, moments[n - 1].now)
  {
    hide Moved, DriftSeen, OldUnchanged, Converged, Synced;
    var b := moments[n - 1];
    if n == 1 {
      assert StoreAfter(moments, s, 0) == map[];
      FirstSyncConverges(b.provider, b.now, s);
    } else {
      EverySyncConverges(moments, s, n - 1);
      var stored, a := StoreAfter(moments, s, n - 1), moments[n - 2];
      assert FaithfulStep(stored, a, b, s);
      if stored != map[] && !OldUnchanged(stored, b.provider, b.now, s) {
        var t :| t in stored && t in b.provider && WindowStart(stored, b.now, s) <= t
                 && Moved(stored[t], b.provider[t]);
        VisibleDriftIsSeen(stored, a.provider, a.now, b.provider, b.now, s, t);
      }
      SyncConvergesIff(stored, a.provider, a.now, b.provider, b.now, s);
    }
  }
}

/**
 A resolver run reads no history but its latest bars, so the window slides from run to run: what a run decides compared
 with what the whole history would, and with what an earlier run decided.
 */
module OutcomeWindows {
  import opened Common
  import opened Labels
  import opened ExcessLabels
  import opened InferenceLog
  import opened LabelWindows
  import opened Outcomes
  import MarketPath
  import PanelLabels
  import PanelWindows
  import Symbols

  const READ_MARGIN := 60

  /** `limit` of `resolve_pending` */
  function ReadLimit(p: LabelParams): nat {
    p.sigmaWindow + p.horizon + READ_MARGIN
  }

  /** How many bars of a history the run does not read. */
  function Unread(p: LabelParams, bars: seq<Bar>): (w: nat)
    ensures w <= |bars|
  {
    MaxInt(|bars| - ReadLimit(p), 0)
  }

  /** The market service's answer from this history. */
  function Read(p: LabelParams, bars: seq<Bar>): seq<Bar> {
    LastN(bars, ReadLimit(p))
  }

  function ReadPanel(p: LabelParams, histories: seq<Fetched>): (r: seq<Fetched>)
    ensures |r| == |histories|
    ensures forall j | 0 <= j < |r| :: r[j] == Fetched(histories[j].symbol, Read(p, histories[j].bars))
  {
    seq(|histories|, j requires 0 <= j < |histories| => Fetched(histories[j].symbol, Read(p, histories[j].bars)))
  }

  lemma ReadIs(p: LabelParams, bars: seq<Bar>)
    ensures Read(p, bars) == bars[Unread(p, bars)..]
  {
  }

  /** The run is not so late that the vote's volatility window has slid out of what it reads. */
  predicate InMargin(p: LabelParams, bars: seq<Bar>, at: int) {
    |bars| <= Leading(bars, DayOf(at)) - 1 + p.horizon + 60
  }

  ghost predicate Dated(bars: seq<Bar>) {
    PanelLabels.Chronological(MarketBars(bars))
  }

  // ----- the entry bar in the window

  lemma LeadingInWindow(bars: seq<Bar>, w: nat, day: int)
    requires w <= Leading(bars, day)
    ensures Leading(bars[w..], day) == Leading(bars, day) - w
  {
    hide DayOf;
    LeadingUnique(bars[w..], day, Leading(bars, day) - w);
  }

  lemma DayMonotone(a: int, b: int)
    requires a <= b
    ensures DayOf(a) <= DayOf(b)
  {
  }

  lemma EntryDropped(bars: seq<Bar>, w: nat, day: int)
    requires Leading(bars, day) < w <= |bars| && Dated(bars)
    ensures Leading(bars[w..], day) == 0
  {
    hide DayOf;
    if w < |bars| {
      var n := Leading(bars, day);
      assert MarketBars(bars)[n].ts <= MarketBars(bars)[w].ts;
      DayMonotone(bars[n].ts, bars[w].ts);
    }
  }

  // ----- one vote, whatever the label

  /** The label on what is read is the label on the whole history. */
  ghost predicate SameOutcome(s: Resolver, whole: seq<Fetched>, read: seq<Fetched>, bars: seq<Bar>, w: nat, entry: int)
    requires w <= |bars|
  {
    w <= entry < |bars| ==>
      OutcomeAt(s, read, bars[w..], entry - w) == Back(OutcomeAt(s, whole, bars, entry), w)
  }

  lemma UndecidedIs(s: Resolver, fetched: seq<Fetched>, bars: seq<Bar>, at: int, signal: Vote, now: int)
    requires var n := Leading(bars, DayOf(at));
             n == 0 || n - 1 < s.params.sigmaWindow || OutcomeAt(s, fetched, bars, n - 1).None?
    ensures VerdictOn(s, fetched, bars, at, signal, now) == WhenUndecided(s, at, now)
  {
    hide OutcomeAt, Leading, DayOf, Decision, WhenUndecided;
  }

  lemma DecisionInWindow(bars: seq<Bar>, w: nat, entry: nat, o: BarrierOutcome, signal: Vote)
    requires w <= entry <= o.touchIndex < |bars|
    ensures Decision(bars[w..], entry - w, Back(Some(o), w).value, signal) == Decision(bars, entry, o, signal)
  {
    hide Ratio;
  }

  lemma TouchAfterEntry(s: Resolver, fetched: seq<Fetched>, bars: seq<Bar>, entry: nat)
    requires entry < |bars| && OutcomeAt(s, fetched, bars, entry).Some?
    ensures entry <= OutcomeAt(s, fetched, bars, entry).value.touchIndex < |bars|
  {
    hide *;
    LabelOf(s, fetched, bars, entry);
    if s.excess {
      ExcessBarrierWindow(s.num, Pair(Closes(bars), BenchmarkLeg(s, fetched, bars)), entry, s.params);
    } else {
      TripleBarrierWindow(s.num, Closes(bars), Highs(bars), Lows(bars), entry, s.params);
    }
  }

  lemma DecidesOrNot(s: Resolver, fetched: seq<Fetched>, bars: seq<Bar>, at: int, signal: Vote, now: int)
    ensures var v := VerdictOn(s, fetched, bars, at, signal, now); v.Decide? || v == WhenUndecided(s, at, now)
  {
    hide OutcomeAt, Leading, DayOf, WhenUndecided;
  }

  lemma EntryKept(s: Resolver, whole: seq<Fetched>, read: seq<Fetched>, bars: seq<Bar>, w: nat, at: int, signal: Vote,
                  now: int)
    requires w <= |bars| && w + s.params.sigmaWindow < Leading(bars, DayOf(at))
    requires SameOutcome(s, whole, read, bars, w, Leading(bars, DayOf(at)) - 1)
    ensures VerdictOn(s, read, bars[w..], at, signal, now) == VerdictOn(s, whole, bars, at, signal, now)
  {
    hide *;
    var entry := Leading(bars, DayOf(at)) - 1;
    LeadingInWindow(bars, w, DayOf(at));
    SameOutcomeMeans(s, whole, read, bars, w, entry);
    var o := OutcomeAt(s, whole, bars, entry);
    BackIs(o, w);
    if o.None? {
      UndecidedIs(s, whole, bars, at, signal, now);
      UndecidedIs(s, read, bars[w..], at, signal, now);
    } else {
      VerdictIs(s, whole, bars, at, signal, now, entry);
      VerdictIs(s, read, bars[w..], at, signal, now, entry - w);
      TouchAfterEntry(s, whole, bars, entry);
      DecisionInWindow(bars, w, entry, o.value, signal);
    }
  }

  lemma SameOutcomeMeans(s: Resolver, whole: seq<Fetched>, read: seq<Fetched>, bars: seq<Bar>, w: nat, entry: int)
    requires w <= entry < |bars| && SameOutcome(s, whole, read, bars, w, entry)
    ensures OutcomeAt(s, read, bars[w..], entry - w) == Back(OutcomeAt(s, whole, bars, entry), w)
  {
    hide OutcomeAt, Back;
  }

  lemma BackIs(o: Option<BarrierOutcome>, w: nat)
    ensures Back(o, w).None? <==> o.None?
    ensures o.Some? ==> Back(o, w) == Back(Some(o.value), w)
  {
  }

  lemma EntryLost(s: Resolver, read: seq<Fetched>, bars: seq<Bar>, w: nat, at: int, signal: Vote, now: int)
    requires w <= |bars| && Dated(bars) && Leading(bars, DayOf(at)) <= w + s.params.sigmaWindow
    ensures VerdictOn(s, read, bars[w..], at, signal, now) == WhenUndecided(s, at, now)
  {
    hide *;
    if Leading(bars, DayOf(at)) < w {
      EntryDropped(bars, w, DayOf(at));
    } else {
      LeadingInWindow(bars, w, DayOf(at));
    }
    UndecidedIs(s, read, bars[w..], at, signal, now);
  }

  /** What is read decides as the whole history does, or decides nothing; and it falls short exactly when the history
      decides and the run comes out of margin. */
  ghost predicate ReadsAsWhole(s: Resolver, whole: seq<Fetched>, read: seq<Fetched>, bars: seq<Bar>, at: int,
                               signal: Vote,
                               now: int) {
    var full := VerdictOn(s, whole, bars, at, signal, now);
    var seen := VerdictOn(s, read, Read(s.params, bars), at, signal, now);
    && (seen == full || seen == WhenUndecided(s, at, now))
    && (seen == full <==> !(full.Decide? && !InMargin(s.params, bars, at)))
  }

  lemma ReadVerdict(s: Resolver, whole: seq<Fetched>, read: seq<Fetched>, bars: seq<Bar>, at: int, signal: Vote,
                    now: int)
    requires Dated(bars)
    requires var entry := Leading(bars, DayOf(at)) - 1;
             Unread(s.params, bars) + s.params.sigmaWindow <= entry ==>
               SameOutcome(s, whole, read, bars, Unread(s.params, bars), entry)
    ensures ReadsAsWhole(s, whole, read, bars, at, signal, now)
  {
    hide VerdictOn, Read, Leading, DayOf, SameOutcome, Dated, WhenUndecided, OutcomeAt;
    ReadIs(s.params, bars);
    var w := Unread(s.params, bars);
    NeverDecides(s, at, now);
    if w + s.params.sigmaWindow < Leading(bars, DayOf(at)) {
      EntryKept(s, whole, read, bars, w, at, signal, now);
    } else {
      EntryLost(s, read, bars, w, at, signal, now);
      if w == 0 {
        EntryLost(s, whole, bars, 0, at, signal, now);
        assert bars[0..] == bars;
      } else if Leading(bars, DayOf(at)) <= s.params.sigmaWindow {
        UndecidedIs(s, whole, bars, at, signal, now);
      }
    }
    DecidesOrNot(s, whole, bars, at, signal, now);
  }

  // ----- the absolute label

  /** The verdict a run reaches under the absolute label, late or not. */
  lemma AbsoluteReadsAsWhole(s: Resolver, whole: seq<Fetched>, read: seq<Fetched>, bars: seq<Bar>, at: int,
                             signal: Vote,
                             now: int)
    requires !s.excess && Dated(bars)
    ensures ReadsAsWhole(s, whole, read, bars, at, signal, now)
  {
    hide *;
    var w, entry := Unread(s.params, bars), Leading(bars, DayOf(at)) - 1;
    if w + s.params.sigmaWindow <= entry {
      AbsoluteOutcomeInWindow(s, whole, read, bars, w, entry);
    }
    ReadVerdict(s, whole, read, bars, at, signal, now);
  }

  lemma PricesInWindow(bars: seq<Bar>, w: nat)
    requires w <= |bars|
    ensures Closes(bars[w..]) == Closes(bars)[w..] && Highs(bars[w..]) == Highs(bars)[w..]
    ensures Lows(bars[w..]) == Lows(bars)[w..]
  {
  }

  lemma AbsoluteOutcomeInWindow(s: Resolver, whole: seq<Fetched>, read: seq<Fetched>, bars: seq<Bar>, w: nat,
                                entry: nat)
    requires !s.excess && w + s.params.sigmaWindow <= entry < |bars|
    ensures SameOutcome(s, whole, read, bars, w, entry)
  {
    hide *;
    PricesInWindow(bars, w);
    LabelOf(s, whole, bars, entry);
    LabelOf(s, read, bars[w..], entry - w);
    TripleBarrierSuffix(s.num, Closes(bars), Highs(bars), Lows(bars), entry, s.params, w);
    IsSameOutcome(s, whole, read, bars, w, entry);
  }

  lemma IsSameOutcome(s: Resolver, whole: seq<Fetched>, read: seq<Fetched>, bars: seq<Bar>, w: nat, entry: nat)
    requires w <= entry < |bars|
    requires OutcomeAt(s, read, bars[w..], entry - w) == Back(OutcomeAt(s, whole, bars, entry), w)
    ensures SameOutcome(s, whole, read, bars, w, entry)
  {
    hide OutcomeAt, Back;
  }

  // ----- the excess label: the benchmark is rebuilt from what is read

  function UnreadPanel(p: LabelParams, histories: seq<Fetched>): (r: seq<nat>)
    ensures |r| == |histories| && forall j | 0 <= j < |r| :: r[j] == Unread(p, histories[j].bars)
  {
    seq(|histories|, j requires 0 <= j < |histories| => Unread(p, histories[j].bars))
  }

  /** No other symbol has more bars dated `from` or later than a run reads. */
  ghost predicate OthersReach(p: LabelParams, histories: seq<Fetched>, k: nat, from: int) {
    forall j | 0 <= j < |histories| && j != k :: Reaches(p, histories[j].bars, from)
  }

  ghost predicate Reaches(p: LabelParams, bars: seq<Bar>, from: int) {
    PanelWindows.AllBefore(MarketBars(bars[..Unread(p, bars)]), from)
  }

  /** The same for the volatility window of a vote at `at` on symbol `k`. */
  ghost predicate PanelReaches(p: LabelParams, histories: seq<Fetched>, k: nat, at: int)
    requires k < |histories|
  {
    var entry := Leading(histories[k].bars, DayOf(at)) - 1;
    entry >= p.sigmaWindow ==> OthersReach(p, histories, k, histories[k].bars[entry - p.sigmaWindow].ts)
  }

  lemma ReadIsWindowed(p: LabelParams, histories: seq<Fetched>)
    ensures MarketPanel(ReadPanel(p, histories))
         == PanelWindows.Windowed(MarketPanel(histories), UnreadPanel(p, histories))
  {
    hide Unread, Read;
    var panel, drop := MarketPanel(histories), UnreadPanel(p, histories);
    forall j | 0 <= j < |histories|
      ensures MarketBars(Read(p, histories[j].bars)) == PanelWindows.WithoutFirst(panel[j].bars, drop[j])
    {
      ReadIs(p, histories[j].bars);
    }
  }

  /** One bar per instant, as the table keeps them. */
  ghost predicate OnePerInstant(bars: seq<Bar>) {
    forall j, k | 0 <= j < k < |bars| :: bars[j].ts < bars[k].ts
  }

  lemma OwnBarsOlder(p: LabelParams, bars: seq<Bar>, first: nat)
    requires OnePerInstant(bars) && Unread(p, bars) <= first < |bars|
    ensures Dated(bars) && Reaches(p, bars, bars[first].ts)
  {
  }

  lemma EveryoneReaches(p: LabelParams, histories: seq<Fetched>, k: nat, first: nat)
    requires k < |histories| && OnePerInstant(histories[k].bars)
    requires Unread(p, histories[k].bars) <= first < |histories[k].bars|
    requires OthersReach(p, histories, k, histories[k].bars[first].ts)
    ensures PanelWindows.DroppedBefore(MarketPanel(histories), UnreadPanel(p, histories), histories[k].bars[first].ts)
  {
    hide Unread, OnePerInstant, PanelWindows.AllBefore;
    var from := histories[k].bars[first].ts;
    OwnBarsOlder(p, histories[k].bars, first);
    var panel, drop := MarketPanel(histories), UnreadPanel(p, histories);
    forall j | 0 <= j < |panel|
      ensures PanelWindows.AllBefore(panel[j].bars[..MinInt(drop[j], |panel[j].bars|)], from) {
      assert Reaches(p, histories[j].bars, from);
      assert MarketBars(histories[j].bars[..drop[j]]) == panel[j].bars[..drop[j]];
    }
  }

  lemma ExcessOutcomeInWindow(s: Resolver, histories: seq<Fetched>, k: nat, entry: nat)
    requires s.excess && IsLog(s.num.log) && PanelWindows.PositiveExp(s.stats)
    requires k < |histories| && OnePerInstant(histories[k].bars)
    requires Unread(s.params, histories[k].bars) + s.params.sigmaWindow <= entry < |histories[k].bars|
    requires OthersReach(s.params, histories, k, histories[k].bars[entry - s.params.sigmaWindow].ts)
    ensures SameOutcome(s, histories, ReadPanel(s.params, histories), histories[k].bars,
                        Unread(s.params, histories[k].bars), entry)
  {
    hide *;
    var bars, w, p := histories[k].bars, Unread(s.params, histories[k].bars), s.params;
    ReadIs(p, bars);
    EveryoneReaches(p, histories, k, entry - p.sigmaWindow);
    ReadIsWindowed(p, histories);
    ExcessIsPanelLabel(s, histories, k, entry);
    ExcessIsPanelLabel(s, ReadPanel(p, histories), k, entry - w);
    OwnBarsOlder(p, bars, entry - p.sigmaWindow);
    DatedMeans(bars);
    PanelWindows.PanelLabelWindowed(s.num, s.stats, MarketPanel(histories), UnreadPanel(p, histories), None, k, entry,
                                    p);
    IsSameOutcome(s, histories, ReadPanel(p, histories), bars, w, entry);
  }

  lemma DatedMeans(bars: seq<Bar>)
    ensures Dated(bars) <==> PanelLabels.Chronological(MarketBars(bars))
  {
  }

  /** The verdict a run reaches under the excess label, over windows of every pending symbol. */
  lemma ExcessReadsAsWhole(s: Resolver, histories: seq<Fetched>, k: nat, at: int, signal: Vote, now: int)
    requires s.excess && IsLog(s.num.log) && PanelWindows.PositiveExp(s.stats)
    requires k < |histories| && OnePerInstant(histories[k].bars) && PanelReaches(s.params, histories, k, at)
    ensures ReadsAsWhole(s, histories, ReadPanel(s.params, histories), histories[k].bars, at, signal, now)
  {
    hide OnePerInstant, OthersReach, ReadsAsWhole, SameOutcome, Leading, DayOf, Unread, ReadPanel;
    var bars := histories[k].bars;
    var w, entry := Unread(s.params, bars), Leading(bars, DayOf(at)) - 1;
    OrderedByInstant(bars);
    if w + s.params.sigmaWindow <= entry {
      ExcessOutcomeInWindow(s, histories, k, entry);
    }
    ReadVerdict(s, histories, ReadPanel(s.params, histories), bars, at, signal, now);
  }

  lemma OrderedByInstant(bars: seq<Bar>)
    requires OnePerInstant(bars)
    ensures Dated(bars)
  {
  }

  // ----- from one run to the next

  lemma ReadsAsWholeMeans(s: Resolver, whole: seq<Fetched>, read: seq<Fetched>, bars: seq<Bar>, at: int, signal: Vote,
                          now: int)
    requires ReadsAsWhole(s, whole, read, bars, at, signal, now)
    ensures var full := VerdictOn(s, whole, bars, at, signal, now);
            var seen := VerdictOn(s, read, Read(s.params, bars), at, signal, now);
            && (seen.Decide? ==> seen == full)
            && (full.Decide? ==> seen == if InMargin(s.params, bars, at) then full else WhenUndecided(s, at, now))
  {
    hide VerdictOn, Read, InMargin, WhenUndecided;
    NeverDecides(s, at, now);
  }

  /** A vote decided by one run is decided the same by a later one, on what that run reads by then, exactly until it
      comes out of margin; then it is not decided at all (absolute label). */
  lemma DecisionStandsInMargin(s: Resolver, early: seq<Fetched>, late: seq<Fetched>, bars: seq<Bar>, more: seq<Bar>,
                               at: int,
                               signal: Vote, now: int, later: int)
    requires !s.excess && Dated(bars + more) && VerdictOn(s, early, Read(s.params, bars), at, signal, now).Decide?
    ensures VerdictOn(s, late, Read(s.params, bars + more), at, signal, later)
         == if InMargin(s.params, bars + more, at) then VerdictOn(s, early, Read(s.params, bars), at, signal, now)
            else WhenUndecided(s, at, later)
  {
    hide *;
    DatedPrefix(bars, more);
    AbsoluteReadsAsWhole(s, early, early, bars, at, signal, now);
    ReadsAsWholeMeans(s, early, early, bars, at, signal, now);
    DecisionStands(s, early, late, bars, more, at, signal, now, later);
    AbsoluteReadsAsWhole(s, late, late, bars + more, at, signal, later);
    ReadsAsWholeMeans(s, late, late, bars + more, at, signal, later);
  }

  lemma DatedPrefix(bars: seq<Bar>, more: seq<Bar>)
    requires Dated(bars + more)
    ensures Dated(bars)
  {
    var all := MarketBars(bars + more);
    forall j, k | 0 <= j < k < |bars| ensures MarketBars(bars)[j].ts <= MarketBars(bars)[k].ts {
      assert all[j].ts <= all[k].ts;
    }
  }

  /** So is one under the excess label, when every bar that any symbol gains is dated after the touch. */
  lemma ExcessDecisionStandsInMargin(s: Resolver, histories: seq<Fetched>, more: seq<seq<Bar>>, k: nat, at: int,
                                     signal: Vote,
                                     now: int, later: int)
    requires s.excess && IsLog(s.num.log) && PanelWindows.PositiveExp(s.stats) && k < |histories| == |more|
    requires OnePerInstant(histories[k].bars + more[k]) && PanelReaches(s.params, Extended(histories, more), k, at)
    requires VerdictOn(s, ReadPanel(s.params, histories), Read(s.params, histories[k].bars), at, signal, now).Decide?
    requires SettledBefore(s, histories, more, k, Leading(histories[k].bars, DayOf(at)) - 1)
    ensures VerdictOn(s, ReadPanel(s.params, Extended(histories, more)), Read(s.params, histories[k].bars + more[k]),
                      at, signal, later)
         == if InMargin(s.params, histories[k].bars + more[k], at)
            then VerdictOn(s, ReadPanel(s.params, histories), Read(s.params, histories[k].bars), at, signal, now)
            else WhenUndecided(s, at, later)
  {
    hide *;
    var p, bars, bars' := s.params, histories[k].bars, histories[k].bars + more[k];
    var histories' := Extended(histories, more);
    assert histories'[k].bars == bars';
    InstantsPrefix(bars, more[k]);
    SettledEntry(s, histories, more, k, at);
    PanelReachesPrefix(p, histories, more, k, at);
    ExcessReadsAsWhole(s, histories, k, at, signal, now);
    ReadsAsWholeMeans(s, histories, ReadPanel(p, histories), bars, at, signal, now);
    ExcessDecisionStands(s, histories, more, k, at, signal, now, later);
    ExcessReadsAsWhole(s, histories', k, at, signal, later);
    ReadsAsWholeMeans(s, histories', ReadPanel(p, histories'), bars', at, signal, later);
  }

  lemma SettledEntry(s: Resolver, histories: seq<Fetched>, more: seq<seq<Bar>>, k: nat, at: int)
    requires k < |histories| && SettledBefore(s, histories, more, k, Leading(histories[k].bars, DayOf(at)) - 1)
    ensures Leading(histories[k].bars, DayOf(at)) < |histories[k].bars|
  {
    hide OutcomeAt, Leading, DayOf, PanelLabels.AllAfter, PanelLabels.Chronological;
    EntryNotLast(s, histories, histories[k].bars, Leading(histories[k].bars, DayOf(at)) - 1);
  }

  lemma ReachesPrefix(p: LabelParams, bars: seq<Bar>, more: seq<Bar>, from: int)
    requires Reaches(p, bars + more, from)
    ensures Reaches(p, bars, from)
  {
    var dropped := MarketBars((bars + more)[..Unread(p, bars + more)]);
    forall m | 0 <= m < Unread(p, bars) ensures MarketBars(bars[..Unread(p, bars)])[m].ts < from {
      assert dropped[m].ts < from;
    }
  }

  lemma PanelReachesPrefix(p: LabelParams, histories: seq<Fetched>, more: seq<seq<Bar>>, k: nat, at: int)
    requires k < |histories| == |more| && Leading(histories[k].bars, DayOf(at)) < |histories[k].bars|
    requires PanelReaches(p, Extended(histories, more), k, at)
    ensures PanelReaches(p, histories, k, at)
  {
    hide Leading, DayOf, Reaches;
    LeadingPrefix(histories[k].bars, more[k], DayOf(at));
    var entry := Leading(histories[k].bars, DayOf(at)) - 1;
    if entry >= p.sigmaWindow {
      var from := histories[k].bars[entry - p.sigmaWindow].ts;
      forall j | 0 <= j < |histories| && j != k ensures Reaches(p, histories[j].bars, from) {
        assert Reaches(p, Extended(histories, more)[j].bars, from);
        ReachesPrefix(p, histories[j].bars, more[j], from);
      }
    }
  }

  lemma InstantsPrefix(bars: seq<Bar>, more: seq<Bar>)
    requires OnePerInstant(bars + more)
    ensures OnePerInstant(bars)
  {
    forall j, k | 0 <= j < k < |bars| ensures bars[j].ts < bars[k].ts {
      assert (bars + more)[j].ts < (bars + more)[k].ts;
    }
  }

  // ----- the run itself

  /** The market service's answers, out of the histories it holds. */
  function Answers(p: LabelParams, history: string -> seq<Bar>): string -> seq<Bar> {
    (symbol: string) => Read(p, history(symbol))
  }

  /** What `ResolvePending` computes is the verdict on what is read of the pending symbols. */
  lemma RunVerdict(s: Resolver, history: string -> seq<Bar>, pending: seq<InferenceRecord>, vote: InferenceRecord,
                   now: int)
    requires vote in pending
    ensures VerdictOf(s, PendingPanel(Answers(s.params, history), pending), vote, now)
         == VerdictOn(s, ReadPanel(s.params, PendingPanel(history, pending)), Read(s.params, history(vote.symbol)),
                      vote.at, vote.signal, now)
  {
    hide VerdictOn, Read, SeriesOf, Symbols.Sorted;
    var symbols := Symbols.Sorted(Names(pending));
    var k :| 0 <= k < |pending| && pending[k] == vote;
    assert Names(pending)[k] == vote.symbol;
    Symbols.SortedMeaning(Names(pending));
    SeriesFetched(Answers(s.params, history), symbols, vote.symbol);
    assert Fetch(Answers(s.params, history), symbols) == ReadPanel(s.params, Fetch(history, symbols));
  }
}

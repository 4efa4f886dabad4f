/**
 Delayed outcome resolution: each pending vote is replayed through the label it was trained on, decided, dropped when it
 is too old, or left for the next run.
 Bars are the market service's answer, one series per pending symbol, already adjusted.
 */
module Outcomes {
  import opened Common
  import opened Labels
  import opened ExcessLabels
  import opened InferenceLog
  import MarketPath
  import PanelLabels
  import Symbols

  datatype Bar = Bar(ts: int, high: real, low: real, close: real)

  datatype Fetched = Fetched(symbol: string, bars: seq<Bar>)

  /** The resolver's settings. */
  datatype Resolver = Resolver(num: Numerics, stats: MarketPath.Stats, params: LabelParams, excess: bool,
                               dropAfterDays: int)

  /** `outcome_drop_after_days` */
  function OutcomeDropAfterDays(horizon: nat): int {
    Ceil(3.0 * (horizon as real) * 365.25 / 252.0)
  }

  /** Rounded up from three horizons of sessions; the documented value at horizon 10 is 44. */
  lemma DropAfterDaysMeaning(horizon: nat)
    ensures var d := OutcomeDropAfterDays(horizon) as real;
            d - 1.0 < 3.0 * (horizon as real) * 365.25 / 252.0 <= d
    ensures OutcomeDropAfterDays(10) == 44
  {
    var x := 3.0 * (horizon as real) * 365.25 / 252.0;
    assert ((-x).Floor as real) <= -x < ((-x).Floor as real) + 1.0;
    assert (-(3.0 * 10.0 * 365.25 / 252.0)).Floor == -44;
  }

  // ----- the entry bar

  function DayOf(instant: int): int {
    instant / MICROSECONDS_PER_DAY
  }

  /** How many bars come before the first one dated after `day`. */
  function Leading(bars: seq<Bar>, day: int): (n: nat)
    ensures n <= |bars| && forall k | 0 <= k < n :: DayOf(bars[k].ts) <= day
    ensures n < |bars| ==> DayOf(bars[n].ts) > day
  {
    if bars == [] || DayOf(bars[0].ts) > day then 0 else 1 + Leading(bars[1..], day)
  }

  lemma LeadingUnique(bars: seq<Bar>, day: int, n: nat)
    requires n <= |bars| && forall k | 0 <= k < n :: DayOf(bars[k].ts) <= day
    requires n < |bars| ==> DayOf(bars[n].ts) > day
    ensures Leading(bars, day) == n
  {
    hide DayOf;
  }

  method EntryIndex(bars: seq<Bar>, day: int) returns (entry: Option<nat>)
    ensures entry == if Leading(bars, day) == 0 then None else Some(Leading(bars, day) - 1)
  {
    hide DayOf;
    entry := None;
    for i := 0 to |bars|
      invariant entry == if i == 0 then None else Some(i - 1)
      invariant forall k | 0 <= k < i :: DayOf(bars[k].ts) <= day
    {
      if DayOf(bars[i].ts) <= day {
        entry := Some(i);
      } else {
        LeadingUnique(bars, day, i);
        return;
      }
    }
    LeadingUnique(bars, day, |bars|);
  }

  // ----- what becomes of one vote

  datatype Verdict = Keep | Drop | Decide(up: int, signedReturn: real, correct: bool)

  predicate TooOld(s: Resolver, at: int, now: int) {
    now - at > s.dropAfterDays * MICROSECONDS_PER_DAY
  }

  function Closes(bars: seq<Bar>): (r: seq<real>)
    ensures |r| == |bars| && forall k | 0 <= k < |r| :: r[k] == bars[k].close
  {
    seq(|bars|, k requires 0 <= k < |bars| => bars[k].close)
  }

  function Highs(bars: seq<Bar>): (r: seq<real>)
    ensures |r| == |bars| && forall k | 0 <= k < |r| :: r[k] == bars[k].high
  {
    seq(|bars|, k requires 0 <= k < |bars| => bars[k].high)
  }

  function Lows(bars: seq<Bar>): (r: seq<real>)
    ensures |r| == |bars| && forall k | 0 <= k < |r| :: r[k] == bars[k].low
  {
    seq(|bars|, k requires 0 <= k < |bars| => bars[k].low)
  }

  function MarketBars(bars: seq<Bar>): (r: seq<MarketPath.Bar>)
    ensures |r| == |bars| && forall k | 0 <= k < |r| :: r[k] == MarketPath.Bar(bars[k].ts, bars[k].close)
  {
    seq(|bars|, k requires 0 <= k < |bars| => MarketPath.Bar(bars[k].ts, bars[k].close))
  }

  function MarketPanel(fetched: seq<Fetched>): (r: seq<MarketPath.Series>)
    ensures |r| == |fetched|
    ensures forall k | 0 <= k < |r| :: r[k] == MarketPath.Series(fetched[k].symbol, MarketBars(fetched[k].bars))
  {
    seq(|fetched|, k requires 0 <= k < |fetched| => MarketPath.Series(fetched[k].symbol, MarketBars(fetched[k].bars)))
  }

  /** The benchmark leg on one symbol's bars, from the pending panel. */
  function BenchmarkLeg(s: Resolver, fetched: seq<Fetched>, bars: seq<Bar>): (r: seq<real>)
    ensures |r| == |bars|
  {
    MarketPath.Project(MarketPath.Levels(s.stats, MarketPanel(fetched), None), MarketBars(bars))
  }

  function SeriesOf(fetched: seq<Fetched>, symbol: string): Option<seq<Bar>> {
    if fetched == [] then None
    else if fetched[0].symbol == symbol then Some(fetched[0].bars)
    else SeriesOf(fetched[1..], symbol)
  }

  /** The label the vote is replayed through. */
  function OutcomeAt(s: Resolver, fetched: seq<Fetched>, bars: seq<Bar>, entry: nat): Option<BarrierOutcome>
    requires entry < |bars|
  {
    if s.excess then ExcessBarrierLabel(s.num, Pair(Closes(bars), BenchmarkLeg(s, fetched, bars)), entry, s.params)
    else TripleBarrierLabel(s.num, Closes(bars), Highs(bars), Lows(bars), entry, s.params)
  }

  /** The realized return is absolute under either label; the vote is correct when the label agrees with its side. */
  function Decision(bars: seq<Bar>, entry: nat, o: BarrierOutcome, signal: Vote): Verdict
    requires entry < |bars| && o.touchIndex < |bars|
  {
    var raw := Ratio(bars[o.touchIndex].close, bars[entry].close) - 1.0;
    Decide(o.up, if signal == BUY then raw else -raw, (o.up == 1) == (signal == BUY))
  }

  function WhenUndecided(s: Resolver, at: int, now: int): Verdict {
    if TooOld(s, at, now) then Drop else Keep
  }

  lemma OutcomeInside(s: Resolver, fetched: seq<Fetched>, bars: seq<Bar>, entry: nat)
    requires entry < |bars| && OutcomeAt(s, fetched, bars, entry).Some?
    ensures OutcomeAt(s, fetched, bars, entry).value.touchIndex < |bars|
  {
    hide *;
    LabelOf(s, fetched, bars, entry);
    if s.excess {
      ExcessBarrierWindow(s.num, Pair(Closes(bars), BenchmarkLeg(s, fetched, bars)), entry, s.params);
    } else {
      TripleBarrierWindow(s.num, Closes(bars), Highs(bars), Lows(bars), entry, s.params);
    }
  }

  lemma LabelOf(s: Resolver, fetched: seq<Fetched>, bars: seq<Bar>, entry: nat)
    requires entry < |bars|
    ensures OutcomeAt(s, fetched, bars, entry)
         == if s.excess then ExcessBarrierLabel(s.num, Pair(Closes(bars), BenchmarkLeg(s, fetched, bars)), entry,
                                                s.params)
            else TripleBarrierLabel(s.num, Closes(bars), Highs(bars), Lows(bars), entry, s.params)
  {
    hide ExcessBarrierLabel, TripleBarrierLabel, BenchmarkLeg;
  }

  /** `_resolve_one`, on the vote's own data. */
  function VerdictOn(s: Resolver, fetched: seq<Fetched>, bars: seq<Bar>, at: int, signal: Vote, now: int): Verdict {
    var leading := Leading(bars, DayOf(at));
    if leading == 0 || leading - 1 < s.params.sigmaWindow then WhenUndecided(s, at, now) else
      var o := OutcomeAt(s, fetched, bars, leading - 1);
      if o.None? then WhenUndecided(s, at, now) else
        OutcomeInside(s, fetched, bars, leading - 1);
        Decision(bars, leading - 1, o.value, signal)
  }

  function VerdictFor(s: Resolver, fetched: seq<Fetched>, symbol: string, at: int, signal: Vote, now: int): Verdict {
    var bars := SeriesOf(fetched, symbol);
    VerdictOn(s, fetched, if bars.Some? then bars.value else [], at, signal, now)
  }

  /** A vote is kept only while it is young enough. */
  lemma KeptIsYoung(s: Resolver, fetched: seq<Fetched>, symbol: string, at: int, signal: Vote, now: int)
    ensures VerdictFor(s, fetched, symbol, at, signal, now) == Keep ==> !TooOld(s, at, now)
    ensures VerdictFor(s, fetched, symbol, at, signal, now) == Drop ==> TooOld(s, at, now)
  {
    hide OutcomeAt, Leading, SeriesOf;
  }

  function FateOf(v: Verdict, before: Fate, now: int): Fate {
    match v
    case Keep => before
    case Drop => Fate(true, None, None, None, Some(now))
    case Decide(up, signed, correct) => Fate(true, Some(up), Some(signed), Some(correct), Some(now))
  }

  // ----- a verdict, written out

  /** `entry` is the last of the leading bars dated no later than the vote; -1 when there is none. */
  ghost predicate IsEntry(bars: seq<Bar>, at: int, entry: int) {
    && -1 <= entry < |bars|
    && (forall k | 0 <= k <= entry :: bars[k].ts / 86_400_000_000 <= at / 86_400_000_000)
    && (entry + 1 < |bars| ==> bars[entry + 1].ts / 86_400_000_000 > at / 86_400_000_000)
  }

  /** `o` is the outcome of the vote's label on its entry bar. */
  ghost predicate IsOutcome(s: Resolver, fetched: seq<Fetched>, bars: seq<Bar>, entry: int, o: Option<BarrierOutcome>) {
    if entry < 0 || entry < s.params.sigmaWindow || entry >= |bars| then o.None?
    else if s.excess then IsExcessBarrier(o, s.num, Pair(Closes(bars), BenchmarkLeg(s, fetched, bars)), entry, s.params)
    else IsTripleBarrier(o, s.num, Closes(bars), Highs(bars), Lows(bars), entry, s.params)
  }

  /** The verdict from the entry bar and the label's outcome there: decided with the label, the return from the entry
      to the touch with the sign of the side, and whether they agree; else given up once older than the limit. */
  ghost predicate IsVerdict(v: Verdict, s: Resolver, bars: seq<Bar>, entry: int, o: Option<BarrierOutcome>, at: int,
                            signal: Vote, now: int) {
    match o
    case None => v == if now - at > s.dropAfterDays * 86_400_000_000 then Drop else Keep
    case Some(b) =>
      && 0 <= entry < |bars| && b.touchIndex < |bars| && bars[entry].close > 0.0
      && var gain := bars[b.touchIndex].close / bars[entry].close - 1.0;
         v == Decide(b.up, if signal == BUY then gain else -gain, if signal == BUY then b.up == 1 else b.up != 1)
  }

  lemma EntryIsLeading(bars: seq<Bar>, at: int, entry: int)
    requires IsEntry(bars, at, entry)
    ensures Leading(bars, DayOf(at)) == entry + 1
  {
    LeadingUnique(bars, DayOf(at), entry + 1);
  }

  lemma OutcomeIs(s: Resolver, fetched: seq<Fetched>, bars: seq<Bar>, entry: nat, o: Option<BarrierOutcome>)
    requires s.params.sigmaWindow <= entry < |bars| && IsOutcome(s, fetched, bars, entry, o)
    ensures o == OutcomeAt(s, fetched, bars, entry)
    ensures o.Some? ==> bars[entry].close > 0.0
  {
    hide BenchmarkLeg, TripleBarrierLabel, ExcessBarrierLabel, IsTripleBarrier, IsExcessBarrier;
    if s.excess {
      var d := Pair(Closes(bars), BenchmarkLeg(s, fetched, bars));
      ExcessBarrierUnique(o, s.num, d, entry, s.params);
      ExcessEntryPositive(o, s.num, d, entry, s.params);
    } else {
      TripleBarrierUnique(o, s.num, Closes(bars), Highs(bars), Lows(bars), entry, s.params);
      EntryPositive(o, s.num, Closes(bars), Highs(bars), Lows(bars), entry, s.params);
    }
  }

  lemma EntryPositive(o: Option<BarrierOutcome>, num: Numerics, closes: seq<real>, highs: seq<real>, lows: seq<real>,
                      i: nat, p: LabelParams)
    requires |closes| == |highs| == |lows| && i < |closes| && IsTripleBarrier(o, num, closes, highs, lows, i, p)
    ensures o.Some? ==> closes[i] > 0.0
  {
    hide IsFirstTouch;
  }

  lemma ExcessEntryPositive(o: Option<BarrierOutcome>, num: Numerics, d: Pair, i: nat, p: LabelParams)
    requires i < |d.closes| && IsExcessBarrier(o, num, d, i, p)
    ensures o.Some? ==> d.closes[i] > 0.0
  {
    hide IsFirstExcess;
  }

  /** What becomes of a vote, from its bars and its label. */
  lemma VerdictInFull(s: Resolver, fetched: seq<Fetched>, bars: seq<Bar>, at: int, signal: Vote, now: int, entry: int,
                      o: Option<BarrierOutcome>)
    requires IsEntry(bars, at, entry) && IsOutcome(s, fetched, bars, entry, o)
    ensures IsVerdict(VerdictOn(s, fetched, bars, at, signal, now), s, bars, entry, o, at, signal, now)
  {
    hide OutcomeAt, Leading, IsEntry, IsExcessBarrier, IsTripleBarrier, BenchmarkLeg;
    EntryIsLeading(bars, at, entry);
    if entry >= 0 && entry >= s.params.sigmaWindow {
      OutcomeIs(s, fetched, bars, entry, o);
      if o.Some? {
        OutcomeInside(s, fetched, bars, entry);
      }
    }
  }

  /** What a run leaves of a record: resolved with the label, the signed return and whether they agree; resolved with
      nothing once too old; else as it was. */
  ghost predicate IsSettled(after: Fate, before: Fate, s: Resolver, bars: seq<Bar>, entry: int,
                            o: Option<BarrierOutcome>, at: int, signal: Vote, now: int) {
    match o
    case None =>
      after == if now - at > s.dropAfterDays * 86_400_000_000 then Fate(true, None, None, None, Some(now)) else before
    case Some(b) =>
      && 0 <= entry < |bars| && b.touchIndex < |bars| && bars[entry].close > 0.0
      && var gain := bars[b.touchIndex].close / bars[entry].close - 1.0;
         after == Fate(true, Some(b.up), Some(if signal == BUY then gain else -gain),
                       Some(if signal == BUY then b.up == 1 else b.up != 1), Some(now))
  }

  /** The vote met its label on these bars. */
  ghost predicate MetLabel(after: Fate, before: Fate, s: Resolver, fetched: seq<Fetched>, bars: seq<Bar>, at: int,
                           signal: Vote, now: int) {
    exists entry, o :: IsEntry(bars, at, entry) && IsOutcome(s, fetched, bars, entry, o)
                       && IsSettled(after, before, s, bars, entry, o, at, signal, now)
  }

  lemma LeadingIsEntry(bars: seq<Bar>, at: int)
    ensures IsEntry(bars, at, Leading(bars, DayOf(at)) - 1)
  {
  }

  lemma OutcomeExists(s: Resolver, fetched: seq<Fetched>, bars: seq<Bar>, entry: int)
  returns (o: Option<BarrierOutcome>)
    ensures IsOutcome(s, fetched, bars, entry, o)
  {
    hide BenchmarkLeg, TripleBarrierLabel, ExcessBarrierLabel, IsTripleBarrier, IsExcessBarrier;
    if entry < 0 || entry < s.params.sigmaWindow || entry >= |bars| {
      o := None;
    } else {
      o := OutcomeAt(s, fetched, bars, entry);
      if s.excess {
        ExcessBarrierInFull(s.num, Pair(Closes(bars), BenchmarkLeg(s, fetched, bars)), entry, s.params);
      } else {
        TripleBarrierInFull(s.num, Closes(bars), Highs(bars), Lows(bars), entry, s.params);
      }
    }
  }

  lemma VerdictSettles(s: Resolver, fetched: seq<Fetched>, bars: seq<Bar>, at: int, signal: Vote, now: int,
                       before: Fate)
    ensures MetLabel(FateOf(VerdictOn(s, fetched, bars, at, signal, now), before, now), before, s, fetched, bars, at,
                     signal, now)
  {
    hide VerdictOn, Leading, IsOutcome, IsEntry;
    var entry := Leading(bars, DayOf(at)) - 1;
    LeadingIsEntry(bars, at);
    var o := OutcomeExists(s, fetched, bars, entry);
    VerdictInFull(s, fetched, bars, at, signal, now, entry, o);
    assert IsSettled(FateOf(VerdictOn(s, fetched, bars, at, signal, now), before, now), before, s, bars, entry, o, at,
                     signal, now);
  }

  // ----- the run over the pending votes

  function VerdictOf(s: Resolver, fetched: seq<Fetched>, r: InferenceRecord, now: int): Verdict {
    VerdictFor(s, fetched, r.symbol, r.at, r.signal, now)
  }

  /** The signed returns of the votes decided, in order. */
  function SignedReturns(s: Resolver, fetched: seq<Fetched>, pending: seq<InferenceRecord>, now: int): seq<real> {
    if pending == [] then [] else
      var n := |pending| - 1;
      var v := VerdictOf(s, fetched, pending[n], now);
      SignedReturns(s, fetched, pending[..n], now) + if v.Decide? then [v.signedReturn] else []
  }

  method ResolveOne(s: Resolver, log: InferenceLog, record: InferenceRecord, now: int, fetched: seq<Fetched>,
                    bars: seq<Bar>)
    returns (outcome: Option<real>)
    requires bars == if SeriesOf(fetched, record.symbol).Some? then SeriesOf(fetched, record.symbol).value else []
    modifies record
    ensures record.Outcome() == FateOf(VerdictOf(s, fetched, record, now), old(record.Outcome()), now)
    ensures outcome == match VerdictOf(s, fetched, record, now) case Decide(_, signed, _) => Some(signed) case _ => None
  {
    hide OutcomeAt, Leading, SeriesOf, DayOf;
    var entry := EntryIndex(bars, DayOf(record.at));
    var tooOld := TooOld(s, record.at, now);
    if entry.None? || entry.value < s.params.sigmaWindow {
      if tooOld {
        log.Resolve(record, None, None, None, now);
      }
      return None;
    }
    var o := OutcomeAt(s, fetched, bars, entry.value);
    if o.None? {
      if tooOld {
        log.Resolve(record, None, None, None, now);
      }
      return None;
    }
    OutcomeInside(s, fetched, bars, entry.value);
    var raw := Ratio(bars[o.value.touchIndex].close, bars[entry.value].close) - 1.0;
    var signed := if record.signal == BUY then raw else -raw;
    log.Resolve(record, Some(o.value.up), Some(signed), Some((o.value.up == 1) == (record.signal == BUY)), now);
    return Some(signed);
  }

  /** `bars_by_symbol.get(symbol, [])` */
  method LookUp(fetched: seq<Fetched>, symbol: string) returns (bars: seq<Bar>)
    ensures bars == if SeriesOf(fetched, symbol).Some? then SeriesOf(fetched, symbol).value else []
  {
    var found := SeriesOf(fetched, symbol);
    bars := if found.Some? then found.value else [];
  }

  // ----- what a run reads: one answer per pending symbol

  function Names(pending: seq<InferenceRecord>): (r: seq<string>)
    ensures |r| == |pending| && forall k | 0 <= k < |r| :: r[k] == pending[k].symbol
  {
    seq(|pending|, k requires 0 <= k < |pending| => pending[k].symbol)
  }

  function Fetch(market: string -> seq<Bar>, symbols: seq<string>): (r: seq<Fetched>)
    ensures |r| == |symbols| && forall k | 0 <= k < |r| :: r[k] == Fetched(symbols[k], market(symbols[k]))
  {
    seq(|symbols|, k requires 0 <= k < |symbols| => Fetched(symbols[k], market(symbols[k])))
  }

  /** The panel the benchmark is rebuilt from: the symbols of the votes pending now. */
  function PendingPanel(market: string -> seq<Bar>, pending: seq<InferenceRecord>): seq<Fetched> {
    Fetch(market, Symbols.Sorted(Names(pending)))
  }

  method FetchAll(market: string -> seq<Bar>, symbols: seq<string>) returns (fetched: seq<Fetched>)
    ensures fetched == Fetch(market, symbols)
  {
    fetched := [];
    for k := 0 to |symbols|
      invariant fetched == Fetch(market, symbols[..k])
    {
      fetched := fetched + [Fetched(symbols[k], market(symbols[k]))];
    }
    assert symbols[..|symbols|] == symbols;
  }

  /** The loop over the pending votes: each meets its verdict on what was fetched. */
  method ResolveEach(s: Resolver, log: InferenceLog, modelId: string, now: int, pending: seq<InferenceRecord>,
                     fetched: seq<Fetched>)
    returns (resolved: seq<real>)
    requires pending == PendingAmong(log.Of(modelId))
    modifies pending
    ensures log.Of(modelId) == old(log.Of(modelId)) && resolved == SignedReturns(s, fetched, pending, now)
    ensures forall r | r in log.Of(modelId) && old(r.Pending()) ::
              r.Outcome() == FateOf(VerdictOf(s, fetched, r, now), old(r.Outcome()), now)
    ensures forall r | r in log.Of(modelId) && !old(r.Pending()) :: r.Outcome() == old(r.Outcome())
  {
    hide VerdictOf, TooOld, SeriesOf, FateOf, PendingAmong;
    ghost var all := log.Of(modelId);
    PendingAmongMeaning(all);
    resolved := [];
    for i := 0 to |pending|
      invariant log.Of(modelId) == all
      invariant resolved == SignedReturns(s, fetched, pending[..i], now)
      invariant forall r | r in all && r in pending[..i] ::
                  r.Outcome() == FateOf(VerdictOf(s, fetched, r, now), old(r.Outcome()), now)
      invariant forall r | r in all && r !in pending[..i] :: r.Outcome() == old(r.Outcome())
    {
      var record := pending[i];
      assert record in all;
      assert pending[..i + 1] == pending[..i] + [record];
      assert pending[..i + 1][..i] == pending[..i];
      FateAgain(VerdictOf(s, fetched, record, now), old(record.Outcome()), now);
      var bars := LookUp(fetched, record.symbol);
      var outcome := ResolveOne(s, log, record, now, fetched, bars);
      if outcome.Some? {
        resolved := resolved + [outcome.value];
      }
    }
    assert pending[..|pending|] == pending;
  }

  /** Every pending vote meets its verdict on the panel of the pending symbols, nothing else in the log is touched, and
      afterwards no pending vote is older than the limit. `market` is the market service's answer for a symbol. */
  method ResolvePending(s: Resolver, log: InferenceLog, modelId: string, now: int, market: string -> seq<Bar>)
    returns (resolved: seq<real>)
    modifies PendingAmong(log.Of(modelId))
    ensures log.Of(modelId) == old(log.Of(modelId))
    ensures var fetched := PendingPanel(market, old(PendingAmong(log.Of(modelId))));
            && resolved == SignedReturns(s, fetched, old(PendingAmong(log.Of(modelId))), now)
            && forall r | r in log.Of(modelId) && old(r.Pending()) ::
                 r.Outcome() == FateOf(VerdictOf(s, fetched, r, now), old(r.Outcome()), now)
    ensures var fetched := PendingPanel(market, old(PendingAmong(log.Of(modelId))));
            forall r | r in log.Of(modelId) && old(r.Pending()) ::
              MetLabel(r.Outcome(), old(r.Outcome()), s, fetched, market(r.symbol), r.at, r.signal, now)
    ensures forall r | r in log.Of(modelId) && !old(r.Pending()) :: r.Outcome() == old(r.Outcome())
    ensures forall r | r in log.Of(modelId) && r.Pending() :: now - r.at <= s.dropAfterDays * 86_400_000_000
  {
    hide VerdictOf, SeriesOf, FateOf, PendingAmong, SignedReturns, Fetch, Symbols.Sorted, Names, MetLabel;
    var pending := log.ListPending(modelId);
    PendingAmongMeaning(log.Of(modelId));
    var fetched := FetchAll(market, Symbols.Sorted(Names(pending)));
    resolved := ResolveEach(s, log, modelId, now, pending, fetched);
    forall r | r in log.Of(modelId) && r.Pending() ensures now - r.at <= s.dropAfterDays * 86_400_000_000 {
      OnlyKeptArePending(s, fetched, r.symbol, r.at, r.signal, now, old(r.Outcome()));
      AsVerdictFor(s, fetched, r, now);
    }
    forall r | r in log.Of(modelId) && old(r.Pending())
      ensures MetLabel(r.Outcome(), old(r.Outcome()), s, fetched, market(r.symbol), r.at, r.signal, now)
    {
      assert r in pending;
      NamesHas(pending, r);
      RecordMetLabel(s, market, pending, r.symbol, r.at, r.signal, now, old(r.Outcome()));
      AsVerdictFor(s, fetched, r, now);
    }
  }

  lemma NamesHas(pending: seq<InferenceRecord>, r: InferenceRecord)
    requires r in pending
    ensures r.symbol in Names(pending)
  {
    var k :| 0 <= k < |pending| && pending[k] == r;
    assert Names(pending)[k] == r.symbol;
  }

  lemma RecordMetLabel(s: Resolver, market: string -> seq<Bar>, pending: seq<InferenceRecord>, symbol: string, at: int,
                       signal: Vote, now: int, before: Fate)
    requires symbol in Names(pending)
    ensures var fetched := PendingPanel(market, pending);
            MetLabel(FateOf(VerdictFor(s, fetched, symbol, at, signal, now), before, now), before, s, fetched,
                     market(symbol), at, signal, now)
  {
    hide VerdictOn, MetLabel, FateOf, Symbols.Sorted, SeriesOf;
    Symbols.SortedMeaning(Names(pending));
    SeriesFetched(market, Symbols.Sorted(Names(pending)), symbol);
    VerdictSettles(s, PendingPanel(market, pending), market(symbol), at, signal, now, before);
  }

  lemma {:induction false} SeriesFetched(market: string -> seq<Bar>, symbols: seq<string>, symbol: string)
    ensures SeriesOf(Fetch(market, symbols), symbol) == if symbol in symbols then Some(market(symbol)) else None
  {
    if symbols != [] {
      SeriesFetched(market, symbols[1..], symbol);
      assert Fetch(market, symbols)[1..] == Fetch(market, symbols[1..]);
    }
  }

  lemma OnlyKeptArePending(s: Resolver, fetched: seq<Fetched>, symbol: string, at: int, signal: Vote, now: int,
                           before: Fate)
    ensures var v := VerdictFor(s, fetched, symbol, at, signal, now);
            !FateOf(v, before, now).resolved ==> v == Keep && !TooOld(s, at, now)
  {
    hide VerdictFor, TooOld;
    KeptIsYoung(s, fetched, symbol, at, signal, now);
  }

  lemma AsVerdictFor(s: Resolver, fetched: seq<Fetched>, r: InferenceRecord, now: int)
    ensures VerdictOf(s, fetched, r, now) == VerdictFor(s, fetched, r.symbol, r.at, r.signal, now)
  {
    hide VerdictFor;
  }

  /** Three horizons of sessions at their average rate, in microseconds, fit in the cutoff. */
  lemma CutoffCovers(horizon: nat, span: int)
    requires span as real <= 3.0 * (horizon as real) * 365.25 / 252.0 * (MICROSECONDS_PER_DAY as real)
    ensures span <= OutcomeDropAfterDays(horizon) * MICROSECONDS_PER_DAY
  {
    DropAfterDaysMeaning(horizon);
    var days := OutcomeDropAfterDays(horizon);
    assert span as real <= days as real * (MICROSECONDS_PER_DAY as real) == (days * MICROSECONDS_PER_DAY) as real;
  }

  /** The log's depth and the cutoff agree with the horizon: while the `horizon` sessions of a vote's label window go
      by, taking no more than three times their average days, the vote is neither evicted nor given up on, so it
      stays pending or is resolved with a label. */
  lemma VoteReachesItsLabel(s: Resolver, fetched: seq<Fetched>, log: seq<InferenceRecord>, early: seq<InferenceRecord>,
                            vote: InferenceRecord, late: seq<InferenceRecord>, further: seq<seq<InferenceRecord>>,
                            universe: nat, now: int)
    requires s.dropAfterDays == OutcomeDropAfterDays(s.params.horizon) && s.params.horizon >= 1
    requires (now - vote.at) as real
          <= 3.0 * (s.params.horizon as real) * 365.25 / 252.0 * (MICROSECONDS_PER_DAY as real)
    requires |log| <= RetentionFor(universe, s.params.horizon) && |early| + 1 + |late| <= universe
    requires |further| <= s.params.horizon && forall k | 0 <= k < |further| :: |further[k]| <= universe
    ensures vote in AppendAll(log, early + [vote] + late + Flatten(further), RetentionFor(universe, s.params.horizon))
    ensures var fate := FateOf(VerdictOf(s, fetched, vote, now), UNRESOLVED, now); fate.resolved ==>
              fate.classLabel.Some?
  {
    hide OutcomeDropAfterDays, VerdictFor, AppendAll, RetentionFor, Flatten;
    CutoffCovers(s.params.horizon, now - vote.at);
    KeptIsYoung(s, fetched, vote.symbol, vote.at, vote.signal, now);
    VoteIsRetained(log, early, vote, late, further, universe, s.params.horizon);
  }

  /** A record logged twice meets the same fate twice. */
  lemma FateAgain(v: Verdict, before: Fate, now: int)
    ensures FateOf(v, FateOf(v, before, now), now) == FateOf(v, before, now)
  {
  }

  /** A decided vote is paid exactly when the price went its way by the touch, and is correct when the label says so. */
  lemma DecisionMeaning(bars: seq<Bar>, entry: nat, o: BarrierOutcome, signal: Vote)
    requires entry < |bars| && o.touchIndex < |bars| && bars[entry].close > 0.0 && bars[o.touchIndex].close > 0.0
    requires signal == BUY || signal == SELL
    ensures var d := Decision(bars, entry, o, signal);
            && (d.signedReturn > 0.0 <==> if signal == BUY then bars[o.touchIndex].close > bars[entry].close
                                          else bars[o.touchIndex].close < bars[entry].close)
            && (d.correct <==> if signal == BUY then o.up == 1 else o.up != 1)
  {
    RatioAgainstOne(bars[o.touchIndex].close, bars[entry].close);
  }

  lemma RatioAgainstOne(a: real, b: real)
    requires b > 0.0
    ensures Ratio(a, b) > 1.0 <==> a > b
    ensures Ratio(a, b) < 1.0 <==> a < b
  {
    assert a == Ratio(a, b) * b;
  }

  // ----- it does not matter when a vote is decided

  lemma LeadingPrefix(bars: seq<Bar>, more: seq<Bar>, day: int)
    requires Leading(bars, day) < |bars|
    ensures Leading(bars + more, day) == Leading(bars, day)
  {
    hide DayOf;
    LeadingUnique(bars + more, day, Leading(bars, day));
  }

  /** A decision made on the bars so far stands when more arrive (absolute label). */
  lemma DecisionStands(s: Resolver, early: seq<Fetched>, late: seq<Fetched>, bars: seq<Bar>, more: seq<Bar>, at: int,
                       signal: Vote, now: int, later: int)
    requires !s.excess && VerdictOn(s, early, bars, at, signal, now).Decide?
    ensures VerdictOn(s, late, bars + more, at, signal, later) == VerdictOn(s, early, bars, at, signal, now)
  {
    hide *;
    var all := bars + more;
    var entry := DecidedMeans(s, early, bars, at, signal, now);
    EntryNotLast(s, early, bars, entry);
    LabelOf(s, early, bars, entry);
    LabelOf(s, late, all, entry);
    SharedPrices(bars, more, OutcomeAt(s, early, bars, entry).value.touchIndex + 1);
    TripleBarrierStable(s.num, Closes(bars), Highs(bars), Lows(bars), Closes(all), Highs(all), Lows(all), entry,
                        s.params);
    SameOutcomeSameVerdict(s, early, late, bars, more, at, signal, now, later, entry);
  }

  lemma SharedPrices(bars: seq<Bar>, more: seq<Bar>, n: nat)
    requires n <= |bars|
    ensures AgreeTo(Closes(bars), Closes(bars + more), n) && AgreeTo(Highs(bars), Highs(bars + more), n)
    ensures AgreeTo(Lows(bars), Lows(bars + more), n)
  {
  }

  /** Every series gains some bars. */
  function Extended(fetched: seq<Fetched>, more: seq<seq<Bar>>): (r: seq<Fetched>)
    requires |more| == |fetched|
    ensures |r| == |fetched| && forall j | 0 <= j < |r| :: r[j] == Fetched(fetched[j].symbol, fetched[j].bars + more[j])
  {
    seq(|fetched|, j requires 0 <= j < |fetched| => Fetched(fetched[j].symbol, fetched[j].bars + more[j]))
  }

  function MarketMore(more: seq<seq<Bar>>): (r: seq<seq<MarketPath.Bar>>)
    ensures |r| == |more| && forall j | 0 <= j < |r| :: r[j] == MarketBars(more[j])
  {
    seq(|more|, j requires 0 <= j < |more| => MarketBars(more[j]))
  }

  lemma ExcessIsPanelLabel(s: Resolver, fetched: seq<Fetched>, k: nat, entry: nat)
    requires s.excess && k < |fetched| && entry < |fetched[k].bars|
    ensures OutcomeAt(s, fetched, fetched[k].bars, entry)
         == MarketPath.PanelLabel(s.num, s.stats, MarketPanel(fetched), None, k, entry, s.params)
  {
    hide ExcessBarrierLabel, MarketPath.Levels, MarketPath.Project;
    assert MarketPath.Closes(MarketBars(fetched[k].bars)) == Closes(fetched[k].bars);
  }

  lemma ExtendedPanel(fetched: seq<Fetched>, more: seq<seq<Bar>>)
    requires |more| == |fetched|
    ensures MarketPanel(Extended(fetched, more)) == PanelLabels.Append(MarketPanel(fetched), MarketMore(more))
  {
    forall j | 0 <= j < |fetched|
      ensures MarketBars(fetched[j].bars + more[j]) == MarketBars(fetched[j].bars) + MarketBars(more[j])
    {
    }
  }

  /** The label of bar `entry` of series `k` is decided, and every new bar is dated after its touch. */
  ghost predicate SettledBefore(s: Resolver, fetched: seq<Fetched>, more: seq<seq<Bar>>, k: nat, entry: int) {
    && k < |fetched| == |more| && 0 <= entry < |fetched[k].bars|
    && PanelLabels.Chronological(MarketBars(fetched[k].bars))
    && var o := OutcomeAt(s, fetched, fetched[k].bars, entry);
       && o.Some? && o.value.touchIndex < |fetched[k].bars|
       && forall j | 0 <= j < |more| ::
            PanelLabels.AllAfter(MarketBars(more[j]), fetched[k].bars[o.value.touchIndex].ts)
  }

  lemma ExcessOutcomeStands(s: Resolver, fetched: seq<Fetched>, more: seq<seq<Bar>>, k: nat, entry: nat)
    requires s.excess && SettledBefore(s, fetched, more, k, entry)
    ensures OutcomeAt(s, Extended(fetched, more), fetched[k].bars + more[k], entry)
         == OutcomeAt(s, fetched, fetched[k].bars, entry)
  {
    hide OutcomeAt, MarketPath.PanelLabel;
    ExcessIsPanelLabel(s, fetched, k, entry);
    ExcessIsPanelLabel(s, Extended(fetched, more), k, entry);
    ExtendedPanel(fetched, more);
    PanelLabels.PanelLabelStable(s.num, s.stats, MarketPanel(fetched), MarketMore(more), None, k, entry, s.params);
  }

  /** So does one under an excess label, over the same panel of symbols, when every new bar of any of them is dated
      after the touch. */
  lemma ExcessDecisionStands(s: Resolver, fetched: seq<Fetched>, more: seq<seq<Bar>>, k: nat, at: int, signal: Vote,
                             now: int, later: int)
    requires s.excess && k < |fetched| == |more|
    requires VerdictOn(s, fetched, fetched[k].bars, at, signal, now).Decide?
    requires SettledBefore(s, fetched, more, k, Leading(fetched[k].bars, DayOf(at)) - 1)
    ensures VerdictOn(s, Extended(fetched, more), fetched[k].bars + more[k], at, signal, later)
         == VerdictOn(s, fetched, fetched[k].bars, at, signal, now)
  {
    hide *;
    var entry := DecidedMeans(s, fetched, fetched[k].bars, at, signal, now);
    ExcessOutcomeStands(s, fetched, more, k, entry);
    SameOutcomeSameVerdict(s, fetched, Extended(fetched, more), fetched[k].bars, more[k], at, signal, now, later,
                           entry);
  }

  lemma SameOutcomeSameVerdict(s: Resolver, early: seq<Fetched>, late: seq<Fetched>, bars: seq<Bar>, more: seq<Bar>,
                               at: int,
                               signal: Vote, now: int, later: int, entry: nat)
    requires Leading(bars, DayOf(at)) == entry + 1 && s.params.sigmaWindow <= entry < |bars|
    requires OutcomeAt(s, early, bars, entry).Some?
    requires OutcomeAt(s, late, bars + more, entry) == OutcomeAt(s, early, bars, entry)
    ensures VerdictOn(s, late, bars + more, at, signal, later) == VerdictOn(s, early, bars, at, signal, now)
  {
    hide *;
    EntryNotLast(s, early, bars, entry);
    LeadingPrefix(bars, more, DayOf(at));
    VerdictIs(s, early, bars, at, signal, now, entry);
    VerdictIs(s, late, bars + more, at, signal, later, entry);
    SameDecision(bars, more, entry, OutcomeAt(s, early, bars, entry).value, signal);
  }

  lemma DecidedMeans(s: Resolver, fetched: seq<Fetched>, bars: seq<Bar>, at: int, signal: Vote,
                     now: int) returns (entry: nat)
    requires VerdictOn(s, fetched, bars, at, signal, now).Decide?
    ensures Leading(bars, DayOf(at)) == entry + 1 && s.params.sigmaWindow <= entry < |bars|
    ensures var o := OutcomeAt(s, fetched, bars, entry);
            o.Some? && o.value.touchIndex < |bars|
            && VerdictOn(s, fetched, bars, at, signal, now) == Decision(bars, entry, o.value, signal)
  {
    hide OutcomeAt, Leading, DayOf, Decision, WhenUndecided;
    NeverDecides(s, at, now);
    entry := Leading(bars, DayOf(at)) - 1;
    OutcomeInside(s, fetched, bars, entry);
  }

  lemma NeverDecides(s: Resolver, at: int, now: int)
    ensures !WhenUndecided(s, at, now).Decide?
  {
  }

  lemma VerdictIs(s: Resolver, fetched: seq<Fetched>, bars: seq<Bar>, at: int, signal: Vote, now: int, entry: nat)
    requires Leading(bars, DayOf(at)) == entry + 1 && s.params.sigmaWindow <= entry < |bars|
    requires OutcomeAt(s, fetched, bars, entry).Some?
    ensures var o := OutcomeAt(s, fetched, bars, entry).value;
            o.touchIndex < |bars| && VerdictOn(s, fetched, bars, at, signal, now) == Decision(bars, entry, o, signal)
  {
    hide OutcomeAt, Leading, DayOf, Decision, WhenUndecided;
    OutcomeInside(s, fetched, bars, entry);
  }

  lemma SameDecision(bars: seq<Bar>, more: seq<Bar>, entry: nat, o: BarrierOutcome, signal: Vote)
    requires entry < |bars| && o.touchIndex < |bars|
    ensures Decision(bars + more, entry, o, signal) == Decision(bars, entry, o, signal)
  {
    hide Ratio;
  }

  lemma EntryNotLast(s: Resolver, fetched: seq<Fetched>, bars: seq<Bar>, entry: nat)
    requires entry < |bars| && OutcomeAt(s, fetched, bars, entry).Some?
    ensures entry + 1 < |bars|
  {
    hide Resolve, TrailingSigma, ResolveExcess, ExcessSigma, BenchmarkLeg;
  }
}

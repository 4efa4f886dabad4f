/** Regimes by day: the per-day query (`regime_on`) and the single-cursor sweep (`regime_history`). */
module MacroService {
  import opened Common
  import opened Sorting
  import opened Regime
  import opened MacroStore

  /** The regime as classified from what was public on `day`. */
  ghost predicate IsRegimeOn(r: Option<MacroRegime>, table: map<Key, real>, day: int, t: Thresholds) {
    exists latest :: PointInTime(latest, table, day) && r == RegimeOf(latest, t)
  }

  lemma RegimeOnUnique(a: Option<MacroRegime>, b: Option<MacroRegime>, table: map<Key, real>, day: int, t: Thresholds)
    requires IsRegimeOn(a, table, day, t) && IsRegimeOn(b, table, day, t)
    ensures a == b
  {
    hide PointInTime, RegimeOf;
    var la :| PointInTime(la, table, day) && a == RegimeOf(la, t);
    var lb :| PointInTime(lb, table, day) && b == RegimeOf(lb, t);
    ReadingIsPointInTime(la, table, day);
    ReadingIsPointInTime(lb, table, day);
    ReadingUnique(la, lb, table, VisibleKeys(table, day));
  }

  /** `regime_on` */
  method RegimeOn(store: SqlMacroStore, day: int, rank: string -> int, t: Thresholds) returns (r: Option<MacroRegime>)
    ensures IsRegimeOn(r, store.table.rows, day, t)
  {
    var latest := store.AsOf(day, rank);
    var indicators := DeriveSpreads(latest);
    r := ClassifyRegime(Reading(indicators, "T10Y2Y"), Reading(indicators, "BAA10Y"), Reading(indicators, "PMI"), t);
  }

  // ----- the sweep

  /** `max(observation_date, realtime_start or _NEVER)` */
  function VisibleFrom(o: Observation): int {
    MaxInt(o.period, if o.vintage.None? then NEVER else o.vintage.value)
  }

  function BySchedule(rank: string -> int): (Observation, Observation) -> bool {
    (a: Observation, b: Observation) =>
      VisibleFrom(a) < VisibleFrom(b) || (VisibleFrom(a) == VisibleFrom(b) && rank(a.series) <= rank(b.series))
  }

  lemma ByScheduleTotal(rank: string -> int)
    ensures TotalPreorder(BySchedule(rank))
  {
  }

  datatype Held = Held(period: int, vintage: int, value: real)

  /** The dated rows among the first `n` pending ones. */
  ghost function Seen(pending: seq<Observation>, n: nat): set<Key>
    requires n <= |pending|
  {
    if n == 0 then {} else
      Seen(pending, n - 1) + (if pending[n - 1].vintage.Some? then {KeyOf(pending[n - 1])} else {})
  }

  /** What is in force: per series, the newest dated row seen, never a stale period or vintage. */
  ghost predicate InForce(current: map<string, Held>, table: map<Key, real>, seen: set<Key>) {
    && (forall k | k in seen :: k.series in current)
    && (forall s | s in current ::
          var k := Key(s, current[s].period, current[s].vintage);
          IsNewest(k, seen, s) && k in table && table[k] == current[s].value)
  }

  function Values(current: map<string, Held>): (r: map<string, real>)
    ensures r.Keys == current.Keys && forall s | s in r :: r[s] == current[s].value
  {
    map s | s in current :: current[s].value
  }

  lemma InForceIsReading(current: map<string, Held>, table: map<Key, real>, seen: set<Key>)
    requires InForce(current, table, seen)
    ensures IsReading(Values(current), table, seen)
  {
  }

  /** A pending row from the panel, when dated, is a stored row. */
  ghost predicate Stored(o: Observation, table: map<Key, real>) {
    o.vintage.Some? ==> KeyOf(o) in table && table[KeyOf(o)] == o.value
  }

  lemma PanelRowsStored(panel: seq<Observation>, table: map<Key, real>, o: Observation)
    requires IsPanel(panel, table) && o in panel
    ensures Stored(o, table)
  {
    var k :| k in table && IsRow(o, k, table[k]);
  }

  /** One pending row taken into account: an undated one is skipped, an older one does not displace. */
  method Absorb(current: map<string, Held>, ghost table: map<Key, real>, ghost seen: set<Key>, o: Observation)
    returns (next: map<string, Held>)
    requires InForce(current, table, seen) && Stored(o, table)
    ensures InForce(next, table, if o.vintage.Some? then seen + {KeyOf(o)} else seen)
  {
    next := current;
    if o.vintage.Some? {
      var candidate := Held(o.period, o.vintage.value, o.value);
      if o.series !in current
        || candidate.period > current[o.series].period
        || (candidate.period == current[o.series].period && candidate.vintage > current[o.series].vintage) {
        next := current[o.series := candidate];
      }
      AbsorbKeepsInForce(current, table, seen, o, next);
    }
  }

  lemma AbsorbKeepsInForce(current: map<string, Held>, table: map<Key, real>, seen: set<Key>, o: Observation,
                           next: map<string, Held>)
    requires InForce(current, table, seen) && o.vintage.Some? && Stored(o, table)
    requires var c := Held(o.period, o.vintage.value, o.value);
             next == if o.series !in current
                        || !NotLater(KeyOf(o), Key(o.series, current[o.series].period, current[o.series].vintage))
                     then current[o.series := c] else current
    ensures InForce(next, table, seen + {KeyOf(o)})
  {
    var seen' := seen + {KeyOf(o)};
    forall s | s in next
      ensures var k := Key(s, next[s].period, next[s].vintage);
              IsNewest(k, seen', s) && k in table && table[k] == next[s].value
    {
      var k := Key(s, next[s].period, next[s].vintage);
      if s != o.series {
        assert next[s] == current[s];
      } else if o.series !in current {
        assert forall x | x in seen :: x.series != s;
      } else {
        var held := Key(s, current[s].period, current[s].vintage);
        assert IsNewest(held, seen, s);
        assert k == held || k == KeyOf(o);
      }
    }
  }

  /** Up to `day` the cursor has passed exactly the rows that `as_of(day)` would see. */
  lemma {:induction false} SeenMeaning(pending: seq<Observation>, n: nat, k: Key)
    requires n <= |pending|
    ensures k in Seen(pending, n) <==> exists i :: 0 <= i < n && pending[i].vintage.Some? && KeyOf(pending[i]) == k
  {
    if n > 0 {
      SeenMeaning(pending, n - 1, k);
    }
  }

  ghost predicate CursorAt(pending: seq<Observation>, cursor: nat, day: int) {
    && cursor <= |pending|
    && (forall i | 0 <= i < cursor :: VisibleFrom(pending[i]) <= day)
    && (forall i | cursor <= i < |pending| :: VisibleFrom(pending[i]) > day)
  }

  lemma CursorSeesVisible(pending: seq<Observation>, table: map<Key, real>, cursor: nat, day: int)
    requires IsPanel(pending, table)
    requires CursorAt(pending, cursor, day) && day < NEVER
    ensures Seen(pending, cursor) == VisibleKeys(table, day)
    ensures forall k :: k in Seen(pending, cursor) <==> k in table && k.vintage <= day && k.period <= day
  {
    forall k ensures k in Seen(pending, cursor) <==> k in VisibleKeys(table, day) {
      SeenMeaning(pending, cursor, k);
      if i :| 0 <= i < cursor && pending[i].vintage.Some? && KeyOf(pending[i]) == k {
        assert pending[i] in pending;
        var k' :| k' in table && IsRow(pending[i], k', table[k']);
        assert k' == k;
      }
      if k in VisibleKeys(table, day) {
        var o := ToSchema(k, table[k]);
        assert IsRow(o, k, table[k]);
        assert o in pending;
        var i :| 0 <= i < |pending| && pending[i] == o;
        assert i < cursor;
      }
    }
  }

  /** Advance the cursor over every row visible by `day`. */
  method Advance(pending: seq<Observation>, ghost table: map<Key, real>, cursor: nat, current: map<string, Held>,
                 day: int)
    returns (cursor': nat, current': map<string, Held>)
    requires cursor <= |pending| && (forall i | 0 <= i < |pending| :: Stored(pending[i], table))
    requires forall i, j | 0 <= i < j < |pending| :: VisibleFrom(pending[i]) <= VisibleFrom(pending[j])
    requires forall i | 0 <= i < cursor :: VisibleFrom(pending[i]) <= day
    requires InForce(current, table, Seen(pending, cursor))
    ensures CursorAt(pending, cursor', day) && InForce(current', table, Seen(pending, cursor'))
  {
    hide InForce, Stored;
    cursor', current' := cursor, current;
    while cursor' < |pending|
      invariant cursor <= cursor' <= |pending|
      invariant forall i | 0 <= i < cursor' :: VisibleFrom(pending[i]) <= day
      invariant InForce(current', table, Seen(pending, cursor'))
    {
      var o := pending[cursor'];
      if VisibleFrom(o) > day {
        break;
      }
      assert Stored(pending[cursor'], table);
      current' := Absorb(current', table, Seen(pending, cursor'), o);
      SeenStep(pending, cursor');
      cursor' := cursor' + 1;
    }
  }

  lemma SeenStep(pending: seq<Observation>, n: nat)
    requires n < |pending|
    ensures Seen(pending, n + 1) == if pending[n].vintage.Some? then Seen(pending, n) + {KeyOf(pending[n])}
                                    else Seen(pending, n)
  {
  }

  /** The history answers a day exactly as the per-day query does. */
  ghost predicate AnswersDay(out: map<int, MacroRegime>, table: map<Key, real>, day: int, t: Thresholds) {
    IsRegimeOn(if day in out then Some(out[day]) else None, table, day, t)
  }

  /** `regime_history`, over the days `start..end`. `None` is the `OverflowError` of stepping past the last date:
      a range that reaches 9999-12-31 has no history at all. */
  method RegimeHistory(store: SqlMacroStore, start: int, end: int, rank: string -> int, t: Thresholds)
    returns (r: Option<map<int, MacroRegime>>)
    requires end <= NEVER
    ensures r.None? <==> start <= end == NEVER
    ensures r.Some? ==> forall day | day in r.value :: start <= day <= end
    ensures r.Some? ==> forall day | start <= day <= end :: AnswersDay(r.value, store.table.rows, day, t)
  {
    hide *;
    ghost var table := store.table.rows;
    var panel := store.Panel();
    var pending := StableSort(panel, BySchedule(rank));
    Scheduled(panel, table, pending, rank);
    var cursor: nat, current: map<string, Held> := 0, map[];
    var out: map<int, MacroRegime> := map[];
    var day := start;
    NothingInForce(table, pending);
    EmptyHistory(table, start, t);
    while day <= end
      invariant start <= day && (day == start || (day <= end + 1 && day <= NEVER))
      invariant cursor <= |pending| && PassedBefore(pending, cursor, day)
      invariant InForce(current, table, Seen(pending, cursor))
      invariant Answers(out, table, start, day, t)
      decreases end - day
    {
      PassedBy(pending, cursor, day);
      cursor, current := Advance(pending, table, cursor, current, day);
      CursorBounds(pending, cursor, day);
      var regime := ClassifyDay(current, t);
      DayAnswered(pending, table, cursor, current, day, t, start, out, regime);
      if regime.Some? {
        out := out[day := regime.value];
      }
      if day == NEVER {
        return None;
      }
      day := day + 1;
    }
    AnswersRange(out, table, start, end, day, t);
    r := Some(out);
  }

  method ClassifyDay(current: map<string, Held>, t: Thresholds) returns (r: Option<MacroRegime>)
    ensures r == RegimeOf(Values(current), t)
  {
    var visible := DeriveSpreads(Values(current));
    r := ClassifyRegime(Reading(visible, "T10Y2Y"), Reading(visible, "BAA10Y"), Reading(visible, "PMI"), t);
  }

  /** `out` holds days in `[start, day)` only, and answers each of them. */
  ghost predicate Answers(out: map<int, MacroRegime>, table: map<Key, real>, start: int, day: int, t: Thresholds) {
    && (forall d | d in out :: start <= d < day)
    && (forall d | start <= d < day && d < NEVER :: AnswersDay(out, table, d, t))
  }

  ghost predicate PassedBefore(pending: seq<Observation>, cursor: nat, day: int)
    requires cursor <= |pending|
  {
    forall i | 0 <= i < cursor :: VisibleFrom(pending[i]) < day
  }

  lemma PassedBy(pending: seq<Observation>, cursor: nat, day: int)
    requires cursor <= |pending| && PassedBefore(pending, cursor, day)
    ensures forall i | 0 <= i < cursor :: VisibleFrom(pending[i]) <= day
  {
  }

  lemma EmptyHistory(table: map<Key, real>, start: int, t: Thresholds)
    ensures Answers(map[], table, start, start, t)
  {
  }

  lemma AnswersRange(out: map<int, MacroRegime>, table: map<Key, real>, start: int, end: int, day: int, t: Thresholds)
    requires Answers(out, table, start, day, t) && start <= day && end < day
    requires day == start || (day == end + 1 && day <= NEVER)
    ensures forall d | d in out :: start <= d <= end
    ensures forall d | start <= d <= end :: AnswersDay(out, table, d, t)
  {
  }

  lemma Scheduled(panel: seq<Observation>, table: map<Key, real>, pending: seq<Observation>, rank: string -> int)
    requires IsPanel(panel, table) && pending == StableSort(panel, BySchedule(rank))
    ensures IsPanel(pending, table)
    ensures forall i | 0 <= i < |pending| :: Stored(pending[i], table)
    ensures forall i, j | 0 <= i < j < |pending| :: VisibleFrom(pending[i]) <= VisibleFrom(pending[j])
  {
    ByScheduleTotal(rank);
    StableSortSorts(panel, BySchedule(rank));
    MultisetSize(pending, panel);
    forall i | 0 <= i < |pending| ensures Stored(pending[i], table) {
      assert pending[i] in pending;
      PanelRowsStored(panel, table, pending[i]);
    }
    forall i, j | 0 <= i < j < |pending| ensures VisibleFrom(pending[i]) <= VisibleFrom(pending[j]) {
      assert BySchedule(rank)(pending[i], pending[j]);
    }
  }

  lemma NothingInForce(table: map<Key, real>, pending: seq<Observation>)
    ensures InForce(map[], table, Seen(pending, 0))
    ensures forall day :: PassedBefore(pending, 0, day)
  {
  }

  lemma CursorBounds(pending: seq<Observation>, cursor: nat, day: int)
    requires CursorAt(pending, cursor, day)
    ensures cursor <= |pending| && PassedBefore(pending, cursor, day + 1)
  {
  }

  lemma DayAnswered(pending: seq<Observation>, table: map<Key, real>, cursor: nat, current: map<string, Held>, day: int,
                    t: Thresholds, start: int, out: map<int, MacroRegime>, regime: Option<MacroRegime>)
    requires IsPanel(pending, table) && CursorAt(pending, cursor, day) && start <= day
    requires InForce(current, table, Seen(pending, cursor)) && regime == RegimeOf(Values(current), t)
    requires Answers(out, table, start, day, t)
    ensures Answers(if regime.Some? then out[day := regime.value] else out, table, start, day + 1, t)
  {
    hide AnswersDay, RegimeOf, InForce, CursorAt, IsPanel, Seen, Values;
    var out' := if regime.Some? then out[day := regime.value] else out;
    if day < NEVER {
      TodayAnswered(pending, table, cursor, current, day, t, out', regime);
    }
    forall d | start <= d < day && d < NEVER ensures AnswersDay(out', table, d, t) {
      OtherDay(out, out', table, d, t);
    }
  }

  lemma TodayAnswered(pending: seq<Observation>, table: map<Key, real>, cursor: nat, current: map<string, Held>,
                      day: int,
                      t: Thresholds, out: map<int, MacroRegime>, regime: Option<MacroRegime>)
    requires IsPanel(pending, table) && CursorAt(pending, cursor, day) && day < NEVER
    requires InForce(current, table, Seen(pending, cursor)) && regime == RegimeOf(Values(current), t)
    requires regime == if day in out then Some(out[day]) else None
    ensures AnswersDay(out, table, day, t)
  {
    CursorSeesVisible(pending, table, cursor, day);
    InForceIsReading(current, table, Seen(pending, cursor));
    ReadingIsPointInTime(Values(current), table, day);
    hide PointInTime, RegimeOf, InForce, CursorAt, IsPanel, Seen, Values, IsReading, VisibleKeys;
  }

  lemma OtherDay(before: map<int, MacroRegime>, out: map<int, MacroRegime>, table: map<Key, real>, day: int,
                 t: Thresholds)
    requires AnswersDay(before, table, day, t) && (day in out <==> day in before)
             && (day in before ==> out[day] == before[day])
    ensures AnswersDay(out, table, day, t)
  {
    hide IsRegimeOn;
  }

  /** The sweep's answer and the query's answer are the same one. */
  lemma HistoryRefinesQuery(out: map<int, MacroRegime>, r: Option<MacroRegime>, table: map<Key, real>, day: int,
                            t: Thresholds)
    requires AnswersDay(out, table, day, t) && IsRegimeOn(r, table, day, t)
    ensures day in out <==> r.Some?
    ensures day in out ==> r == Some(out[day])
  {
    RegimeOnUnique(r, if day in out then Some(out[day]) else None, table, day, t);
  }

  // ----- nothing published later is seen

  lemma UnseenRowReads(latest: map<string, real>, table: map<Key, real>, k: Key, value: real, day: int)
    requires k.vintage > day || k.period > day
    ensures PointInTime(latest, table, day) <==> PointInTime(latest, table[k := value], day)
  {
    var table', keys := table[k := value], VisibleKeys(table, day);
    ReadingIsPointInTime(latest, table, day);
    ReadingIsPointInTime(latest, table', day);
    assert k !in keys && VisibleKeys(table', day) == keys;
    hide PointInTime;
    forall s, n | IsNewest(n, keys, s) ensures n in table && n in table' && table[n] == table'[n] {
    }
  }

  /** Storing (or restating) a row published after `day`, or describing a later period, changes no answer for that
      day. */
  lemma LaterRowsChangeNothing(table: map<Key, real>, k: Key, value: real, day: int, r: Option<MacroRegime>,
                               t: Thresholds)
    requires k.vintage > day || k.period > day
    ensures IsRegimeOn(r, table, day, t) <==> IsRegimeOn(r, table[k := value], day, t)
  {
    hide RegimeOf, PointInTime;
    forall latest: map<string, real>
      ensures PointInTime(latest, table, day) <==> PointInTime(latest, table[k := value], day)
    {
      UnseenRowReads(latest, table, k, value, day);
    }
  }

  /** On the last date itself the store's read does see undated rows, and no history covers that date. */
  lemma UndatedRowVisibleAtTheEnd(value: real)
    ensures var k := Key("PMI", 0, UNKNOWN_VINTAGE);
            PointInTime(map["PMI" := value], map[k := value], NEVER) && PointInTime(map[], map[k := value], NEVER - 1)
  {
    var k := Key("PMI", 0, UNKNOWN_VINTAGE);
    assert map[k := value][k] == value;
  }
}

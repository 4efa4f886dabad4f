/** `MarketDataService` over the bar table and a cache whose key carries no limit. */
module MarketService {
  import opened Common
  import opened SortedInts
  import opened Upsert
  import opened Incremental

  /** The natural key is (symbol, interval, instant); a series is the first two. */
  datatype Series = Series(symbol: string, interval: string)

  datatype BarKey = BarKey(series: Series, ts: int)

  const UPSERT_CHUNK: nat := 2000

  /** One series' bars in the table. */
  function HistoryOf(rows: map<BarKey, Bar>, series: Series): History {
    map k | k in rows && k.series == series :: k.ts := rows[k]
  }

  /** What a fetch returns, as rows to write. */
  function Payload(series: Series, h: History): (r: seq<(BarKey, Bar)>)
    ensures |r| == |Chronological(h)|
    ensures forall i | 0 <= i < |r| :: r[i] == (BarKey(series, Chronological(h)[i].ts), Chronological(h)[i].bar)
  {
    var bars := Chronological(h);
    seq(|bars|, i requires 0 <= i < |bars| => (BarKey(series, bars[i].ts), bars[i].bar))
  }

  /** Each instant of the fetched window occurs once in the payload, with its bar. */
  lemma PayloadLast(series: Series, h: History, k: BarKey)
    ensures DistinctKeys(Payload(series, h))
    ensures LastFor(Payload(series, h), k) == if k.series == series && k.ts in h then Some(h[k.ts]) else None
  {
    var p := Payload(series, h);
    ChronologicalIs(h);
    hide Chronological;
    assert DistinctKeys(p);
    LastForKeys(p, k);
    if k.series == series && k.ts in h {
      var i :| 0 <= i < |p| && Chronological(h)[i].ts == k.ts;
      assert p[i] == (k, h[k.ts]);
      LastForDistinct(p, i);
    }
  }

  /** Saving a fetched window merges it into its own series and touches no other. */
  lemma SavedHistory(rows: map<BarKey, Bar>, series: Series, h: History, s: Series)
    ensures HistoryOf(PutAll(rows, Payload(series, h)), s)
         == if s == series then HistoryOf(rows, s) + h else HistoryOf(rows, s)
  {
    var rows' := PutAll(rows, Payload(series, h));
    var a := HistoryOf(rows', s);
    var b := if s == series then HistoryOf(rows, s) + h else HistoryOf(rows, s);
    forall t: int ensures SameBar(a, b, t) {
      var k := BarKey(s, t);
      PutAllAt(rows, Payload(series, h), k);
      PayloadLast(series, h, k);
      assert (k in rows' <==> t in a) && (k in rows <==> t in HistoryOf(rows, s));
      assert Get(rows', k) == if t in a then Some(a[t]) else None;
    }
    EqualHistories(a, b);
  }

  lemma EqualHistories(a: History, b: History)
    requires forall t: int :: SameBar(a, b, t)
    ensures a == b
  {
    forall t ensures t in a <==> t in b {
      assert SameBar(a, b, t);
    }
    forall t | t in a ensures a[t] == b[t] {
      assert SameBar(a, b, t);
    }
  }

  lemma PayloadCount(series: Series, h: History)
    ensures |Keys(Payload(series, h))| == |h|
  {
    PayloadLast(series, h, BarKey(series, 0));
    DistinctSize(Payload(series, h));
    ChronologicalIs(h);
  }

  // ----- the cache

  ghost predicate IsSuffix(c: seq<Stamped>, all: seq<Stamped>) {
    |c| <= |all| && c == all[|all| - |c|..]
  }

  /** Every entry is a non-empty suffix of what the table holds, oldest first. */
  ghost predicate CacheOk(cache: map<Series, seq<Stamped>>, rows: map<BarKey, Bar>) {
    forall s | s in cache :: cache[s] != [] && IsSuffix(cache[s], Chronological(HistoryOf(rows, s)))
  }

  /** `cached[-limit:]`, which for a zero limit is the whole list. */
  function FromEnd(c: seq<Stamped>, limit: nat): seq<Stamped>
    requires limit <= |c|
  {
    if limit == 0 then c else c[|c| - limit..]
  }

  lemma SuffixAnswers(c: seq<Stamped>, all: seq<Stamped>, limit: nat)
    requires IsSuffix(c, all) && 0 < limit <= |c|
    ensures FromEnd(c, limit) == LastN(all, limit)
  {
  }

  lemma LastNIsSuffix(all: seq<Stamped>, limit: nat)
    ensures IsSuffix(LastN(all, limit), all)
  {
  }

  lemma UnboundedIsAll(h: History)
    ensures Between(h, None, None) == h
  {
  }

  lemma OtherSeriesUnchanged(cache: map<Series, seq<Stamped>>, rows: map<BarKey, Bar>, series: Series, h: History)
    requires CacheOk(cache, rows)
    ensures CacheOk(cache - {series}, PutAll(rows, Payload(series, h)))
  {
    forall s | s in cache - {series}
      ensures cache[s] != [] && IsSuffix(cache[s], Chronological(HistoryOf(PutAll(rows, Payload(series, h)), s)))
    {
      SavedHistory(rows, series, h, s);
    }
  }

  class MarketDataService {
    const repository: Table<BarKey, Bar>
    var cache: map<Series, seq<Stamped>>
    var published: seq<(Series, nat)>

    constructor ()
      ensures fresh(repository) && repository.rows == map[] && cache == map[] && published == []
      ensures CacheOk(cache, repository.rows)
    {
      repository := new Table<BarKey, Bar>();
      cache, published := map[], [];
    }

    /** `get_ohlcv`. For every limit of at least one the answer is the repository's, cached or not; a zero limit
        answered from the cache is the whole cached window instead of nothing. */
    method GetOhlcv(series: Series, start: Option<int>, end: Option<int>, limit: nat) returns (bars: seq<Stamped>)
      requires CacheOk(cache, repository.rows)
      modifies this`cache
      ensures CacheOk(cache, repository.rows)
      ensures var stored := GetBars(HistoryOf(repository.rows, series), start, end, limit);
              bars == if limit == 0 && start.None? && end.None? && series in old(cache) then old(cache)[series]
              else stored
      ensures limit > 0 ==> AreNewest(bars, HistoryOf(repository.rows, series), start, end, limit)
      ensures series in old(cache) ==> series in cache && |old(cache)[series]| <= |cache[series]|
      ensures forall s | s != series :: (s in cache <==> s in old(cache)) && (s in cache ==> cache[s] == old(cache)[s])
    {
      hide Chronological, HistoryOf, AreNewest;
      var cacheable := start.None? && end.None?;
      var h := HistoryOf(repository.rows, series);
      ReadsNewest(h, start, end, limit);
      UnboundedIsAll(h);
      if cacheable && series in cache && |cache[series]| >= limit {
        if limit > 0 {
          SuffixAnswers(cache[series], Chronological(h), limit);
        }
        return FromEnd(cache[series], limit);
      }
      bars := GetBars(h, start, end, limit);
      if cacheable && bars != [] {
        LastNIsSuffix(Chronological(h), limit);
        cache := cache[series := bars];
      }
    }

    /** `fetch_and_store`, `provider` being what the data source serves for this series. */
    method FetchAndStore(series: Series, provider: History, start: Option<int>, end: Option<int>) returns (count: nat)
      requires CacheOk(cache, repository.rows)
      modifies this, repository
      ensures CacheOk(cache, repository.rows)
      ensures cache == old(cache) - {series}
      ensures forall s :: HistoryOf(repository.rows, s)
                == if s == series then HistoryOf(old(repository.rows), s) + Between(provider, start, end)
                   else HistoryOf(old(repository.rows), s)
      ensures count == |Between(provider, start, end)|
      ensures published == if count > 0 then old(published) + [(series, count)] else old(published)
    {
      count := Store(series, Between(provider, start, end));
    }

    /** Persist, invalidate, announce. */
    method Store(series: Series, fetched: History) returns (count: nat)
      requires CacheOk(cache, repository.rows)
      modifies this, repository
      ensures CacheOk(cache, repository.rows)
      ensures cache == old(cache) - {series}
      ensures forall s :: HistoryOf(repository.rows, s)
                == if s == series then HistoryOf(old(repository.rows), s) + fetched
                else HistoryOf(old(repository.rows), s)
      ensures count == |fetched|
      ensures published == if count > 0 then old(published) + [(series, count)] else old(published)
    {
      ghost var rows := repository.rows;
      hide HistoryOf, PutAll, Payload, CacheOk, Keys;
      count := repository.Save(Payload(series, fetched), UPSERT_CHUNK);
      PayloadCount(series, fetched);
      forall s ensures HistoryOf(repository.rows, s)
                == if s == series then HistoryOf(rows, s) + fetched else HistoryOf(rows, s)
      {
        SavedHistory(rows, series, fetched, s);
      }
      OtherSeriesUnchanged(cache, rows, series, fetched);
      cache := cache - {series};
      if count > 0 {
        published := published + [(series, count)];
      }
    }

    /** `sync_symbol`: the stored series takes one step of the sync analysed in `Incremental`. */
    method SyncSymbol(series: Series, provider: History, now: int, s: Settings) returns (count: nat)
      requires CacheOk(cache, repository.rows)
      modifies this, repository
      ensures CacheOk(cache, repository.rows)
      ensures cache == old(cache) - {series}
      ensures HistoryOf(repository.rows, series) == Synced(HistoryOf(old(repository.rows), series), provider, now, s)
      ensures forall other | other != series ::
                HistoryOf(repository.rows, other) == HistoryOf(old(repository.rows), other)
      ensures count == |Fetched(HistoryOf(old(repository.rows), series), provider, now, s)|
      ensures published == if count > 0 then old(published) + [(series, count)] else old(published)
    {
      hide AdjustmentDrifted, GetBars, Between, HistoryOf, CacheOk;
      var stored := HistoryOf(repository.rows, series);
      var latest := LatestTimestamp(stored);
      var plan := PlanFetch(latest, now, s.overlapDays, s.initialDays);
      var bars := Between(provider, Some(plan.start), Some(plan.end));
      if !plan.full && bars != map[] {
        var overlap := GetBars(stored, Some(plan.start), Some(plan.end), |bars| + 10);
        if AdjustmentDrifted(overlap, bars) {
          var repair := FullHistoryPlan(now, s.initialDays, EarliestTimestamp(stored));
          bars := Between(provider, Some(repair.start), Some(repair.end));
        }
      }
      count := Store(series, bars);
    }

    /** The TTL running out on one entry. */
    method Expire(series: Series)
      requires CacheOk(cache, repository.rows)
      modifies this`cache
      ensures CacheOk(cache, repository.rows) && cache == old(cache) - {series}
    {
      cache := cache - {series};
    }
  }

  // ----- a restatement below the tolerance

  function Priced(adj: real): Bar {
    Bar(1.0, 1.0, 1.0, 1.0, 0.0, Some(adj))
  }

  /** A dividend too small for the drift check leaves every bar older than the overlap on the old scale. */
  lemma SmallRestatementIsMissed()
    ensures var held := map[0 := Priced(1.0), 10 * DAY := Priced(1.0)];
            var restated := map[0 := Priced(0.99995), 10 * DAY := Priced(0.99995)];
            && Converged(held, held, 10 * DAY)
            && !Converged(Synced(held, restated, 10 * DAY, Settings(5, 2190)), restated, 10 * DAY)
  {
    var held: History := map[0 := Priced(1.0), 10 * DAY := Priced(1.0)];
    var restated: History := map[0 := Priced(0.99995), 10 * DAY := Priced(0.99995)];
    assert Priced(1.0) != Priced(0.99995);
    hide Converged, Synced, DriftSeen, OldUnchanged, Priced;
    var now, s := 10 * DAY, Settings(5, 2190);
    EndsOf(held);
    SameConverges(held, now);
    OldRewritten(held, restated, now, s);
    NoDrift(held, restated, now, s);
    SyncConvergesIff(held, held, now, restated, now, s);
  }

  lemma SameConverges(h: History, now: int)
    requires forall t | t in h :: t <= now
    ensures Converged(h, h, now)
  {
  }

  lemma OldRewritten(held: History, restated: History, now: int, s: Settings)
    requires held.Keys == {0, 10 * DAY} && 0 in restated && held[0] != restated[0]
    requires now == 10 * DAY && s == Settings(5, 2190)
    ensures held != map[] && !OldUnchanged(held, restated, now, s)
  {
    EndsOf(held);
    assert WindowStart(held, now, s) == 5 * DAY;
    assert !SameBar(held, restated, 0);
  }

  lemma EndsOf(h: History)
    requires h.Keys == {0, 10 * DAY}
    ensures h != map[] && EarliestTimestamp(h) == Some(0) && LatestTimestamp(h) == Some(10 * DAY)
  {
    assert 0 in h && 10 * DAY in h;
    var lo, hi := Min(h.Keys), Max(h.Keys);
  }

  lemma NoDrift(held: History, restated: History, now: int, s: Settings)
    requires forall t | t in held :: held[t] == Priced(1.0)
    requires forall t | t in restated :: restated[t] == Priced(0.99995)
    ensures !DriftSeen(held, restated, now, s)
  {
    var plan := PlanFetch(LatestTimestamp(held), now, s.overlapDays, s.initialDays);
    var fetched := Between(restated, Some(plan.start), Some(plan.end));
    GetBarsHeld(held, Some(plan.start), Some(plan.end), |fetched| + 10);
    hide GetBars, AdjustmentDrifted, Priced, LatestTimestamp;
    NoDriftBars(GetBars(held, Some(plan.start), Some(plan.end), |fetched| + 10), fetched);
  }

  lemma GetBarsHeld(h: History, start: Option<int>, end: Option<int>, limit: nat)
    ensures forall i | 0 <= i < |GetBars(h, start, end, limit)| ::
              GetBars(h, start, end, limit)[i].ts in h
              && GetBars(h, start, end, limit)[i].bar == h[GetBars(h, start, end, limit)[i].ts]
  {
    ChronologicalIs(Between(h, start, end));
    hide Chronological;
  }

  lemma NoDriftBars(overlap: seq<Stamped>, fetched: History)
    requires forall i | 0 <= i < |overlap| :: overlap[i].bar == Priced(1.0)
    requires forall t | t in fetched :: fetched[t] == Priced(0.99995)
    ensures !AdjustmentDrifted(overlap, fetched)
  {
    BelowTolerance();
    hide Restated, Priced;
    DriftIsRestatement(overlap, fetched);
  }

  lemma BelowTolerance()
    ensures !Restated(Priced(1.0), Priced(0.99995))
  {
  }
}

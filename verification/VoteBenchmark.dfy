/**
 The benchmark of an excess verdict is rebuilt from whatever symbols have votes pending: when the rest of the queue
 decides what becomes of a vote.
 */
module VoteBenchmark {
  import opened Common
  import opened SortedInts
  import opened Labels
  import opened ExcessLabels
  import opened InferenceLog
  import opened Outcomes
  import MarketPath
  import Symbols

  // ----- fewer than MIN_CROSS_SECTION symbols: no benchmark

  function Ones(n: nat): (r: seq<real>)
    ensures |r| == n && forall k | 0 <= k < n :: r[k] == 1.0
  {
    seq(n, _ => 1.0)
  }

  lemma {:induction false} FewReturns(st: MarketPath.Stats, symbols: seq<string>, daily: seq<map<int, real>>,
                                      universe: MarketPath.Universe, previous: int, current: int)
    requires |symbols| == |daily|
    ensures |MarketPath.StepReturns(st, symbols, daily, universe, previous, current)| <= |daily|
  {
    if daily != [] {
      FewReturns(st, symbols[1..], daily[1..], universe, previous, current);
    }
  }

  lemma {:induction false} ThinLevel(st: MarketPath.Stats, symbols: seq<string>, daily: seq<map<int, real>>,
                                     universe: MarketPath.Universe, sessions: seq<int>, k: nat)
    requires |symbols| == |daily| < MarketPath.MIN_CROSS_SECTION && k < |sessions|
    ensures MarketPath.LevelAt(st, symbols, daily, universe, sessions, k) == 1.0
  {
    if k > 0 {
      ThinLevel(st, symbols, daily, universe, sessions, k - 1);
      FewReturns(st, symbols, daily, universe, sessions[k - 1], sessions[k]);
    }
  }

  lemma {:induction false} ThinLevels(st: MarketPath.Stats, symbols: seq<string>, daily: seq<map<int, real>>,
                                      universe: MarketPath.Universe, sessions: seq<int>, n: nat)
    requires |symbols| == |daily| < MarketPath.MIN_CROSS_SECTION && n <= |sessions|
    ensures forall t | t in MarketPath.LevelsTo(st, symbols, daily, universe, sessions, n) ::
              MarketPath.LevelsTo(st, symbols, daily, universe, sessions, n)[t] == 1.0
  {
    hide MarketPath.LevelAt;
    if n > 0 {
      ThinLevels(st, symbols, daily, universe, sessions, n - 1);
      ThinLevel(st, symbols, daily, universe, sessions, n - 1);
    }
  }

  lemma {:induction false} FlatProjection(levels: map<int, real>, bars: seq<MarketPath.Bar>, i: nat)
    requires i < |bars| && forall t | t in levels :: levels[t] == 1.0
    ensures MarketPath.Projected(levels, bars, i) == 1.0
  {
    if bars[i].ts !in levels && i > 0 {
      FlatProjection(levels, bars, i - 1);
    }
  }

  /** With fewer symbols pending than a cross-section needs, every level is 1: the excess label is the symbol's own
      return. */
  lemma ThinPanelIsFlat(s: Resolver, fetched: seq<Fetched>, bars: seq<Bar>)
    requires |fetched| < MarketPath.MIN_CROSS_SECTION
    ensures BenchmarkLeg(s, fetched, bars) == Ones(|bars|)
  {
    hide MarketPath.LevelsTo, MarketPath.Projected, MarketPath.Dailies;
    var panel := MarketPanel(fetched);
    var daily := MarketPath.Dailies(panel);
    var sessions := SortedSet(MarketPath.AllDates(daily));
    ThinLevels(s.stats, MarketPath.Symbols(panel), daily, None, sessions, |sessions|);
    var levels := MarketPath.Levels(s.stats, panel, None);
    forall i | 0 <= i < |bars| ensures BenchmarkLeg(s, fetched, bars)[i] == 1.0 {
      FlatProjection(levels, MarketBars(bars), i);
    }
  }

  lemma SameLegSameVerdict(s: Resolver, a: seq<Fetched>, b: seq<Fetched>, bars: seq<Bar>, at: int, signal: Vote,
                           now: int)
    requires BenchmarkLeg(s, a, bars) == BenchmarkLeg(s, b, bars)
    ensures VerdictOn(s, a, bars, at, signal, now) == VerdictOn(s, b, bars, at, signal, now)
  {
    hide BenchmarkLeg, ExcessBarrierLabel, TripleBarrierLabel, Leading, DayOf, Decision, WhenUndecided;
  }

  // ----- the moves of a session, symbol by symbol

  function Moves(symbols: seq<string>, move: string -> seq<real>): seq<real> {
    if symbols == [] then [] else move(symbols[0]) + Moves(symbols[1..], move)
  }

  ghost predicate Distinct(symbols: seq<string>) {
    forall i, j | 0 <= i < j < |symbols| :: symbols[i] != symbols[j]
  }

  lemma {:induction false} MovesJoin(a: seq<string>, b: seq<string>, move: string -> seq<real>)
    ensures Moves(a + b, move) == Moves(a, move) + Moves(b, move)
  {
    if a == [] {
      assert a + b == b;
    } else {
      assert (a + b)[1..] == a[1..] + b;
      MovesJoin(a[1..], b, move);
    }
  }

  lemma PickOut(a: seq<string>, z: string, b: seq<string>)
    requires Distinct(a + ([z] + b))
    ensures Distinct(a + b) && forall y :: y in a + b <==> y in a + ([z] + b) && y != z
  {
    var symbols, rest := a + ([z] + b), a + b;
    var k := |a|;
    assert symbols[k] == z;
    assert forall i | 0 <= i < |rest| :: rest[i] == symbols[if i < k then i else i + 1];
    forall y ensures y in rest <==> y in symbols && y != z {
      if y in symbols && y != z {
        var i :| 0 <= i < |symbols| && symbols[i] == y;
        assert rest[if i < k then i else i - 1] == y;
      }
    }
  }

  lemma MovesOut(a: seq<string>, z: string, b: seq<string>, move: string -> seq<real>)
    ensures multiset(Moves(a + ([z] + b), move)) == multiset(move(z)) + multiset(Moves(a + b, move))
  {
    MovesJoin(a, [z] + b, move);
    MovesJoin([z], b, move);
    MovesJoin(a, b, move);
    OneMove(z, move);
  }

  lemma OneMove(z: string, move: string -> seq<real>)
    ensures Moves([z], move) == move(z)
  {
    assert [z][1..] == [];
  }

  lemma MovesPick(symbols: seq<string>, z: string, move: string -> seq<real>) returns (rest: seq<string>)
    requires Distinct(symbols) && z in symbols
    ensures multiset(Moves(symbols, move)) == multiset(move(z)) + multiset(Moves(rest, move))
    ensures Distinct(rest) && forall y :: y in rest <==> y in symbols && y != z
  {
    hide Moves, Distinct;
    var k :| 0 <= k < |symbols| && symbols[k] == z;
    var a, b := symbols[..k], symbols[k + 1..];
    rest := a + b;
    assert symbols == a + ([z] + b);
    PickOut(a, z, b);
    MovesOut(a, z, b, move);
  }

  lemma {:induction false} NoMoves(symbols: seq<string>, move: string -> seq<real>)
    requires forall z | z in symbols :: move(z) == []
    ensures Moves(symbols, move) == []
  {
    if symbols != [] {
      NoMoves(symbols[1..], move);
    }
  }

  /** Only three symbols move. */
  lemma ThreeMove(symbols: seq<string>, x: string, y: string, z: string, move: string -> seq<real>)
    requires Distinct(symbols) && x in symbols && y in symbols && z in symbols && x != y && x != z && y != z
    requires forall o | o in symbols && o != x && o != y && o != z :: move(o) == []
    ensures multiset(Moves(symbols, move)) == multiset(move(x)) + multiset(move(y)) + multiset(move(z))
  {
    hide Moves, Distinct;
    var rest := MovesPick(symbols, x, move);
    rest := MovesPick(rest, y, move);
    rest := MovesPick(rest, z, move);
    NoMoves(rest, move);
  }

  /** One of the three is missing: at most two single moves. */
  lemma TwoMove(symbols: seq<string>, x: string, y: string, move: string -> seq<real>)
    requires Distinct(symbols) && x != y && forall o :: |move(o)| <= 1
    requires forall o | o in symbols && o != x && o != y :: move(o) == []
    ensures |Moves(symbols, move)| <= 2
  {
    hide Moves, Distinct;
    var rest := symbols;
    var n := 0;
    if x in rest {
      rest := MovesPick(rest, x, move);
    }
    if y in rest {
      rest := MovesPick(rest, y, move);
    }
    NoMoves(rest, move);
    assert |multiset(Moves(symbols, move))| <= 2;
  }

  /** What one symbol adds to a session's median. */
  function MoveOf(st: MarketPath.Stats, market: string -> seq<Bar>, previous: int, current: int): string -> seq<real> {
    (symbol: string) =>
      var daily := MarketPath.DailyCloses(MarketBars(market(symbol)));
      if current in daily && previous in daily then [MarketPath.Change(st, daily, previous, current)] else []
  }

  function Daily(market: string -> seq<Bar>, symbols: seq<string>): (r: seq<map<int, real>>)
    ensures |r| == |symbols|
    ensures forall k | 0 <= k < |r| :: r[k] == MarketPath.DailyCloses(MarketBars(market(symbols[k])))
  {
    seq(|symbols|, k requires 0 <= k < |symbols| => MarketPath.DailyCloses(MarketBars(market(symbols[k]))))
  }

  lemma FetchedPanel(market: string -> seq<Bar>, symbols: seq<string>)
    ensures MarketPath.Symbols(MarketPanel(Fetch(market, symbols))) == symbols
    ensures MarketPath.Dailies(MarketPanel(Fetch(market, symbols))) == Daily(market, symbols)
  {
    hide MarketPath.DailyCloses;
  }

  lemma {:induction false} ReturnsAreMoves(st: MarketPath.Stats, market: string -> seq<Bar>, symbols: seq<string>,
                                           previous: int, current: int)
    ensures MarketPath.StepReturns(st, symbols, Daily(market, symbols), None, previous, current)
         == Moves(symbols, MoveOf(st, market, previous, current))
  {
    hide MarketPath.DailyCloses;
    if symbols != [] {
      ReturnsAreMoves(st, market, symbols[1..], previous, current);
      assert Daily(market, symbols)[1..] == Daily(market, symbols[1..]);
    }
  }

  // ----- histories of one bar a day

  function Instant(k: nat): int {
    k * MICROSECONDS_PER_DAY
  }

  lemma InstantsInOrder(j: nat, k: nat)
    ensures DayOf(Instant(k)) == k
    ensures j < k <==> Instant(j) < Instant(k)
  {
  }

  function Path(n: nat, close: nat -> real): (r: seq<Bar>)
    ensures |r| == n && forall k | 0 <= k < n :: r[k] == Bar(Instant(k), close(k), close(k), close(k))
  {
    seq(n, k requires 0 <= k < n => Bar(Instant(k), close(k), close(k), close(k)))
  }

  lemma {:induction false} FoldAt(bars: seq<MarketPath.Bar>, k: nat)
    requires k < |bars| && forall i | 0 <= i < |bars| :: bars[i].close > 0.0
    requires forall i, j | 0 <= i < j < |bars| :: bars[i].ts != bars[j].ts
    ensures bars[k].ts in MarketPath.FoldCloses(bars) && MarketPath.FoldCloses(bars)[bars[k].ts] == bars[k].close
  {
    if k > 0 {
      FoldAt(bars[1..], k - 1);
    } else {
      MarketPath.FoldKeys(bars[1..]);
      forall j | 0 <= j < |bars[1..]| ensures bars[1..][j].ts != bars[0].ts {
        assert bars[1..][j] == bars[j + 1];
      }
    }
  }

  ghost predicate IsDaily(daily: map<int, real>, n: nat, close: nat -> real) {
    && (forall t :: t in daily <==> exists k: nat :: k < n && t == Instant(k))
    && forall k: nat | k < n :: Instant(k) in daily && daily[Instant(k)] == close(k)
  }

  lemma PathDaily(n: nat, close: nat -> real)
    requires forall k: nat | k < n :: close(k) > 0.0
    ensures IsDaily(MarketPath.DailyCloses(MarketBars(Path(n, close))), n, close)
  {
    hide MarketPath.FoldCloses, MarketPath.DailyCloses, Instant;
    var bars := MarketBars(Path(n, close));
    MarketPath.SortingIsIrrelevant(bars);
    MarketPath.FoldKeys(bars);
    forall i, j | 0 <= i < j < |bars| ensures bars[i].ts != bars[j].ts {
      InstantsInOrder(i, j);
    }
    forall k: nat | k < n
      ensures Instant(k) in MarketPath.FoldCloses(bars) && MarketPath.FoldCloses(bars)[Instant(k)] == close(k)
    {
      FoldAt(bars, k);
    }
  }

  function Instants(n: nat): (r: seq<int>)
    ensures |r| == n && forall k | 0 <= k < n :: r[k] == Instant(k)
  {
    seq(n, k requires 0 <= k < n => Instant(k))
  }

  /** The session axis is the days of the paths. */
  lemma AxisIsInstants(daily: seq<map<int, real>>, n: nat, i: nat)
    requires i < |daily| && forall t :: t in daily[i] <==> exists k: nat :: k < n && t == Instant(k)
    requires forall j, t | 0 <= j < |daily| && t in daily[j] :: t in daily[i]
    ensures SortedSet(MarketPath.AllDates(daily)) == Instants(n)
  {
    hide MarketPath.AllDates, SortedSet, Instant;
    var axis := SortedSet(MarketPath.AllDates(daily));
    forall j, k | 0 <= j < k < n ensures Instants(n)[j] < Instants(n)[k] {
      InstantsInOrder(j, k);
    }
    forall t ensures t in axis <==> t in Instants(n) {
      MarketPath.AllDatesMeaning(daily, t);
      if t in Instants(n) {
        var k :| 0 <= k < n && Instants(n)[k] == t;
      }
      if t in daily[i] {
        var k: nat :| k < n && t == Instant(k);
        assert Instants(n)[k] == t;
      }
    }
    IncreasingUnique(axis, Instants(n));
  }

  // ----- a vote and two other symbols

  /** What the witness below needs of the numerics; all of it is true of the real ones. */
  ghost predicate RealNumerics(s: Resolver) {
    && IsLog(s.num.log) && s.num.log(2.0) > 0.0
    && s.num.sqrt(s.params.horizon as real) > 0.0
    && (forall v: seq<real> :: Varies(v) ==> s.num.std(v) > 0.0)
    && (forall r: real :: r > 0.0 ==> s.stats.exp(s.stats.log(r)) == r)
    && (forall v: seq<real>, q: real :: |v| == 3 && multiset(v)[q] >= 2 ==> s.stats.median(v) == q)
  }

  ghost predicate Varies(v: seq<real>) {
    |v| >= 2 && v[0] != v[1]
  }

  /** Barriers on both sides, some future to look at, and more than one return to measure. */
  predicate SaneLabel(p: LabelParams) {
    p.sigmaWindow >= 2 && p.horizon >= 1 && p.ptMult > 0.0 && p.slMult > 0.0
  }

  function Length(p: LabelParams): nat {
    p.sigmaWindow + p.horizon + 1
  }

  /** Moves up to the entry, then stands still and doubles on the last day of the vote's window. */
  function Stock(p: LabelParams, k: nat): real {
    if k <= p.sigmaWindow then (if k % 2 == 0 then 1.0 else 2.0)
    else if k < p.sigmaWindow + p.horizon then Stock(p, p.sigmaWindow)
    else 2.0 * Stock(p, p.sigmaWindow)
  }

  /** Stands still and quadruples that day. */
  function Peer(p: LabelParams, k: nat): real {
    if k < p.sigmaWindow + p.horizon then 1.0 else 4.0
  }

  /** The vote's symbol, two others, and nothing known of the rest. */
  function MarketOf(p: LabelParams, name: string, x: string, y: string): string -> seq<Bar> {
    (z: string) =>
      if z == name then Path(Length(p), (k: nat) => Stock(p, k))
      else if z == x || z == y then Path(Length(p), (k: nat) => Peer(p, k))
      else []
  }

  lemma StockPositive(p: LabelParams, k: nat)
    ensures Stock(p, k) > 0.0
  {
    assert p.sigmaWindow % 2 == 0 || p.sigmaWindow % 2 == 1;
  }

  lemma MarketDaily(p: LabelParams, name: string, x: string, y: string, z: string)
    ensures var daily := MarketPath.DailyCloses(MarketBars(MarketOf(p, name, x, y)(z)));
            if z == name then IsDaily(daily, Length(p), (k: nat) => Stock(p, k))
            else if z == x || z == y then IsDaily(daily, Length(p), (k: nat) => Peer(p, k))
            else daily == map[]
  {
    hide MarketPath.DailyCloses, IsDaily, Stock, Path, Length;
    if z == name {
      forall k: nat | k < Length(p) ensures Stock(p, k) > 0.0 {
        StockPositive(p, k);
      }
      PathDaily(Length(p), (k: nat) => Stock(p, k));
    } else if z == x || z == y {
      PathDaily(Length(p), (k: nat) => Peer(p, k));
    } else {
      MarketPath.SortingIsIrrelevant([]);
      assert MarketBars([]) == [];
    }
  }

  /** How the three move from day `k` to the next. */
  lemma MovesAt(st: MarketPath.Stats, p: LabelParams, name: string, x: string, y: string, k: nat)
    requires k + 1 < Length(p) && name != x && name != y
    ensures var move := MoveOf(st, MarketOf(p, name, x, y), Instant(k), Instant(k + 1));
            && |move(name)| == 1
            && move(x) == move(y) == [st.log(Ratio(Peer(p, k + 1), Peer(p, k)))]
            && (forall z | z != name && z != x && z != y :: move(z) == [])
            && forall z :: |move(z)| <= 1
  {
    hide MarketPath.DailyCloses, Stock, Path, Instant, Peer, Length, Ratio;
    var move := MoveOf(st, MarketOf(p, name, x, y), Instant(k), Instant(k + 1));
    forall z ensures |move(z)| <= 1 && (z != name && z != x && z != y ==> move(z) == []) {
      MarketDaily(p, name, x, y, z);
    }
    MarketDaily(p, name, x, y, name);
    MarketDaily(p, name, x, y, x);
    MarketDaily(p, name, x, y, y);
  }

  /** The benchmark of the last day, when the two others count and when they do not. */
  function Bench(p: LabelParams, full: bool, k: nat): real {
    if full then Peer(p, k) else 1.0
  }

  lemma MarketAxis(p: LabelParams, name: string, x: string, y: string, symbols: seq<string>)
    requires name in symbols
    ensures SortedSet(MarketPath.AllDates(Daily(MarketOf(p, name, x, y), symbols))) == Instants(Length(p))
  {
    hide MarketPath.DailyCloses, Stock, Path, Instant, Peer, Length, MarketOf, MarketPath.AllDates, SortedSet;
    var market := MarketOf(p, name, x, y);
    var daily := Daily(market, symbols);
    var i :| 0 <= i < |symbols| && symbols[i] == name;
    MarketDaily(p, name, x, y, name);
    forall j, t | 0 <= j < |daily| && t in daily[j] ensures t in daily[i] {
      MarketDaily(p, name, x, y, symbols[j]);
    }
    AxisIsInstants(daily, Length(p), i);
  }

  /** `symbols` has all three, or not `x`. */
  ghost predicate Counts(symbols: seq<string>, name: string, x: string, y: string, full: bool) {
    && Symbols.Ascending(symbols) && name != x && name != y && x != y && name in symbols
    && if full then x in symbols && y in symbols else x !in symbols
  }

  lemma StepChanges(s: Resolver, symbols: seq<string>, name: string, x: string, y: string, full: bool, k: nat)
    requires Counts(symbols, name, x, y, full) && k + 1 < Length(s.params)
    ensures var changes := ChangesOf(s, symbols, name, x, y, k);
            var q := s.stats.log(Ratio(Peer(s.params, k + 1), Peer(s.params, k)));
            if full then |changes| == 3 && multiset(changes)[q] >= 2 else |changes| <= 2
  {
    hide *;
    var market := MarketOf(s.params, name, x, y);
    var move := MoveOf(s.stats, market, Instant(k), Instant(k + 1));
    CountsMeans(symbols, name, x, y, full);
    MovesAt(s.stats, s.params, name, x, y, k);
    ChangesAre(s, symbols, name, x, y, k);
    if full {
      ThreeMove(symbols, name, x, y, move);
      SizeOf(Moves(symbols, move), move(name), s.stats.log(Ratio(Peer(s.params, k + 1), Peer(s.params, k))));
    } else {
      TwoMove(symbols, name, y, move);
    }
  }

  lemma CountsMeans(symbols: seq<string>, name: string, x: string, y: string, full: bool)
    requires Counts(symbols, name, x, y, full)
    ensures Distinct(symbols) && name != x && name != y && x != y && name in symbols
    ensures if full then x in symbols && y in symbols else x !in symbols
  {
  }

  ghost function ChangesOf(s: Resolver, symbols: seq<string>, name: string, x: string, y: string, k: nat): seq<real> {
    MarketPath.StepReturns(s.stats, symbols, Daily(MarketOf(s.params, name, x, y), symbols), None, Instant(k),
                           Instant(k + 1))
  }

  lemma ChangesAre(s: Resolver, symbols: seq<string>, name: string, x: string, y: string, k: nat)
    ensures ChangesOf(s, symbols, name, x, y, k)
         == Moves(symbols, MoveOf(s.stats, MarketOf(s.params, name, x, y), Instant(k), Instant(k + 1)))
  {
    hide Moves, MoveOf, MarketOf, Instant, MarketPath.StepReturns;
    ReturnsAreMoves(s.stats, MarketOf(s.params, name, x, y), symbols, Instant(k), Instant(k + 1));
  }

  lemma StepLevel(s: Resolver, symbols: seq<string>, name: string, x: string, y: string, full: bool, k: nat)
    requires RealNumerics(s) && Counts(symbols, name, x, y, full) && k + 1 < Length(s.params)
    ensures MarketPath.NextLevel(s.stats, Bench(s.params, full, k), ChangesOf(s, symbols, name, x, y, k))
         == Bench(s.params, full, k + 1)
  {
    hide ChangesOf, Counts, IsLog, Varies, Ratio, Length;
    var st, p := s.stats, s.params;
    StepChanges(s, symbols, name, x, y, full, k);
    var ratio := Ratio(Peer(p, k + 1), Peer(p, k));
    RatioOver(Peer(p, k + 1), Peer(p, k));
    if full {
      assert st.median(ChangesOf(s, symbols, name, x, y, k)) == st.log(ratio);
      assert st.exp(st.log(ratio)) == ratio;
    }
  }

  lemma RatioOver(a: real, b: real)
    requires a > 0.0 && b > 0.0
    ensures Ratio(a, b) > 0.0 && b * Ratio(a, b) == a
  {
  }

  lemma SizeOf(changes: seq<real>, own: seq<real>, q: real)
    requires multiset(changes) == multiset(own) + multiset([q]) + multiset([q]) && |own| == 1
    ensures |changes| == 3 && multiset(changes)[q] >= 2
  {
    assert |multiset(changes)| == 3;
  }

  lemma {:induction false} LevelOf(s: Resolver, symbols: seq<string>, name: string, x: string, y: string, full: bool,
                                   k: nat)
    requires RealNumerics(s) && SaneLabel(s.params) && Counts(symbols, name, x, y, full) && k < Length(s.params)
    ensures MarketPath.LevelAt(s.stats, symbols, Daily(MarketOf(s.params, name, x, y), symbols), None,
                               Instants(Length(s.params)), k) == Bench(s.params, full, k)
  {
    hide RealNumerics, Counts, MarketPath.StepReturns, MarketOf, Instant, MarketPath.NextLevel, Bench;
    if k > 0 {
      LevelOf(s, symbols, name, x, y, full, k - 1);
      StepLevel(s, symbols, name, x, y, full, k - 1);
    } else {
      FirstBench(s.params, full);
    }
  }

  lemma FirstBench(p: LabelParams, full: bool)
    ensures p.sigmaWindow + p.horizon > 0 ==> Bench(p, full, 0) == 1.0
  {
  }

  // ----- the legs of the vote

  function Closing(p: LabelParams): (r: seq<real>)
    ensures |r| == Length(p) && forall k | 0 <= k < |r| :: r[k] == Stock(p, k)
  {
    seq(Length(p), k requires 0 <= k < Length(p) => Stock(p, k))
  }

  function Benching(p: LabelParams, full: bool): (r: seq<real>)
    ensures |r| == Length(p) && forall k | 0 <= k < |r| :: r[k] == Bench(p, full, k)
  {
    seq(Length(p), k requires 0 <= k < Length(p) => Bench(p, full, k))
  }

  lemma LevelsAre(s: Resolver, symbols: seq<string>, name: string, x: string, y: string, full: bool)
    requires Counts(symbols, name, x, y, full)
    ensures MarketPath.Levels(s.stats, MarketPanel(Fetch(MarketOf(s.params, name, x, y), symbols)), None)
         == MarketPath.LevelsTo(s.stats, symbols, Daily(MarketOf(s.params, name, x, y), symbols), None,
                                Instants(Length(s.params)), Length(s.params))
  {
    CountsMeans(symbols, name, x, y, full);
    hide *;
    var market := MarketOf(s.params, name, x, y);
    FetchedPanel(market, symbols);
    MarketAxis(s.params, name, x, y, symbols);
    LevelsFrom(s.stats, MarketPanel(Fetch(market, symbols)), Instants(Length(s.params)));
  }

  lemma LegAt(s: Resolver, symbols: seq<string>, name: string, x: string, y: string, full: bool, k: nat)
    requires RealNumerics(s) && SaneLabel(s.params) && Counts(symbols, name, x, y, full) && k < Length(s.params)
    ensures var market := MarketOf(s.params, name, x, y);
            |market(name)| == Length(s.params)
            && MarketPath.Projected(MarketPath.Levels(s.stats, MarketPanel(Fetch(market, symbols)), None),
                                    MarketBars(market(name)), k) == Bench(s.params, full, k)
  {
    hide *;
    var p, market := s.params, MarketOf(s.params, name, x, y);
    LevelsAre(s, symbols, name, x, y, full);
    AxisIncreasing(Length(p));
    NameBars(p, name, x, y);
    LevelOf(s, symbols, name, x, y, full, k);
    MarketPath.LevelsToAt(s.stats, symbols, Daily(market, symbols), None, Instants(Length(p)), Length(p), k);
    ProjectsHere(MarketPath.Levels(s.stats, MarketPanel(Fetch(market, symbols)), None), MarketBars(market(name)), k);
  }

  lemma LegIs(s: Resolver, symbols: seq<string>, name: string, x: string, y: string, full: bool)
    requires RealNumerics(s) && SaneLabel(s.params) && Counts(symbols, name, x, y, full)
    ensures var market := MarketOf(s.params, name, x, y);
            BenchmarkLeg(s, Fetch(market, symbols), market(name)) == Benching(s.params, full)
  {
    hide *;
    var market := MarketOf(s.params, name, x, y);
    NameBars(s.params, name, x, y);
    forall k: nat | k < Length(s.params)
      ensures MarketPath.Projected(MarketPath.Levels(s.stats, MarketPanel(Fetch(market, symbols)), None),
                                   MarketBars(market(name)), k) == Bench(s.params, full, k)
    {
      LegAt(s, symbols, name, x, y, full, k);
    }
    LegFrom(s, Fetch(market, symbols), market(name), Benching(s.params, full));
  }

  lemma LevelsFrom(st: MarketPath.Stats, panel: seq<MarketPath.Series>, axis: seq<int>)
    requires SortedSet(MarketPath.AllDates(MarketPath.Dailies(panel))) == axis
    ensures MarketPath.Levels(st, panel, None)
         == MarketPath.LevelsTo(st, MarketPath.Symbols(panel), MarketPath.Dailies(panel), None, axis, |axis|)
  {
    hide MarketPath.LevelsTo, MarketPath.Symbols, MarketPath.Dailies, MarketPath.AllDates, SortedSet;
  }

  lemma AxisIncreasing(n: nat)
    ensures Increasing(Instants(n))
  {
    hide Instant;
    forall j, k | 0 <= j < k < n ensures Instants(n)[j] < Instants(n)[k] {
      InstantsInOrder(j, k);
    }
  }

  lemma NameBars(p: LabelParams, name: string, x: string, y: string)
    ensures var bars := MarketOf(p, name, x, y)(name);
            |bars| == Length(p) && Closes(bars) == Closing(p) && forall k | 0 <= k < |bars| :: bars[k].ts == Instant(k)
  {
    hide Stock, Instant, Length;
  }

  lemma ProjectsHere(levels: map<int, real>, bars: seq<MarketPath.Bar>, k: nat)
    requires k < |bars| && bars[k].ts in levels
    ensures MarketPath.Projected(levels, bars, k) == levels[bars[k].ts]
  {
  }

  lemma LegFrom(s: Resolver, fetched: seq<Fetched>, bars: seq<Bar>, leg: seq<real>)
    requires |leg| == |bars|
    requires forall k: nat | k < |bars| ::
               MarketPath.Projected(MarketPath.Levels(s.stats, MarketPanel(fetched), None), MarketBars(bars), k)
               == leg[k]
    ensures BenchmarkLeg(s, fetched, bars) == leg
  {
    hide MarketPath.Projected, MarketPath.Levels;
  }

  // ----- the verdicts

  lemma LogOf(num: Numerics)
    requires IsLog(num.log)
    ensures num.log(1.0) == 0.0 && num.log(4.0) == num.log(2.0) + num.log(2.0)
  {
    assert num.log(1.0 * 1.0) == num.log(1.0) + num.log(1.0);
    assert num.log(2.0 * 2.0) == num.log(2.0) + num.log(2.0);
  }

  lemma ReturnsVary(num: Numerics, stock: seq<real>, market: seq<real>)
    requires IsLog(num.log) && num.log(2.0) > 0.0 && |stock| == |market| >= 3
    requires stock[0] == 1.0 && stock[1] == 2.0 && stock[2] == 1.0
    requires market[0] == 1.0 && market[1] == 1.0 && market[2] == 1.0
    ensures Varies(Subtract(LogReturns(num, stock), LogReturns(num, market)))
  {
    LogOf(num);
    hide IsLog;
    var v := Subtract(LogReturns(num, stock), LogReturns(num, market));
    assert v[0] == num.log(2.0) && v[1] == -num.log(2.0);
  }

  lemma StdOf(s: Resolver, v: seq<real>)
    requires RealNumerics(s) && Varies(v)
    ensures s.num.std(v) > 0.0
  {
    hide Varies, IsLog;
  }

  lemma LogIsReal(s: Resolver)
    requires RealNumerics(s)
    ensures IsLog(s.num.log) && s.num.log(2.0) > 0.0
  {
    hide Varies, IsLog;
  }

  lemma SigmaFrom(num: Numerics, d: Pair, w: nat, stock: seq<real>, market: seq<real>)
    requires |d.closes| == |d.market| > w && stock == d.closes[..w + 1] && market == d.market[..w + 1]
    requires AllPositive(stock) && AllPositive(market)
    requires num.std(Subtract(LogReturns(num, stock), LogReturns(num, market))) > 0.0
    ensures ExcessSigma(num, d, w, w).Some? && ExcessSigma(num, d, w, w).value > 0.0
  {
    hide AllPositive, LogReturns, Subtract;
    assert d.closes[w - w..w + 1] == stock && d.market[w - w..w + 1] == market;
  }

  lemma WindowOfPath(p: LabelParams, full: bool)
    requires SaneLabel(p)
    ensures |Closing(p)| == |Benching(p, full)| > p.sigmaWindow
    ensures AllPositive(Closing(p)[..p.sigmaWindow + 1]) && AllPositive(Benching(p, full)[..p.sigmaWindow + 1])
    ensures Closing(p)[0] == 1.0 && Closing(p)[1] == 2.0 && Closing(p)[2] == 1.0
    ensures Benching(p, full)[0] == 1.0 && Benching(p, full)[1] == 1.0 && Benching(p, full)[2] == 1.0
  {
    hide Stock;
    forall k | 0 <= k < Length(p) ensures Closing(p)[k] > 0.0 {
      StockPositive(p, k);
    }
    FirstDays(p);
  }

  lemma FirstDays(p: LabelParams)
    requires SaneLabel(p)
    ensures Stock(p, 0) == 1.0 && Stock(p, 1) == 2.0 && Stock(p, 2) == 1.0
  {
  }

  lemma SigmaIsThere(s: Resolver, full: bool)
    requires RealNumerics(s) && SaneLabel(s.params)
    ensures var d := Pair(Closing(s.params), Benching(s.params, full));
            var sigma := ExcessSigma(s.num, d, s.params.sigmaWindow, s.params.sigmaWindow);
            sigma.Some? && sigma.value > 0.0
  {
    var p, w := s.params, s.params.sigmaWindow;
    assert w >= 2;
    hide *;
    WindowOfPath(p, full);
    var stock, market := Closing(p)[..w + 1], Benching(p, full)[..w + 1];
    LogIsReal(s);
    ReturnsVary(s.num, stock, market);
    StdOf(s, Subtract(LogReturns(s.num, stock), LogReturns(s.num, market)));
    SigmaFrom(s.num, Pair(Closing(p), Benching(p, full)), w, stock, market);
  }

  /** Up to the last day nothing moves; that day the symbol gains log 2, or loses it against its peers. */
  lemma ExcessOfPath(s: Resolver, full: bool, k: nat)
    requires RealNumerics(s) && SaneLabel(s.params) && s.params.sigmaWindow < k < Length(s.params)
    ensures var d := Pair(Closing(s.params), Benching(s.params, full));
            && Priced(d, k)
            && ExcessAt(s.num, d, s.params.sigmaWindow, k)
            == if k < s.params.sigmaWindow + s.params.horizon then 0.0 else if full then -s.num.log(2.0)
            else s.num.log(2.0)
  {
    hide Varies, IsLog;
    LogOf(s.num);
    StockPositive(s.params, s.params.sigmaWindow);
    Doubled(Stock(s.params, s.params.sigmaWindow));
  }

  lemma Doubled(c: real)
    requires c > 0.0
    ensures Ratio(c, c) == 1.0 && Ratio(2.0 * c, c) == 2.0 && Ratio(4.0, 1.0) == 4.0 && Ratio(1.0, 1.0) == 1.0
  {
    assert 2.0 * c / c == 2.0;
  }

  lemma Positive(a: real, b: real, c: real)
    requires a > 0.0 && b > 0.0 && c > 0.0
    ensures a * (b * c) > 0.0 && -a * (b * c) < 0.0
  {
    assert b * c > 0.0;
  }

  /** Nothing moves before the end of the window, so the outcome is the sign of the move there. */
  lemma LastMoveDecides(num: Numerics, d: Pair, lower: real, upper: real, i: nat, horizon: nat)
    requires |d.closes| == |d.market| == i + horizon + 1 && horizon >= 1 && lower < 0.0 < upper
    requires forall k | i < k < |d.closes| :: Priced(d, k) && (k < i + horizon ==> ExcessAt(num, d, i, k) == 0.0)
    requires ExcessAt(num, d, i, i + horizon) != 0.0
    ensures var o := ResolveExcess(num, d, lower, upper, i, horizon);
            o.Some? && o.value.up == if ExcessAt(num, d, i, i + horizon) > 0.0 then 1 else 0
  {
    ResolveIsFirstExcess(num, d, lower, upper, i, horizon);
    hide ResolveExcess, ExcessAt, Priced;
  }

  lemma BarriersAround(num: Numerics, sigma: real, p: LabelParams)
    requires sigma > 0.0 && num.sqrt(p.horizon as real) > 0.0 && p.ptMult > 0.0 && p.slMult > 0.0
    ensures LowerExcess(num, sigma, p) < 0.0 < UpperExcess(num, sigma, p)
  {
    Positive(p.slMult, sigma, num.sqrt(p.horizon as real));
    Positive(p.ptMult, sigma, num.sqrt(p.horizon as real));
  }

  lemma LabelFrom(num: Numerics, d: Pair, i: nat, p: LabelParams)
    requires i + 1 < |d.closes| == |d.market| && ExcessSigma(num, d, i, p.sigmaWindow).Some?
    ensures ExcessBarrierLabel(num, d, i, p)
         == ResolveExcess(num, d, LowerExcess(num, ExcessSigma(num, d, i, p.sigmaWindow).value, p),
                          UpperExcess(num, ExcessSigma(num, d, i, p.sigmaWindow).value, p), i, p.horizon)
  {
    hide ExcessSigma, ResolveExcess, LowerExcess, UpperExcess;
  }

  lemma RealSqrt(s: Resolver)
    requires RealNumerics(s) && SaneLabel(s.params)
    ensures s.num.sqrt(s.params.horizon as real) > 0.0 && s.num.log(2.0) > 0.0 && s.params.ptMult > 0.0
    ensures s.params.slMult > 0.0 && s.params.horizon >= 1
            && Length(s.params) == s.params.sigmaWindow + s.params.horizon + 1
  {
    hide IsLog, Varies;
  }

  /** The vote's label: up on its own, down against its peers. */
  lemma LabelIs(s: Resolver, full: bool)
    requires RealNumerics(s) && SaneLabel(s.params)
    ensures var o := ExcessBarrierLabel(s.num, Pair(Closing(s.params), Benching(s.params, full)), s.params.sigmaWindow,
                                        s.params);
            o.Some? && o.value.up == if full then 0 else 1
  {
    hide *;
    var p, w, num := s.params, s.params.sigmaWindow, s.num;
    var d := Pair(Closing(p), Benching(p, full));
    RealSqrt(s);
    SigmaIsThere(s, full);
    var sigma := ExcessSigma(num, d, w, w).value;
    BarriersAround(num, sigma, p);
    forall k | w < k < Length(p) ensures Priced(d, k) && (k < w + p.horizon ==> ExcessAt(num, d, w, k) == 0.0) {
      ExcessOfPath(s, full, k);
    }
    ExcessOfPath(s, full, w + p.horizon);
    LastMoveDecides(num, d, LowerExcess(num, sigma, p), UpperExcess(num, sigma, p), w, p.horizon);
    LabelFrom(num, d, w, p);
  }

  // ----- the exact condition

  lemma EntryOfPath(p: LabelParams, name: string, x: string, y: string)
    requires p.horizon >= 1
    ensures Leading(MarketOf(p, name, x, y)(name), DayOf(Instant(p.sigmaWindow))) == p.sigmaWindow + 1
  {
    hide Stock, Leading;
    var bars := MarketOf(p, name, x, y)(name);
    InstantsInOrder(0, p.sigmaWindow);
    InstantsInOrder(0, p.sigmaWindow + 1);
    forall k | 0 <= k < p.sigmaWindow + 1 ensures DayOf(bars[k].ts) <= p.sigmaWindow {
      InstantsInOrder(0, k);
    }
    LeadingUnique(bars, p.sigmaWindow, p.sigmaWindow + 1);
  }

  /** On the witness market the vote is decided, up or down as its two peers count or not. */
  lemma VerdictOfPath(s: Resolver, symbols: seq<string>, name: string, x: string, y: string, full: bool, now: int)
    requires s.excess && RealNumerics(s) && SaneLabel(s.params) && Counts(symbols, name, x, y, full)
    ensures var v := VerdictFor(s, Fetch(MarketOf(s.params, name, x, y), symbols), name, Instant(s.params.sigmaWindow),
                                BUY, now);
            v.Decide? && v.up == if full then 0 else 1
  {
    CountsMeans(symbols, name, x, y, full);
    hide *;
    var market, at := MarketOf(s.params, name, x, y), Instant(s.params.sigmaWindow);
    var fetched, bars := Fetch(market, symbols), market(name);
    SeriesFetched(market, symbols, name);
    VerdictForIs(s, fetched, name, at, BUY, now);
    RealSqrt(s);
    EntryOfPath(s.params, name, x, y);
    LegIs(s, symbols, name, x, y, full);
    NameBars(s.params, name, x, y);
    LabelOf(s, fetched, bars, s.params.sigmaWindow);
    LabelIs(s, full);
    VerdictIs(s, fetched, bars, at, BUY, now, s.params.sigmaWindow);
    DecisionUp(bars, s.params.sigmaWindow, OutcomeAt(s, fetched, bars, s.params.sigmaWindow).value, BUY);
  }

  lemma VerdictForIs(s: Resolver, fetched: seq<Fetched>, symbol: string, at: int, signal: Vote, now: int)
    requires SeriesOf(fetched, symbol).Some?
    ensures VerdictFor(s, fetched, symbol, at, signal, now)
         == VerdictOn(s, fetched, SeriesOf(fetched, symbol).value, at, signal, now)
  {
    hide VerdictOn, SeriesOf;
  }

  lemma DecisionUp(bars: seq<Bar>, entry: nat, o: BarrierOutcome, signal: Vote)
    requires entry < |bars| && o.touchIndex < |bars|
    ensures Decision(bars, entry, o, signal).Decide? && Decision(bars, entry, o, signal).up == o.up
  {
    hide Ratio;
  }

  lemma {:induction false} DistinctSize(list: seq<string>)
    requires Distinct(list)
    ensures |Elements(list)| == |list|
  {
    if list == [] {
      assert Elements(list) == {};
    } else {
      DistinctSize(list[1..]);
      assert list == [list[0]] + list[1..];
      forall i | 0 <= i < |list[1..]| ensures list[1..][i] != list[0] {
        assert list[1..][i] == list[i + 1];
      }
      assert Elements(list) == {list[0]} + Elements(list[1..]);
    }
  }

  lemma AscendingDistinct(list: seq<string>)
    requires Symbols.Ascending(list)
    ensures Distinct(list) && |Elements(list)| == |list|
  {
    DistinctSize(list);
  }

  /** One of the two is a cross-section and has a symbol that the other has not. */
  lemma SomeDifference(a: seq<string>, b: seq<string>) returns (swapped: bool, x: string)
    requires Symbols.Ascending(a) && Symbols.Ascending(b) && a != b && (|a| >= 3 || |b| >= 3)
    ensures if swapped then |b| >= 3 && x in b && x !in a else |a| >= 3 && x in a && x !in b
  {
    hide Symbols.Ascending;
    AscendingDistinct(a);
    AscendingDistinct(b);
    if Elements(a) == Elements(b) {
      forall y ensures y in a <==> y in b {
        assert y in Elements(a) <==> y in Elements(b);
      }
      Symbols.AscendingUnique(a, b);
    }
    if Elements(a) <= Elements(b) {
      SubsetSize(Elements(a), Elements(b));
      swapped := true;
      x :| x in Elements(b) && x !in Elements(a);
    } else if |a| >= 3 {
      swapped := false;
      x :| x in Elements(a) && x !in Elements(b);
    } else {
      swapped := true;
      if Elements(b) <= Elements(a) {
        SubsetSize(Elements(b), Elements(a));
      }
      x :| x in Elements(b) && x !in Elements(a);
    }
  }

  lemma SomeThird(a: seq<string>, name: string, x: string) returns (y: string)
    requires Symbols.Ascending(a) && |a| >= 3
    ensures y in a && y != name && y != x
  {
    AscendingDistinct(a);
    assert |{name, x}| <= 2;
    if Elements(a) <= {name, x} {
      SubsetSize(Elements(a), {name, x});
    }
    y :| y in Elements(a) && y !in {name, x};
  }

  /** A market on which the vote goes down with the symbols `a` pending and up with the symbols `b`. */
  lemma OppositeVerdicts(s: Resolver, a: seq<string>, b: seq<string>, name: string, x: string, now: int)
    returns (market: string -> seq<Bar>, at: int)
    requires s.excess && RealNumerics(s) && SaneLabel(s.params)
    requires Symbols.Ascending(a) && Symbols.Ascending(b) && |a| >= 3 && name in a && name in b && x in a && x !in b
    ensures var down := VerdictFor(s, Fetch(market, a), name, at, BUY, now);
            var up := VerdictFor(s, Fetch(market, b), name, at, BUY, now);
            down.Decide? && down.up == 0 && up.Decide? && up.up == 1
  {
    hide Symbols.Ascending, RealNumerics, VerdictFor, MarketOf, Instant;
    var y := SomeThird(a, name, x);
    market, at := MarketOf(s.params, name, x, y), Instant(s.params.sigmaWindow);
    VerdictOfPath(s, a, name, x, y, true, now);
    VerdictOfPath(s, b, name, x, y, false, now);
  }

  lemma ThinVerdicts(s: Resolver, market: string -> seq<Bar>, a: seq<string>, b: seq<string>, name: string, at: int,
                     signal: Vote, now: int)
    requires |a| < 3 && |b| < 3 && name in a && name in b
    ensures VerdictFor(s, Fetch(market, a), name, at, signal, now)
         == VerdictFor(s, Fetch(market, b), name, at, signal, now)
  {
    hide VerdictFor, VerdictOn, BenchmarkLeg, SeriesOf;
    SeriesFetched(market, a, name);
    SeriesFetched(market, b, name);
    VerdictForIs(s, Fetch(market, a), name, at, signal, now);
    VerdictForIs(s, Fetch(market, b), name, at, signal, now);
    ThinPanelIsFlat(s, Fetch(market, a), market(name));
    ThinPanelIsFlat(s, Fetch(market, b), market(name));
    SameLegSameVerdict(s, Fetch(market, a), Fetch(market, b), market(name), at, signal, now);
  }

  predicate SameVerdict(s: Resolver, a: seq<string>, b: seq<string>, name: string, market: string -> seq<Bar>, at: int,
                        signal: Vote, now: int) {
    VerdictFor(s, Fetch(market, a), name, at, signal, now) == VerdictFor(s, Fetch(market, b), name, at, signal, now)
  }

  /** Under the excess label the rest of the queue cannot change what becomes of any vote of a symbol, on any market,
      exactly when the pending symbols are the same, or too few for a cross-section in both runs. */
  lemma QueueMattersIff(s: Resolver, a: seq<string>, b: seq<string>, name: string)
    requires s.excess && RealNumerics(s) && SaneLabel(s.params) && name in a && name in b
    ensures (forall market, at, signal, now ::
               SameVerdict(s, Symbols.Sorted(a), Symbols.Sorted(b), name, market, at, signal, now))
       <==> (forall y :: y in a <==> y in b) || (|Symbols.Sorted(a)| < 3 && |Symbols.Sorted(b)| < 3)
  {
    hide Symbols.Ascending, Symbols.Sorted, RealNumerics, VerdictFor;
    var la, lb := Symbols.Sorted(a), Symbols.Sorted(b);
    Symbols.SortedMeaning(a);
    Symbols.SortedMeaning(b);
    Symbols.SortedIffSame(a, b);
    if |la| < 3 && |lb| < 3 {
      forall market, at, signal, now
        ensures SameVerdict(s, la, lb, name, market, at, signal, now)
      {
        ThinVerdicts(s, market, la, lb, name, at, signal, now);
      }
    } else if la != lb {
      var swapped, x := SomeDifference(la, lb);
      var market, at;
      if swapped {
        market, at := OppositeVerdicts(s, lb, la, name, x, 0);
      } else {
        market, at := OppositeVerdicts(s, la, lb, name, x, 0);
      }
      assert !SameVerdict(s, la, lb, name, market, at, BUY, 0);
    }
  }
}

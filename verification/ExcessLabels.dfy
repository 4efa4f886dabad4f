/** The barrier label on the return relative to a benchmark path (`excess_barrier_label`). */
module ExcessLabels {
  import opened Common
  import opened Labels

  /** One symbol's closes beside the benchmark on the same index. */
  datatype Pair = Pair(closes: seq<real>, market: seq<real>)

  function Subtract(a: seq<real>, b: seq<real>): (r: seq<real>)
    requires |a| == |b|
    ensures |r| == |a| && forall k | 0 <= k < |a| :: r[k] == a[k] - b[k]
  {
    seq(|a|, k requires 0 <= k < |a| => a[k] - b[k])
  }

  /** Trailing volatility of the daily excess return, when both legs are positive throughout the window. */
  function ExcessSigma(num: Numerics, d: Pair, i: nat, window: nat): Option<real>
    requires |d.closes| == |d.market| && i < |d.closes|
  {
    if i < window then None else
      var stock, market := d.closes[i - window..i + 1], d.market[i - window..i + 1];
      if !AllPositive(stock) || !AllPositive(market) then None else
        var sigma := num.std(Subtract(LogReturns(num, stock), LogReturns(num, market)));
        if sigma <= 0.0 then None else Some(sigma)
  }

  /** Cumulative log excess from bar `i` to bar `j`. */
  function ExcessAt(num: Numerics, d: Pair, i: nat, j: nat): real
    requires |d.closes| == |d.market| && i < |d.closes| && j < |d.closes|
  {
    num.log(Ratio(d.closes[j], d.closes[i])) - num.log(Ratio(d.market[j], d.market[i]))
  }

  predicate Usable(d: Pair, j: nat)
    requires |d.closes| == |d.market| && j < |d.closes|
  {
    d.market[j] > 0.0 && d.closes[j] > 0.0
  }

  datatype Scan = Touched(outcome: BarrierOutcome) | Abandoned(at: nat) | Clear

  function ScanExcess(num: Numerics, d: Pair, lower: real, upper: real, i: nat, j: nat, end: nat): Scan
    requires |d.closes| == |d.market| && i < |d.closes| && end < |d.closes|
    decreases end + 1 - j
  {
    if j > end then Clear
    else if !Usable(d, j) then Abandoned(j)
    else if ExcessAt(num, d, i, j) <= lower then Touched(BarrierOutcome(0, j, Lower))
    else if ExcessAt(num, d, i, j) >= upper then Touched(BarrierOutcome(1, j, Upper))
    else ScanExcess(num, d, lower, upper, i, j + 1, end)
  }

  function ResolveExcess(num: Numerics, d: Pair, lower: real, upper: real, i: nat, horizon: nat): Option<BarrierOutcome>
    requires |d.closes| == |d.market| && i < |d.closes|
  {
    var end := MinInt(i + horizon, |d.closes| - 1);
    match ScanExcess(num, d, lower, upper, i, i + 1, end)
    case Touched(o) => Some(o)
    case Abandoned(_) => None
    case Clear =>
      if end < i + horizon then None
      else Some(BarrierOutcome(if ExcessAt(num, d, i, end) > 0.0 then 1 else 0, end, Vertical))
  }

  function LowerExcess(num: Numerics, sigma: real, p: LabelParams): real {
    -p.slMult * (sigma * num.sqrt(p.horizon as real))
  }

  function UpperExcess(num: Numerics, sigma: real, p: LabelParams): real {
    p.ptMult * (sigma * num.sqrt(p.horizon as real))
  }

  /** `excess_barrier_label` */
  function ExcessBarrierLabel(num: Numerics, d: Pair, i: nat, p: LabelParams): Option<BarrierOutcome> {
    if i + 1 >= |d.closes| || |d.market| != |d.closes| then None else
      var sigma := ExcessSigma(num, d, i, p.sigmaWindow);
      if sigma.None? then None
      else ResolveExcess(num, d, LowerExcess(num, sigma.value, p), UpperExcess(num, sigma.value, p), i, p.horizon)
  }

  // ----- the first-touch specification

  /** Both legs have a price on bar `k`. */
  ghost predicate Priced(d: Pair, k: int) {
    0 <= k < |d.closes| && k < |d.market| && d.closes[k] > 0.0 && d.market[k] > 0.0
  }

  ghost predicate Quiet(num: Numerics, d: Pair, lower: real, upper: real, i: nat, from: nat, to: nat)
    requires |d.closes| == |d.market| && i < |d.closes| && to <= |d.closes|
  {
    forall k | from <= k < to :: Priced(d, k) && lower < ExcessAt(num, d, i, k) < upper
  }

  ghost predicate IsFirstExcess(num: Numerics, o: Option<BarrierOutcome>, d: Pair, lower: real, upper: real, i: nat,
                                horizon: nat)
    requires |d.closes| == |d.market| && i < |d.closes|
  {
    if o.None? then
      || (|d.closes| <= i + horizon && Quiet(num, d, lower, upper, i, i + 1, |d.closes|))
      || exists k :: i < k <= i + horizon && k < |d.closes| && !Priced(d, k) && Quiet(num, d, lower, upper, i, i + 1, k)
    else
      var t := o.value.touchIndex;
      && t < |d.closes| && i <= t <= i + horizon
      && match o.value.barrier
         case Lower =>
           && o.value.up == 0 && i < t && Priced(d, t) && ExcessAt(num, d, i, t) <= lower
           && Quiet(num, d, lower, upper, i, i + 1, t)
         case Upper =>
           && o.value.up == 1 && i < t && Priced(d, t) && lower < ExcessAt(num, d, i, t)
           && ExcessAt(num, d, i, t) >= upper
           && Quiet(num, d, lower, upper, i, i + 1, t)
         case Vertical =>
           && o.value.up == (if ExcessAt(num, d, i, t) > 0.0 then 1 else 0) && t == i + horizon
           && Quiet(num, d, lower, upper, i, i + 1, t + 1)
  }

  lemma FirstExcessUnique(num: Numerics, o1: Option<BarrierOutcome>, o2: Option<BarrierOutcome>, d: Pair,
                          lower: real, upper: real, i: nat, horizon: nat)
    requires |d.closes| == |d.market| && i < |d.closes|
    requires IsFirstExcess(num, o1, d, lower, upper, i, horizon)
    requires IsFirstExcess(num, o2, d, lower, upper, i, horizon)
    ensures o1 == o2
  {
    hide ExcessAt, Usable;
  }

  ghost predicate ExcessScanResult(num: Numerics, s: Scan, d: Pair, lower: real, upper: real, i: nat, j: nat, end: nat)
    requires |d.closes| == |d.market| && i < |d.closes| && end < |d.closes|
  {
    match s
    case Clear => Quiet(num, d, lower, upper, i, j, end + 1)
    case Abandoned(k) => j <= k <= end && !Priced(d, k) && Quiet(num, d, lower, upper, i, j, k)
    case Touched(o) =>
      && j <= o.touchIndex <= end && Priced(d, o.touchIndex) && Quiet(num, d, lower, upper, i, j, o.touchIndex)
      && ((o.barrier == Lower && o.up == 0 && ExcessAt(num, d, i, o.touchIndex) <= lower)
          || (o.barrier == Upper && o.up == 1 && ExcessAt(num, d, i, o.touchIndex) > lower
              && ExcessAt(num, d, i, o.touchIndex) >= upper))
  }

  lemma UsableIsPriced(d: Pair, k: nat)
    requires |d.closes| == |d.market| && k < |d.closes|
    ensures Usable(d, k) <==> Priced(d, k)
  {
  }

  lemma {:induction false} ScanExcessFindsFirst(num: Numerics, d: Pair, lower: real, upper: real, i: nat, j: nat,
                                                end: nat)
    requires |d.closes| == |d.market| && i < |d.closes| && j <= end + 1 && end < |d.closes|
    ensures ExcessScanResult(num, ScanExcess(num, d, lower, upper, i, j, end), d, lower, upper, i, j, end)
    decreases end + 1 - j
  {
    hide ExcessAt, Usable, Priced;
    if j <= end {
      UsableIsPriced(d, j);
    }
    if j <= end && Usable(d, j) && lower < ExcessAt(num, d, i, j) < upper {
      ScanExcessFindsFirst(num, d, lower, upper, i, j + 1, end);
    }
  }

  /** The scan computes the first touch of the cumulative excess; an unusable bar before it voids the label. */
  lemma ResolveIsFirstExcess(num: Numerics, d: Pair, lower: real, upper: real, i: nat, horizon: nat)
    requires |d.closes| == |d.market| && i < |d.closes|
    ensures IsFirstExcess(num, ResolveExcess(num, d, lower, upper, i, horizon), d, lower, upper, i, horizon)
  {
    hide ExcessAt, Usable, Priced, ScanExcess;
    var end := MinInt(i + horizon, |d.closes| - 1);
    assert i <= end;
    ScanExcessFindsFirst(num, d, lower, upper, i, i + 1, end);
  }

  lemma ExcessIs(num: Numerics, d: Pair, i: nat, p: LabelParams, sigma: real)
    requires |d.closes| == |d.market| && i + 1 < |d.closes| && ExcessSigma(num, d, i, p.sigmaWindow) == Some(sigma)
    ensures ExcessBarrierLabel(num, d, i, p)
         == ResolveExcess(num, d, LowerExcess(num, sigma, p), UpperExcess(num, sigma, p), i, p.horizon)
  {
  }

  lemma ExcessDecided(num: Numerics, d: Pair, i: nat, p: LabelParams) returns (sigma: real)
    requires ExcessBarrierLabel(num, d, i, p).Some?
    ensures |d.closes| == |d.market| && i + 1 < |d.closes| && ExcessSigma(num, d, i, p.sigmaWindow) == Some(sigma)
  {
    sigma := ExcessSigma(num, d, i, p.sigmaWindow).value;
  }

  // ----- the label, written out

  /** The daily excess log returns over the `window` bars before bar `i`. */
  function TrailingExcess(num: Numerics, d: Pair, i: nat, window: nat): (r: seq<real>)
    requires |d.closes| == |d.market| && window <= i < |d.closes|
    ensures |r| == window
    ensures forall k | 0 <= k < window ::
              var a, b := i - window + k, i - window + k + 1;
              r[k] == (num.log(d.closes[b]) - num.log(d.closes[a])) - (num.log(d.market[b]) - num.log(d.market[a]))
  {
    Subtract(TrailingReturns(num, d.closes, i, window), TrailingReturns(num, d.market, i, window))
  }

  ghost predicate ExcessMeasurable(num: Numerics, d: Pair, i: nat, window: nat) {
    && |d.closes| == |d.market| && window <= i && i + 1 < |d.closes|
    && (forall k | i - window <= k <= i :: d.closes[k] > 0.0 && d.market[k] > 0.0)
    && num.std(TrailingExcess(num, d, i, window)) > 0.0
  }

  /** What the label is: the first exit of the cumulative log excess from a band one width wide on each side, scaled,
      the width being the volatility of the daily excess times the root of the horizon; nothing when that cannot be
      measured. */
  ghost predicate IsExcessBarrier(o: Option<BarrierOutcome>, num: Numerics, d: Pair, i: nat, p: LabelParams) {
    if ExcessMeasurable(num, d, i, p.sigmaWindow) then
      exists lower, upper ::
        && AreBands(num, num.std(TrailingExcess(num, d, i, p.sigmaWindow)), p, lower, upper)
        && IsFirstExcess(num, o, d, lower, upper, i, p.horizon)
    else o.None?
  }

  ghost predicate AreBands(num: Numerics, sigma: real, p: LabelParams, lower: real, upper: real) {
    var width := sigma * num.sqrt(p.horizon as real);
    lower == -p.slMult * width && upper == p.ptMult * width
  }

  lemma ExcessMeasuredIs(num: Numerics, d: Pair, i: nat, window: nat)
    requires |d.closes| == |d.market| && i + 1 < |d.closes|
    ensures ExcessSigma(num, d, i, window).Some? <==> ExcessMeasurable(num, d, i, window)
    ensures ExcessMeasurable(num, d, i, window) ==>
              ExcessSigma(num, d, i, window) == Some(num.std(TrailingExcess(num, d, i, window)))
  {
    hide LogReturns, Subtract;
    if window <= i {
      SegmentPositive(d.closes, i - window, i);
      SegmentPositive(d.market, i - window, i);
      SegmentReturns(num, d.closes, i, window);
      SegmentReturns(num, d.market, i, window);
      ExcessOfReturns(num, d, i, window);
    }
  }

  lemma SegmentPositive(s: seq<real>, lo: nat, hi: nat)
    requires lo <= hi < |s|
    ensures AllPositive(s[lo..hi + 1]) <==> forall k | lo <= k <= hi :: s[k] > 0.0
  {
    assert forall k | lo <= k <= hi :: s[k] == s[lo..hi + 1][k - lo];
  }

  lemma SegmentReturns(num: Numerics, s: seq<real>, i: nat, window: nat)
    requires window <= i < |s|
    ensures LogReturns(num, s[i - window..i + 1]) == TrailingReturns(num, s, i, window)
  {
  }

  lemma ExcessOfReturns(num: Numerics, d: Pair, i: nat, window: nat)
    requires |d.closes| == |d.market| && window <= i < |d.closes|
    ensures TrailingExcess(num, d, i, window)
         == Subtract(TrailingReturns(num, d.closes, i, window), TrailingReturns(num, d.market, i, window))
  {
    hide TrailingReturns, Subtract;
  }

  lemma ExcessMeasurableMeans(num: Numerics, d: Pair, i: nat, window: nat)
    ensures ExcessMeasurable(num, d, i, window) ==>
              |d.closes| == |d.market| && window <= i && i + 1 < |d.closes|
  {
  }

  lemma BandsAre(num: Numerics, sigma: real, p: LabelParams)
    ensures AreBands(num, sigma, p, LowerExcess(num, sigma, p), UpperExcess(num, sigma, p))
  {
  }

  lemma ExcessBarrierInFull(num: Numerics, d: Pair, i: nat, p: LabelParams)
    ensures IsExcessBarrier(ExcessBarrierLabel(num, d, i, p), num, d, i, p)
  {
    ExcessMeasurableMeans(num, d, i, p.sigmaWindow);
    if i + 1 < |d.closes| && |d.closes| == |d.market| {
      ExcessMeasuredIs(num, d, i, p.sigmaWindow);
      hide ExcessSigma, ExcessMeasurable, ResolveExcess, IsFirstExcess;
      if ExcessMeasurable(num, d, i, p.sigmaWindow) {
        hide LowerExcess, UpperExcess, AreBands, TrailingExcess;
        var sigma := num.std(TrailingExcess(num, d, i, p.sigmaWindow));
        BandsAre(num, sigma, p);
        ResolveIsFirstExcess(num, d, LowerExcess(num, sigma, p), UpperExcess(num, sigma, p), i, p.horizon);
      }
    }
  }

  lemma ExcessBarrierUnique(o: Option<BarrierOutcome>, num: Numerics, d: Pair, i: nat, p: LabelParams)
    requires IsExcessBarrier(o, num, d, i, p)
    ensures o == ExcessBarrierLabel(num, d, i, p)
  {
    hide IsFirstExcess, ExcessMeasurable, ExcessBarrierLabel;
    ExcessMeasurableMeans(num, d, i, p.sigmaWindow);
    ExcessBarrierInFull(num, d, i, p);
    if ExcessMeasurable(num, d, i, p.sigmaWindow) {
      hide TrailingExcess;
      var sigma, o' := num.std(TrailingExcess(num, d, i, p.sigmaWindow)), ExcessBarrierLabel(num, d, i, p);
      var lower, upper :| AreBands(num, sigma, p, lower, upper) && IsFirstExcess(num, o, d, lower, upper, i, p.horizon);
      var lower', upper' :| AreBands(num, sigma, p, lower', upper')
                             && IsFirstExcess(num, o', d, lower', upper', i, p.horizon);
      FirstExcessUnique(num, o, o', d, lower, upper, i, p.horizon);
    }
  }

  /** The excess compared with the bands is how much further the symbol's log price moved than the benchmark's. */
  lemma ExcessMeaning(num: Numerics, d: Pair, i: nat, j: nat)
    requires IsLog(num.log) && |d.closes| == |d.market| && i < |d.closes| && j < |d.closes|
    requires d.closes[i] > 0.0 && d.closes[j] > 0.0 && d.market[i] > 0.0 && d.market[j] > 0.0
    ensures ExcessAt(num, d, i, j)
         == (num.log(d.closes[j]) - num.log(d.closes[i])) - (num.log(d.market[j]) - num.log(d.market[i]))
  {
    LogOfRatio(num, d.closes[j], d.closes[i]);
    LogOfRatio(num, d.market[j], d.market[i]);
  }

  lemma LogOfRatio(num: Numerics, a: real, b: real)
    requires IsLog(num.log) && a > 0.0 && b > 0.0
    ensures num.log(Ratio(a, b)) == num.log(a) - num.log(b)
  {
    hide Ratio, IsLog;
    RatioBack(a, b);
    var q := Ratio(a, b);
    LogOfProduct(num, q, b, a);
  }

  lemma RatioBack(a: real, b: real)
    requires a > 0.0 && b > 0.0
    ensures Ratio(a, b) > 0.0 && Ratio(a, b) * b == a
  {
  }

  lemma LogOfProduct(num: Numerics, x: real, y: real, z: real)
    requires IsLog(num.log) && x > 0.0 && y > 0.0 && x * y == z
    ensures num.log(z) == num.log(x) + num.log(y)
  {
  }

  /** A decided label resolves inside its window; only a zero horizon resolves it on the entry bar itself. */
  lemma ExcessBarrierWindow(num: Numerics, d: Pair, i: nat, p: LabelParams)
    requires ExcessBarrierLabel(num, d, i, p).Some?
    ensures var t := ExcessBarrierLabel(num, d, i, p).value.touchIndex;
            i <= t <= i + p.horizon && t < |d.closes| == |d.market| && (i < t <==> p.horizon > 0)
  {
    var sigma := ExcessDecided(num, d, i, p);
    ExcessIs(num, d, i, p, sigma);
    ResolveIsFirstExcess(num, d, LowerExcess(num, sigma, p), UpperExcess(num, sigma, p), i, p.horizon);
  }

  // ----- a decided label depends on nothing after its touch

  lemma SlicesAgree(a: seq<real>, b: seq<real>, n: nat, lo: nat, hi: nat)
    requires AgreeTo(a, b, n) && lo <= hi <= n
    ensures a[lo..hi] == b[lo..hi]
  {
  }

  lemma ExcessSigmaPrefix(num: Numerics, d: Pair, d': Pair, i: nat, window: nat, n: nat)
    requires |d.closes| == |d.market| && |d'.closes| == |d'.market| && i < n
    requires AgreeTo(d.closes, d'.closes, n) && AgreeTo(d.market, d'.market, n)
    ensures ExcessSigma(num, d, i, window) == ExcessSigma(num, d', i, window)
  {
    if i >= window {
      SlicesAgree(d.closes, d'.closes, n, i - window, i + 1);
      SlicesAgree(d.market, d'.market, n, i - window, i + 1);
    }
  }

  lemma ExcessAtPrefix(num: Numerics, d: Pair, d': Pair, i: nat, n: nat)
    requires |d.closes| == |d.market| && |d'.closes| == |d'.market| && i < n
    requires AgreeTo(d.closes, d'.closes, n) && AgreeTo(d.market, d'.market, n)
    ensures forall k | 0 <= k < n ::
              ExcessAt(num, d, i, k) == ExcessAt(num, d', i, k) && (Priced(d, k) <==> Priced(d', k))
  {
  }

  lemma FirstExcessPrefix(num: Numerics, o: BarrierOutcome, d: Pair, d': Pair, lower: real, upper: real, i: nat,
                          horizon: nat)
    requires |d.closes| == |d.market| && |d'.closes| == |d'.market| && i < |d.closes|
    requires IsFirstExcess(num, Some(o), d, lower, upper, i, horizon)
    requires AgreeTo(d.closes, d'.closes, o.touchIndex + 1) && AgreeTo(d.market, d'.market, o.touchIndex + 1)
    ensures i < |d'.closes| && IsFirstExcess(num, Some(o), d', lower, upper, i, horizon)
  {
    ExcessAtPrefix(num, d, d', i, o.touchIndex + 1);
    hide ExcessAt, Priced;
  }

  /** Whatever happens to either leg after the touch, a decided label stays. */
  lemma ExcessBarrierStable(num: Numerics, d: Pair, d': Pair, i: nat, p: LabelParams)
    requires ExcessBarrierLabel(num, d, i, p).Some? && |d'.closes| == |d'.market| && i + 1 < |d'.closes|
    requires var n := ExcessBarrierLabel(num, d, i, p).value.touchIndex + 1;
             AgreeTo(d.closes, d'.closes, n) && AgreeTo(d.market, d'.market, n)
    ensures ExcessBarrierLabel(num, d', i, p) == ExcessBarrierLabel(num, d, i, p)
  {
    hide *;
    var o := ExcessBarrierLabel(num, d, i, p).value;
    var sigma := ExcessDecided(num, d, i, p);
    ExcessBarrierWindow(num, d, i, p);
    ExcessSigmaPrefix(num, d, d', i, p.sigmaWindow, o.touchIndex + 1);
    ExcessIs(num, d, i, p, sigma);
    ExcessIs(num, d', i, p, sigma);
    var lower, upper := LowerExcess(num, sigma, p), UpperExcess(num, sigma, p);
    ResolveIsFirstExcess(num, d, lower, upper, i, p.horizon);
    FirstExcessPrefix(num, o, d, d', lower, upper, i, p.horizon);
    ResolveIsFirstExcess(num, d', lower, upper, i, p.horizon);
    FirstExcessUnique(num, Some(o), ResolveExcess(num, d', lower, upper, i, p.horizon), d', lower, upper, i, p.horizon);
  }

  // ----- nor on the price unit

  lemma RatioScaled(c: real, a: real, b: real)
    requires c > 0.0
    ensures Ratio(Scale(c, a), Scale(c, b)) == Ratio(a, b)
  {
    if b != 0.0 {
      assert c * b != 0.0;
      var q := a / b;
      assert q * (c * b) == c * a by {
        assert q * b == a;
      }
    }
  }

  lemma ExcessAtRescaled(num: Numerics, c: real, d: Pair, i: nat, j: nat)
    requires c > 0.0 && |d.closes| == |d.market| && i < |d.closes| && j < |d.closes|
    ensures var d' := Pair(Rescale(c, d.closes), d.market);
            ExcessAt(num, d', i, j) == ExcessAt(num, d, i, j) && (Usable(d', j) <==> Usable(d, j))
  {
    hide Scale, Rescale, Ratio;
    RatioScaled(c, d.closes[j], d.closes[i]);
    ScaledSign(c, d.closes[j]);
  }

  lemma ExcessSigmaRescaled(num: Numerics, c: real, d: Pair, i: nat, window: nat)
    requires c > 0.0 && IsLog(num.log) && |d.closes| == |d.market| && i < |d.closes|
    ensures ExcessSigma(num, Pair(Rescale(c, d.closes), d.market), i, window) == ExcessSigma(num, d, i, window)
  {
    hide IsLog, Rescale, AllPositive, LogReturns, Subtract;
    if i >= window {
      var segment := d.closes[i - window..i + 1];
      RescaleSlice(c, d.closes, i - window, i + 1);
      RescalePositive(c, segment);
      if AllPositive(segment) {
        LogReturnsRescaled(num, c, segment);
      }
    }
  }

  lemma FirstExcessRescaled(num: Numerics, c: real, o: Option<BarrierOutcome>, d: Pair, lower: real, upper: real,
                            i: nat, horizon: nat)
    requires c > 0.0 && |d.closes| == |d.market| && i < |d.closes|
    requires IsFirstExcess(num, o, d, lower, upper, i, horizon)
    ensures IsFirstExcess(num, o, Pair(Rescale(c, d.closes), d.market), lower, upper, i, horizon)
  {
    hide Rescale, ExcessAt, Usable, Priced;
    var d' := Pair(Rescale(c, d.closes), d.market);
    forall j | 0 <= j < |d.closes|
      ensures ExcessAt(num, d', i, j) == ExcessAt(num, d, i, j) && (Priced(d', j) <==> Priced(d, j))
    {
      ExcessAtRescaled(num, c, d, i, j);
      UsableIsPriced(d, j);
      UsableIsPriced(d', j);
    }
    forall from: nat, to: nat | to <= |d.closes| && Quiet(num, d, lower, upper, i, from, to)
      ensures Quiet(num, d', lower, upper, i, from, to)
    {
    }
  }

  /** Rescaling the symbol's whole price history changes no excess label, decided or not. */
  lemma ExcessBarrierRescaled(num: Numerics, c: real, d: Pair, i: nat, p: LabelParams)
    requires c > 0.0 && IsLog(num.log)
    ensures ExcessBarrierLabel(num, Pair(Rescale(c, d.closes), d.market), i, p) == ExcessBarrierLabel(num, d, i, p)
  {
    hide IsLog, Rescale, ExcessSigma, ResolveExcess, LowerExcess, UpperExcess;
    var d' := Pair(Rescale(c, d.closes), d.market);
    if i + 1 < |d.closes| && |d.closes| == |d.market| {
      ExcessSigmaRescaled(num, c, d, i, p.sigmaWindow);
      var sigma := ExcessSigma(num, d, i, p.sigmaWindow);
      if sigma.Some? {
        var lower, upper := LowerExcess(num, sigma.value, p), UpperExcess(num, sigma.value, p);
        ResolveIsFirstExcess(num, d, lower, upper, i, p.horizon);
        ResolveIsFirstExcess(num, d', lower, upper, i, p.horizon);
        FirstExcessRescaled(num, c, ResolveExcess(num, d, lower, upper, i, p.horizon), d, lower, upper, i, p.horizon);
        FirstExcessUnique(num, ResolveExcess(num, d, lower, upper, i, p.horizon),
                          ResolveExcess(num, d', lower, upper, i, p.horizon), d', lower, upper, i, p.horizon);
      }
    }
  }
}

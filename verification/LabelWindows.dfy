/** Labels on a history whose oldest bars have been dropped: the same label, counted from the new first bar. */
module LabelWindows {
  import opened Common
  import opened Labels
  import opened ExcessLabels

  /** The outcome as seen when the first `w` bars are gone. */
  function Back(o: Option<BarrierOutcome>, w: nat): Option<BarrierOutcome> {
    match o
    case None => None
    case Some(b) => Some(BarrierOutcome(b.up, MaxInt(b.touchIndex - w, 0), b.barrier))
  }

  // ----- triple-barrier labels

  lemma {:induction false} ScanSuffix(lows: seq<real>, highs: seq<real>, lower: real, upper: real, j: nat, end: nat,
                                      w: nat)
    requires |lows| == |highs| && w <= end < |lows| && w <= j
    ensures ScanBars(lows[w..], highs[w..], lower, upper, j - w, end - w)
         == Back(ScanBars(lows, highs, lower, upper, j, end), w)
    decreases end + 1 - j
  {
    if j <= end {
      ScanSuffix(lows, highs, lower, upper, j + 1, end, w);
    }
  }

  lemma ResolveSuffix(closes: seq<real>, highs: seq<real>, lows: seq<real>, lower: real, upper: real, i: nat,
                      horizon: nat, w: nat)
    requires |closes| == |highs| == |lows| && w <= i < |closes|
    ensures Resolve(closes[w..], highs[w..], lows[w..], lower, upper, i - w, horizon)
         == Back(Resolve(closes, highs, lows, lower, upper, i, horizon), w)
  {
    hide ScanBars;
    ScanSuffix(lows, highs, lower, upper, i + 1, MinInt(i + horizon, |closes| - 1), w);
  }

  lemma SigmaSuffix(num: Numerics, closes: seq<real>, i: nat, window: nat, w: nat)
    requires w + window <= i < |closes|
    ensures TrailingSigma(num, closes[w..], i - w, window) == TrailingSigma(num, closes, i, window)
  {
    assert closes[w..][i - w - window..i - w + 1] == closes[i - window..i + 1];
  }

  /** A label whose volatility window is still there is what it was on the whole history. */
  lemma TripleBarrierSuffix(num: Numerics, closes: seq<real>, highs: seq<real>, lows: seq<real>, i: nat,
                            p: LabelParams, w: nat)
    requires |closes| == |highs| == |lows| && w + p.sigmaWindow <= i < |closes|
    ensures TripleBarrierLabel(num, closes[w..], highs[w..], lows[w..], i - w, p)
         == Back(TripleBarrierLabel(num, closes, highs, lows, i, p), w)
  {
    hide Resolve, TrailingSigma, LowerBarrier, UpperBarrier;
    SigmaSuffix(num, closes, i, p.sigmaWindow, w);
    assert closes[w..][i - w] == closes[i];
    var sigma := TrailingSigma(num, closes, i, p.sigmaWindow);
    if sigma.Some? {
      ResolveSuffix(closes, highs, lows, LowerBarrier(num, closes[i], sigma.value, p),
                    UpperBarrier(num, closes[i], sigma.value, p), i, p.horizon, w);
    }
  }

  // ----- excess labels: the benchmark may moreover be rebased

  /** `d'` is `d` without its first `w` bars, its benchmark in units of `c` from bar `from` on. */
  ghost predicate IsWindow(d: Pair, d': Pair, w: nat, from: nat, c: real) {
    && |d.closes| == |d.market| && |d'.closes| == |d'.market| && w <= from && w <= |d.closes|
    && d'.closes == d.closes[w..]
    && forall x | from <= x < |d.closes| :: d'.market[x - w] == Scale(c, d.market[x])
  }

  lemma ExcessAtWindow(num: Numerics, d: Pair, d': Pair, w: nat, from: nat, c: real, i: nat, j: nat)
    requires c > 0.0 && IsWindow(d, d', w, from, c) && from <= i <= j < |d.closes|
    ensures Usable(d', j - w) <==> Usable(d, j)
    ensures ExcessAt(num, d', i - w, j - w) == ExcessAt(num, d, i, j)
  {
    hide Scale, Ratio;
    RatioScaled(c, d.market[j], d.market[i]);
    ScaledSign(c, d.market[j]);
  }

  lemma ExcessSigmaWindow(num: Numerics, d: Pair, d': Pair, w: nat, c: real, i: nat, window: nat)
    requires c > 0.0 && IsLog(num.log) && w + window <= i < |d.closes| && IsWindow(d, d', w, i - window, c)
    ensures ExcessSigma(num, d', i - w, window) == ExcessSigma(num, d, i, window)
  {
    hide IsLog, Rescale, AllPositive, LogReturns, Subtract, Scale;
    var segment := d.market[i - window..i + 1];
    assert d'.closes[i - w - window..i - w + 1] == d.closes[i - window..i + 1];
    assert d'.market[i - w - window..i - w + 1] == Rescale(c, segment) by {
      forall k | 0 <= k < |segment| ensures d'.market[i - w - window..i - w + 1][k] == Rescale(c, segment)[k] {
        assert d'.market[(i - window + k) - w] == Scale(c, d.market[i - window + k]);
      }
    }
    RescalePositive(c, segment);
    if AllPositive(segment) {
      LogReturnsRescaled(num, c, segment);
    }
  }

  function BackScan(s: Scan, w: nat): Scan {
    match s
    case Touched(o) => Touched(BarrierOutcome(o.up, MaxInt(o.touchIndex - w, 0), o.barrier))
    case Abandoned(at) => Abandoned(MaxInt(at - w, 0))
    case Clear => Clear
  }

  lemma {:induction false} ScanExcessWindow(num: Numerics, d: Pair, d': Pair, w: nat, from: nat, c: real, lower: real,
                                            upper: real, i: nat, j: nat, end: nat)
    requires c > 0.0 && IsWindow(d, d', w, from, c) && from <= i <= j && i <= end < |d.closes|
    ensures ScanExcess(num, d', lower, upper, i - w, j - w, end - w)
         == BackScan(ScanExcess(num, d, lower, upper, i, j, end), w)
    decreases end + 1 - j
  {
    hide ExcessAt, Usable, Scale;
    if j <= end {
      ExcessAtWindow(num, d, d', w, from, c, i, j);
      ScanExcessWindow(num, d, d', w, from, c, lower, upper, i, j + 1, end);
    }
  }

  lemma ResolveExcessWindow(num: Numerics, d: Pair, d': Pair, w: nat, from: nat, c: real, lower: real, upper: real,
                            i: nat, horizon: nat)
    requires c > 0.0 && IsWindow(d, d', w, from, c) && from <= i < |d.closes|
    ensures ResolveExcess(num, d', lower, upper, i - w, horizon)
         == Back(ResolveExcess(num, d, lower, upper, i, horizon), w)
  {
    hide ExcessAt, Usable, Scale, ScanExcess;
    var end := MinInt(i + horizon, |d.closes| - 1);
    ScanExcessWindow(num, d, d', w, from, c, lower, upper, i, i + 1, end);
    ExcessAtWindow(num, d, d', w, from, c, i, end);
  }

  /** So is an excess label, in whatever unit the benchmark now stands. */
  lemma ExcessBarrierWindowed(num: Numerics, d: Pair, d': Pair, w: nat, c: real, i: nat, p: LabelParams)
    requires c > 0.0 && IsLog(num.log) && w + p.sigmaWindow <= i < |d.closes|
    requires IsWindow(d, d', w, i - p.sigmaWindow, c)
    ensures ExcessBarrierLabel(num, d', i - w, p) == Back(ExcessBarrierLabel(num, d, i, p), w)
  {
    hide IsLog, ExcessSigma, ResolveExcess, LowerExcess, UpperExcess, Scale;
    ExcessSigmaWindow(num, d, d', w, c, i, p.sigmaWindow);
    var sigma := ExcessSigma(num, d, i, p.sigmaWindow);
    if i + 1 < |d.closes| && sigma.Some? {
      ResolveExcessWindow(num, d, d', w, i - p.sigmaWindow, c, LowerExcess(num, sigma.value, p),
                          UpperExcess(num, sigma.value, p), i, p.horizon);
    }
  }
}

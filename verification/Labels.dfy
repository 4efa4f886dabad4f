/**
 Triple-barrier labels. `log`, `sqrt` and the sample standard deviation are parameters: the label rules use
 nothing about them beyond what a lemma names.
 */
module Labels {
  import opened Common

  datatype LabelParams = LabelParams(sigmaWindow: nat, ptMult: real, slMult: real, horizon: nat)

  datatype Barrier = Upper | Lower | Vertical

  datatype BarrierOutcome = BarrierOutcome(up: int, touchIndex: nat, barrier: Barrier)

  datatype Numerics = Numerics(log: real -> real, sqrt: real -> real, std: seq<real> -> real)

  // ----- trailing volatility

  predicate AllPositive(s: seq<real>) {
    forall k | 0 <= k < |s| :: s[k] > 0.0
  }

  /** `np.diff(np.log(segment))` */
  function LogReturns(num: Numerics, segment: seq<real>): (r: seq<real>)
    requires segment != []
    ensures |r| == |segment| - 1
    ensures forall k | 0 <= k < |r| :: r[k] == num.log(segment[k + 1]) - num.log(segment[k])
  {
    seq(|segment| - 1, k requires 0 <= k < |segment| - 1 => num.log(segment[k + 1]) - num.log(segment[k]))
  }

  function TrailingSigma(num: Numerics, closes: seq<real>, i: nat, window: nat): Option<real>
    requires i < |closes|
  {
    if i < window then None else
      var segment := closes[i - window..i + 1];
      if !AllPositive(segment) then None else
        var sigma := num.std(LogReturns(num, segment));
        if sigma > 0.0 then Some(sigma) else None
  }

  // ----- the scan: first touch wins, the lower barrier first within a bar

  function ScanBars(lows: seq<real>, highs: seq<real>, lower: real, upper: real, j: nat,
                    end: nat): Option<BarrierOutcome>
    requires |lows| == |highs| && end < |lows|
    decreases end + 1 - j
  {
    if j > end then None
    else if lows[j] <= lower then Some(BarrierOutcome(0, j, Lower))
    else if highs[j] >= upper then Some(BarrierOutcome(1, j, Upper))
    else ScanBars(lows, highs, lower, upper, j + 1, end)
  }

  /** The scan, then the vertical barrier; `None` when the window is truncated before any touch. */
  function Resolve(closes: seq<real>, highs: seq<real>, lows: seq<real>, lower: real, upper: real, i: nat, horizon: nat)
    : Option<BarrierOutcome>
    requires |closes| == |highs| == |lows| && i < |closes|
  {
    var end := MinInt(i + horizon, |closes| - 1);
    var touched := ScanBars(lows, highs, lower, upper, i + 1, end);
    if touched.Some? then touched
    else if end < i + horizon then None
    else Some(BarrierOutcome(if closes[end] > closes[i] then 1 else 0, end, Vertical))
  }

  function LowerBarrier(num: Numerics, close: real, sigma: real, p: LabelParams): real {
    close * (1.0 - p.slMult * (sigma * num.sqrt(p.horizon as real)))
  }

  function UpperBarrier(num: Numerics, close: real, sigma: real, p: LabelParams): real {
    close * (1.0 + p.ptMult * (sigma * num.sqrt(p.horizon as real)))
  }

  /** `triple_barrier_label` */
  function TripleBarrierLabel(num: Numerics, closes: seq<real>, highs: seq<real>, lows: seq<real>, i: nat,
                              p: LabelParams)
    : Option<BarrierOutcome>
    requires |closes| == |highs| == |lows| && i < |closes|
  {
    var sigma := TrailingSigma(num, closes, i, p.sigmaWindow);
    if sigma.None? || i + 1 >= |closes| then None
    else Resolve(closes, highs, lows, LowerBarrier(num, closes[i], sigma.value, p),
                 UpperBarrier(num, closes[i], sigma.value, p), i, p.horizon)
  }

  // ----- the first-touch specification

  ghost predicate Untouched(lows: seq<real>, highs: seq<real>, lower: real, upper: real, from: nat, to: nat)
    requires |lows| == |highs| && to <= |lows|
  {
    forall k | from <= k < to :: lows[k] > lower && highs[k] < upper
  }

  /** What a label over the barriers `lower`, `upper` means, bar by bar over `(i, i + horizon]`. */
  ghost predicate IsFirstTouch(o: Option<BarrierOutcome>, closes: seq<real>, highs: seq<real>, lows: seq<real>,
                               lower: real, upper: real, i: nat, horizon: nat)
    requires |closes| == |highs| == |lows| && i < |closes|
  {
    if o.None? then
      |closes| <= i + horizon && Untouched(lows, highs, lower, upper, i + 1, |closes|)
    else
      var t := o.value.touchIndex;
      && t < |closes| && i <= t <= i + horizon
      && match o.value.barrier
         case Lower =>
           && o.value.up == 0 && i < t && lows[t] <= lower
           && Untouched(lows, highs, lower, upper, i + 1, t)
         case Upper =>
           && o.value.up == 1 && i < t && lows[t] > lower && highs[t] >= upper
           && Untouched(lows, highs, lower, upper, i + 1, t)
         case Vertical =>
           && o.value.up == (if closes[t] > closes[i] then 1 else 0) && t == i + horizon
           && Untouched(lows, highs, lower, upper, i + 1, t + 1)
  }

  /** The specification leaves no choice. */
  lemma FirstTouchUnique(o1: Option<BarrierOutcome>, o2: Option<BarrierOutcome>, closes: seq<real>, highs: seq<real>,
                         lows: seq<real>, lower: real, upper: real, i: nat, horizon: nat)
    requires |closes| == |highs| == |lows| && i < |closes|
    requires IsFirstTouch(o1, closes, highs, lows, lower, upper, i, horizon)
    requires IsFirstTouch(o2, closes, highs, lows, lower, upper, i, horizon)
    ensures o1 == o2
  {
  }

  ghost predicate ScanResult(o: Option<BarrierOutcome>, lows: seq<real>, highs: seq<real>, lower: real, upper: real,
                             j: nat, end: nat)
    requires |lows| == |highs| && end < |lows|
  {
    if o.None? then Untouched(lows, highs, lower, upper, j, end + 1)
    else
      var t := o.value.touchIndex;
      && j <= t <= end && Untouched(lows, highs, lower, upper, j, t)
      && ((o.value.barrier == Lower && o.value.up == 0 && lows[t] <= lower)
          || (o.value.barrier == Upper && o.value.up == 1 && lows[t] > lower && highs[t] >= upper))
  }

  lemma {:induction false} ScanFindsFirst(lows: seq<real>, highs: seq<real>, lower: real, upper: real, j: nat, end: nat)
    requires |lows| == |highs| && j <= end + 1 && end < |lows|
    ensures ScanResult(ScanBars(lows, highs, lower, upper, j, end), lows, highs, lower, upper, j, end)
    decreases end + 1 - j
  {
    if j <= end && lows[j] > lower && highs[j] < upper {
      ScanFindsFirst(lows, highs, lower, upper, j + 1, end);
    }
  }

  /** The scan computes the first touch; a bar touching both barriers is a loss. */
  lemma ResolveIsFirstTouch(closes: seq<real>, highs: seq<real>, lows: seq<real>, lower: real, upper: real, i: nat,
                            horizon: nat)
    requires |closes| == |highs| == |lows| && i < |closes|
    ensures IsFirstTouch(Resolve(closes, highs, lows, lower, upper, i, horizon), closes, highs, lows, lower, upper, i,
                         horizon)
  {
    var end := MinInt(i + horizon, |closes| - 1);
    assert i <= end;
    ScanFindsFirst(lows, highs, lower, upper, i + 1, end);
  }

  // ----- the label, written out

  /** The daily log returns over the `window` bars before bar `i`. */
  function TrailingReturns(num: Numerics, closes: seq<real>, i: nat, window: nat): (r: seq<real>)
    requires window <= i < |closes|
    ensures |r| == window
    ensures forall k | 0 <= k < window :: r[k] == num.log(closes[i - window + k + 1]) - num.log(closes[i - window + k])
  {
    seq(window, k requires 0 <= k < window => num.log(closes[i - window + k + 1]) - num.log(closes[i - window + k]))
  }

  /** There is something to measure the volatility on, and something to look at. */
  ghost predicate Measurable(num: Numerics, closes: seq<real>, i: nat, window: nat) {
    && window <= i && i + 1 < |closes| && (forall k | i - window <= k <= i :: closes[k] > 0.0)
    && num.std(TrailingReturns(num, closes, i, window)) > 0.0
  }

  /** What the label is: the first touch of barriers one width away from the close, scaled on each side, the width
      being the daily volatility times the root of the horizon; nothing when the volatility cannot be measured. */
  ghost predicate IsTripleBarrier(o: Option<BarrierOutcome>, num: Numerics, closes: seq<real>, highs: seq<real>,
                                  lows: seq<real>, i: nat, p: LabelParams)
    requires |closes| == |highs| == |lows| && i < |closes|
  {
    if Measurable(num, closes, i, p.sigmaWindow) then
      exists lower, upper ::
        && AreBarriers(num, closes[i], num.std(TrailingReturns(num, closes, i, p.sigmaWindow)), p, lower, upper)
        && IsFirstTouch(o, closes, highs, lows, lower, upper, i, p.horizon)
    else o.None?
  }

  ghost predicate AreBarriers(num: Numerics, close: real, sigma: real, p: LabelParams, lower: real, upper: real) {
    var width := sigma * num.sqrt(p.horizon as real);
    lower == close * (1.0 - p.slMult * width) && upper == close * (1.0 + p.ptMult * width)
  }

  lemma MeasuredIs(num: Numerics, closes: seq<real>, i: nat, window: nat)
    requires i + 1 < |closes|
    ensures TrailingSigma(num, closes, i, window).Some? <==> Measurable(num, closes, i, window)
    ensures Measurable(num, closes, i, window) ==>
              TrailingSigma(num, closes, i, window) == Some(num.std(TrailingReturns(num, closes, i, window)))
  {
    if window <= i {
      var segment := closes[i - window..i + 1];
      assert forall k | i - window <= k <= i :: closes[k] == segment[k - (i - window)];
      assert LogReturns(num, segment) == TrailingReturns(num, closes, i, window);
    }
  }

  lemma MeasurableMeans(num: Numerics, closes: seq<real>, i: nat, window: nat)
    ensures Measurable(num, closes, i, window) ==> window <= i && i + 1 < |closes|
  {
  }

  lemma BarriersAre(num: Numerics, close: real, sigma: real, p: LabelParams)
    ensures AreBarriers(num, close, sigma, p, LowerBarrier(num, close, sigma, p), UpperBarrier(num, close, sigma, p))
  {
  }

  lemma TripleBarrierInFull(num: Numerics, closes: seq<real>, highs: seq<real>, lows: seq<real>, i: nat, p: LabelParams)
    requires |closes| == |highs| == |lows| && i < |closes|
    ensures IsTripleBarrier(TripleBarrierLabel(num, closes, highs, lows, i, p), num, closes, highs, lows, i, p)
  {
    MeasurableMeans(num, closes, i, p.sigmaWindow);
    if i + 1 < |closes| {
      MeasuredIs(num, closes, i, p.sigmaWindow);
      hide TrailingSigma, Measurable, Resolve, IsFirstTouch;
      if Measurable(num, closes, i, p.sigmaWindow) {
        hide LowerBarrier, UpperBarrier, AreBarriers;
        var sigma := num.std(TrailingReturns(num, closes, i, p.sigmaWindow));
        BarriersAre(num, closes[i], sigma, p);
        ResolveIsFirstTouch(closes, highs, lows, LowerBarrier(num, closes[i], sigma, p),
                            UpperBarrier(num, closes[i], sigma, p), i, p.horizon);
      }
    }
  }

  lemma TripleBarrierUnique(o: Option<BarrierOutcome>, num: Numerics, closes: seq<real>, highs: seq<real>,
                            lows: seq<real>, i: nat, p: LabelParams)
    requires |closes| == |highs| == |lows| && i < |closes| && IsTripleBarrier(o, num, closes, highs, lows, i, p)
    ensures o == TripleBarrierLabel(num, closes, highs, lows, i, p)
  {
    hide IsFirstTouch, Measurable, TripleBarrierLabel;
    MeasurableMeans(num, closes, i, p.sigmaWindow);
    TripleBarrierInFull(num, closes, highs, lows, i, p);
    if Measurable(num, closes, i, p.sigmaWindow) {
      var sigma := num.std(TrailingReturns(num, closes, i, p.sigmaWindow));
      var o' := TripleBarrierLabel(num, closes, highs, lows, i, p);
      var lower, upper :| AreBarriers(num, closes[i], sigma, p, lower, upper)
                          && IsFirstTouch(o, closes, highs, lows, lower, upper, i, p.horizon);
      var lower', upper' :| AreBarriers(num, closes[i], sigma, p, lower', upper')
                            && IsFirstTouch(o', closes, highs, lows, lower', upper', i, p.horizon);
      FirstTouchUnique(o, o', closes, highs, lows, lower, upper, i, p.horizon);
    }
  }

  /** A decided label resolves inside its window; only a zero horizon resolves it on the entry bar itself. */
  lemma TripleBarrierWindow(num: Numerics, closes: seq<real>, highs: seq<real>, lows: seq<real>, i: nat, p: LabelParams)
    requires |closes| == |highs| == |lows| && i < |closes|
    requires TripleBarrierLabel(num, closes, highs, lows, i, p).Some?
    ensures var t := TripleBarrierLabel(num, closes, highs, lows, i, p).value.touchIndex;
            i <= t <= i + p.horizon && t < |closes| && (i < t <==> p.horizon > 0)
  {
    var sigma := TrailingSigma(num, closes, i, p.sigmaWindow).value;
    ResolveIsFirstTouch(closes, highs, lows, LowerBarrier(num, closes[i], sigma, p),
                        UpperBarrier(num, closes[i], sigma, p), i, p.horizon);
  }

  // ----- a decided label depends on nothing after its touch

  ghost predicate AgreeTo(a: seq<real>, b: seq<real>, n: nat) {
    n <= |a| && n <= |b| && forall k | 0 <= k < n :: a[k] == b[k]
  }

  lemma SigmaPrefix(num: Numerics, closes: seq<real>, closes': seq<real>, i: nat, window: nat, n: nat)
    requires AgreeTo(closes, closes', n) && i < n
    ensures TrailingSigma(num, closes, i, window) == TrailingSigma(num, closes', i, window)
  {
    if i >= window {
      assert closes[i - window..i + 1] == closes'[i - window..i + 1];
    }
  }

  lemma FirstTouchPrefix(o: BarrierOutcome, closes: seq<real>, highs: seq<real>, lows: seq<real>,
                         closes': seq<real>, highs': seq<real>, lows': seq<real>, lower: real, upper: real,
                         i: nat, horizon: nat)
    requires |closes| == |highs| == |lows| && |closes'| == |highs'| == |lows'| && i < |closes|
    requires IsFirstTouch(Some(o), closes, highs, lows, lower, upper, i, horizon)
    requires AgreeTo(closes, closes', o.touchIndex + 1)
    requires AgreeTo(highs, highs', o.touchIndex + 1) && AgreeTo(lows, lows', o.touchIndex + 1)
    ensures i < |closes'| && IsFirstTouch(Some(o), closes', highs', lows', lower, upper, i, horizon)
  {
  }

  /** Whatever the bars after the touch, a decided label stays: later bars may be appended, or change. */
  lemma TripleBarrierStable(num: Numerics, closes: seq<real>, highs: seq<real>, lows: seq<real>,
                            closes': seq<real>, highs': seq<real>, lows': seq<real>, i: nat, p: LabelParams)
    requires |closes| == |highs| == |lows| && |closes'| == |highs'| == |lows'| && i < |closes|
    requires i + 1 < |closes'| && TripleBarrierLabel(num, closes, highs, lows, i, p).Some?
    requires var n := TripleBarrierLabel(num, closes, highs, lows, i, p).value.touchIndex + 1;
             AgreeTo(closes, closes', n) && AgreeTo(highs, highs', n) && AgreeTo(lows, lows', n)
    ensures TripleBarrierLabel(num, closes', highs', lows', i, p) == TripleBarrierLabel(num, closes, highs, lows, i, p)
  {
    var o := TripleBarrierLabel(num, closes, highs, lows, i, p).value;
    TripleBarrierWindow(num, closes, highs, lows, i, p);
    SigmaPrefix(num, closes, closes', i, p.sigmaWindow, o.touchIndex + 1);
    var sigma := TrailingSigma(num, closes, i, p.sigmaWindow).value;
    var lower, upper := LowerBarrier(num, closes[i], sigma, p), UpperBarrier(num, closes[i], sigma, p);
    hide *;
    ResolveIsFirstTouch(closes, highs, lows, lower, upper, i, p.horizon);
    FirstTouchPrefix(o, closes, highs, lows, closes', highs', lows', lower, upper, i, p.horizon);
    ResolveIsFirstTouch(closes', highs', lows', lower, upper, i, p.horizon);
    FirstTouchUnique(Some(o), Resolve(closes', highs', lows', lower, upper, i, p.horizon),
                     closes', highs', lows', lower, upper, i, p.horizon);
    TripleBarrierIs(num, closes, highs, lows, i, p, sigma);
    TripleBarrierIs(num, closes', highs', lows', i, p, sigma);
  }

  lemma TripleBarrierIs(num: Numerics, closes: seq<real>, highs: seq<real>, lows: seq<real>, i: nat, p: LabelParams,
                        sigma: real)
    requires |closes| == |highs| == |lows| && i + 1 < |closes|
    requires TrailingSigma(num, closes, i, p.sigmaWindow) == Some(sigma)
    ensures TripleBarrierLabel(num, closes, highs, lows, i, p)
         == Resolve(closes, highs, lows, LowerBarrier(num, closes[i], sigma, p),
                    UpperBarrier(num, closes[i], sigma, p), i, p.horizon)
  {
  }

  // ----- a decided label does not depend on the price unit

  ghost predicate IsLog(log: real -> real) {
    forall x: real, y: real | x > 0.0 && y > 0.0 :: log(x * y) == log(x) + log(y)
  }

  function Scale(c: real, x: real): real {
    c * x
  }

  function Rescale(c: real, s: seq<real>): (r: seq<real>)
    ensures |r| == |s| && forall k | 0 <= k < |s| :: r[k] == Scale(c, s[k])
  {
    seq(|s|, k requires 0 <= k < |s| => Scale(c, s[k]))
  }

  lemma ScaledSign(c: real, x: real)
    requires c > 0.0
    ensures Scale(c, x) > 0.0 <==> x > 0.0
  {
  }

  lemma ScaledOrder(c: real, x: real, y: real)
    requires c > 0.0
    ensures Scale(c, x) <= Scale(c, y) <==> x <= y
  {
  }

  lemma LogDifference(num: Numerics, c: real, x: real, y: real)
    requires c > 0.0 && x > 0.0 && y > 0.0 && IsLog(num.log)
    ensures num.log(Scale(c, x)) - num.log(Scale(c, y)) == num.log(x) - num.log(y)
  {
    assert num.log(c * x) == num.log(c) + num.log(x);
    assert num.log(c * y) == num.log(c) + num.log(y);
  }

  lemma LogReturnsRescaled(num: Numerics, c: real, segment: seq<real>)
    requires c > 0.0 && IsLog(num.log) && segment != [] && AllPositive(segment)
    ensures LogReturns(num, Rescale(c, segment)) == LogReturns(num, segment)
  {
    hide IsLog, Scale, Rescale;
    var scaled := Rescale(c, segment);
    var a, b := LogReturns(num, scaled), LogReturns(num, segment);
    forall k | 0 <= k < |b| ensures a[k] == b[k] {
      LogDifference(num, c, segment[k + 1], segment[k]);
    }
  }

  lemma RescaleSlice(c: real, s: seq<real>, lo: nat, hi: nat)
    requires lo <= hi <= |s|
    ensures Rescale(c, s)[lo..hi] == Rescale(c, s[lo..hi])
  {
    forall k | 0 <= k < hi - lo ensures Rescale(c, s)[lo..hi][k] == Rescale(c, s[lo..hi])[k] {
      assert s[lo..hi][k] == s[lo + k];
    }
  }

  lemma RescalePositive(c: real, s: seq<real>)
    requires c > 0.0
    ensures AllPositive(Rescale(c, s)) <==> AllPositive(s)
  {
    forall k | 0 <= k < |s| ensures Rescale(c, s)[k] > 0.0 <==> s[k] > 0.0 {
      ScaledSign(c, s[k]);
    }
    assert forall k | 0 <= k < |s| :: s[k] > 0.0 <==> Rescale(c, s)[k] > 0.0;
  }

  lemma SigmaRescaled(num: Numerics, c: real, closes: seq<real>, i: nat, window: nat)
    requires c > 0.0 && IsLog(num.log) && i < |closes|
    ensures TrailingSigma(num, Rescale(c, closes), i, window) == TrailingSigma(num, closes, i, window)
  {
    hide IsLog, Rescale, AllPositive, LogReturns;
    if i >= window {
      RescaleSlice(c, closes, i - window, i + 1);
      RescalePositive(c, closes[i - window..i + 1]);
      if AllPositive(closes[i - window..i + 1]) {
        LogReturnsRescaled(num, c, closes[i - window..i + 1]);
      }
    }
  }

  lemma UntouchedRescaled(c: real, lows: seq<real>, highs: seq<real>, lower: real, upper: real,
                          lower': real, upper': real, from: nat, to: nat)
    requires c > 0.0 && |lows| == |highs| && to <= |lows| && lower' == Scale(c, lower) && upper' == Scale(c, upper)
    requires Untouched(lows, highs, lower, upper, from, to)
    ensures Untouched(Rescale(c, lows), Rescale(c, highs), lower', upper', from, to)
  {
    hide Scale, Rescale;
    forall k | from <= k < to ensures Rescale(c, lows)[k] > lower' && Rescale(c, highs)[k] < upper' {
      ScaledOrder(c, lows[k], lower);
      ScaledOrder(c, upper, highs[k]);
    }
  }

  lemma FirstTouchRescaled(c: real, o: Option<BarrierOutcome>, closes: seq<real>, highs: seq<real>, lows: seq<real>,
                           lower: real, upper: real, lower': real, upper': real, i: nat, horizon: nat)
    requires c > 0.0 && |closes| == |highs| == |lows| && i < |closes| && lower' == Scale(c, lower)
             && upper' == Scale(c, upper)
    requires IsFirstTouch(o, closes, highs, lows, lower, upper, i, horizon)
    ensures IsFirstTouch(o, Rescale(c, closes), Rescale(c, highs), Rescale(c, lows), lower', upper', i, horizon)
  {
    hide Scale, Rescale, Untouched;
    if o.None? {
      UntouchedRescaled(c, lows, highs, lower, upper, lower', upper', i + 1, |closes|);
    } else {
      var t := o.value.touchIndex;
      ScaledOrder(c, lows[t], lower);
      ScaledOrder(c, upper, highs[t]);
      ScaledOrder(c, closes[t], closes[i]);
      UntouchedRescaled(c, lows, highs, lower, upper, lower', upper', i + 1,
                        if o.value.barrier == Vertical then t + 1 else t);
    }
  }

  lemma BarriersRescaled(num: Numerics, c: real, close: real, close': real, sigma: real, p: LabelParams)
    requires close' == Scale(c, close)
    ensures LowerBarrier(num, close', sigma, p) == Scale(c, LowerBarrier(num, close, sigma, p))
    ensures UpperBarrier(num, close', sigma, p) == Scale(c, UpperBarrier(num, close, sigma, p))
  {
    Associate(c, close, 1.0 - p.slMult * (sigma * num.sqrt(p.horizon as real)));
    Associate(c, close, 1.0 + p.ptMult * (sigma * num.sqrt(p.horizon as real)));
  }

  lemma Associate(a: real, b: real, c: real)
    ensures (a * b) * c == a * (b * c)
  {
  }

  /** Rescaling the whole price history (a split, a change of currency) changes no label, decided or not. */
  lemma TripleBarrierRescaled(num: Numerics, c: real, closes: seq<real>, highs: seq<real>, lows: seq<real>, i: nat,
                              p: LabelParams)
    requires c > 0.0 && IsLog(num.log) && |closes| == |highs| == |lows| && i < |closes|
    ensures TripleBarrierLabel(num, Rescale(c, closes), Rescale(c, highs), Rescale(c, lows), i, p)
         == TripleBarrierLabel(num, closes, highs, lows, i, p)
  {
    hide *;
    SigmaRescaled(num, c, closes, i, p.sigmaWindow);
    var s := TrailingSigma(num, closes, i, p.sigmaWindow);
    var closes', highs', lows' := Rescale(c, closes), Rescale(c, highs), Rescale(c, lows);
    if i + 1 < |closes| && s.Some? {
      TripleBarrierIs(num, closes, highs, lows, i, p, s.value);
      TripleBarrierIs(num, closes', highs', lows', i, p, s.value);
      BarriersRescaled(num, c, closes[i], closes'[i], s.value, p);
      ResolveRescaled(c, closes, highs, lows,
                      LowerBarrier(num, closes[i], s.value, p), UpperBarrier(num, closes[i], s.value, p),
                      LowerBarrier(num, closes'[i], s.value, p), UpperBarrier(num, closes'[i], s.value, p), i,
                      p.horizon);
    } else {
      TripleBarrierNone(num, closes, highs, lows, i, p);
      TripleBarrierNone(num, closes', highs', lows', i, p);
    }
  }

  lemma TripleBarrierNone(num: Numerics, closes: seq<real>, highs: seq<real>, lows: seq<real>, i: nat, p: LabelParams)
    requires |closes| == |highs| == |lows| && i < |closes|
    requires i + 1 >= |closes| || TrailingSigma(num, closes, i, p.sigmaWindow).None?
    ensures TripleBarrierLabel(num, closes, highs, lows, i, p).None?
  {
  }

  lemma ResolveRescaled(c: real, closes: seq<real>, highs: seq<real>, lows: seq<real>, lower: real, upper: real,
                        lower': real, upper': real, i: nat, horizon: nat)
    requires c > 0.0 && |closes| == |highs| == |lows| && i < |closes| && lower' == Scale(c, lower)
             && upper' == Scale(c, upper)
    ensures Resolve(Rescale(c, closes), Rescale(c, highs), Rescale(c, lows), lower', upper', i, horizon)
         == Resolve(closes, highs, lows, lower, upper, i, horizon)
  {
    hide *;
    var closes', highs', lows' := Rescale(c, closes), Rescale(c, highs), Rescale(c, lows);
    var o := Resolve(closes, highs, lows, lower, upper, i, horizon);
    ResolveIsFirstTouch(closes, highs, lows, lower, upper, i, horizon);
    FirstTouchRescaled(c, o, closes, highs, lows, lower, upper, lower', upper', i, horizon);
    ResolveIsFirstTouch(closes', highs', lows', lower', upper', i, horizon);
    FirstTouchUnique(o, Resolve(closes', highs', lows', lower', upper', i, horizon),
                     closes', highs', lows', lower', upper', i, horizon);
  }
}

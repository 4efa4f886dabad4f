/**
 Splits and labels together, for a symbol whose bar index is the session index: no training label is resolved
 by a tested session.
 */
module Leakage {
  import opened Common
  import opened Labels
  import opened ExcessLabels
  import opened Cpcv
  import opened CpcvProperties
  import opened SortedInts
  import opened WalkForward

  /** The two label kinds, on the bars each one reads. */
  datatype Source =
    | Absolute(closes: seq<real>, highs: seq<real>, lows: seq<real>)
    | Excess(pair: Pair)

  function Label(num: Numerics, s: Source, i: nat, p: LabelParams): Option<BarrierOutcome>
    requires s.Absolute? ==> |s.closes| == |s.highs| == |s.lows| && i < |s.closes|
  {
    match s
    case Absolute(closes, highs, lows) => TripleBarrierLabel(num, closes, highs, lows, i, p)
    case Excess(pair) => ExcessBarrierLabel(num, pair, i, p)
  }

  lemma LabelWindow(num: Numerics, s: Source, i: nat, p: LabelParams)
    requires s.Absolute? ==> |s.closes| == |s.highs| == |s.lows| && i < |s.closes|
    requires Label(num, s, i, p).Some?
    ensures i <= Label(num, s, i, p).value.touchIndex <= i + p.horizon
  {
    match s
    case Absolute(closes, highs, lows) => TripleBarrierWindow(num, closes, highs, lows, i, p);
    case Excess(pair) => ExcessBarrierWindow(num, pair, i, p);
  }

  lemma TrainLabelBeforeStart(num: Numerics, s: Source, p: LabelParams, start: int, trainSize: int, testSize: int,
                              embargo: nat, n: nat, x: nat)
    requires 0 < trainSize <= start && 0 < testSize && start + testSize <= n && p.horizon + embargo < trainSize
    requires InTrain(x, start, trainSize, p.horizon + embargo, n)
    requires s.Absolute? ==> |s.closes| == |s.highs| == |s.lows| && x < |s.closes|
    requires Label(num, s, x, p).Some?
    ensures Label(num, s, x, p).value.touchIndex < start
  {
    FoldPurgedIff(start, trainSize, testSize, p.horizon, embargo, n);
    LabelWindow(num, s, x, p);
  }

  /** Walk-forward: in every fold the splitter returns, the label of each training session is resolved on a session
      before the first tested one. */
  lemma WalkForwardDoesNotLeak(num: Numerics, s: Source, p: LabelParams, dates: seq<int>, trainSize: int, testSize: int,
                               embargo: nat, step: int, m: nat, x: nat)
    requires Increasing(dates) && 0 < trainSize && 0 < testSize && p.horizon + embargo < trainSize && step > 0
    requires m < |FoldsFrom(dates, trainSize, trainSize, testSize, p.horizon + embargo, step)|
    requires x < |dates|
    requires dates[x] in FoldsFrom(dates, trainSize, trainSize, testSize, p.horizon + embargo, step)[m].trainDates
    requires s.Absolute? ==> |s.closes| == |s.highs| == |s.lows| && x < |s.closes|
    requires Label(num, s, x, p).Some?
    ensures var fold := FoldsFrom(dates, trainSize, trainSize, testSize, p.horizon + embargo, step)[m];
            var touch := Label(num, s, x, p).value.touchIndex;
            fold.testDates != [] && touch < |dates| && dates[touch] < fold.testDates[0]
  {
    hide FoldsFrom, Starts, Label;
    var gap := p.horizon + embargo;
    FoldsFromStarts(dates, trainSize, trainSize, testSize, gap, step, m);
    var start := Starts(|dates|, trainSize, testSize, step)[m];
    var fold := FoldAt(dates, start, trainSize, testSize, gap);
    var k :| 0 <= k < |fold.trainDates| && fold.trainDates[k] == dates[x];
    TrainPositions(dates, start, trainSize, testSize, gap, k);
    assert x == start - trainSize + k;
    TrainLabelBeforeStart(num, s, p, start, trainSize, testSize, embargo, |dates|, x);
  }

  /** CPCV: the span a training label actually used and the span a test label actually used share no session. */
  lemma CpcvDoesNotLeak(num: Numerics, s: Source, s': Source, p: LabelParams, n: nat, nGroups: nat, testGroups: nat,
                        embargo: nat, c: seq<nat>, x: nat, t: nat)
    requires 0 < testGroups < nGroups <= n && c in Survivors(n, nGroups, testGroups, p.horizon + embargo)
    requires x in TrainIndex(c, n, nGroups, p.horizon + embargo) && t in TestIndex(c, n, nGroups)
    requires s.Absolute? ==> |s.closes| == |s.highs| == |s.lows| && x < |s.closes|
    requires s'.Absolute? ==> |s'.closes| == |s'.highs| == |s'.lows| && t < |s'.closes|
    requires Label(num, s, x, p).Some? && Label(num, s', t, p).Some?
    ensures var used, tested := Label(num, s, x, p).value.touchIndex, Label(num, s', t, p).value.touchIndex;
            used < t || tested < x
  {
    hide Survivors, TrainIndex, TestIndex, Label;
    PurgedWindowsDisjoint(n, nGroups, testGroups, p.horizon, embargo);
    assert Purged(c, n, nGroups, p.horizon, embargo);
    assert Farther(x, t, p.horizon);
    LabelWindow(num, s, x, p);
    LabelWindow(num, s', t, p);
  }
}

/** Purged walk-forward folds (`purged_walk_forward`). Sessions are addressed by position. */
module WalkForward {
  import opened Common

  datatype Fold<T> = Fold(trainDates: seq<T>, testDates: seq<T>)

  datatype Folds<T> = Folds(folds: seq<Fold<T>>) | ValueError

  /** `step or test_size`: an omitted step and a zero step both mean the test size. */
  function EffectiveStep(step: Option<int>, testSize: int): int {
    if step.None? || step.value == 0 then testSize else step.value
  }

  /** The fold whose test block starts at `start`; Python slicing clips the training end to the history. */
  function FoldAt<T>(dates: seq<T>, start: int, trainSize: int, testSize: int, gap: int): Fold<T>
    requires 0 < trainSize <= start && 0 < testSize && start + testSize <= |dates| && gap < trainSize
  {
    Fold(dates[start - trainSize..MinInt(start - gap, |dates|)], dates[start..start + testSize])
  }

  /** The starts of the successive test blocks. */
  function Starts(n: nat, start: int, testSize: int, step: int): seq<int>
    requires step > 0
    decreases n - start
  {
    if start + testSize <= n && testSize > 0 then [start] + Starts(n, start + step, testSize, step) else []
  }

  lemma {:induction false} StartsMeaning(n: nat, start: int, testSize: int, step: int)
    requires step > 0 && testSize > 0
    ensures forall m | 0 <= m < |Starts(n, start, testSize, step)| ::
              start <= Starts(n, start, testSize, step)[m] && Starts(n, start, testSize, step)[m] + testSize <= n
    decreases n - start
  {
    if start + testSize <= n {
      StartsMeaning(n, start + step, testSize, step);
    }
  }

  /** The folds from `start` on, one per iteration. */
  function FoldsFrom<T>(dates: seq<T>, start: int, trainSize: int, testSize: int, gap: int, step: int): seq<Fold<T>>
    requires 0 < trainSize <= start && 0 < testSize && gap < trainSize && step > 0
    decreases |dates| - start
  {
    if start + testSize <= |dates| then
      [FoldAt(dates, start, trainSize, testSize, gap)] + FoldsFrom(dates, start + step, trainSize, testSize, gap, step)
    else []
  }

  /** Fold `m` tests from the m-th start, and every start fits. */
  lemma {:induction false} FoldsFromStarts<T>(dates: seq<T>, start: int, trainSize: int, testSize: int, gap: int,
                                              step: int, m: nat)
    requires 0 < trainSize <= start && 0 < testSize && gap < trainSize && step > 0
    ensures |FoldsFrom(dates, start, trainSize, testSize, gap, step)| == |Starts(|dates|, start, testSize, step)|
    ensures m < |Starts(|dates|, start, testSize, step)| ==>
              var s := Starts(|dates|, start, testSize, step)[m];
              && start <= s && s + testSize <= |dates|
              && FoldsFrom(dates, start, trainSize, testSize, gap, step)[m]
              == FoldAt(dates, s, trainSize, testSize, gap)
    decreases |dates| - start
  {
    if start + testSize <= |dates| {
      FoldsFromStarts(dates, start + step, trainSize, testSize, gap, step, if m > 0 then m - 1 else 0);
    }
  }

  /** `purged_walk_forward`. Past the checks, the loop ends exactly when it is never entered or the step is positive,
      which `NegativeStepNeverEnds` shows is necessary. */
  method PurgedWalkForward<T>(dates: seq<T>, trainSize: int, testSize: int, horizon: int, embargo: int,
                              step: Option<int>)
    returns (r: Folds<T>)
    requires trainSize > 0 && testSize > 0 && horizon + embargo < trainSize ==>
               EffectiveStep(step, testSize) > 0 || trainSize + testSize > |dates|
    ensures r.ValueError? <==> trainSize <= 0 || testSize <= 0 || horizon + embargo >= trainSize
    ensures r.Folds? && EffectiveStep(step, testSize) <= 0 ==> r.folds == []
    ensures r.Folds? && EffectiveStep(step, testSize) > 0 ==>
              r.folds == FoldsFrom(dates, trainSize, trainSize, testSize, horizon + embargo,
                                   EffectiveStep(step, testSize))
    ensures r.Folds? ==>
              AreFolds(r.folds, dates, trainSize, testSize, horizon + embargo,
                       if step.None? || step.value == 0 then testSize else step.value)
  {
    if trainSize <= 0 || testSize <= 0 {
      return ValueError;
    }
    var gap := horizon + embargo;
    if gap >= trainSize {
      return ValueError;
    }
    var stride := EffectiveStep(step, testSize);
    var folds: seq<Fold<T>> := [];
    var testStart := trainSize;
    while testStart + testSize <= |dates|
      invariant trainSize <= testStart
      invariant stride > 0 ==> folds + FoldsFrom(dates, testStart, trainSize, testSize, gap, stride)
                               == FoldsFrom(dates, trainSize, trainSize, testSize, gap, stride)
      invariant stride <= 0 ==> folds == [] && testStart == trainSize
      decreases |dates| - testStart
    {
      var fold := FoldAt(dates, testStart, trainSize, testSize, gap);
      NextFold(dates, testStart, trainSize, testSize, gap, stride, folds);
      folds := folds + [fold];
      testStart := testStart + stride;
    }
    r := Folds(folds);
    if stride > 0 {
      FoldsInFull(dates, trainSize, trainSize, testSize, gap, stride, 0);
    }
  }

  lemma NextFold<T>(dates: seq<T>, start: int, trainSize: int, testSize: int, gap: int, step: int, folds: seq<Fold<T>>)
    requires 0 < trainSize <= start && 0 < testSize && gap < trainSize && step > 0 && start + testSize <= |dates|
    ensures folds + FoldsFrom(dates, start, trainSize, testSize, gap, step)
         == (folds + [FoldAt(dates, start, trainSize, testSize, gap)])
            + FoldsFrom(dates, start + step, trainSize, testSize, gap, step)
  {
  }

  /** With a negative step the guard, once true, is true after any number of iterations. */
  lemma {:induction false} NegativeStepNeverEnds(n: nat, trainSize: int, testSize: int, step: int, iterations: nat)
    requires step < 0 && trainSize + testSize <= n
    ensures StartAfter(trainSize, step, iterations) + testSize <= n
  {
    if iterations > 0 {
      NegativeStepNeverEnds(n, trainSize, testSize, step, iterations - 1);
    }
  }

  function StartAfter(start: int, step: int, iterations: nat): int {
    if iterations == 0 then start else StartAfter(start, step, iterations - 1) + step
  }

  // ----- the folds, written out

  /** Fold `m` tests the `testSize` sessions from `trainSize + m * stride` on. It trains on those of the `trainSize`
      sessions before them that stay more than `gap` sessions away, oldest first. */
  ghost predicate IsFold<T>(fold: Fold<T>, dates: seq<T>, trainSize: int, testSize: int, gap: int, stride: int,
                            m: nat) {
    var from := m * stride;
    && 0 <= from && 0 < trainSize && 0 < testSize && from + trainSize + testSize <= |dates|
    && fold.testDates == dates[from + trainSize..from + trainSize + testSize]
    && (forall k | 0 <= k < |fold.trainDates| :: from + k < |dates| && fold.trainDates[k] == dates[from + k])
    && |fold.trainDates| == if from + trainSize - gap <= |dates| then trainSize - gap else |dates| - from
  }

  /** With a positive stride there is a fold for every block that fits, and no other. */
  ghost predicate AreFolds<T>(folds: seq<Fold<T>>, dates: seq<T>, trainSize: int, testSize: int, gap: int,
                              stride: int) {
    if stride <= 0 then folds == [] else
      && (forall m: nat | m < |folds| :: IsFold(folds[m], dates, trainSize, testSize, gap, stride, m))
      && trainSize + |folds| * stride + testSize > |dates|
  }

  lemma {:induction false} FoldsInFull<T>(dates: seq<T>, start: int, trainSize: int, testSize: int, gap: int,
                                          stride: int, done: nat)
    requires 0 < trainSize <= start && 0 < testSize && gap < trainSize && stride > 0
             && start == trainSize + done * stride
    ensures var folds := FoldsFrom(dates, start, trainSize, testSize, gap, stride);
            && (forall m: nat | m < |folds| :: IsFold(folds[m], dates, trainSize, testSize, gap, stride, done + m))
            && start + |folds| * stride + testSize > |dates|
    decreases |dates| - start
  {
    hide IsFold, FoldAt;
    if start + testSize <= |dates| {
      NextProduct(done, stride);
      FoldsInFull(dates, start + stride, trainSize, testSize, gap, stride, done + 1);
      var fold, rest := FoldAt(dates, start, trainSize, testSize, gap),
                        FoldsFrom(dates, start + stride, trainSize, testSize, gap, stride);
      FoldIs(dates, start, trainSize, testSize, gap, stride, done);
      NextProduct(|rest|, stride);
      forall m: nat | m < |rest| + 1
        ensures IsFold(([fold] + rest)[m], dates, trainSize, testSize, gap, stride, done + m)
      {
        assert m > 0 ==> done + 1 + (m - 1) == done + m;
      }
    }
  }

  lemma NextProduct(a: nat, b: int)
    ensures (a + 1) * b == a * b + b && 0 * b == 0
  {
  }

  lemma FoldIs<T>(dates: seq<T>, start: int, trainSize: int, testSize: int, gap: int, stride: int, m: nat)
    requires 0 < trainSize <= start && 0 < testSize && gap < trainSize && start + testSize <= |dates|
    requires start == trainSize + m * stride
    ensures IsFold(FoldAt(dates, start, trainSize, testSize, gap), dates, trainSize, testSize, gap, stride, m)
  {
  }

  // ----- test blocks

  lemma {:induction false} StartsSpaced(n: nat, start: int, testSize: int, step: int, a: nat, b: nat)
    requires step > 0 && testSize > 0 && a < b < |Starts(n, start, testSize, step)|
    ensures Starts(n, start, testSize, step)[a] + step <= Starts(n, start, testSize, step)[b]
    ensures b == a + 1 ==> Starts(n, start, testSize, step)[a] + step == Starts(n, start, testSize, step)[b]
    decreases a
  {
    if a > 0 {
      StartsSpaced(n, start + step, testSize, step, a - 1, b - 1);
    } else {
      StartsMeaning(n, start + step, testSize, step);
    }
  }

  ghost predicate BlocksDisjoint(starts: seq<int>, testSize: int) {
    forall a, b | 0 <= a < b < |starts| :: starts[a] + testSize <= starts[b]
  }

  /** Test blocks never overlap exactly when the step is at least the block size (or there is one block). */
  lemma BlocksDisjointIff(n: nat, start: int, testSize: int, step: int)
    requires step > 0 && testSize > 0
    ensures BlocksDisjoint(Starts(n, start, testSize, step), testSize)
       <==> step >= testSize || |Starts(n, start, testSize, step)| < 2
  {
    var starts := Starts(n, start, testSize, step);
    if step >= testSize {
      forall a, b | 0 <= a < b < |starts| ensures starts[a] + testSize <= starts[b] {
        StartsSpaced(n, start, testSize, step, a, b);
      }
    } else if |starts| >= 2 {
      StartsSpaced(n, start, testSize, step, 0, 1);
    }
  }

  // ----- purge

  /** Position `x` is in the training window of the fold that tests from `start`. */
  predicate InTrain(x: int, start: int, trainSize: int, gap: int, n: nat) {
    start - trainSize <= x < MinInt(start - gap, n)
  }

  /** The training dates are the dates at those positions. */
  lemma TrainPositions<T>(dates: seq<T>, start: int, trainSize: int, testSize: int, gap: int, k: nat)
    requires 0 < trainSize <= start && 0 < testSize && start + testSize <= |dates| && gap < trainSize
    requires k < |FoldAt(dates, start, trainSize, testSize, gap).trainDates|
    ensures InTrain(start - trainSize + k, start, trainSize, gap, |dates|)
    ensures FoldAt(dates, start, trainSize, testSize, gap).trainDates[k] == dates[start - trainSize + k]
  {
  }

  /** Every training label window closes before the test block opens. */
  ghost predicate FoldPurged(start: int, trainSize: int, horizon: int, embargo: int, n: nat) {
    var gap := horizon + embargo;
    forall x | InTrain(x, start, trainSize, gap, n) :: x + horizon < start
  }

  /** In every fold the loop produces, purging works exactly when the embargo is not negative. */
  lemma FoldPurgedIff(start: int, trainSize: int, testSize: int, horizon: nat, embargo: int, n: nat)
    requires 0 < trainSize <= start && 0 < testSize && start + testSize <= n && horizon + embargo < trainSize
    ensures FoldPurged(start, trainSize, horizon, embargo, n) <==> embargo >= 0
  {
    if embargo < 0 {
      assert InTrain(MinInt(start - (horizon + embargo), n) - 1, start, trainSize, horizon + embargo, n);
    }
  }
}

/** Fitting every split and stitching its predictions into out-of-sample paths (`run_cpcv`). */
module CpcvRun {
  import opened Common
  import opened SortedInts
  import opened Cpcv
  import opened CpcvProperties

  datatype Row<X> = Row(date: int, symbol: string, nextReturn: real, x: X)

  datatype Scored<X> = Scored(row: Row<X>, prob: real)

  /** Model fitting and prediction are opaque: any functions of the training dates and the features. */
  datatype Learner<!M, !X> = Learner(fit: seq<int> -> Option<M>, predict: (M, X) -> real)

  function DatesOf<X>(rows: seq<Row<X>>): set<int> {
    set i | 0 <= i < |rows| :: rows[i].date
  }

  function Sessions<X>(rows: seq<Row<X>>): (r: seq<int>)
    ensures Increasing(r) && forall d :: d in r <==> d in DatesOf(rows)
  {
    SortedSet(DatesOf(rows))
  }

  /** `_group_dates`: the same block boundaries as the splits. */
  function GroupDates(sessions: seq<int>, nGroups: nat, g: nat): set<int>
    requires g < nGroups
  {
    BoundInside(g, |sessions|, nGroups);
    Elements(sessions[Bound(g, |sessions|, nGroups)..Bound(g + 1, |sessions|, nGroups)])
  }

  function Masked<X>(rows: seq<Row<X>>, dates: set<int>): seq<Row<X>> {
    if rows == [] then []
    else (if rows[0].date in dates then [rows[0]] else []) + Masked(rows[1..], dates)
  }

  function Score<M, X>(learner: Learner<M, X>, model: M, rows: seq<Row<X>>): (r: seq<Scored<X>>)
    ensures |r| == |rows|
    ensures forall i | 0 <= i < |r| :: r[i] == Scored(rows[i], learner.predict(model, rows[i].x))
  {
    seq(|rows|, i requires 0 <= i < |rows| => Scored(rows[i], learner.predict(model, rows[i].x)))
  }

  /** One split's predictions per tested group; nothing when the split could not be fitted. */
  function SplitPieces<M, X>(learner: Learner<M, X>, rows: seq<Row<X>>, nGroups: nat, split: Split<int>)
    : map<nat, seq<Scored<X>>>
  {
    match learner.fit(split.trainDates)
    case None => map[]
    case Some(model) =>
      map g | g in split.groups && g < nGroups && Masked(rows, GroupDates(Sessions(rows), nGroups, g)) != []
        :: Score(learner, model, Masked(rows, GroupDates(Sessions(rows), nGroups, g)))
  }

  method ScoreSplit<M, X>(learner: Learner<M, X>, rows: seq<Row<X>>, nGroups: nat, split: Split<int>)
    returns (pieces: map<nat, seq<Scored<X>>>)
    requires Below(split.groups, nGroups)
    ensures pieces == SplitPieces(learner, rows, nGroups, split)
  {
    pieces := map[];
    var fitted := learner.fit(split.trainDates);
    if fitted.None? {
      return;
    }
    var sessions := Sessions(rows);
    for k := 0 to |split.groups|
      invariant forall g :: g in pieces <==> g in split.groups[..k] && g < nGroups
                                             && Masked(rows, GroupDates(sessions, nGroups, g)) != []
      invariant forall g | g in pieces :: g < nGroups
                  && pieces[g] == Score(learner, fitted.value, Masked(rows, GroupDates(sessions, nGroups, g)))
    {
      hide *;
      BelowAt(split.groups, nGroups, k);
      var g := split.groups[k];
      assert split.groups[..k + 1] == split.groups[..k] + [g];
      var masked := Masked(rows, GroupDates(sessions, nGroups, g));
      if masked != [] {
        pieces := pieces[g := Score(learner, fitted.value, masked)];
      }
    }
    assert split.groups[..|split.groups|] == split.groups;
  }

  /** A path's predictions: group by group, from the split the path names; `None` once a piece is missing. */
  function Stitched<X>(perSplit: seq<map<nat, seq<Scored<X>>>>, path: seq<nat>): Option<seq<Scored<X>>>
    requires forall g | 0 <= g < |path| :: path[g] < |perSplit|
  {
    if path == [] then Some([]) else
      var g := |path| - 1;
      var init := Stitched(perSplit, path[..g]);
      if init.None? || g !in perSplit[path[g]] then None else Some(init.value + perSplit[path[g]][g])
  }

  lemma {:induction false} StitchedStops<X>(perSplit: seq<map<nat, seq<Scored<X>>>>, path: seq<nat>, g: nat)
    requires forall g | 0 <= g < |path| :: path[g] < |perSplit|
    requires g < |path| && g !in perSplit[path[g]]
    ensures Stitched(perSplit, path).None?
  {
    if g < |path| - 1 {
      StitchedStops(perSplit, path[..|path| - 1], g);
    }
  }

  method StitchPath<X>(perSplit: seq<map<nat, seq<Scored<X>>>>, path: seq<nat>) returns (r: Option<seq<Scored<X>>>)
    requires forall g | 0 <= g < |path| :: path[g] < |perSplit|
    ensures r == Stitched(perSplit, path)
  {
    var out: seq<Scored<X>> := [];
    for g := 0 to |path|
      invariant Stitched(perSplit, path[..g]) == Some(out)
    {
      if g !in perSplit[path[g]] {
        StitchedStops(perSplit, path, g);
        return None;
      }
      assert path[..g + 1][..g] == path[..g];
      out := out + perSplit[path[g]][g];
    }
    assert path[..|path|] == path;
    r := Some(out);
  }

  // ----- a complete path holds every row exactly once

  function RowsOf<X>(s: seq<Scored<X>>): (r: seq<Row<X>>)
    ensures |r| == |s| && forall i | 0 <= i < |s| :: r[i] == s[i].row
  {
    seq(|s|, i requires 0 <= i < |s| => s[i].row)
  }

  lemma {:induction false} MaskedSplits<X>(rows: seq<Row<X>>, a: set<int>, b: set<int>)
    requires a !! b
    ensures multiset(Masked(rows, a + b)) == multiset(Masked(rows, a)) + multiset(Masked(rows, b))
  {
    if rows != [] {
      MaskedSplits(rows[1..], a, b);
    }
  }

  lemma {:induction false} MaskedAll<X>(rows: seq<Row<X>>, a: set<int>)
    requires forall i | 0 <= i < |rows| :: rows[i].date in a
    ensures Masked(rows, a) == rows
  {
    if rows != [] {
      MaskedAll(rows[1..], a);
    }
  }

  lemma {:induction false} MaskedNone<X>(rows: seq<Row<X>>)
    ensures Masked(rows, {}) == []
  {
    if rows != [] {
      MaskedNone(rows[1..]);
    }
  }

  lemma {:induction false} MaskedHas<X>(rows: seq<Row<X>>, dates: set<int>, i: nat)
    requires i < |rows| && rows[i].date in dates
    ensures Masked(rows, dates) != []
  {
    if i > 0 {
      MaskedHas(rows[1..], dates, i - 1);
    }
  }

  lemma {:induction false} MaskedDates<X>(rows: seq<Row<X>>, dates: set<int>)
    ensures forall r | r in Masked(rows, dates) :: r in rows && r.date in dates
  {
    if rows != [] {
      MaskedDates(rows[1..], dates);
    }
  }

  /** The dates of the first `g` groups. */
  function DatesBefore(sessions: seq<int>, nGroups: nat, g: nat): set<int>
    requires nGroups > 0 && g <= nGroups
  {
    BoundMonotone(g, nGroups, |sessions|, nGroups);
    BoundEnds(|sessions|, nGroups);
    Elements(sessions[..Bound(g, |sessions|, nGroups)])
  }

  lemma GroupsPartition(sessions: seq<int>, nGroups: nat, g: nat)
    requires Increasing(sessions) && g < nGroups
    ensures DatesBefore(sessions, nGroups, g) !! GroupDates(sessions, nGroups, g)
    ensures DatesBefore(sessions, nGroups, g + 1)
         == DatesBefore(sessions, nGroups, g) + GroupDates(sessions, nGroups, g)
  {
    BoundInside(g, |sessions|, nGroups);
    BoundMonotone(g + 1, nGroups, |sessions|, nGroups);
    BoundEnds(|sessions|, nGroups);
    var lo, hi := Bound(g, |sessions|, nGroups), Bound(g + 1, |sessions|, nGroups);
    assert sessions[..hi] == sessions[..lo] + sessions[lo..hi];
  }

  lemma StitchedStep<X>(perSplit: seq<map<nat, seq<Scored<X>>>>, path: seq<nat>, g: nat)
    requires |path| == g + 1 && forall h | 0 <= h < |path| :: path[h] < |perSplit|
    ensures Stitched(perSplit, path).Some? <==> Stitched(perSplit, path[..g]).Some? && g in perSplit[path[g]]
    ensures Stitched(perSplit, path).Some? ==>
              RowsOf(Stitched(perSplit, path).value)
              == RowsOf(Stitched(perSplit, path[..g]).value) + RowsOf(perSplit[path[g]][g])
  {
    if Stitched(perSplit, path).Some? {
      var init, piece := Stitched(perSplit, path[..g]).value, perSplit[path[g]][g];
      assert RowsOf(init + piece) == RowsOf(init) + RowsOf(piece);
    }
  }

  lemma PieceRows<M, X>(learner: Learner<M, X>, rows: seq<Row<X>>, nGroups: nat, split: Split<int>, g: nat)
    requires g in SplitPieces(learner, rows, nGroups, split)
    ensures g < nGroups
    ensures RowsOf(SplitPieces(learner, rows, nGroups, split)[g])
         == Masked(rows, GroupDates(Sessions(rows), nGroups, g))
  {
  }

  /** Extending a path by one group adds exactly that group's rows. */
  lemma {:induction false} PrefixCovers<M, X>(learner: Learner<M, X>, rows: seq<Row<X>>, nGroups: nat,
                                              splits: seq<Split<int>>, path: seq<nat>)
    requires 0 < nGroups && |path| <= nGroups
    requires forall g | 0 <= g < |path| :: path[g] < |splits|
    requires Stitched(AllPieces(learner, rows, nGroups, splits), path).Some?
    ensures multiset(RowsOf(Stitched(AllPieces(learner, rows, nGroups, splits), path).value))
         == multiset(Masked(rows, DatesBefore(Sessions(rows), nGroups, |path|)))
  {
    if path == [] {
      NoDatesBeforeFirst(Sessions(rows), nGroups);
      MaskedNone(rows);
    } else {
      hide *;
      var g := |path| - 1;
      StitchedStep(AllPieces(learner, rows, nGroups, splits), path, g);
      PrefixCovers(learner, rows, nGroups, splits, path[..g]);
      PieceRows(learner, rows, nGroups, splits[path[g]], g);
      GroupsPartition(Sessions(rows), nGroups, g);
      MaskedSplits(rows, DatesBefore(Sessions(rows), nGroups, g), GroupDates(Sessions(rows), nGroups, g));
    }
  }

  lemma NoDatesBeforeFirst(sessions: seq<int>, nGroups: nat)
    requires nGroups > 0
    ensures DatesBefore(sessions, nGroups, 0) == {}
  {
    BoundEnds(|sessions|, nGroups);
  }

  function AllPieces<M, X>(learner: Learner<M, X>, rows: seq<Row<X>>, nGroups: nat, splits: seq<Split<int>>)
    : (r: seq<map<nat, seq<Scored<X>>>>)
    ensures |r| == |splits|
    ensures forall i | 0 <= i < |r| :: r[i] == SplitPieces(learner, rows, nGroups, splits[i])
  {
    seq(|splits|, i requires 0 <= i < |splits| => SplitPieces(learner, rows, nGroups, splits[i]))
  }

  /** A complete path scores every row of the dataset exactly once. */
  lemma PathScoresEachRowOnce<M, X>(learner: Learner<M, X>, rows: seq<Row<X>>, nGroups: nat,
                                    splits: seq<Split<int>>, path: seq<nat>)
    requires 0 < nGroups == |path|
    requires forall g | 0 <= g < |path| :: path[g] < |splits|
    requires Stitched(AllPieces(learner, rows, nGroups, splits), path).Some?
    ensures multiset(RowsOf(Stitched(AllPieces(learner, rows, nGroups, splits), path).value)) == multiset(rows)
  {
    PrefixCovers(learner, rows, nGroups, splits, path);
    var sessions := Sessions(rows);
    BoundEnds(|sessions|, nGroups);
    assert sessions[..|sessions|] == sessions;
    forall i | 0 <= i < |rows| ensures rows[i].date in DatesBefore(sessions, nGroups, nGroups) {
      assert rows[i].date in DatesOf(rows);
    }
    MaskedAll(rows, DatesBefore(sessions, nGroups, nGroups));
  }

  lemma GroupHasRows<X>(rows: seq<Row<X>>, nGroups: nat, g: nat)
    requires g < nGroups <= |Sessions(rows)|
    ensures Masked(rows, GroupDates(Sessions(rows), nGroups, g)) != []
  {
    var sessions := Sessions(rows);
    BoundStep(g, |sessions|, nGroups);
    BoundInside(g, |sessions|, nGroups);
    var lo, hi := Bound(g, |sessions|, nGroups), Bound(g + 1, |sessions|, nGroups);
    var d := sessions[lo];
    assert d == sessions[lo..hi][0];
    assert d in sessions;
    var i :| 0 <= i < |rows| && rows[i].date == d;
    MaskedHas(rows, GroupDates(sessions, nGroups, g), i);
  }

  lemma PieceExistsIffFitted<M, X>(learner: Learner<M, X>, rows: seq<Row<X>>, nGroups: nat, split: Split<int>, g: nat)
    requires g < nGroups <= |Sessions(rows)| && g in split.groups
    ensures g in SplitPieces(learner, rows, nGroups, split) <==> learner.fit(split.trainDates).Some?
  {
    GroupHasRows(rows, nGroups, g);
  }

  lemma FittedStep<M, X>(learner: Learner<M, X>, splits: seq<Split<int>>, path: seq<nat>, g: nat)
    requires |path| == g + 1 && forall h | 0 <= h < |path| :: path[h] < |splits|
    ensures (forall h | 0 <= h < |path| :: learner.fit(splits[path[h]].trainDates).Some?)
       <==> (forall h | 0 <= h < |path[..g]| :: learner.fit(splits[path[..g][h]].trainDates).Some?)
            && learner.fit(splits[path[g]].trainDates).Some?
  {
    assert forall h | 0 <= h < g :: path[..g][h] == path[h];
  }

  /** A path is skipped exactly when one of the splits it names could not be fitted. */
  lemma {:induction false} PathCompleteIffFitted<M, X>(learner: Learner<M, X>, rows: seq<Row<X>>, nGroups: nat,
                                                       splits: seq<Split<int>>, path: seq<nat>)
    requires |path| <= nGroups <= |Sessions(rows)|
    requires forall g | 0 <= g < |path| :: path[g] < |splits| && g in splits[path[g]].groups
    ensures Stitched(AllPieces(learner, rows, nGroups, splits), path).Some?
       <==> forall g | 0 <= g < |path| :: learner.fit(splits[path[g]].trainDates).Some?
  {
    if path != [] {
      hide *;
      var g := |path| - 1;
      StitchedStep(AllPieces(learner, rows, nGroups, splits), path, g);
      FittedStep(learner, splits, path, g);
      PathCompleteIffFitted(learner, rows, nGroups, splits, path[..g]);
      PieceExistsIffFitted(learner, rows, nGroups, splits[path[g]], g);
    }
  }

  // ----- and scores it out of sample

  lemma TrainPosition(sessions: seq<int>, c: seq<nat>, groups: nat, gap: int, x: nat)
    requires Increasing(sessions) && groups > 0 && Below(c, groups) && x < |sessions|
    requires sessions[x] in SplitOf(sessions, c, groups, gap).trainDates
    ensures x in TrainIndex(c, |sessions|, groups, gap)
  {
    var index := TrainIndex(c, |sessions|, groups, gap);
    var m :| 0 <= m < |index| && sessions[index[m]] == sessions[x];
    assert index[m] in index;
  }

  lemma TestPosition(sessions: seq<int>, c: seq<nat>, groups: nat, g: nat, date: int) returns (t: nat)
    requires g < groups && g in c && date in GroupDates(sessions, groups, g)
    ensures t < |sessions| && sessions[t] == date && t in TestIndex(c, |sessions|, groups)
  {
    BoundInside(g, |sessions|, groups);
    var lo, hi := Bound(g, |sessions|, groups), Bound(g + 1, |sessions|, groups);
    var m :| 0 <= m < hi - lo && sessions[lo..hi][m] == date;
    t := lo + m;
    assert InBlock(t, g, |sessions|, groups);
    TestIndexMeaning(c, |sessions|, groups, t);
  }

  /** On any path, the model that scores a row of group `g` was fitted on sessions whose label windows never
      meet the row's own: each training session is more than `horizon` sessions away. */
  lemma PathScoresOutOfSample<X>(rows: seq<Row<X>>, nGroups: nat, testGroups: nat, horizon: nat, embargo: nat,
                                 j: nat, g: nat, row: Row<X>, x: nat) returns (t: nat)
    requires 0 < testGroups < nGroups <= |Sessions(rows)| && g < nGroups
    requires j < |DesignOf(Sessions(rows), nGroups, testGroups, horizon, embargo).paths|
    requires row in Masked(rows, GroupDates(Sessions(rows), nGroups, g))
    requires x < |Sessions(rows)|
    requires TrainsOn(Sessions(rows), DesignOf(Sessions(rows), nGroups, testGroups, horizon, embargo), j, g, x)
    ensures t < |Sessions(rows)| && Sessions(rows)[t] == row.date && Farther(x, t, horizon)
  {
    hide *;
    var sessions, n := Sessions(rows), |Sessions(rows)|;
    var c := SplitUsed(sessions, nGroups, testGroups, horizon, embargo, j, g, x);
    MaskedDates(rows, GroupDates(sessions, nGroups, g));
    t := TestPosition(sessions, c, nGroups, g, row.date);
    TrainPosition(sessions, c, nGroups, horizon + embargo, x);
    SplitPurged(c, n, nGroups, horizon, embargo);
    PurgedAt(c, n, nGroups, horizon, embargo, x, t);
  }

  lemma PurgedAt(c: seq<nat>, n: nat, groups: nat, horizon: int, embargo: int, x: int, t: int)
    requires groups > 0 && Purged(c, n, groups, horizon, embargo)
    requires x in TrainIndex(c, n, groups, horizon + embargo) && t in TestIndex(c, n, groups)
    ensures Farther(x, t, horizon)
  {
  }

  lemma SplitUsed(sessions: seq<int>, nGroups: nat, testGroups: nat, horizon: int, embargo: int,
                  j: nat, g: nat, x: nat) returns (c: seq<nat>)
    requires 0 < testGroups < nGroups && g < nGroups
    requires j < |DesignOf(sessions, nGroups, testGroups, horizon, embargo).paths|
    requires TrainsOn(sessions, DesignOf(sessions, nGroups, testGroups, horizon, embargo), j, g, x)
    ensures Below(c, nGroups) && g in c && x < |sessions|
    ensures sessions[x] in SplitOf(sessions, c, nGroups, horizon + embargo).trainDates
  {
    var d := DesignOf(sessions, nGroups, testGroups, horizon, embargo);
    PathNamesTestingSplit(sessions, nGroups, testGroups, horizon, embargo, j, g);
    c := Survivors(|sessions|, nGroups, testGroups, horizon + embargo)[d.paths[j][g]];
    assert d.splits[d.paths[j][g]] == SplitOf(sessions, c, nGroups, horizon + embargo);
  }

  /** Session `x` is in the training set of the split that path `j` uses for group `g`. */
  ghost predicate TrainsOn(sessions: seq<int>, d: Design<int>, j: nat, g: nat, x: nat) {
    && j < |d.paths| && g < |d.paths[j]| && d.paths[j][g] < |d.splits| && x < |sessions|
    && sessions[x] in d.splits[d.paths[j][g]].trainDates
  }
}

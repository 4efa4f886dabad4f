/** The bounded log of served votes: appending, what is pending, resolving in place, and how long a vote is retained. */
module InferenceLog {
  import opened Common

  datatype Vote = BUY | SELL | HOLD

  /** What became of a vote; `classLabel` stays `None` when it is dropped. Instants are microseconds. */
  datatype Fate = Fate(resolved: bool, classLabel: Option<int>, signedReturn: Option<real>, correct: Option<bool>,
                       resolvedAt: Option<int>)

  const UNRESOLVED: Fate := Fate(false, None, None, None, None)

  class InferenceRecord {
    const symbol: string
    const at: int
    const signal: Vote
    var resolved: bool
    var classLabel: Option<int>
    var signedReturn: Option<real>
    var correct: Option<bool>
    var resolvedAt: Option<int>

    constructor (symbol: string, at: int, signal: Vote)
      ensures this.symbol == symbol && this.at == at && this.signal == signal && Outcome() == UNRESOLVED
    {
      this.symbol, this.at, this.signal := symbol, at, signal;
      resolved, classLabel, signedReturn, correct, resolvedAt := false, None, None, None, None;
    }

    function Outcome(): Fate
      reads this
    {
      Fate(resolved, classLabel, signedReturn, correct, resolvedAt)
    }

    predicate Pending()
      reads this
    {
      !resolved && (signal == BUY || signal == SELL)
    }
  }

  // ----- a bounded deque

  function AppendAll<T>(log: seq<T>, items: seq<T>, maxlen: nat): seq<T> {
    if items == [] then log
    else LastN(AppendAll(log, items[..|items| - 1], maxlen) + [items[|items| - 1]], maxlen)
  }

  /** Appending one by one keeps the newest `maxlen` of everything ever appended. */
  lemma {:induction false} AppendAllKeepsNewest<T>(log: seq<T>, items: seq<T>, maxlen: nat)
    requires |log| <= maxlen
    ensures AppendAll(log, items, maxlen) == LastN(log + items, maxlen)
  {
    if items == [] {
      assert log + items == log;
    } else {
      var n := |items| - 1;
      AppendAllKeepsNewest(log, items[..n], maxlen);
      assert log + items == (log + items[..n]) + [items[n]];
      NewestTwice(log + items[..n], items[n], maxlen);
    }
  }

  lemma NewestTwice<T>(s: seq<T>, x: T, maxlen: nat)
    ensures LastN(LastN(s, maxlen) + [x], maxlen) == LastN(s + [x], maxlen)
  {
  }

  /** `retention_for` */
  function RetentionFor(universe: nat, horizon: nat): (n: nat)
    ensures n == 2 * (universe * horizon)
  {
    assert 2 * universe * horizon == 2 * (universe * horizon);
    2 * universe * horizon
  }

  function Flatten<T>(sessions: seq<seq<T>>): seq<T> {
    if sessions == [] then [] else Flatten(sessions[..|sessions| - 1]) + sessions[|sessions| - 1]
  }

  lemma {:induction false} FlattenSize<T>(sessions: seq<seq<T>>, perSession: nat)
    requires forall k | 0 <= k < |sessions| :: |sessions[k]| <= perSession
    ensures |Flatten(sessions)| <= |sessions| * perSession
  {
    if sessions != [] {
      var front := sessions[..|sessions| - 1];
      assert forall k | 0 <= k < |front| :: front[k] == sessions[k];
      FlattenSize(front, perSession);
      assert |sessions| * perSession == |front| * perSession + perSession;
    }
  }

  /** A vote is still held after `k` further sessions of at most `universe` votes each, for every `k` short of twice the
      horizon, whatever came before it and with it; so after `horizon` of them, if that is at least one. */
  lemma VoteIsRetained<T>(log: seq<T>, early: seq<T>, vote: T, late: seq<T>, further: seq<seq<T>>, universe: nat,
                          horizon: nat)
    requires |log| <= RetentionFor(universe, horizon)
    requires |early| + 1 + |late| <= universe && |further| < 2 * horizon
    requires forall k | 0 <= k < |further| :: |further[k]| <= universe
    ensures vote in AppendAll(log, early + [vote] + late + Flatten(further), RetentionFor(universe, horizon))
  {
    var maxlen := RetentionFor(universe, horizon);
    var items := early + [vote] + late + Flatten(further);
    FlattenSize(further, universe);
    SessionsFit(|further|, horizon, universe);
    AppendAllKeepsNewest(log, items, maxlen);
    var all := log + items;
    var at := |log| + |early|;
    assert all[at] == vote;
    if |all| > maxlen {
      assert all[|all| - maxlen..][at - (|all| - maxlen)] == vote;
    }
  }

  lemma SessionsFit(k: nat, horizon: nat, universe: nat)
    requires k < 2 * horizon
    ensures k * universe + universe <= 2 * (universe * horizon)
  {
    assert k * universe + universe == (k + 1) * universe;
    Monotone(k + 1, 2 * horizon, universe);
    assert 2 * horizon * universe == 2 * (universe * horizon);
  }

  lemma Monotone(a: nat, b: nat, c: nat)
    requires a <= b
    ensures a * c <= b * c
  {
  }

  /** Two horizons of full sessions later nothing older is left. */
  lemma OldVotesAreEvicted<T>(log: seq<T>, items: seq<T>, maxlen: nat)
    requires |log| <= maxlen <= |items|
    ensures AppendAll(log, items, maxlen) == items[|items| - maxlen..]
  {
    AppendAllKeepsNewest(log, items, maxlen);
  }

  // ----- the log

  class InferenceLog {
    const maxlen: nat
    var records: map<string, seq<InferenceRecord>>

    constructor (maxlen: nat)
      ensures this.maxlen == maxlen && records == map[]
    {
      this.maxlen := maxlen;
      records := map[];
    }

    function Of(modelId: string): seq<InferenceRecord>
      reads this
    {
      if modelId in records then records[modelId] else []
    }

    method Append(modelId: string, record: InferenceRecord)
      modifies this
      ensures Of(modelId) == AppendAll(old(Of(modelId)), [record], maxlen)
      ensures forall other | other != modelId :: Of(other) == old(Of(other))
    {
      var deque := Of(modelId) + [record];
      if |deque| > maxlen {
        deque := deque[|deque| - maxlen..];
      }
      assert [record][..0] == [];
      records := records[modelId := deque];
    }

    /** The votes awaiting an outcome, oldest first. */
    method ListPending(modelId: string) returns (pending: seq<InferenceRecord>)
      ensures pending == PendingAmong(Of(modelId))
    {
      var all := Of(modelId);
      pending := [];
      for i := 0 to |all|
        invariant pending == PendingAmong(all[..i])
      {
        assert all[..i + 1][..i] == all[..i];
        if !all[i].resolved && (all[i].signal == BUY || all[i].signal == SELL) {
          pending := pending + [all[i]];
        }
      }
      assert all[..|all|] == all;
    }

    method Resolve(record: InferenceRecord, classLabel: Option<int>, signedReturn: Option<real>,
                   correct: Option<bool>, resolvedAt: int)
      modifies record
      ensures record.Outcome() == Fate(true, classLabel, signedReturn, correct, Some(resolvedAt))
    {
      record.resolved := true;
      record.classLabel := classLabel;
      record.signedReturn := signedReturn;
      record.correct := correct;
      record.resolvedAt := Some(resolvedAt);
    }
  }

  function PendingAmong(records: seq<InferenceRecord>): seq<InferenceRecord>
    reads records
  {
    if records == [] then [] else
      var n := |records| - 1;
      PendingAmong(records[..n]) + if records[n].Pending() then [records[n]] else []
  }

  /** Exactly the pending records, each as often as it is logged. */
  lemma {:induction false} PendingAmongMeaning(records: seq<InferenceRecord>)
    ensures forall r :: r in PendingAmong(records) <==> r in records && r.Pending()
    ensures forall r | r in PendingAmong(records) :: multiset(PendingAmong(records))[r] == multiset(records)[r]
  {
    if records != [] {
      var n := |records| - 1;
      PendingAmongMeaning(records[..n]);
      assert records == records[..n] + [records[n]];
    }
  }
}

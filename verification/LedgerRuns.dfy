/** What the ledger's protective levels and daily baseline mean over a whole run of fills and marks. */
module LedgerRuns {
  import opened Common
  import opened Ledger

  // ----- protective levels

  /** The two kinds of level are kept by the same rule. */
  datatype Kind = Stop | Target

  function OrderLevel(o: Order, kind: Kind): Option<real> {
    if kind == Stop then o.stopLoss else o.takeProfit
  }

  function Level(p: Position, kind: Kind): Option<real> {
    if kind == Stop then p.stopLoss else p.takeProfit
  }

  /** Fill `k` settles the symbol's level: a buy that carries one, or a sale that leaves nothing. */
  predicate Settles(applied: seq<Order>, symbol: string, kind: Kind, k: nat)
    requires k < |applied|
  {
    var o := applied[k];
    o.symbol == symbol && (if o.side == BUY then OrderLevel(o, kind).Some?
                           else NetQuantity(applied[..k + 1], symbol) <= 0.0)
  }

  /** `level` was set by the last fill that settles it: the level of that buy, or none after a closing sale. */
  ghost predicate IsLevel(level: Option<real>, applied: seq<Order>, symbol: string, kind: Kind) {
    if forall k | 0 <= k < |applied| :: !Settles(applied, symbol, kind, k) then level.None?
    else exists k :: 0 <= k < |applied| && IsLast(applied, symbol, kind, k)
                     && level == if applied[k].side == BUY then OrderLevel(applied[k], kind) else None
  }

  ghost predicate IsLast(applied: seq<Order>, symbol: string, kind: Kind, k: nat) {
    && k < |applied| && Settles(applied, symbol, kind, k)
    && forall j | k < j < |applied| :: !Settles(applied, symbol, kind, j)
  }

  lemma SettlesPrefix(applied: seq<Order>, o: Order, symbol: string, kind: Kind, k: nat)
    requires k < |applied|
    ensures Settles(applied + [o], symbol, kind, k) <==> Settles(applied, symbol, kind, k)
  {
    assert (applied + [o])[..k + 1] == applied[..k + 1];
  }

  lemma LevelAfterFill(level: Option<real>, applied: seq<Order>, o: Order, symbol: string, kind: Kind,
                       next: Option<real>)
    requires IsLevel(level, applied, symbol, kind)
    requires next == if Settles(applied + [o], symbol, kind, |applied|)
                     then (if o.side == BUY then OrderLevel(o, kind) else None) else level
    ensures IsLevel(next, applied + [o], symbol, kind)
  {
    hide Settles;
    var all, n := applied + [o], |applied|;
    forall k | 0 <= k < n ensures Settles(all, symbol, kind, k) <==> Settles(applied, symbol, kind, k) {
      SettlesPrefix(applied, o, symbol, kind, k);
    }
    if Settles(all, symbol, kind, n) {
      assert IsLast(all, symbol, kind, n);
    } else if k :| 0 <= k < n && IsLast(applied, symbol, kind, k)
                   && level == if applied[k].side == BUY then OrderLevel(applied[k], kind) else None {
      assert IsLast(all, symbol, kind, k);
    }
  }

  lemma FillSetsLevel(l: Ledger, cfg: Config, applied: seq<Order>, o: Order, today: int, symbol: string, kind: Kind)
    requires o.id !in l.processed && Held(l.positions, symbol).quantity == NetQuantity(applied, symbol)
    ensures Level(Held(Filled(l, cfg, o, today).positions, symbol), kind)
         == if Settles(applied + [o], symbol, kind, |applied|)
         then (if o.side == BUY then OrderLevel(o, kind) else None)
            else Level(Held(l.positions, symbol), kind)
  {
    hide Equity, Recorded, FillPrice, CashFlow;
    var all := applied + [o];
    assert all[..|applied| + 1] == all && all[..|all| - 1] == applied && Last(all) == o;
  }

  lemma MarkKeepsLevel(l: Ledger, cfg: Config, price: real, today: int, marked: string, symbol: string, kind: Kind)
    ensures Level(Held(Marked(l, cfg, marked, price, today).positions, symbol), kind)
         == Level(Held(l.positions, symbol), kind)
  {
    hide Equity, Recorded;
  }

  lemma OpLevel(cfg: Config, openedOn: int, l: Ledger, applied: seq<Order>, op: Op, symbol: string, kind: Kind)
    requires Accounts(Opening(cfg, openedOn), l, cfg, applied)
    requires IsLevel(Level(Held(l.positions, symbol), kind), applied, symbol, kind)
    ensures IsLevel(Level(Held(Stepped(l, cfg, op).positions, symbol), kind), FillsAfter(l, applied, op), symbol, kind)
  {
    hide IsLevel, Filled, Marked, Opening, Accounts, Settles, Level;
    HeldIsNet(cfg, openedOn, l, applied, symbol);
    match op
    case FillOp(o, today) =>
      if o.id in l.processed {
        DuplicateFill(l, cfg, o, today);
      } else {
        FillSetsLevel(l, cfg, applied, o, today, symbol, kind);
        LevelAfterFill(Level(Held(l.positions, symbol), kind), applied, o, symbol, kind,
                       Level(Held(Filled(l, cfg, o, today).positions, symbol), kind));
      }
    case MarkOp(marked, price, today) =>
      MarkKeepsLevel(l, cfg, price, today, marked, symbol, kind);
  }

  /** Over every run a position's levels are those of the latest buy that carried one, unless a sale closed it since. */
  lemma {:induction false} RunLevels(cfg: Config, openedOn: int, ops: seq<Op>, n: nat, symbol: string, kind: Kind)
    requires n <= |ops|
    ensures var l0 := Opening(cfg, openedOn);
            IsLevel(Level(Held(Run(l0, cfg, ops, n).positions, symbol), kind), Applied(l0, cfg, ops, n), symbol, kind)
  {
    hide *;
    var l0 := Opening(cfg, openedOn);
    if n == 0 {
      RunStarts(l0, cfg, ops);
      NoLevels(cfg, openedOn, symbol, kind);
    } else {
      RunUnfolds(l0, cfg, ops, n);
      RunLevels(cfg, openedOn, ops, n - 1, symbol, kind);
      RunAccounts(l0, cfg, ops, n - 1);
      OpLevel(cfg, openedOn, Run(l0, cfg, ops, n - 1), Applied(l0, cfg, ops, n - 1), ops[n - 1], symbol, kind);
    }
  }

  lemma RunStarts(l: Ledger, cfg: Config, ops: seq<Op>)
    ensures Run(l, cfg, ops, 0) == l && Applied(l, cfg, ops, 0) == []
  {
  }

  lemma RunUnfolds(l: Ledger, cfg: Config, ops: seq<Op>, n: nat)
    requires 0 < n <= |ops|
    ensures Run(l, cfg, ops, n) == Stepped(Run(l, cfg, ops, n - 1), cfg, ops[n - 1])
    ensures Applied(l, cfg, ops, n) == FillsAfter(Run(l, cfg, ops, n - 1), Applied(l, cfg, ops, n - 1), ops[n - 1])
  {
    hide Stepped, FillsAfter;
  }

  lemma NoLevels(cfg: Config, openedOn: int, symbol: string, kind: Kind)
    ensures IsLevel(Level(Held(Opening(cfg, openedOn).positions, symbol), kind), [], symbol, kind)
  {
    hide Equity, Recorded;
  }

  lemma HeldIsNet(cfg: Config, openedOn: int, l: Ledger, applied: seq<Order>, symbol: string)
    requires Accounts(Opening(cfg, openedOn), l, cfg, applied)
    ensures Held(l.positions, symbol).quantity == NetQuantity(applied, symbol)
  {
    hide Equity, Recorded, TotalCashFlow, NetQuantity, Ids;
  }

  // ----- the daily baseline

  /** The baseline is the equity just before the first operation of the current day that reached the books (or the
      opening equity), and everything since was of that day. */
  ghost predicate IsDayBaseline(cfg: Config, openedOn: int, ops: seq<Op>, n: nat, k: nat)
    requires n <= |ops|
  {
    var l0 := Opening(cfg, openedOn);
    var l := Run(l0, cfg, ops, n);
    && k <= n && l.dayStartEquity == Equity(Run(l0, cfg, ops, k))
    && (forall i | k <= i < n :: TakesEffect(Run(l0, cfg, ops, i), ops[i]) ==> OpDay(ops[i]) == l.dayStartDate)
    && (if k == 0 && l.dayStartDate == openedOn then true
        else k < n && TakesEffect(Run(l0, cfg, ops, k), ops[k]) && Run(l0, cfg, ops, k).dayStartDate != l.dayStartDate)
  }

  lemma StepRollsDay(l: Ledger, cfg: Config, op: Op)
    ensures var l' := Stepped(l, cfg, op);
            if TakesEffect(l, op) && OpDay(op) != l.dayStartDate
            then l'.dayStartDate == OpDay(op) && l'.dayStartEquity == Equity(l)
            else l'.dayStartDate == l.dayStartDate && l'.dayStartEquity == l.dayStartEquity
  {
    hide BookValue, Recorded, NewPosition, CashFlow;
  }

  /** Over every run the daily loss is measured from the equity the current day opened with. */
  lemma {:induction false} RunDayBaseline(cfg: Config, openedOn: int, ops: seq<Op>, n: nat) returns (k: nat)
    requires n <= |ops|
    ensures IsDayBaseline(cfg, openedOn, ops, n, k)
  {
    hide *;
    if n == 0 {
      k := 0;
      OpeningBaseline(cfg, openedOn, ops);
    } else {
      var before := RunDayBaseline(cfg, openedOn, ops, n - 1);
      k := NextBaseline(cfg, openedOn, ops, n, before);
    }
  }

  lemma OpeningBaseline(cfg: Config, openedOn: int, ops: seq<Op>)
    ensures IsDayBaseline(cfg, openedOn, ops, 0, 0)
  {
    hide Opening, Equity, Stepped;
    OpeningEquity(cfg, openedOn);
    OpeningDay(cfg, openedOn);
  }

  lemma NextBaseline(cfg: Config, openedOn: int, ops: seq<Op>, n: nat, before: nat) returns (k: nat)
    requires 0 < n <= |ops| && IsDayBaseline(cfg, openedOn, ops, n - 1, before)
    ensures IsDayBaseline(cfg, openedOn, ops, n, k)
  {
    hide Stepped, Opening, Equity, TakesEffect, Run;
    var l := Run(Opening(cfg, openedOn), cfg, ops, n - 1);
    RunUnfolds(Opening(cfg, openedOn), cfg, ops, n);
    StepRollsDay(l, cfg, ops[n - 1]);
    k := if TakesEffect(l, ops[n - 1]) && OpDay(ops[n - 1]) != l.dayStartDate then n - 1 else before;
  }

  lemma OpeningDay(cfg: Config, openedOn: int)
    ensures Opening(cfg, openedOn).dayStartDate == openedOn && Opening(cfg, openedOn).dayStartEquity == cfg.initialCash
  {
    hide Equity, Recorded;
  }
}

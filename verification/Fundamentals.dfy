/**
 Point-in-time fundamentals: statements assembled from XBRL facts by first filing, the stored panel, and the as-of read.
 Dates are day numbers and instants are microseconds; a date stands for its midnight.
 */
module Fundamentals {
  import opened Common
  import opened SortedInts
  import opened Sorting
  import opened Upsert

  /** A concept and the unit it is reported in. */
  datatype Tag = Tag(concept: string, uom: string)

  /** One XBRL observation, `filed` being `None` when it does not parse as a date. */
  datatype Fact = Fact(form: string, fp: string, end: Option<int>, val: Option<real>, filed: Option<int>)

  type Facts = map<Tag, seq<Fact>>

  datatype Observation = Observation(value: real, filed: Option<int>)

  // ----- one concept: the first filing of each annual period

  predicate Annual(f: Fact) {
    (f.form == "10-K" || f.form == "10-K/A") && f.fp == "FY" && f.end.Some? && f.val.Some?
  }

  predicate Earlier(candidate: Option<int>, current: Option<int>) {
    candidate.Some? && (current.None? || candidate.value < current.value)
  }

  function Observed(f: Fact): Observation
    requires Annual(f)
  {
    Observation(f.val.value, f.filed)
  }

  function Keep(out: map<int, Observation>, f: Fact): map<int, Observation> {
    if !Annual(f) then out
    else if f.end.value !in out || Earlier(f.filed, out[f.end.value].filed) then out[f.end.value := Observed(f)]
    else out
  }

  function FirstFilings(facts: seq<Fact>): map<int, Observation> {
    if facts == [] then map[] else Keep(FirstFilings(facts[..|facts| - 1]), facts[|facts| - 1])
  }

  function Reported(facts: Facts, tag: Tag): seq<Fact> {
    if tag in facts then facts[tag] else []
  }

  method AnnualByPeriod(facts: Facts, tag: Tag) returns (out: map<int, Observation>)
    ensures out == FirstFilings(Reported(facts, tag))
  {
    var observations := Reported(facts, tag);
    out := map[];
    for i := 0 to |observations|
      invariant out == FirstFilings(observations[..i])
    {
      var obs := observations[i];
      assert observations[..i + 1][..i] == observations[..i];
      if !((obs.form == "10-K" || obs.form == "10-K/A") && obs.fp == "FY") {
        continue;
      }
      if obs.end.None? || obs.val.None? {
        continue;
      }
      var period := obs.end.value;
      if period !in out {
        out := out[period := Observation(obs.val.value, obs.filed)];
      } else if Earlier(obs.filed, out[period].filed) {
        out := out[period := Observation(obs.val.value, obs.filed)];
      }
    }
    assert observations[..|observations|] == observations;
  }

  /** An annual fact about `period`. */
  predicate About(f: Fact, period: int) {
    Annual(f) && f.end.value == period
  }

  /** `f` was filed no later than any dated fact about the period, or nothing about it is dated. */
  ghost predicate FiledFirst(facts: seq<Fact>, period: int, f: Fact) {
    && f in facts && About(f, period)
    && forall g | g in facts && About(g, period) :: !Earlier(g.filed, f.filed)
  }

  /** Each period is there exactly when some annual fact reports it, with the value and date of a fact filed first. */
  lemma {:induction false} FirstFilingMeaning(facts: seq<Fact>, period: int)
    ensures period in FirstFilings(facts) <==> exists f :: f in facts && About(f, period)
    ensures period in FirstFilings(facts) ==>
              exists f :: FiledFirst(facts, period, f) && FirstFilings(facts)[period] == Observed(f)
  {
    if facts != [] {
      var front, last := facts[..|facts| - 1], facts[|facts| - 1];
      FirstFilingMeaning(front, period);
      assert facts == front + [last];
      if period in FirstFilings(front) {
        var f :| FiledFirst(front, period, f) && FirstFilings(front)[period] == Observed(f);
        assert f in facts;
        if About(last, period) && Earlier(last.filed, f.filed) {
          assert FiledFirst(facts, period, last);
        } else {
          assert FiledFirst(facts, period, f);
        }
      } else if About(last, period) {
        assert FiledFirst(facts, period, last);
      }
    }
  }

  /** Later filings, amendments and comparative columns change nothing that was dated. */
  lemma {:induction false} LaterFilingsChangeNothing(facts: seq<Fact>, more: seq<Fact>, period: int)
    requires period in FirstFilings(facts)
    requires forall g | g in more && About(g, period) :: !Earlier(g.filed, FirstFilings(facts)[period].filed)
    ensures period in FirstFilings(facts + more) && FirstFilings(facts + more)[period] == FirstFilings(facts)[period]
  {
    if more == [] {
      assert facts + more == facts;
    } else {
      var front := more[..|more| - 1];
      LaterFilingsChangeNothing(facts, front, period);
      assert (facts + more)[..|facts + more| - 1] == facts + front;
      assert more[|more| - 1] in more;
    }
  }

  /** Whatever is said of a period by the facts filed first, they say the same. */
  ghost predicate FirstsAgree(facts: seq<Fact>) {
    forall p, f, g | FiledFirst(facts, p, f) && FiledFirst(facts, p, g) :: f.val == g.val
  }

  lemma SameFacts(a: seq<Fact>, b: seq<Fact>, p: int)
    requires FirstsAgree(a) && forall f :: f in a <==> f in b
    ensures p in FirstFilings(a) <==> p in FirstFilings(b)
    ensures p in FirstFilings(a) ==> FirstFilings(a)[p] == FirstFilings(b)[p]
  {
    FirstFilingMeaning(a, p);
    FirstFilingMeaning(b, p);
    if p in FirstFilings(a) {
      var f :| FiledFirst(a, p, f) && FirstFilings(a)[p] == Observed(f);
      var g :| FiledFirst(b, p, g) && FirstFilings(b)[p] == Observed(g);
      assert FiledFirst(a, p, g);
      assert !Earlier(f.filed, g.filed) && !Earlier(g.filed, f.filed);
    }
  }

  /** A fact filed first, put at the head, is the one kept. */
  lemma HeadIsKept(facts: seq<Fact>, p: int, k: nat)
    requires k < |facts| && FiledFirst(facts, p, facts[k])
    ensures var b := [facts[k]] + Without(facts, k);
            multiset(b) == multiset(facts) && p in FirstFilings(b) && FirstFilings(b)[p] == Observed(facts[k])
  {
    var f, rest := facts[k], Without(facts, k);
    WithoutMultiset(facts, k);
    assert multiset([f] + rest) == multiset{f} + multiset(rest);
    assert [f][..0] == [];
    assert FirstFilings([f]) == map[p := Observed(f)];
    forall g | g in rest && About(g, p) ensures !Earlier(g.filed, f.filed) {
      assert g in multiset(rest);
      assert g in multiset(facts);
    }
    LaterFilingsChangeNothing([f], rest, p);
  }

  /** The order of the observations does not matter exactly when, for every period, all the facts filed first carry one
      value; what later filings disagree about never does. */
  lemma OrderIsIrrelevantIff(a: seq<Fact>)
    ensures (forall b: seq<Fact> | multiset(b) == multiset(a) :: FirstFilings(b) == FirstFilings(a)) <==> FirstsAgree(a)
  {
    hide FirstFilings, FiledFirst;
    if FirstsAgree(a) {
      forall b: seq<Fact> | multiset(b) == multiset(a) ensures FirstFilings(b) == FirstFilings(a) {
        forall f ensures f in a <==> f in b {
          assert f in multiset(a) <==> f in multiset(b);
        }
        forall p ensures p in FirstFilings(a) <==> p in FirstFilings(b) {
          SameFacts(a, b, p);
        }
        forall p | p in FirstFilings(a) ensures FirstFilings(a)[p] == FirstFilings(b)[p] {
          SameFacts(a, b, p);
        }
      }
    } else {
      var p, f, g :| FiledFirst(a, p, f) && FiledFirst(a, p, g) && f.val != g.val;
      var i := PlaceOf(a, p, f);
      var j := PlaceOf(a, p, g);
      HeadIsKept(a, p, i);
      HeadIsKept(a, p, j);
      assert FirstFilings([a[i]] + Without(a, i)) != FirstFilings([a[j]] + Without(a, j));
    }
  }

  lemma PlaceOf(facts: seq<Fact>, p: int, f: Fact) returns (k: nat)
    requires FiledFirst(facts, p, f)
    ensures k < |facts| && facts[k] == f && Annual(f)
  {
    k :| 0 <= k < |facts| && facts[k] == f;
  }

  // ----- one field: candidate concepts in order of preference

  function FieldValues(facts: Facts, candidates: seq<Tag>): map<int, Observation> {
    if candidates == [] then map[] else
      var n := |candidates| - 1;
      FirstFilings(Reported(facts, candidates[n])) + FieldValues(facts, candidates[..n])
  }

  /** Keep what is there, add what is not: `merged.setdefault` over `incoming`. */
  method SetDefaults<K(==), V>(merged: map<K, V>, incoming: map<K, V>) returns (r: map<K, V>)
    ensures r == incoming + merged
  {
    r := merged;
    var rest := incoming.Keys;
    while rest != {}
      invariant rest <= incoming.Keys
      invariant r.Keys == merged.Keys + (incoming.Keys - rest)
      invariant forall p | p in r :: r[p] == (incoming + merged)[p]
      decreases rest
    {
      var p :| p in rest;
      if p !in r {
        r := r[p := incoming[p]];
      }
      rest := rest - {p};
    }
  }

  method MergeCandidates(facts: Facts, candidates: seq<Tag>) returns (merged: map<int, Observation>)
    ensures merged == FieldValues(facts, candidates)
  {
    merged := map[];
    for i := 0 to |candidates|
      invariant merged == FieldValues(facts, candidates[..i])
    {
      assert candidates[..i + 1][..i] == candidates[..i];
      var incoming := AnnualByPeriod(facts, candidates[i]);
      merged := SetDefaults(merged, incoming);
    }
    assert candidates[..|candidates|] == candidates;
  }

  /** The first candidate that reports the period. */
  ghost predicate FirstReporting(facts: Facts, candidates: seq<Tag>, period: int, k: int) {
    && 0 <= k < |candidates| && period in FirstFilings(Reported(facts, candidates[k]))
    && forall j | 0 <= j < k :: period !in FirstFilings(Reported(facts, candidates[j]))
  }

  /** A field's value is that of the first candidate reporting the period, and there is one when any does. */
  lemma {:induction false} FieldValuesMeaning(facts: Facts, candidates: seq<Tag>, period: int)
    ensures period in FieldValues(facts, candidates)
       <==> exists k :: 0 <= k < |candidates| && period in FirstFilings(Reported(facts, candidates[k]))
    ensures period in FieldValues(facts, candidates) ==>
              exists k :: FirstReporting(facts, candidates, period, k)
                          && FieldValues(facts, candidates)[period]
                          == FirstFilings(Reported(facts, candidates[k]))[period]
  {
    hide FirstFilings, Reported;
    if candidates != [] {
      var n := |candidates| - 1;
      var front := candidates[..n];
      FieldValuesMeaning(facts, front, period);
      if period in FieldValues(facts, front) {
        var k :| FirstReporting(facts, front, period, k)
                 && FieldValues(facts, front)[period] == FirstFilings(Reported(facts, front[k]))[period];
        assert forall j | 0 <= j <= k :: front[j] == candidates[j];
        assert FirstReporting(facts, candidates, period, k);
      } else if period in FirstFilings(Reported(facts, candidates[n])) {
        assert forall j | 0 <= j < n :: front[j] == candidates[j];
        assert FirstReporting(facts, candidates, period, n);
      }
    }
  }

  // ----- the filing a field is taken from, written out

  /** The `i`-th fact of the concept is an annual one about the period. */
  ghost predicate AnnualAbout(facts: Facts, tag: Tag, period: int, i: int) {
    && tag in facts && 0 <= i < |facts[tag]|
    && var f := facts[tag][i];
       (f.form == "10-K" || f.form == "10-K/A") && f.fp == "FY" && f.end == Some(period) && f.val.Some?
  }

  /** Of the annual facts of the concept about the period, it is dated before every one listed earlier, and none
      listed later is dated before it. */
  ghost predicate EarliestAbout(facts: Facts, tag: Tag, period: int, i: int) {
    && AnnualAbout(facts, tag, period, i)
    && (forall j | 0 <= j < i && AnnualAbout(facts, tag, period, j) ::
          facts[tag][i].filed.Some?
          && (facts[tag][j].filed.None? || facts[tag][i].filed.value < facts[tag][j].filed.value))
    && (forall j | i < j && AnnualAbout(facts, tag, period, j) ::
          facts[tag][j].filed.Some? ==>
            facts[tag][i].filed.Some? && facts[tag][i].filed.value <= facts[tag][j].filed.value)
  }

  /** Fact `i` of candidate `c`, no candidate before it reporting the period at all. */
  ghost predicate Filing(facts: Facts, candidates: seq<Tag>, period: int, c: int, i: int) {
    && 0 <= c < |candidates| && EarliestAbout(facts, candidates[c], period, i)
    && forall b, j | 0 <= b < c :: !AnnualAbout(facts, candidates[b], period, j)
  }

  /** The observation has the value and the date of the `i`-th fact of the concept. */
  ghost predicate TakenFrom(o: Observation, facts: Facts, tag: Tag, i: int) {
    tag in facts && 0 <= i < |facts[tag]| && facts[tag][i].val == Some(o.value) && facts[tag][i].filed == o.filed
  }

  /** `EarliestAbout` among the first `n` facts, and it is the one kept. */
  ghost predicate KeptOf(facts: Facts, tag: Tag, period: int, n: nat, i: int) {
    && tag in facts && i < n <= |facts[tag]| && AnnualAbout(facts, tag, period, i)
    && (forall j | 0 <= j < i && AnnualAbout(facts, tag, period, j) ::
          facts[tag][i].filed.Some?
          && (facts[tag][j].filed.None? || facts[tag][i].filed.value < facts[tag][j].filed.value))
    && (forall j | i < j < n && AnnualAbout(facts, tag, period, j) ::
          facts[tag][j].filed.Some? ==>
            facts[tag][i].filed.Some? && facts[tag][i].filed.value <= facts[tag][j].filed.value)
    && period in FirstFilings(facts[tag][..n])
    && TakenFrom(FirstFilings(facts[tag][..n])[period], facts, tag, i)
  }

  lemma KeepNext(facts: Facts, tag: Tag, period: int, n: nat)
    requires tag in facts && 0 < n <= |facts[tag]|
    ensures FirstFilings(facts[tag][..n]) == Keep(FirstFilings(facts[tag][..n - 1]), facts[tag][n - 1])
  {
    assert facts[tag][..n][..n - 1] == facts[tag][..n - 1];
  }

  /** The next fact changes nothing when it is not about the period, or not dated before the one kept. */
  lemma KeptStays(facts: Facts, tag: Tag, period: int, n: nat, i: int)
    requires n > 0 && KeptOf(facts, tag, period, n - 1, i) && n <= |facts[tag]|
    requires !(AnnualAbout(facts, tag, period, n - 1) && Earlier(facts[tag][n - 1].filed, facts[tag][i].filed))
    ensures KeptOf(facts, tag, period, n, i)
  {
    KeepNext(facts, tag, period, n);
    hide FirstFilings;
  }

  lemma KeptGives(facts: Facts, tag: Tag, period: int, n: nat, i: int)
    requires n > 0 && KeptOf(facts, tag, period, n - 1, i) && n <= |facts[tag]|
    requires AnnualAbout(facts, tag, period, n - 1) && Earlier(facts[tag][n - 1].filed, facts[tag][i].filed)
    ensures KeptOf(facts, tag, period, n, n - 1)
  {
    KeepNext(facts, tag, period, n);
    hide FirstFilings;
  }

  lemma KeptFirst(facts: Facts, tag: Tag, period: int, n: nat)
    requires tag in facts && 0 < n <= |facts[tag]| && period !in FirstFilings(facts[tag][..n - 1])
    requires forall j | j < n - 1 :: !AnnualAbout(facts, tag, period, j)
    ensures AnnualAbout(facts, tag, period, n - 1) ==> KeptOf(facts, tag, period, n, n - 1)
    ensures !AnnualAbout(facts, tag, period, n - 1) ==> period !in FirstFilings(facts[tag][..n])
  {
    KeepNext(facts, tag, period, n);
    hide FirstFilings;
  }

  lemma {:induction false} KeptIsEarliest(facts: Facts, tag: Tag, period: int, n: nat)
    requires tag in facts && n <= |facts[tag]|
    ensures period in FirstFilings(facts[tag][..n]) <==> exists i :: i < n && AnnualAbout(facts, tag, period, i)
    ensures period in FirstFilings(facts[tag][..n]) ==>
              exists i :: KeptOf(facts, tag, period, n, i)
  {
    if n == 0 {
      NothingFiled(period);
      assert facts[tag][..0] == [];
    } else {
      KeptIsEarliest(facts, tag, period, n - 1);
      hide FirstFilings, Earlier, TakenFrom;
      if period in FirstFilings(facts[tag][..n - 1]) {
        var i :| KeptOf(facts, tag, period, n - 1, i);
        if AnnualAbout(facts, tag, period, n - 1) && Earlier(facts[tag][n - 1].filed, facts[tag][i].filed) {
          KeptGives(facts, tag, period, n, i);
        } else {
          KeptStays(facts, tag, period, n, i);
        }
      } else {
        KeptFirst(facts, tag, period, n);
      }
    }
  }

  lemma ConceptKeeps(facts: Facts, tag: Tag, period: int)
    ensures period in FirstFilings(Reported(facts, tag)) <==> exists i :: AnnualAbout(facts, tag, period, i)
    ensures period in FirstFilings(Reported(facts, tag)) ==>
              exists i :: EarliestAbout(facts, tag, period, i)
                          && TakenFrom(FirstFilings(Reported(facts, tag))[period], facts, tag, i)
  {
    hide FirstFilings;
    if tag in facts {
      var n := |facts[tag]|;
      assert facts[tag][..n] == facts[tag];
      KeptIsEarliest(facts, tag, period, n);
      if period in FirstFilings(facts[tag]) {
        var i :| KeptOf(facts, tag, period, n, i);
        assert EarliestAbout(facts, tag, period, i);
      }
    } else {
      NothingFiled(period);
    }
  }

  lemma NothingFiled(period: int)
    ensures period !in FirstFilings([])
  {
  }

  /** A field has a value for the period exactly when some candidate has an annual fact about it, and it is that of the
      filing. */
  lemma FieldIsFiled(facts: Facts, candidates: seq<Tag>, period: int)
    ensures period in FieldValues(facts, candidates)
       <==> exists c, i :: 0 <= c < |candidates| && AnnualAbout(facts, candidates[c], period, i)
    ensures period in FieldValues(facts, candidates) ==>
              exists c, i :: Filing(facts, candidates, period, c, i)
                             && TakenFrom(FieldValues(facts, candidates)[period], facts, candidates[c], i)
  {
    hide FirstFilings, FieldValues, Reported, AnnualAbout, EarliestAbout, TakenFrom;
    FieldValuesMeaning(facts, candidates, period);
    forall k | 0 <= k < |candidates|
      ensures period in FirstFilings(Reported(facts, candidates[k]))
         <==> exists i :: AnnualAbout(facts, candidates[k], period, i)
    {
      ConceptKeeps(facts, candidates[k], period);
    }
    if period in FieldValues(facts, candidates) {
      var k :| FirstReporting(facts, candidates, period, k)
               && FieldValues(facts, candidates)[period] == FirstFilings(Reported(facts, candidates[k]))[period];
      ConceptKeeps(facts, candidates[k], period);
      var i :| EarliestAbout(facts, candidates[k], period, i)
               && TakenFrom(FirstFilings(Reported(facts, candidates[k]))[period], facts, candidates[k], i);
      assert Filing(facts, candidates, period, k, i);
    }
  }

  lemma FilingUnique(facts: Facts, candidates: seq<Tag>, period: int, c: int, i: int, c': int, i': int)
    requires Filing(facts, candidates, period, c, i) && Filing(facts, candidates, period, c', i')
    ensures c == c' && i == i'
  {
  }

  // ----- one statement

  function Midnight(day: int): int {
    day * MICROSECONDS_PER_DAY
  }

  type Fields = map<string, map<int, Observation>>

  ghost predicate Populated(fields: Fields, field: string, period: int) {
    field in fields && period in fields[field]
  }

  /** `day` is when the last populated field of the period was filed, all of them being dated. */
  ghost predicate KnowableOn(fields: Fields, period: int, day: int) {
    && (forall f | Populated(fields, f, period) ::
          fields[f][period].filed.Some? && fields[f][period].filed.value <= day)
    && (exists f :: Populated(fields, f, period) && fields[f][period].filed == Some(day))
  }

  method StatementFiledAt(fields: Fields, period: int) returns (filedAt: Option<int>)
    ensures filedAt.Some? ==> exists day :: filedAt == Some(Midnight(day)) && KnowableOn(fields, period, day)
    ensures filedAt.None? ==> forall day :: !KnowableOn(fields, period, day)
  {
    hide Midnight;
    var latest: Option<int> := None;
    var rest := fields.Keys;
    while rest != {}
      invariant rest <= fields.Keys
      invariant forall f | Populated(fields, f, period) && f !in rest ::
                  latest.Some? && fields[f][period].filed.Some? && fields[f][period].filed.value <= latest.value
      invariant latest.Some? ==> exists f :: Populated(fields, f, period) && fields[f][period].filed == latest
      decreases rest
    {
      var f :| f in rest;
      rest := rest - {f};
      if period !in fields[f] {
        continue;
      }
      assert Populated(fields, f, period);
      if fields[f][period].filed.None? {
        return None;
      }
      var filed := fields[f][period].filed.value;
      latest := if latest.None? || latest.value < filed then Some(filed) else latest;
    }
    if latest.None? {
      return None;
    }
    assert KnowableOn(fields, period, latest.value);
    return Some(Midnight(latest.value));
  }

  datatype Statement = Statement(symbol: string, periodEnd: int, fiscalPeriod: string, values: map<string, real>,
                                 filedAt: Option<int>, fScore: Option<int>, source: string)

  function ValuesAt(fields: Fields, period: int): map<string, real> {
    map f | f in fields && period in fields[f] :: fields[f][period].value
  }

  /** A statement the client assembles for `period`. */
  ghost predicate IsStatement(st: Statement, symbol: string, fields: Fields, period: int) {
    && st == Statement(symbol, period, "FY", ValuesAt(fields, period), st.filedAt, None, "sec-edgar")
    && (st.filedAt.Some? ==> exists day :: st.filedAt == Some(Midnight(day)) && KnowableOn(fields, period, day))
    && (st.filedAt.None? ==> forall day :: !KnowableOn(fields, period, day))
  }

  /** The fields of a company, each from its candidate concepts. */
  function FieldsOf(facts: Facts, tagMap: map<string, seq<Tag>>): (r: Fields)
    ensures r.Keys == tagMap.Keys && forall f | f in tagMap :: r[f] == FieldValues(facts, tagMap[f])
  {
    map f | f in tagMap :: FieldValues(facts, tagMap[f])
  }

  // ----- a statement, written out from the facts

  /** All the filings behind the period's fields are dated, none later than `day`, and one of them that day. */
  ghost predicate LastFiledOn(facts: Facts, tagMap: map<string, seq<Tag>>, period: int, day: int) {
    && (forall f, c, i | f in tagMap && Filing(facts, tagMap[f], period, c, i) :: FiledBy(facts, tagMap[f], c, i, day))
    && (exists f, c, i :: f in tagMap && Filing(facts, tagMap[f], period, c, i) && FiledOn(facts, tagMap[f], c, i, day))
  }

  ghost predicate FiledBy(facts: Facts, candidates: seq<Tag>, c: int, i: int, day: int) {
    && 0 <= c < |candidates| && candidates[c] in facts && 0 <= i < |facts[candidates[c]]|
    && facts[candidates[c]][i].filed.Some? && facts[candidates[c]][i].filed.value <= day
  }

  ghost predicate FiledOn(facts: Facts, candidates: seq<Tag>, c: int, i: int, day: int) {
    && 0 <= c < |candidates| && candidates[c] in facts && 0 <= i < |facts[candidates[c]]|
    && facts[candidates[c]][i].filed == Some(day)
  }

  /** The statement carries a field exactly when some candidate concept of it has an annual fact about the period. */
  ghost predicate HasField(st: Statement, field: string, facts: Facts, tagMap: map<string, seq<Tag>>) {
    field in st.values <==>
      field in tagMap && exists c, i ::
        0 <= c < |tagMap[field]| && AnnualAbout(facts, tagMap[field][c], st.periodEnd, i)
  }

  /** Its value is the one filed first by the first candidate that has any. */
  ghost predicate ValueFiled(st: Statement, field: string, facts: Facts, tagMap: map<string, seq<Tag>>) {
    && field in st.values && field in tagMap
    && exists c, i :: Filing(facts, tagMap[field], st.periodEnd, c, i)
                      && facts[tagMap[field][c]][i].val == Some(st.values[field])
  }

  /** What the client assembles from the facts: every field that is filed, at the value first filed, dated the
      midnight of the day the last of them was filed, and undated when there is no such day. */
  ghost predicate StatementOf(st: Statement, facts: Facts, tagMap: map<string, seq<Tag>>) {
    && st.fiscalPeriod == "FY" && st.source == "sec-edgar"
    && (forall field :: HasField(st, field, facts, tagMap))
    && (forall field | field in st.values :: ValueFiled(st, field, facts, tagMap))
    && (if st.filedAt.Some?
        then exists day :: st.filedAt == Some(day * 86_400_000_000) && LastFiledOn(facts, tagMap, st.periodEnd, day)
        else forall day :: !LastFiledOn(facts, tagMap, st.periodEnd, day))
  }

  lemma FieldInStatement(st: Statement, field: string, symbol: string, facts: Facts, tagMap: map<string, seq<Tag>>)
    requires IsStatement(st, symbol, FieldsOf(facts, tagMap), st.periodEnd)
    ensures HasField(st, field, facts, tagMap)
    ensures field in st.values ==> ValueFiled(st, field, facts, tagMap)
  {
    hide KnowableOn, AnnualAbout, EarliestAbout, FieldValues;
    if field in tagMap {
      FieldIsFiled(facts, tagMap[field], st.periodEnd);
      if field in st.values {
        var c, i :| Filing(facts, tagMap[field], st.periodEnd, c, i)
                    && TakenFrom(FieldValues(facts, tagMap[field])[st.periodEnd], facts, tagMap[field][c], i);
        assert facts[tagMap[field][c]][i].val == Some(st.values[field]);
      }
    }
  }

  lemma KnowableIsLastFiled(facts: Facts, tagMap: map<string, seq<Tag>>, period: int, day: int)
    ensures KnowableOn(FieldsOf(facts, tagMap), period, day) <==> LastFiledOn(facts, tagMap, period, day)
  {
    hide AnnualAbout, EarliestAbout, FieldValues, FiledBy, FiledOn;
    var fields := FieldsOf(facts, tagMap);
    forall f, c, i | f in tagMap && Filing(facts, tagMap[f], period, c, i)
      ensures Populated(fields, f, period)
      ensures FiledBy(facts, tagMap[f], c, i, day)
         <==> fields[f][period].filed.Some? && fields[f][period].filed.value <= day
      ensures FiledOn(facts, tagMap[f], c, i, day) <==> fields[f][period].filed == Some(day)
    {
      FilingDates(facts, tagMap[f], period, c, i, day);
    }
    forall f | Populated(fields, f, period) ensures exists c, i :: Filing(facts, tagMap[f], period, c, i) {
      FieldIsFiled(facts, tagMap[f], period);
    }
  }

  lemma FilingDates(facts: Facts, candidates: seq<Tag>, period: int, c: int, i: int, day: int)
    requires Filing(facts, candidates, period, c, i)
    ensures period in FieldValues(facts, candidates)
    ensures var o := FieldValues(facts, candidates)[period];
            && (FiledBy(facts, candidates, c, i, day) <==> o.filed.Some? && o.filed.value <= day)
            && (FiledOn(facts, candidates, c, i, day) <==> o.filed == Some(day))
  {
    hide FieldValues, AnnualAbout;
    AnnualFiling(facts, candidates, period, c, i);
    FieldIsFiled(facts, candidates, period);
    var c', i' :| Filing(facts, candidates, period, c', i')
                  && TakenFrom(FieldValues(facts, candidates)[period], facts, candidates[c'], i');
    FilingUnique(facts, candidates, period, c, i, c', i');
  }

  lemma AnnualFiling(facts: Facts, candidates: seq<Tag>, period: int, c: int, i: int)
    requires Filing(facts, candidates, period, c, i)
    ensures 0 <= c < |candidates| && AnnualAbout(facts, candidates[c], period, i)
  {
  }

  lemma StatementIsOf(st: Statement, symbol: string, facts: Facts, tagMap: map<string, seq<Tag>>)
    requires IsStatement(st, symbol, FieldsOf(facts, tagMap), st.periodEnd)
    ensures StatementOf(st, facts, tagMap)
  {
    hide KnowableOn, LastFiledOn, HasField, ValueFiled;
    forall field ensures HasField(st, field, facts, tagMap)
      ensures field in st.values ==> ValueFiled(st, field, facts, tagMap)
    {
      FieldInStatement(st, field, symbol, facts, tagMap);
    }
    forall day
      ensures KnowableOn(FieldsOf(facts, tagMap), st.periodEnd, day) <==> LastFiledOn(facts, tagMap, st.periodEnd, day)
    {
      KnowableIsLastFiled(facts, tagMap, st.periodEnd, day);
    }
  }

  function PeriodsOf(fields: Fields): set<int> {
    set f, p | f in fields && p in fields[f] :: p
  }

  function Reversed(s: seq<int>): (r: seq<int>)
    ensures |r| == |s| && forall k | 0 <= k < |s| :: r[k] == s[|s| - 1 - k]
  {
    seq(|s|, k requires 0 <= k < |s| => s[|s| - 1 - k])
  }

  /** The latest `count` periods any field reports, newest first, each as its statement. */
  method LatestStatements(symbol: string, facts: Facts, tagMap: map<string, seq<Tag>>, count: nat)
    returns (statements: seq<Statement>)
    ensures var periods := Reversed(SortedSet(PeriodsOf(FieldsOf(facts, tagMap))));
            && |statements| == MinInt(count, |periods|)
            && forall k | 0 <= k < |statements| ::
                 IsStatement(statements[k], symbol, FieldsOf(facts, tagMap), periods[k])
    ensures AreLatest(statements, symbol, facts, tagMap, count)
  {
    hide IsStatement, KnowableOn, FieldValues, Populated, AreLatest, PeriodsOf;
    var fields: Fields := map[];
    var rest := tagMap.Keys;
    while rest != {}
      invariant rest <= tagMap.Keys && fields.Keys == tagMap.Keys - rest
      invariant forall f | f in fields :: fields[f] == FieldValues(facts, tagMap[f])
      decreases rest
    {
      var f :| f in rest;
      var merged := MergeCandidates(facts, tagMap[f]);
      fields := fields[f := merged];
      rest := rest - {f};
    }
    assert fields == FieldsOf(facts, tagMap);
    var periods := Reversed(SortedSet(PeriodsOf(fields)));
    statements := [];
    var n := MinInt(count, |periods|);
    for i := 0 to n
      invariant |statements| == i
      invariant forall k | 0 <= k < i :: IsStatement(statements[k], symbol, fields, periods[k])
    {
      var filedAt := StatementFiledAt(fields, periods[i]);
      var st := Statement(symbol, periods[i], "FY", ValuesAt(fields, periods[i]), filedAt, None, "sec-edgar");
      MakesStatement(st, symbol, fields, periods[i]);
      statements := statements + [st];
    }
    LatestOf(facts, tagMap, periods, statements, count, symbol);
  }

  /** The statements of the newest `count` periods any field reports, or of all of them when there are fewer, newest
      first. */
  ghost predicate AreLatest(statements: seq<Statement>, symbol: string, facts: Facts, tagMap: map<string, seq<Tag>>,
                            count: nat) {
    && |statements| <= count
    && (forall st | st in statements ::
          st.symbol == symbol && StatementOf(st, facts, tagMap) && IsReported(facts, tagMap, st.periodEnd))
    && (forall j, k | 0 <= j < k < |statements| :: statements[j].periodEnd > statements[k].periodEnd)
    && forall p | IsReported(facts, tagMap, p) ::
         (exists k :: 0 <= k < |statements| && statements[k].periodEnd == p)
         || (|statements| == count && forall k | 0 <= k < |statements| :: p < statements[k].periodEnd)
  }

  lemma LatestOf(facts: Facts, tagMap: map<string, seq<Tag>>, periods: seq<int>, statements: seq<Statement>,
                 count: nat, symbol: string)
    requires periods == Reversed(SortedSet(PeriodsOf(FieldsOf(facts, tagMap))))
    requires |statements| == MinInt(count, |periods|)
    requires forall k | 0 <= k < |statements| ::
               IsStatement(statements[k], symbol, FieldsOf(facts, tagMap), periods[k])
    ensures AreLatest(statements, symbol, facts, tagMap, count)
  {
    hide IsStatement, StatementOf, IsReported, PeriodsOf, FieldsOf, SortedSet, Reversed;
    NewestPeriods(facts, tagMap, periods, statements, count, symbol);
    forall st | st in statements ensures st.symbol == symbol && StatementOf(st, facts, tagMap) {
      var k :| 0 <= k < |statements| && statements[k] == st;
      NamesPeriod(st, symbol, FieldsOf(facts, tagMap), periods[k]);
      StatementIsOf(st, symbol, facts, tagMap);
    }
  }

  /** Some field has an annual fact about the period. */
  ghost predicate IsReported(facts: Facts, tagMap: map<string, seq<Tag>>, period: int) {
    exists f, c, i :: f in tagMap && 0 <= c < |tagMap[f]| && AnnualAbout(facts, tagMap[f][c], period, i)
  }

  lemma ReportedPeriods(facts: Facts, tagMap: map<string, seq<Tag>>, period: int)
    ensures period in PeriodsOf(FieldsOf(facts, tagMap)) <==> IsReported(facts, tagMap, period)
  {
    hide AnnualAbout, FieldValues, EarliestAbout;
    forall f | f in tagMap
      ensures period in FieldValues(facts, tagMap[f])
         <==> exists c, i :: 0 <= c < |tagMap[f]| && AnnualAbout(facts, tagMap[f][c], period, i)
    {
      FieldIsFiled(facts, tagMap[f], period);
    }
  }

  lemma NamesPeriod(st: Statement, symbol: string, fields: Fields, period: int)
    requires IsStatement(st, symbol, fields, period)
    ensures st.symbol == symbol && st.periodEnd == period
  {
    hide KnowableOn, Midnight, ValuesAt;
  }

  lemma NewestPeriods(facts: Facts, tagMap: map<string, seq<Tag>>, periods: seq<int>, statements: seq<Statement>,
                      count: nat, symbol: string)
    requires periods == Reversed(SortedSet(PeriodsOf(FieldsOf(facts, tagMap))))
    requires |statements| == MinInt(count, |periods|)
    requires forall k | 0 <= k < |statements| ::
               IsStatement(statements[k], symbol, FieldsOf(facts, tagMap), periods[k])
    ensures forall j, k | 0 <= j < k < |statements| :: statements[j].periodEnd > statements[k].periodEnd
    ensures forall k | 0 <= k < |statements| :: IsReported(facts, tagMap, statements[k].periodEnd)
    ensures forall p | IsReported(facts, tagMap, p) ::
              (exists k :: 0 <= k < |statements| && statements[k].periodEnd == p)
              || (|statements| == count && forall k | 0 <= k < |statements| :: p < statements[k].periodEnd)
  {
    hide IsStatement, IsReported, PeriodsOf, MinInt;
    var reported := PeriodsOf(FieldsOf(facts, tagMap));
    NewestFirst(reported, |statements|, count);
    forall k | 0 <= k < |statements| ensures statements[k].periodEnd == periods[k] {
      NamesPeriod(statements[k], symbol, FieldsOf(facts, tagMap), periods[k]);
    }
    forall p ensures p in reported <==> IsReported(facts, tagMap, p) {
      ReportedPeriods(facts, tagMap, p);
    }
  }

  /** The first `n` of the periods, newest first, leave out older ones alone. */
  lemma NewestFirst(reported: set<int>, n: nat, count: nat)
    requires n == MinInt(count, |reported|)
    ensures var periods := Reversed(SortedSet(reported));
            && n <= |periods|
            && (forall j, k | 0 <= j < k < n :: periods[j] > periods[k])
            && (forall k | 0 <= k < n :: periods[k] in reported)
            && forall p | p in reported ::
                 (exists k :: 0 <= k < n && periods[k] == p) || (n == count && forall k | 0 <= k < n :: p < periods[k])
  {
    hide SortedSet, Reversed;
    NewestOf(SortedSet(reported), n, count);
    var ascending, periods := SortedSet(reported), Reversed(SortedSet(reported));
    forall k | 0 <= k < n ensures periods[k] in reported {
      assert periods[k] in ascending;
    }
    forall p | p in reported
      ensures (exists k :: 0 <= k < n && periods[k] == p) || (n == count && forall k | 0 <= k < n :: p < periods[k])
    {
      assert p in ascending;
    }
  }

  lemma NewestOf(ascending: seq<int>, n: nat, count: nat)
    requires Increasing(ascending) && n == MinInt(count, |ascending|)
    ensures var periods := Reversed(ascending);
            && (forall k | 0 <= k < n :: periods[k] in ascending)
            && (forall j, k | 0 <= j < k < n :: periods[j] > periods[k])
            && forall p | p in ascending ::
                 (exists k :: 0 <= k < n && periods[k] == p) || (n == count && forall k | 0 <= k < n :: p < periods[k])
  {
    var periods := Reversed(ascending);
    forall p | p in ascending
      ensures (exists k :: 0 <= k < n && periods[k] == p) || (n == count && forall k | 0 <= k < n :: p < periods[k])
    {
      var i :| 0 <= i < |ascending| && ascending[i] == p;
      assert periods[|ascending| - 1 - i] == p;
    }
  }

  lemma MakesStatement(st: Statement, symbol: string, fields: Fields, period: int)
    requires st == Statement(symbol, period, "FY", ValuesAt(fields, period), st.filedAt, None, "sec-edgar")
    requires st.filedAt.Some? ==> exists day :: st.filedAt == Some(Midnight(day)) && KnowableOn(fields, period, day)
    requires st.filedAt.None? ==> forall day :: !KnowableOn(fields, period, day)
    ensures IsStatement(st, symbol, fields, period)
  {
    hide KnowableOn, Midnight;
  }

  // ----- the store

  type Key = (string, int, string)

  function KeyOf(st: Statement): Key {
    (st.symbol, st.periodEnd, st.fiscalPeriod)
  }

  function Keyed(statements: seq<Statement>): (r: seq<(Key, Statement)>)
    ensures |r| == |statements| && forall k | 0 <= k < |r| :: r[k] == (KeyOf(statements[k]), statements[k])
  {
    seq(|statements|, k requires 0 <= k < |statements| => (KeyOf(statements[k]), statements[k]))
  }

  /** A dated statement of `symbol` published strictly before `cutoff`. */
  predicate Published(st: Statement, symbol: string, cutoff: int) {
    st.symbol == symbol && st.filedAt.Some? && st.filedAt.value < cutoff
  }

  predicate NotNewer(a: Statement, b: Statement)
    requires a.filedAt.Some? && b.filedAt.Some?
  {
    a.filedAt.value < b.filedAt.value || (a.filedAt.value == b.filedAt.value && a.periodEnd <= b.periodEnd)
  }

  class SqlFundamentalsStore {
    var rows: map<Key, Statement>

    constructor ()
      ensures rows == map[]
    {
      rows := map[];
    }

    /** Merging row by row: the table a key-by-key write leaves, and the number of statements given. */
    method Save(statements: seq<Statement>) returns (saved: nat)
      modifies this
      ensures rows == PutAll(old(rows), Keyed(statements)) && saved == |statements|
    {
      hide PutAll;
      NothingToPut(rows, statements);
      for i := 0 to |statements|
        invariant rows == PutAll(old(rows), Keyed(statements)[..i])
      {
        PutNext(old(rows), Keyed(statements), i);
        rows := rows[KeyOf(statements[i]) := statements[i]];
      }
      assert Keyed(statements)[..|statements|] == Keyed(statements);
      saved := |statements|;
    }

    /** The newest statement published strictly before `cutoff`, if there is one. */
    method AvailableBefore(symbol: string, cutoff: int) returns (found: Option<Statement>)
      ensures found.Some? ==>
                var f := found.value;
                && (exists k :: k in rows && rows[k] == f)
                && f.symbol == symbol && f.filedAt.Some? && f.filedAt.value < cutoff
                && forall k | k in rows && rows[k].symbol == symbol && rows[k].filedAt.Some?
                              && rows[k].filedAt.value < cutoff ::
                     rows[k].filedAt.value < f.filedAt.value
                     || (rows[k].filedAt.value == f.filedAt.value && rows[k].periodEnd <= f.periodEnd)
      ensures found.None? <==>
                forall k | k in rows && rows[k].symbol == symbol && rows[k].filedAt.Some? ::
                  rows[k].filedAt.value >= cutoff
    {
      found := None;
      var rest := rows.Keys;
      while rest != {}
        invariant rest <= rows.Keys
        invariant found.Some? ==>
                    (exists k :: k in rows && rows[k] == found.value) && Published(found.value, symbol, cutoff)
        invariant forall k | k in rows && k !in rest && Published(rows[k], symbol, cutoff) ::
                    found.Some? && NotNewer(rows[k], found.value)
        decreases rest
      {
        var k :| k in rest;
        rest := rest - {k};
        if Published(rows[k], symbol, cutoff) && (found.None? || NotNewer(found.value, rows[k])) {
          found := Some(rows[k]);
        }
      }
    }
  }

  lemma NothingToPut(m: map<Key, Statement>, statements: seq<Statement>)
    ensures PutAll(m, Keyed(statements)[..0]) == m
  {
  }

  lemma PutNext(m: map<Key, Statement>, rows: seq<(Key, Statement)>, i: nat)
    requires i < |rows|
    ensures PutAll(m, rows[..i + 1]) == PutAll(m, rows[..i])[rows[i].0 := rows[i].1]
  {
    assert rows[..i + 1] == rows[..i] + [rows[i]];
    PutAllConcat(m, rows[..i], [rows[i]]);
    PutOne(PutAll(m, rows[..i]), rows[i]);
  }

  /** The table after saving each batch in turn. */
  function TableAfter(batches: seq<seq<Statement>>): map<Key, Statement> {
    if batches == [] then map[] else
      PutAll(TableAfter(batches[..|batches| - 1]), Keyed(batches[|batches| - 1]))
  }

  ghost predicate WasSaved(batches: seq<seq<Statement>>, st: Statement) {
    exists b :: 0 <= b < |batches| && st in batches[b]
  }

  lemma {:induction false} LastForIsAmong(rows: seq<(Key, Statement)>, k: Key)
    ensures LastFor(rows, k).Some? ==> exists i :: 0 <= i < |rows| && rows[i] == (k, LastFor(rows, k).value)
  {
    if rows != [] && rows[|rows| - 1].0 != k {
      var front := rows[..|rows| - 1];
      LastForIsAmong(front, k);
      if LastFor(front, k).Some? {
        var i :| 0 <= i < |front| && front[i] == (k, LastFor(front, k).value);
        assert rows[i] == front[i];
      }
    }
  }

  /** A row holds, whole, a statement that was saved. */
  lemma {:induction false} RowsWereSaved(batches: seq<seq<Statement>>, k: Key)
    requires k in TableAfter(batches)
    ensures WasSaved(batches, TableAfter(batches)[k]) && KeyOf(TableAfter(batches)[k]) == k
  {
    hide PutAll, LastFor;
    var n := |batches| - 1;
    var before, rows := TableAfter(batches[..n]), Keyed(batches[n]);
    PutAllAt(before, rows, k);
    LastForIsAmong(rows, k);
    if LastFor(rows, k).Some? {
      var i :| 0 <= i < |rows| && rows[i] == (k, LastFor(rows, k).value);
      assert batches[n][i] in batches[n];
    } else {
      RowsWereSaved(batches[..n], k);
      var b :| 0 <= b < n && TableAfter(batches[..n])[k] in batches[..n][b];
      assert batches[..n][b] == batches[b];
    }
  }

  ghost predicate SameKey(a: Statement, b: Statement) {
    a.symbol == b.symbol && a.periodEnd == b.periodEnd && a.fiscalPeriod == b.fiscalPeriod
  }

  /** Nothing saved after the `i`-th statement of batch `b` is of the same symbol, period and fiscal label. */
  ghost predicate SavedLast(batches: seq<seq<Statement>>, b: nat, i: nat) {
    && b < |batches| && i < |batches[b]|
    && (forall j | i < j < |batches[b]| :: !SameKey(batches[b][j], batches[b][i]))
    && forall c, j | b < c < |batches| && 0 <= j < |batches[c]| :: !SameKey(batches[c][j], batches[b][i])
  }

  lemma {:induction false} LastForIs(rows: seq<(Key, Statement)>, i: nat)
    requires i < |rows| && forall j | i < j < |rows| :: rows[j].0 != rows[i].0
    ensures LastFor(rows, rows[i].0) == Some(rows[i].1)
  {
    if i < |rows| - 1 {
      LastForIs(rows[..|rows| - 1], i);
    }
  }

  lemma {:induction false} NotAmong(rows: seq<(Key, Statement)>, k: Key)
    requires forall j | 0 <= j < |rows| :: rows[j].0 != k
    ensures LastFor(rows, k) == None
  {
    if rows != [] {
      NotAmong(rows[..|rows| - 1], k);
    }
  }

  /** The last statement saved of its symbol, period and fiscal label is in the table, whatever was saved of others. */
  lemma {:induction false} LastSavedWins(batches: seq<seq<Statement>>, b: nat, i: nat)
    requires SavedLast(batches, b, i)
    ensures exists k :: k in TableAfter(batches) && TableAfter(batches)[k] == batches[b][i]
    ensures KeyOf(batches[b][i]) in TableAfter(batches) && TableAfter(batches)[KeyOf(batches[b][i])] == batches[b][i]
  {
    hide PutAll, LastFor;
    var n := |batches| - 1;
    var before, rows, st := TableAfter(batches[..n]), Keyed(batches[n]), batches[b][i];
    PutAllAt(before, rows, KeyOf(st));
    if b == n {
      LastForIs(rows, i);
    } else {
      forall j | 0 <= j < |rows| ensures rows[j].0 != KeyOf(st) {
        assert !SameKey(batches[n][j], st);
      }
      NotAmong(rows, KeyOf(st));
      LastSavedWins(batches[..n], b, i);
      assert Get(before, KeyOf(st)) == Some(st);
    }
    assert Get(TableAfter(batches), KeyOf(st)) == Some(st);
  }

  // ----- no look-ahead

  /** The value of `field` is the one first filed, by the first candidate concept that reports the period, strictly
      before `cutoff`. */
  ghost predicate KnownBefore(st: Statement, field: string, facts: Facts, tagMap: map<string, seq<Tag>>, cutoff: int) {
    && field in tagMap && field in st.values
    && exists c, i ::
         && Filing(facts, tagMap[field], st.periodEnd, c, i)
         && facts[tagMap[field][c]][i].val == Some(st.values[field])
         && facts[tagMap[field][c]][i].filed.Some?
         && facts[tagMap[field][c]][i].filed.value * 86_400_000_000 < cutoff
  }

  lemma MidnightMonotone(a: int, b: int)
    ensures a <= b <==> Midnight(a) <= Midnight(b)
  {
  }

  lemma FieldWasKnown(st: Statement, field: string, facts: Facts, tagMap: map<string, seq<Tag>>, cutoff: int)
    requires StatementOf(st, facts, tagMap) && st.filedAt.Some? && st.filedAt.value < cutoff && field in st.values
    ensures KnownBefore(st, field, facts, tagMap, cutoff)
  {
    hide AnnualAbout, EarliestAbout, Filing;
    assert HasField(st, field, facts, tagMap) && ValueFiled(st, field, facts, tagMap);
    var c, i :| Filing(facts, tagMap[field], st.periodEnd, c, i)
                && facts[tagMap[field][c]][i].val == Some(st.values[field]);
    var day :| st.filedAt == Some(day * 86_400_000_000) && LastFiledOn(facts, tagMap, st.periodEnd, day);
    assert FiledBy(facts, tagMap[field], c, i, day);
  }

  /** After any saves of statements each assembled from some facts, a statement an as-of read can return is one of
      them, whole, and every value in it was filed, and first filed, strictly before the cutoff. */
  lemma NoLookAhead(batches: seq<seq<Statement>>, sources: map<Statement, Facts>, tagMap: map<string, seq<Tag>>,
                    symbol: string, cutoff: int, k: Key)
    requires forall st | WasSaved(batches, st) :: st in sources && StatementOf(st, sources[st], tagMap)
    requires k in TableAfter(batches)
    requires var st := TableAfter(batches)[k]; st.symbol == symbol && st.filedAt.Some? && st.filedAt.value < cutoff
    ensures var st := TableAfter(batches)[k];
            st in sources && StatementOf(st, sources[st], tagMap)
            && forall field | field in st.values :: KnownBefore(st, field, sources[st], tagMap, cutoff)
  {
    hide StatementOf, KnownBefore, TableAfter;
    RowsWereSaved(batches, k);
    var st := TableAfter(batches)[k];
    forall field | field in st.values ensures KnownBefore(st, field, sources[st], tagMap, cutoff) {
      FieldWasKnown(st, field, sources[st], tagMap, cutoff);
    }
  }

  /** Read for a session, at its midnight, only filings of earlier days are seen; at any later instant of a day, that
      day's filings are seen too, whatever the hour they were made. */
  lemma VisibleFromMidnightOn(st: Statement, symbol: string, day: int, session: int, instant: int)
    requires st.symbol == symbol && st.filedAt == Some(Midnight(day))
    requires Midnight(session) < instant < Midnight(session + 1)
    ensures Published(st, symbol, Midnight(session)) <==> day < session
    ensures Published(st, symbol, instant) <==> day <= session
  {
    assert Midnight(session + 1) == Midnight(session) + MICROSECONDS_PER_DAY;
    if day > session {
      MidnightMonotone(session + 1, day);
    } else {
      MidnightMonotone(day, session);
    }
  }
}

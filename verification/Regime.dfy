/** The regime rules (`classify_regime`) and the spreads derived at read time (`derive_spreads`). */
module Regime {
  import opened Common

  datatype MacroRegime = EXPANSION | RECOVERY | SLOWDOWN | CONTRACTION | CRISIS

  datatype Thresholds = Thresholds(crisisSpread: real, stressSpread: real, pmiContraction: real,
                                   pmiSlowdown: real, pmiExpansion: real, deepInversion: real)

  predicate Below(x: Option<real>, bound: real) {
    x.Some? && x.value < bound
  }

  predicate AtLeast(x: Option<real>, bound: real) {
    x.Some? && x.value >= bound
  }

  /** Severity order; a rule fires only when its inputs are present. */
  function ClassifyRegime(curve: Option<real>, spread: Option<real>, pmi: Option<real>,
                          t: Thresholds): Option<MacroRegime> {
    if AtLeast(spread, t.crisisSpread) then Some(CRISIS)
    else if curve.Some? && curve.value <= t.deepInversion && Below(pmi, t.pmiContraction) then Some(CRISIS)
    else if Below(pmi, t.pmiContraction) then Some(CONTRACTION)
    else if Below(curve, 0.0) then Some(CONTRACTION)
    else if Below(pmi, t.pmiSlowdown) then Some(SLOWDOWN)
    else if AtLeast(spread, t.stressSpread) then Some(SLOWDOWN)
    else if pmi.Some? then Some(if pmi.value >= t.pmiExpansion then EXPANSION else RECOVERY)
    else if curve.Some? then Some(if curve.value > 0.0 then EXPANSION else CONTRACTION)
    else None
  }

  /** When each regime is answered, and when none is. */
  lemma RegimeMeaning(curve: Option<real>, spread: Option<real>, pmi: Option<real>, t: Thresholds)
    ensures var r := ClassifyRegime(curve, spread, pmi, t);
            var crisis := (spread.Some? && spread.value >= t.crisisSpread)
                          || (curve.Some? && curve.value <= t.deepInversion && pmi.Some?
                              && pmi.value < t.pmiContraction);
            var shrinking := (pmi.Some? && pmi.value < t.pmiContraction) || (curve.Some? && curve.value < 0.0);
            var slowing := (pmi.Some? && pmi.value < t.pmiSlowdown) || (spread.Some? && spread.value >= t.stressSpread);
            var calm := !crisis && !shrinking && !slowing;
            && (r == Some(CRISIS) <==> crisis)
            && (r == Some(CONTRACTION) <==>
                  !crisis && (shrinking || (!slowing && pmi.None? && curve.Some? && curve.value == 0.0)))
            && (r == Some(SLOWDOWN) <==> !crisis && !shrinking && slowing)
            && (r == Some(RECOVERY) <==> calm && pmi.Some? && pmi.value < t.pmiExpansion)
            && (r == Some(EXPANSION) <==>
                  calm && (if pmi.Some? then pmi.value >= t.pmiExpansion else curve.Some? && curve.value > 0.0))
            && (r == None <==> pmi.None? && curve.None? && !crisis && !slowing)
  {
  }

  datatype Spread = Spread(indicator: string, minuend: string, subtrahend: string)

  const DERIVED_SPREADS: seq<Spread> := [Spread("T10Y2Y", "DGS10", "DGS2"), Spread("BAA10Y", "BAA", "DGS10")]

  /** One derived indicator: a stored one is kept, a missing leg derives nothing. */
  function AddSpread(out: map<string, real>, values: map<string, real>, s: Spread): map<string, real> {
    if s.indicator !in out && s.minuend in values && s.subtrahend in values
    then out[s.indicator := values[s.minuend] - values[s.subtrahend]] else out
  }

  function AddSpreads(out: map<string, real>, values: map<string, real>, spreads: seq<Spread>): map<string, real> {
    if spreads == [] then out
    else AddSpread(AddSpreads(out, values, spreads[..|spreads| - 1]), values, spreads[|spreads| - 1])
  }

  method DeriveSpreads(values: map<string, real>) returns (out: map<string, real>)
    ensures out == AddSpreads(values, values, DERIVED_SPREADS)
  {
    out := values;
    for i := 0 to |DERIVED_SPREADS|
      invariant out == AddSpreads(values, values, DERIVED_SPREADS[..i])
    {
      assert DERIVED_SPREADS[..i + 1][..i] == DERIVED_SPREADS[..i];
      var s := DERIVED_SPREADS[i];
      if s.indicator !in out && s.minuend in values && s.subtrahend in values {
        out := out[s.indicator := values[s.minuend] - values[s.subtrahend]];
      }
    }
    assert DERIVED_SPREADS[..|DERIVED_SPREADS|] == DERIVED_SPREADS;
  }

  function Reading(values: map<string, real>, series: string): Option<real> {
    if series in values then Some(values[series]) else None
  }

  /** What a map of readings is classified as, on either path. */
  function RegimeOf(values: map<string, real>, t: Thresholds): Option<MacroRegime> {
    var all := AddSpreads(values, values, DERIVED_SPREADS);
    ClassifyRegime(Reading(all, "T10Y2Y"), Reading(all, "BAA10Y"), Reading(all, "PMI"), t)
  }

  /** What a spread reads as once derived: the stored value, else the difference of its legs, else nothing. */
  function SpreadReading(values: map<string, real>, indicator: string, minuend: string,
                         subtrahend: string): Option<real> {
    if indicator in values then Some(values[indicator])
    else if minuend in values && subtrahend in values then Some(values[minuend] - values[subtrahend])
    else None
  }

  /** Both spreads are derived from the values given, and nothing else changes. */
  lemma SpreadMeaning(values: map<string, real>, series: string)
    ensures Reading(AddSpreads(values, values, DERIVED_SPREADS), series)
         == if series == "T10Y2Y" then SpreadReading(values, "T10Y2Y", "DGS10", "DGS2")
            else if series == "BAA10Y" then SpreadReading(values, "BAA10Y", "BAA", "DGS10")
            else Reading(values, series)
  {
    var first, second := Spread("T10Y2Y", "DGS10", "DGS2"), Spread("BAA10Y", "BAA", "DGS10");
    assert DERIVED_SPREADS[..1] == [first] && [first][..0] == [] && [first][0] == first;
    assert AddSpreads(values, values, [first]) == AddSpread(values, values, first);
    assert DERIVED_SPREADS[1] == second;
    NamesDiffer();
  }

  /** Which readings the classification is made of: the curve and the credit spread, stored or else derived from their
      legs, and the PMI as stored. */
  lemma RegimeOfReadings(values: map<string, real>, t: Thresholds, curve: Option<real>, spread: Option<real>,
                         pmi: Option<real>)
    requires curve == if "T10Y2Y" in values then Some(values["T10Y2Y"])
                      else if "DGS10" in values && "DGS2" in values then Some(values["DGS10"] - values["DGS2"])
                      else None
    requires spread == if "BAA10Y" in values then Some(values["BAA10Y"])
                       else if "BAA" in values && "DGS10" in values then Some(values["BAA"] - values["DGS10"]) else None
    requires pmi == if "PMI" in values then Some(values["PMI"]) else None
    ensures RegimeOf(values, t) == ClassifyRegime(curve, spread, pmi, t)
  {
    hide ClassifyRegime, AddSpreads;
    SpreadMeaning(values, "T10Y2Y");
    SpreadMeaning(values, "BAA10Y");
    SpreadMeaning(values, "PMI");
    NamesDiffer();
    assert "PMI"[0] != "T10Y2Y"[0] && "PMI"[0] != "BAA10Y"[0];
  }

  lemma NamesDiffer()
    ensures "T10Y2Y" != "BAA10Y"
  {
    assert "T10Y2Y"[0] != "BAA10Y"[0];
  }

  function Severity(r: MacroRegime): int {
    match r
    case EXPANSION => 0
    case RECOVERY => 1
    case SLOWDOWN => 2
    case CONTRACTION => 3
    case CRISIS => 4
  }

  /** With the same inputs present, a lower curve, a wider spread or a lower PMI classifies as milder in exactly one
      case: no PMI, a curve of exactly zero on both sides, and a spread that crosses the stress level short of
      crisis. */
  lemma WorseIsMilderIff(curve: Option<real>, spread: Option<real>, pmi: Option<real>,
                         curve': Option<real>, spread': Option<real>, pmi': Option<real>, t: Thresholds)
    requires curve.Some? == curve'.Some? && (curve.Some? ==> curve'.value <= curve.value)
    requires spread.Some? == spread'.Some? && (spread.Some? ==> spread'.value >= spread.value)
    requires pmi.Some? == pmi'.Some? && (pmi.Some? ==> pmi'.value <= pmi.value)
    requires ClassifyRegime(curve, spread, pmi, t).Some?
    ensures ClassifyRegime(curve', spread', pmi', t).Some?
    ensures Severity(ClassifyRegime(curve', spread', pmi', t).value) < Severity(ClassifyRegime(curve, spread, pmi,
                                                                                               t).value)
       <==> pmi.None? && curve == curve' == Some(0.0)
            && !AtLeast(spread, t.stressSpread) && AtLeast(spread', t.stressSpread) && !AtLeast(spread', t.crisisSpread)
  {
    var before, after := ClassifyRegime(curve, spread, pmi, t).value, ClassifyRegime(curve', spread', pmi', t).value;
    if pmi.None? && curve == curve' == Some(0.0) {
      assert before == CRISIS <==> AtLeast(spread, t.crisisSpread);
    } else {
      assert Severity(before) <= Severity(after);
    }
  }
}

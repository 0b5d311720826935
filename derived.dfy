/** The derived-quantity engine: per-sample powers and guarded converter
    efficiencies, the phase flags, and the trace-level cleaning, counts and
    time windows built on them. A trace's derived table is one record per
    sample, in sample order. */
module Derived {
  import opened Wrappers
  import opened Seqs
  import opened Stats
  import opened Trace

  const NightThreshold: real := 0.001
  /** Efficiencies above this are solver artifacts and are dropped, never clamped. */
  const ArtifactBound: real := 100.0

  function ILoadTrue(s: Sample): real { s.iTot + s.realIPv }
  function PLoad(s: Sample): real { ILoadTrue(s) * BusVoltage }
  function PPvOut(s: Sample): real { s.realIPv * BusVoltage }
  function PBatt(s: Sample): real { s.iBatt * s.vBatt }
  function PPvIn(s: Sample): real { s.iPv * s.vPv }

  /** Load power is the PV power plus the power drawn over the bus. */
  lemma LoadPowerSplits(s: Sample)
    ensures PLoad(s) == PPvOut(s) + BusVoltage * s.iTot
  {
  }

  /** PV converter efficiency in percent, defined only while the panel delivers power. */
  function PvEfficiency(s: Sample): (r: Option<real>)
    ensures r.Some? <==> PPvIn(s) > 0.0
    ensures r.Some? ==> r.value * PPvIn(s) == PPvOut(s) * 100.0
    ensures r.Some? ==> (r.value <= ArtifactBound <==> PPvOut(s) <= PPvIn(s))
  {
    if PPvIn(s) > 0.0 then
      var e := PPvOut(s) / PPvIn(s) * 100.0;
      RatioAtMostHundred(PPvOut(s), PPvIn(s));
      Some(e)
    else None
  }

  /** `out / inp * 100 <= 100` exactly when `out <= inp`, for a positive `inp`. */
  lemma RatioAtMostHundred(out: real, inp: real)
    requires inp > 0.0
    ensures (out / inp * 100.0) * inp == out * 100.0
    ensures out / inp * 100.0 <= 100.0 <==> out <= inp
  {
    var q := out / inp;
    assert q * inp == out;
    assert (q * 100.0 - 100.0) * inp == (out - inp) * 100.0;
  }

  /** The battery is supplying the bus: bus draws current and the battery delivers it. */
  predicate Discharging(s: Sample) { s.iTot > 0.0 && s.iBatt > 0.0 }

  /** The discharge-efficiency divisor is non-zero whenever the efficiency is defined. */
  predicate Measurable(s: Sample) { Discharging(s) ==> s.vBatt != 0.0 }

  predicate AllMeasurable(t: seq<Sample>) { forall k :: 0 <= k < |t| ==> Measurable(t[k]) }

  /** Battery discharge converter efficiency in percent; absent while charging or idle. */
  function BattDischargeEff(s: Sample): (r: Option<real>)
    requires Measurable(s)
    ensures r.Some? <==> s.iTot > 0.0 && s.iBatt > 0.0
    ensures r.Some? ==> r.value * PBatt(s) == BusVoltage * s.iTot * 100.0
    ensures r.Some? && s.vBatt > 0.0 ==> r.value > 0.0
    ensures r.Some? && s.vBatt > 0.0 ==> (r.value <= ArtifactBound <==> BusVoltage * s.iTot <= PBatt(s))
  {
    if Discharging(s) then
      var e := (s.iTot * BusVoltage) / (s.iBatt * s.vBatt) * 100.0;
      if s.vBatt > 0.0 then
        assert PBatt(s) > 0.0;
        RatioAtMostHundred(s.iTot * BusVoltage, PBatt(s));
        Some(e)
      else
        assert e * PBatt(s) == BusVoltage * s.iTot * 100.0 by {
          var q := (s.iTot * BusVoltage) / PBatt(s);
          assert q * PBatt(s) == s.iTot * BusVoltage;
        }
        Some(e)
    else None
  }

  /** Night: the realised PV current is below the threshold (strictly). */
  predicate IsNight(s: Sample) { s.realIPv < NightThreshold }

  lemma NightBoundaryIsDay(s: Sample)
    requires s.realIPv == NightThreshold
    ensures !IsNight(s)
  {
  }

  /** `mask(raw > 100)`: a value above the bound becomes absent; every other entry is kept. */
  function Mask(raw: Option<real>): (r: Option<real>)
    ensures raw.None? ==> r.None?
    ensures raw.Some? && raw.value > ArtifactBound ==> r.None?
    ensures raw.Some? && raw.value <= ArtifactBound ==> r == raw
  {
    if raw.Some? && raw.value > ArtifactBound then None else raw
  }

  /** One derived row: the sample itself and the columns the loaders add to it. */
  datatype Record = Record(
    sample: Sample,
    day: real,
    iLoadTrue: real,
    pLoad: real,
    pPvOut: real,
    pBatt: real,
    pPvIn: real,
    pvEfficiency: Option<real>,
    battDischargeEff: Option<real>,   // batt_discharge_eff, also called batt_eff_raw
    isNight: bool,
    battEffClean: Option<real>)

  function Derive(s: Sample): (r: Record)
    requires Measurable(s)
    ensures r.sample == s
  {
    Record(s, Day(s.time), ILoadTrue(s), PLoad(s), PPvOut(s), PBatt(s), PPvIn(s),
           PvEfficiency(s), BattDischargeEff(s), IsNight(s), Mask(BattDischargeEff(s)))
  }

  /** Each derived column of a record follows its per-sample formula over the
      raw signals. */
  lemma DerivedFormulas(s: Sample)
    requires Measurable(s)
    ensures Derive(s).day * SecondsPerDay == s.time
    ensures Derive(s).iLoadTrue == s.iTot + s.realIPv
    ensures Derive(s).pLoad == 3.3 * (s.iTot + s.realIPv)
    ensures Derive(s).pPvOut == 3.3 * s.realIPv
    ensures Derive(s).pBatt == s.iBatt * s.vBatt
    ensures Derive(s).pPvIn == s.iPv * s.vPv
    ensures Derive(s).isNight <==> s.realIPv < 0.001
    ensures Derive(s).battEffClean == Mask(Derive(s).battDischargeEff)
  {
  }

  /** The loader's derived table: exactly one record per sample, in sample order. */
  function DeriveTrace(t: seq<Sample>): (r: seq<Record>)
    requires AllMeasurable(t)
    ensures |r| == |t|
    ensures forall k :: 0 <= k < |t| ==> r[k].sample == t[k] && r[k] == Derive(t[k])
  {
    seq(|t|, k requires 0 <= k < |t| => Derive(t[k]))
  }

  /** Deriving is row-wise: deriving a concatenation concatenates the derived tables. */
  lemma DeriveTraceConcat(a: seq<Sample>, b: seq<Sample>)
    requires AllMeasurable(a) && AllMeasurable(b)
    ensures AllMeasurable(a + b)
    ensures DeriveTrace(a + b) == DeriveTrace(a) + DeriveTrace(b)
  {
    assert forall k :: 0 <= k < |a + b| ==> Measurable((a + b)[k]) by {
      forall k | 0 <= k < |a + b| ensures Measurable((a + b)[k]) {
        if k < |a| { assert (a + b)[k] == a[k]; } else { assert (a + b)[k] == b[k - |a|]; }
      }
    }
  }

  // Cleaning of an efficiency column (`dropna`, then keep values <= 100).

  predicate WithinBound(x: real) { x <= ArtifactBound }

  function Cleaned(xs: seq<Option<real>>): (r: seq<real>)
    ensures forall k :: 0 <= k < |r| ==> r[k] <= ArtifactBound
  {
    Filter(Present(xs), WithinBound)
  }

  /** The cleaned series holds each present value <= 100 as often as the column
      does (100 itself and negative values included) and no other value. */
  lemma CleanedMultiplicity(xs: seq<Option<real>>, v: real)
    ensures multiset(Cleaned(xs))[v] == if v <= ArtifactBound then multiset(xs)[Some(v)] else 0
  {
    FilterMultiplicity(Present(xs), WithinBound, v);
    PresentMultiplicity(xs, v);
  }

  /** Cleaning works row by row, so it keeps the column's order. */
  lemma CleanedConcat(a: seq<Option<real>>, b: seq<Option<real>>)
    ensures Cleaned(a + b) == Cleaned(a) + Cleaned(b)
  {
    PresentConcat(a, b);
    FilterConcat(Present(a), Present(b), WithinBound);
  }

  /** An artifact of 137.4 % is dropped from the series, so neither the count nor
      the mean sees it; exactly 100 % and negative values stay. */
  lemma CleanedScenarios(xs: seq<Option<real>>)
    ensures Cleaned(xs + [Some(137.4)]) == Cleaned(xs)
    ensures Cleaned(xs + [Some(100.0)]) == Cleaned(xs) + [100.0]
    ensures Cleaned(xs + [Some(-2.0)]) == Cleaned(xs) + [-2.0]
    ensures Cleaned(xs + [None]) == Cleaned(xs)
  {
    CleanedConcat(xs, [Some(137.4)]);
    CleanedConcat(xs, [Some(100.0)]);
    CleanedConcat(xs, [Some(-2.0)]);
    CleanedConcat(xs, [None]);
  }

  function PvEfficiencyColumn(t: seq<Sample>): (r: seq<Option<real>>)
    ensures |r| == |t| && forall k :: 0 <= k < |t| ==> r[k] == PvEfficiency(t[k])
  {
    seq(|t|, k requires 0 <= k < |t| => PvEfficiency(t[k]))
  }

  function BattDischargeEffColumn(t: seq<Sample>): (r: seq<Option<real>>)
    requires AllMeasurable(t)
    ensures |r| == |t| && forall k :: 0 <= k < |t| ==> r[k] == BattDischargeEff(t[k])
  {
    seq(|t|, k requires 0 <= k < |t| => BattDischargeEff(t[k]))
  }

  /** `pv_eff_cleaned`: the PV efficiencies of the samples whose panel delivered
      power and whose converter did not output more power than it took in. */
  function PvEffCleaned(t: seq<Sample>): (e: seq<real>)
    ensures forall k :: 0 <= k < |e| ==> e[k] <= ArtifactBound
  {
    Cleaned(PvEfficiencyColumn(t))
  }

  /** `batt_eff_cleaned`: the discharge efficiencies kept after cleaning. */
  function BattEffCleaned(t: seq<Sample>): (e: seq<real>)
    requires AllMeasurable(t)
    ensures forall k :: 0 <= k < |e| ==> e[k] <= ArtifactBound
  {
    Cleaned(BattDischargeEffColumn(t))
  }

  /** A sample's discharge efficiency enters the cleaned series exactly when it is
      defined and does not exceed 100. */
  lemma BattEffCleanedStep(t: seq<Sample>, s: Sample)
    requires AllMeasurable(t) && Measurable(s)
    ensures AllMeasurable(t + [s])
    ensures BattEffCleaned(t + [s]) ==
      BattEffCleaned(t) + (if Discharging(s) && BattDischargeEff(s).value <= ArtifactBound
                           then [BattDischargeEff(s).value] else [])
  {
    assert AllMeasurable(t + [s]) by {
      forall k | 0 <= k < |t + [s]| ensures Measurable((t + [s])[k]) {
        if k < |t| { assert (t + [s])[k] == t[k]; }
      }
    }
    assert BattDischargeEffColumn(t + [s]) == BattDischargeEffColumn(t) + [BattDischargeEff(s)];
    CleanedConcat(BattDischargeEffColumn(t), [BattDischargeEff(s)]);
  }

  // Battery usage: how often the battery supplies power.

  predicate DrawsFromBattery(s: Sample) { s.iTot > 0.0 }
  predicate SelfSufficient(s: Sample) { !(s.iTot > 0.0) }

  function DischargingTime(t: seq<Sample>): (n: nat)
    ensures n <= |t|
  {
    |Filter(t, DrawsFromBattery)|
  }

  /** `charging_idle_time = total_time - discharging_time`. */
  function ChargingIdleTime(t: seq<Sample>): (n: nat)
    ensures n == |Filter(t, SelfSufficient)|
    ensures n + DischargingTime(t) == |t|
  {
    FilterComplement(t, DrawsFromBattery, SelfSufficient);
    |t| - DischargingTime(t)
  }

  /** Percentage of samples in which the battery supplies the bus; undefined for
      an empty trace. */
  function DischargingRatio(t: seq<Sample>): (r: Option<real>)
    ensures r.Some? <==> |t| > 0
    ensures r.Some? ==> 0.0 <= r.value <= 100.0
    ensures r.Some? ==> r.value * |t| as real == DischargingTime(t) as real * 100.0
  {
    Percent(DischargingTime(t), |t|)
  }

  // Plot windows: the 7-day macro view and the hours 3-5 micro view, both inclusive.

  const MacroDays: real := 7.0
  const MicroStart: real := 10800.0
  const MicroEnd: real := 18000.0

  predicate InMacro(r: Record) { r.day <= MacroDays }
  predicate InMicro(r: Record) { r.sample.time >= MicroStart && r.sample.time <= MicroEnd }

  function MacroWindow(rs: seq<Record>): (w: seq<Record>)
    ensures forall k :: 0 <= k < |w| ==> w[k].day <= MacroDays
  {
    Filter(rs, InMacro)
  }

  function MicroWindow(rs: seq<Record>): (w: seq<Record>)
    ensures forall k :: 0 <= k < |w| ==> MicroStart <= w[k].sample.time <= MicroEnd
  {
    Filter(rs, InMicro)
  }

  /** Each window is the order-preserving selection of exactly the records in
      its range: every record of the range is kept as often as it occurs. */
  lemma WindowsExact(rs: seq<Record>)
    ensures IsSubsequence(MacroWindow(rs), rs) && IsSubsequence(MicroWindow(rs), rs)
    ensures forall r :: multiset(MacroWindow(rs))[r] == if r.day <= MacroDays then multiset(rs)[r] else 0
    ensures forall r :: multiset(MicroWindow(rs))[r] == (if InMicro(r) then multiset(rs)[r] else 0)
  {
    FilterExactly(rs, InMacro);
    FilterExactly(rs, InMicro);
  }

  /** The micro window contains both of its end points. */
  lemma MicroWindowInclusive(rs: seq<Record>, r: Record)
    requires r in rs && (r.sample.time == MicroStart || r.sample.time == MicroEnd)
    ensures r in MicroWindow(rs)
  {
    FilterMultiplicity(rs, InMicro, r);
  }
}

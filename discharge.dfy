/** Discharge-efficiency distribution: the rows with a clean discharge
    efficiency, split into night and day, and the low-efficiency share. */
module DischargeDistribution {
  import opened Wrappers
  import opened Seqs
  import opened Stats
  import opened Trace
  import opened Derived

  const LowEfficiency: real := 40.0

  predicate HasCleanEff(r: Record) { r.battEffClean.Some? }
  predicate NightRow(r: Record) { r.isNight }
  predicate DayRow(r: Record) { !r.isNight }
  predicate LowCleanEff(r: Record) { r.battEffClean.Some? && r.battEffClean.value < LowEfficiency }

  /** `dropna(subset=['batt_eff_clean'])` */
  function DischargeData(rs: seq<Record>): (d: seq<Record>)
    ensures forall k :: 0 <= k < |d| ==> d[k].battEffClean.Some?
  {
    Filter(rs, HasCleanEff)
  }

  /** A derived row is discharge data exactly when the battery supplies the bus
      and its raw efficiency does not exceed 100, and it is kept as many times
      as it occurs. */
  lemma {:induction false} DischargeDataExactly(t: seq<Sample>)
    requires AllMeasurable(t)
    ensures IsSubsequence(DischargeData(DeriveTrace(t)), DeriveTrace(t))
    ensures forall r :: r in DischargeData(DeriveTrace(t)) <==>
      r in DeriveTrace(t) && Discharging(r.sample) && r.battDischargeEff.value <= ArtifactBound
    ensures forall r :: multiset(DischargeData(DeriveTrace(t)))[r] ==
                        if r in DeriveTrace(t) && Discharging(r.sample) && r.battDischargeEff.value <= ArtifactBound
                        then multiset(DeriveTrace(t))[r] else 0
  {
    var rs := DeriveTrace(t);
    FilterExactly(rs, HasCleanEff);
    forall r ensures r in DischargeData(rs) <==>
      r in rs && Discharging(r.sample) && r.battDischargeEff.value <= ArtifactBound
    ensures multiset(DischargeData(rs))[r] ==
      if r in rs && Discharging(r.sample) && r.battDischargeEff.value <= ArtifactBound
      then multiset(rs)[r] else 0
    {
      FilterMultiplicity(rs, HasCleanEff, r);
      if r in rs {
        var k :| 0 <= k < |rs| && rs[k] == r;
        assert r == Derive(t[k]);
      }
    }
  }

  function CleanValues(rs: seq<Record>): (v: seq<real>)
    requires forall k :: 0 <= k < |rs| ==> rs[k].battEffClean.Some?
    ensures |v| == |rs| && forall k :: 0 <= k < |rs| ==> v[k] == rs[k].battEffClean.value
  {
    seq(|rs|, k requires 0 <= k < |rs| => rs[k].battEffClean.value)
  }

  /** `night_eff`: the clean efficiencies of the night-time discharge rows. */
  function NightEff(rs: seq<Record>): (e: seq<real>)
    ensures |e| <= |DischargeData(rs)|
  {
    CleanValues(Filter(DischargeData(rs), NightRow))
  }

  /** `day_eff`: the clean efficiencies of the day-time discharge rows. */
  function DayEff(rs: seq<Record>): (e: seq<real>)
    ensures |e| <= |DischargeData(rs)|
  {
    CleanValues(Filter(DischargeData(rs), DayRow))
  }

  /** Night and day split the discharge rows: their counts add up to the total. */
  lemma NightDayPartition(rs: seq<Record>)
    ensures |NightEff(rs)| + |DayEff(rs)| == |DischargeData(rs)|
  {
    FilterComplement(DischargeData(rs), NightRow, DayRow);
  }

  /** `low_eff_count`: discharge rows whose clean efficiency is below 40 (strictly). */
  function LowEffCount(rs: seq<Record>): (n: nat)
    ensures n <= |DischargeData(rs)|
  {
    |Filter(DischargeData(rs), LowCleanEff)|
  }

  /** Share of low-efficiency discharge time in percent; undefined without discharge rows. */
  function LowEffFraction(rs: seq<Record>): (r: Option<real>)
    ensures r.Some? <==> DischargeData(rs) != []
    ensures r.Some? ==> 0.0 <= r.value <= 100.0
  {
    Percent(LowEffCount(rs), |DischargeData(rs)|)
  }

  /** A discharge row at exactly 40 % is not counted as low. */
  lemma LowBoundaryNotCounted(rs: seq<Record>, r: Record)
    requires r.battEffClean == Some(LowEfficiency)
    ensures LowEffCount(rs + [r]) == LowEffCount(rs)
  {
    FilterConcat(rs, [r], HasCleanEff);
    assert Filter([r], HasCleanEff) == [r];
    assert DischargeData(rs + [r]) == DischargeData(rs) + [r];
    FilterConcat(DischargeData(rs), [r], LowCleanEff);
    assert Filter([r], LowCleanEff) == [];
  }
}

/** Charging-efficiency distribution: the charging rows, their bus and
    battery powers, the efficiency with a divisor floor, the [0, 100] range
    filter and the summary statistics of what survives. */
module ChargeDistribution {
  import opened Wrappers
  import opened Seqs
  import opened Stats
  import opened Trace
  import opened Derived

  /** Rows whose battery power does not exceed this are removed before the division. */
  const DivisorFloor: real := 0.000001
  const LowEfficiency: real := 40.0

  /** Surplus on the bus flows into the battery. */
  predicate Charging(s: Sample) { s.iTot < 0.0 }

  function PBusIn(s: Sample): (p: real)
    ensures p >= 0.0
  {
    Abs(s.iTot) * BusVoltage
  }

  function PBattOut(s: Sample): real { Abs(s.iBatt) * s.vBatt }

  predicate Divisible(s: Sample) { PBattOut(s) > DivisorFloor }

  /** Charging efficiency in percent; the divisor is above the floor, hence positive. */
  function EffCharge(s: Sample): (e: real)
    requires Divisible(s)
    ensures e >= 0.0
    ensures e * PBattOut(s) == PBusIn(s) * 100.0
  {
    var q := PBusIn(s) / PBattOut(s);
    assert q * PBattOut(s) == PBusIn(s);
    q * 100.0
  }

  datatype ChargeRow = ChargeRow(sample: Sample, pBusIn: real, pBattOut: real, effCharge: real)

  function WithEfficiency(t: seq<Sample>): (r: seq<ChargeRow>)
    requires forall k :: 0 <= k < |t| ==> Divisible(t[k])
    ensures |r| == |t|
    ensures forall k :: 0 <= k < |t| ==>
      r[k] == ChargeRow(t[k], PBusIn(t[k]), PBattOut(t[k]), EffCharge(t[k]))
  {
    seq(|t|, k requires 0 <= k < |t| => ChargeRow(t[k], PBusIn(t[k]), PBattOut(t[k]), EffCharge(t[k])))
  }

  predicate InRange(r: ChargeRow) { 0.0 <= r.effCharge && r.effCharge <= 100.0 }

  /** `df_charge` after the three selections: charging, above the floor, within [0, 100]. */
  function ChargeRows(t: seq<Sample>): (rows: seq<ChargeRow>)
    ensures forall k :: 0 <= k < |rows| ==>
      && Charging(rows[k].sample) && Divisible(rows[k].sample)
      && rows[k].pBusIn == PBusIn(rows[k].sample) && rows[k].pBattOut == PBattOut(rows[k].sample)
      && rows[k].effCharge == EffCharge(rows[k].sample)
      && 0.0 <= rows[k].effCharge <= 100.0
  {
    var phase := Filter(t, Charging);
    var divisible := Filter(phase, Divisible);
    Filter(WithEfficiency(divisible), InRange)
  }

  /** What a sample must satisfy to survive all three selections. */
  predicate Kept(s: Sample)
  {
    Charging(s) && Divisible(s) && EffCharge(s) <= 100.0
  }

  function RowSamples(rows: seq<ChargeRow>): (r: seq<Sample>)
    ensures |r| == |rows| && forall k :: 0 <= k < |rows| ==> r[k] == rows[k].sample
  {
    seq(|rows|, k requires 0 <= k < |rows| => rows[k].sample)
  }

  lemma ChargeRowsSingle(s: Sample)
    ensures RowSamples(ChargeRows([s])) == if Kept(s) then [s] else []
  {
    var phase := Filter([s], Charging);
    assert Filter([s][1..], Charging) == [];
    if Charging(s) {
      assert phase == [s];
      var divisible := Filter(phase, Divisible);
      assert Filter(phase[1..], Divisible) == [];
      if Divisible(s) {
        assert divisible == [s];
        var w := WithEfficiency(divisible);
        assert w == [ChargeRow(s, PBusIn(s), PBattOut(s), EffCharge(s))];
        assert Filter(w[1..], InRange) == [];
      } else {
        assert divisible == [];
      }
    } else {
      assert phase == [];
    }
  }

  lemma ChargeRowsConcat(a: seq<Sample>, b: seq<Sample>)
    ensures ChargeRows(a + b) == ChargeRows(a) + ChargeRows(b)
  {
    FilterConcat(a, b, Charging);
    var pa, pb := Filter(a, Charging), Filter(b, Charging);
    FilterConcat(pa, pb, Divisible);
    var da, db := Filter(pa, Divisible), Filter(pb, Divisible);
    assert WithEfficiency(da + db) == WithEfficiency(da) + WithEfficiency(db);
    FilterConcat(WithEfficiency(da), WithEfficiency(db), InRange);
  }

  /** The surviving rows are exactly the samples that are charging, have a
      battery power above the floor and an efficiency of at most 100, in trace
      order; so they form an order-preserving subsequence of the trace. */
  lemma {:induction false} ChargeRowsExactly(t: seq<Sample>)
    ensures RowSamples(ChargeRows(t)) == Filter(t, Kept)
  {
    if t != [] {
      ChargeRowsExactly(t[1..]);
      assert t == [t[0]] + t[1..];
      ChargeRowsConcat([t[0]], t[1..]);
      ChargeRowsSingle(t[0]);
      RowSamplesConcat(ChargeRows([t[0]]), ChargeRows(t[1..]));
    }
  }

  lemma RowSamplesConcat(a: seq<ChargeRow>, b: seq<ChargeRow>)
    ensures RowSamples(a + b) == RowSamples(a) + RowSamples(b)
  {
  }

  lemma ChargeRowsSubsequence(t: seq<Sample>)
    ensures IsSubsequence(RowSamples(ChargeRows(t)), t)
    ensures forall s :: multiset(RowSamples(ChargeRows(t)))[s] == if Kept(s) then multiset(t)[s] else 0
  {
    ChargeRowsExactly(t);
    FilterExactly(t, Kept);
  }

  /** The `>= 0` half of the range filter never removes a row: above the floor
      the efficiency is non-negative. */
  lemma LowerBoundRemovesNothing(s: Sample)
    requires Charging(s) && Divisible(s)
    ensures EffCharge(s) >= 0.0
  {
  }

  /** A charging sample never has a discharge efficiency: the two are mutually exclusive. */
  lemma ChargeExcludesDischarge(s: Sample)
    requires Measurable(s) && Charging(s)
    ensures BattDischargeEff(s).None?
  {
  }

  function Efficiencies(rows: seq<ChargeRow>): (e: seq<real>)
    ensures |e| == |rows| && forall k :: 0 <= k < |rows| ==> e[k] == rows[k].effCharge
  {
    seq(|rows|, k requires 0 <= k < |rows| => rows[k].effCharge)
  }

  /** Mean, max and min of the charging efficiency, present only for a non-empty set. */
  function ChargeSummary(rows: seq<ChargeRow>): (r: Option<Summary>)
    ensures r.Some? <==> rows != []
    ensures r.Some? ==> r.value.count == |rows|
    ensures r.Some? ==> forall k :: 0 <= k < |rows| ==> r.value.min <= rows[k].effCharge <= r.value.max
  {
    Summarize(Efficiencies(rows))
  }

  predicate LowRow(r: ChargeRow) { r.effCharge < LowEfficiency }

  function LowChargeCount(rows: seq<ChargeRow>): (n: nat)
    ensures n <= |rows|
  {
    |Filter(rows, LowRow)|
  }

  /** Share of low-efficiency charging time in percent; reported only for a non-empty set. */
  function LowChargeRatio(rows: seq<ChargeRow>): (r: Option<real>)
    ensures r.Some? <==> rows != []
    ensures r.Some? ==> 0.0 <= r.value <= 100.0
  {
    Percent(LowChargeCount(rows), |rows|)
  }
}

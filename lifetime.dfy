/** Lifetime estimate from one long trace: drop the warm-up, classify the
    final state of charge and, for a depleted battery, find the first
    sample at or below the death threshold. */
module Lifetime {
  import opened Wrappers
  import opened Seqs
  import opened Trace

  /** Samples strictly before this time (seconds) are start-up transients. */
  const WarmUpSeconds: real := 10.0
  /** A final state of charge at or below this classifies the battery as depleted. */
  const DepletedSoc: real := 0.015
  /** The first sample at or below this state of charge marks the end of life. */
  const CrossingSoc: real := 0.0101

  datatype Status = Alive | Dead

  datatype Report = Report(status: Status, lifetimeDays: real)

  predicate AfterWarmUp(s: Sample) { !(s.time < WarmUpSeconds) }

  /** The trace with the warm-up rows dropped, the rest in order. */
  function WarmedUp(t: seq<Sample>): (df: seq<Sample>)
    ensures forall k :: 0 <= k < |df| ==> df[k].time >= WarmUpSeconds && df[k] in t
  {
    Filter(t, AfterWarmUp)
  }

  lemma {:induction false} WarmedUpEmptyIff(t: seq<Sample>)
    ensures WarmedUp(t) == [] <==> forall k :: 0 <= k < |t| ==> t[k].time < WarmUpSeconds
  {
    if t != [] {
      WarmedUpEmptyIff(t[1..]);
      assert forall k :: 1 <= k < |t| ==> t[k] == t[1..][k - 1];
    }
  }

  lemma WarmedUpExactly(t: seq<Sample>)
    ensures IsSubsequence(WarmedUp(t), t)
    ensures forall s :: multiset(WarmedUp(t))[s] == if s.time >= WarmUpSeconds then multiset(t)[s] else 0
  {
    FilterExactly(t, AfterWarmUp);
  }

  /** Position of the first sample whose state of charge is at or below `threshold`. */
  function FirstAtOrBelow(t: seq<Sample>, threshold: real): (r: Option<nat>)
    ensures r.None? <==> forall k :: 0 <= k < |t| ==> t[k].soc > threshold
    ensures r.Some? ==> r.value < |t| && t[r.value].soc <= threshold
    ensures r.Some? ==> forall k :: 0 <= k < r.value ==> t[k].soc > threshold
  {
    if t == [] then None
    else if t[0].soc <= threshold then Some(0)
    else match FirstAtOrBelow(t[1..], threshold)
      case None => None
      case Some(k) => Some(k + 1)
  }

  /** The decision made on the warmed-up trace, for given thresholds. */
  function EstimateWith(df: seq<Sample>, depleted: real, crossing: real): (r: Option<Report>)
    ensures r.None? <==> df == []
    ensures r.Some? ==> (r.value.status == Dead <==> df[|df| - 1].soc <= depleted)
    ensures r.Some? && r.value.status == Alive ==> r.value.lifetimeDays == Day(df[|df| - 1].time)
  {
    if df == [] then None
    else
      var last := df[|df| - 1];
      if last.soc <= depleted then
        match FirstAtOrBelow(df, crossing)
        case Some(k) => Some(Report(Dead, Day(df[k].time)))
        case None => Some(Report(Dead, Day(last.time)))
      else Some(Report(Alive, Day(last.time)))
  }

  /** The script's lifetime report for a raw trace; none when the warm-up drop empties it. */
  function Estimate(t: seq<Sample>): (r: Option<Report>)
    ensures r.None? <==> forall k :: 0 <= k < |t| ==> t[k].time < WarmUpSeconds
  {
    WarmedUpEmptyIff(t);
    EstimateWith(WarmedUp(t), DepletedSoc, CrossingSoc)
  }

  /** The analysis as the script performs it: an in-place drop of the warm-up
      rows, then an overwrite of the lifetime when the battery is depleted. */
  method AnalyzeLifetime(t: seq<Sample>) returns (r: Option<Report>)
    ensures r == Estimate(t)
  {
    var df: seq<Sample> := [];
    var i := 0;
    while i < |t|
      invariant 0 <= i <= |t|
      invariant df == WarmedUp(t[..i])
    {
      FilterPrefixStep(t, i, AfterWarmUp);
      if !(t[i].time < WarmUpSeconds) {
        df := df + [t[i]];
      }
      i := i + 1;
    }
    assert t[..|t|] == t;
    if df == [] {
      return None;
    }
    var last := df[|df| - 1];
    var lifetimeDays := Day(last.time);
    var status: Status;
    if last.soc <= DepletedSoc {
      status := Dead;
      var j := 0;
      while j < |df| && df[j].soc > CrossingSoc
        invariant 0 <= j <= |df|
        invariant forall m :: 0 <= m < j ==> df[m].soc > CrossingSoc
      {
        j := j + 1;
      }
      if j < |df| {
        lifetimeDays := Day(df[j].time);
      }
    } else {
      status := Alive;
    }
    r := Some(Report(status, lifetimeDays));
  }

  /** A depleted battery with a crossing sample dies at the first crossing. */
  lemma DeadAtFirstCrossing(t: seq<Sample>, k: nat)
    requires WarmedUp(t) != [] && WarmedUp(t)[|WarmedUp(t)| - 1].soc <= DepletedSoc
    requires k < |WarmedUp(t)| && WarmedUp(t)[k].soc <= CrossingSoc
    requires forall j :: 0 <= j < k ==> WarmedUp(t)[j].soc > CrossingSoc
    ensures Estimate(t) == Some(Report(Dead, Day(WarmedUp(t)[k].time)))
  {
    var f := FirstAtOrBelow(WarmedUp(t), CrossingSoc);
    assert f.Some? && f.value == k;
  }

  /** Depleted but never at or below the crossing threshold: the final row's time is kept. */
  lemma DeadFallsBackToFinalRow(t: seq<Sample>)
    requires WarmedUp(t) != [] && WarmedUp(t)[|WarmedUp(t)| - 1].soc <= DepletedSoc
    requires forall j :: 0 <= j < |WarmedUp(t)| ==> WarmedUp(t)[j].soc > CrossingSoc
    ensures Estimate(t) == Some(Report(Dead, Day(WarmedUp(t)[|WarmedUp(t)| - 1].time)))
  {
  }

  lemma {:induction false} WarmedUpKeepsOrder(t: seq<Sample>)
    requires NonDecreasingTime(t)
    ensures NonDecreasingTime(WarmedUp(t))
  {
    if t != [] {
      WarmedUpKeepsOrder(t[1..]);
      var rest := WarmedUp(t[1..]);
      assert forall k :: 0 <= k < |rest| ==> t[0].time <= rest[k].time by {
        forall k | 0 <= k < |rest| ensures t[0].time <= rest[k].time {
          var m :| 0 <= m < |t[1..]| && t[1..][m] == rest[k];
          assert t[m + 1] == rest[k];
        }
      }
    }
  }

  /** For a trace in time order, the reported lifetime never exceeds the final row's. */
  lemma LifetimeAtMostFinal(t: seq<Sample>)
    requires NonDecreasingTime(t) && WarmedUp(t) != []
    ensures Estimate(t).value.lifetimeDays <= Day(WarmedUp(t)[|WarmedUp(t)| - 1].time)
  {
    WarmedUpKeepsOrder(t);
    var df := WarmedUp(t);
    var f := FirstAtOrBelow(df, CrossingSoc);
    if df[|df| - 1].soc <= DepletedSoc && f.Some? {
      DayMonotone(df[f.value].time, df[|df| - 1].time);
    }
  }

  /** A higher threshold never yields a later first crossing. */
  lemma CrossingMonotone(t: seq<Sample>, lo: real, hi: real)
    requires lo <= hi && FirstAtOrBelow(t, lo).Some?
    ensures FirstAtOrBelow(t, hi).Some?
    ensures FirstAtOrBelow(t, hi).value <= FirstAtOrBelow(t, lo).value
  {
    var k := FirstAtOrBelow(t, lo).value;
    assert t[k].soc <= hi;
  }

  /** On a time-ordered trace, a higher threshold never gives a later
      crossing time, in seconds or in days. */
  lemma CrossingTimeMonotone(t: seq<Sample>, lo: real, hi: real)
    requires NonDecreasingTime(t)
    requires lo <= hi && FirstAtOrBelow(t, lo).Some?
    ensures FirstAtOrBelow(t, hi).Some?
    ensures t[FirstAtOrBelow(t, hi).value].time <= t[FirstAtOrBelow(t, lo).value].time
    ensures Day(t[FirstAtOrBelow(t, hi).value].time) <= Day(t[FirstAtOrBelow(t, lo).value].time)
  {
    CrossingMonotone(t, lo, hi);
    var j, k := FirstAtOrBelow(t, hi).value, FirstAtOrBelow(t, lo).value;
    DayMonotone(t[j].time, t[k].time);
  }

  /** For a depleted battery on a time-ordered trace, a higher death threshold
      never reports a longer lifetime. */
  lemma LifetimeThresholdMonotone(df: seq<Sample>, depleted: real, lo: real, hi: real)
    requires NonDecreasingTime(df) && lo <= hi
    requires df != [] && df[|df| - 1].soc <= depleted
    ensures EstimateWith(df, depleted, hi).value.status == Dead
    ensures EstimateWith(df, depleted, lo).value.status == Dead
    ensures EstimateWith(df, depleted, hi).value.lifetimeDays
         <= EstimateWith(df, depleted, lo).value.lifetimeDays
  {
    var last := df[|df| - 1];
    if FirstAtOrBelow(df, lo).Some? {
      CrossingTimeMonotone(df, lo, hi);
    } else if FirstAtOrBelow(df, hi).Some? {
      DayMonotone(df[FirstAtOrBelow(df, hi).value].time, last.time);
    }
  }

  lemma AliveExample()
    ensures Estimate([Sample(5.0, 0.0, 0.0, 0.0, 0.0, 0.0, 0.0, 0.0),
                      Sample(86400.0, 0.02, 0.0, 0.0, 0.0, 0.0, 0.0, 0.0)])
         == Some(Report(Alive, 1.0))
  {
    var t := [Sample(5.0, 0.0, 0.0, 0.0, 0.0, 0.0, 0.0, 0.0),
              Sample(86400.0, 0.02, 0.0, 0.0, 0.0, 0.0, 0.0, 0.0)];
    assert Filter(t[1..][1..], AfterWarmUp) == [];
    assert WarmedUp(t) == [t[1]];
  }
}

/** Reductions the reports print: percentages, mean/max/min summaries and
    the first position of a minimum (`idxmin`). */
module Stats {
  import opened Wrappers
  import opened Seqs

  function Abs(x: real): (r: real)
    ensures r >= 0.0 && (r == x || r == -x)
  {
    if x < 0.0 then -x else x
  }

  /** `part / whole * 100`; absent when `whole` is zero (the division has no value). */
  function Percent(part: nat, whole: nat): (r: Option<real>)
    ensures r.Some? <==> whole > 0
    ensures r.Some? && part <= whole ==> 0.0 <= r.value <= 100.0
    ensures r.Some? ==> r.value * whole as real == part as real * 100.0
  {
    if whole == 0 then None
    else
      assert part <= whole ==> part as real / whole as real <= 1.0;
      Some(part as real / whole as real * 100.0)
  }

  datatype Summary = Summary(count: nat, mean: real, max: real, min: real)

  /** Count, mean, max and min of a non-empty series; nothing for an empty one. */
  function Summarize(xs: seq<real>): (r: Option<Summary>)
    ensures r.Some? <==> xs != []
    ensures r.Some? ==> r.value.count == |xs| && r.value.min in xs && r.value.max in xs
    ensures r.Some? ==> forall k :: 0 <= k < |xs| ==> r.value.min <= xs[k] <= r.value.max
    ensures r.Some? ==> r.value.mean * |xs| as real == Sum(xs)
  {
    if xs == [] then None
    else Some(Summary(|xs|, Mean(xs), Maximum(xs), Minimum(xs)))
  }

  /** The arithmetic mean of a non-empty series. */
  function Mean(xs: seq<real>): (m: real)
    requires xs != []
    ensures m * |xs| as real == Sum(xs)
  {
    QuotientTimesDivisor(Sum(xs), |xs| as real);
    Sum(xs) / |xs| as real
  }

  lemma QuotientTimesDivisor(a: real, n: real)
    requires n > 0.0
    ensures a / n * n == a
  {
  }

  /** The mean of a summarised series lies between its minimum and its maximum. */
  lemma SummaryMeanBetween(xs: seq<real>)
    requires xs != []
    ensures Summarize(xs).value.min <= Summarize(xs).value.mean <= Summarize(xs).value.max
  {
    MeanBetween(xs, Minimum(xs), Maximum(xs));
  }

  /** Bounds on the values of a series bound its mean. */
  lemma MeanBetween(xs: seq<real>, lo: real, hi: real)
    requires xs != []
    requires forall k :: 0 <= k < |xs| ==> lo <= xs[k] <= hi
    ensures lo <= Mean(xs) <= hi
  {
    SumBounds(xs, lo, hi);
    FactorBetween(Mean(xs), |xs| as real, Sum(xs), lo, hi);
  }

  /** A number that times a positive `n` lands in `[n * lo, n * hi]` lies in `[lo, hi]`. */
  lemma FactorBetween(m: real, n: real, a: real, lo: real, hi: real)
    requires n > 0.0 && m * n == a && n * lo <= a <= n * hi
    ensures lo <= m <= hi
  {
    assert (m - lo) * n == a - n * lo;
    assert (hi - m) * n == n * hi - a;
  }

  lemma QuotientBetween(a: real, n: real, lo: real, hi: real)
    requires n > 0.0 && n * lo <= a <= n * hi
    ensures lo <= a / n <= hi
  {
    var q := a / n;
    assert (q - lo) * n == a - n * lo;
    assert (hi - q) * n == n * hi - a;
  }

  /** Position of the first smallest present value, skipping absent values;
      absent when no value is present (pandas `idxmin`). */
  function IdxMin(xs: seq<Option<real>>): (r: Option<nat>)
    ensures r.None? <==> forall k :: 0 <= k < |xs| ==> xs[k].None?
    ensures r.Some? ==> r.value < |xs| && xs[r.value].Some?
    ensures r.Some? ==> forall k :: 0 <= k < |xs| && xs[k].Some? ==> xs[r.value].value <= xs[k].value
    ensures r.Some? ==> forall k :: 0 <= k < r.value && xs[k].Some? ==> xs[r.value].value < xs[k].value
  {
    if xs == [] then None
    else
      var rest := IdxMin(xs[1..]);
      if xs[0].None? then
        (if rest.None? then None else Some(rest.value + 1))
      else if rest.None? || xs[0].value <= xs[rest.value + 1].value then Some(0)
      else Some(rest.value + 1)
  }
}

/** Serial versus parallel scheduling: the first 120 seconds of two traces,
    the charge drawn from the bus by trapezoidal integration, the relative
    difference of the two charges and the battery-voltage sag. */
module ChargeIntegrator {
  import opened Wrappers
  import opened Seqs
  import opened Stats
  import opened Trace

  /** Length of the compared window in seconds; its end is included. */
  const WindowLimit: real := 120.0

  predicate InWindow(s: Sample) { s.time <= WindowLimit }

  /** The samples at or before the limit, in trace order. */
  function Window(t: seq<Sample>): (w: seq<Sample>)
    ensures forall k :: 0 <= k < |w| ==> w[k].time <= WindowLimit && w[k] in t
  {
    Filter(t, InWindow)
  }

  lemma WindowExactly(t: seq<Sample>)
    ensures IsSubsequence(Window(t), t)
    ensures forall s :: multiset(Window(t))[s] == if s.time <= WindowLimit then multiset(t)[s] else 0
  {
    FilterExactly(t, InWindow);
  }

  /** One point of a sampled curve: abscissa and ordinate. */
  datatype Point = Point(x: real, y: real)

  /** Composite trapezoidal rule over consecutive points. */
  function Trapezoid(ps: seq<Point>): real
    decreases |ps|
  {
    if |ps| < 2 then 0.0
    else (ps[1].x - ps[0].x) * (ps[0].y + ps[1].y) / 2.0 + Trapezoid(ps[1..])
  }

  lemma TrapezoidDegenerate(ps: seq<Point>)
    requires |ps| < 2
    ensures Trapezoid(ps) == 0.0
  {
  }

  /** A constant curve integrates to its value times the covered span. */
  lemma {:induction false} TrapezoidConstant(ps: seq<Point>, c: real)
    requires ps != []
    requires forall k :: 0 <= k < |ps| ==> ps[k].y == c
    ensures Trapezoid(ps) == c * (ps[|ps| - 1].x - ps[0].x)
  {
    if |ps| >= 2 {
      TrapezoidConstant(ps[1..], c);
      assert (ps[1].x - ps[0].x) * (c + c) / 2.0 == c * (ps[1].x - ps[0].x);
    }
  }

  /** Splitting a curve at a shared point splits its integral. */
  lemma {:induction false} TrapezoidSplit(a: seq<Point>, b: seq<Point>)
    requires a != [] && b != [] && a[|a| - 1] == b[0]
    ensures Trapezoid(a + b[1..]) == Trapezoid(a) + Trapezoid(b)
  {
    if |a| == 1 {
      assert a + b[1..] == b;
    } else {
      TrapezoidSplit(a[1..], b);
      assert (a + b[1..])[1..] == a[1..] + b[1..];
    }
  }

  /** A non-negative curve over non-decreasing abscissae has a non-negative integral. */
  lemma {:induction false} TrapezoidNonNegative(ps: seq<Point>)
    requires forall k :: 0 <= k < |ps| ==> ps[k].y >= 0.0
    requires forall k :: 0 <= k < |ps| - 1 ==> ps[k].x <= ps[k + 1].x
    ensures Trapezoid(ps) >= 0.0
  {
    if |ps| >= 2 {
      TrapezoidNonNegative(ps[1..]);
      assert (ps[1].x - ps[0].x) * (ps[0].y + ps[1].y) >= 0.0;
    }
  }

  lemma TrapezoidExample()
    ensures Trapezoid([Point(0.0, 5.0), Point(10.0, 5.0), Point(20.0, 5.0)]) == 100.0
  {
    var ps := [Point(0.0, 5.0), Point(10.0, 5.0), Point(20.0, 5.0)];
    assert ps[1..][1..] == [Point(20.0, 5.0)];
    assert Trapezoid(ps[1..]) == 50.0;
  }

  /** The bus current against time. */
  function CurrentCurve(t: seq<Sample>): (ps: seq<Point>)
    ensures |ps| == |t| && forall k :: 0 <= k < |t| ==> ps[k] == Point(t[k].time, t[k].iTot)
  {
    seq(|t|, k requires 0 <= k < |t| => Point(t[k].time, t[k].iTot))
  }

  /** Time-ordered window in which the bus never pushes current into the battery. */
  predicate NonNegativeDrawIn(t: seq<Sample>)
  {
    var w := Window(t);
    && (forall k :: 0 <= k < |w| ==> w[k].iTot >= 0.0)
    && (forall k :: 0 <= k < |w| - 1 ==> w[k].time <= w[k + 1].time)
  }

  /** Charge in mA·s drawn over the window. */
  function Charge(t: seq<Sample>): (q: real)
    ensures NonNegativeDrawIn(t) ==> q >= 0.0
  {
    var ps := CurrentCurve(Window(t));
    assert NonNegativeDrawIn(t) ==> Trapezoid(ps) >= 0.0 by {
      if NonNegativeDrawIn(t) {
        TrapezoidNonNegative(ps);
      }
    }
    Trapezoid(ps)
  }

  lemma ChargeOfShortWindow(t: seq<Sample>)
    requires |Window(t)| < 2
    ensures Charge(t) == 0.0
  {
  }

  /** mA·s to mA·h: the same seconds-to-hours conversion as `Hour`, applied
      to a charge instead of a time. */
  function ToMilliampHours(q: real): (r: real)
    ensures r * SecondsPerHour == q
    ensures q >= 0.0 ==> 0.0 <= r <= q
  {
    Hour(q)
  }

  /** Percentage difference relative to the mean of the two charges; undefined
      when the mean is zero. */
  function DiffPercent(a: real, b: real): (r: Option<real>)
    ensures r.Some? <==> a + b != 0.0
    ensures r.Some? ==> r.value * (a + b) == 200.0 * Abs(a - b)
  {
    if a + b == 0.0 then None
    else
      var q := Abs(a - b) / ((a + b) / 2.0);
      assert q * ((a + b) / 2.0) == Abs(a - b);
      Some(q * 100.0)
  }

  lemma DiffPercentSymmetric(a: real, b: real)
    ensures DiffPercent(a, b) == DiffPercent(b, a)
  {
  }

  lemma DiffPercentOfEqual(a: real)
    requires a != 0.0
    ensures DiffPercent(a, a) == Some(0.0)
  {
  }

  /** For two non-negative charges that are not both zero the difference lies in [0, 200]. */
  lemma DiffPercentBounds(a: real, b: real)
    requires a >= 0.0 && b >= 0.0 && a + b > 0.0
    ensures 0.0 <= DiffPercent(a, b).value <= 200.0
  {
    var r, n := DiffPercent(a, b).value, a + b;
    assert r * n == 200.0 * Abs(a - b);
    QuotientBetween(200.0 * Abs(a - b), n, 0.0, 200.0);
    assert r == 200.0 * Abs(a - b) / n;
  }

  function Voltages(w: seq<Sample>): (v: seq<real>)
    ensures |v| == |w| && forall k :: 0 <= k < |w| ==> v[k] == w[k].vBatt
  {
    seq(|w|, k requires 0 <= k < |w| => w[k].vBatt)
  }

  function AllPresent(xs: seq<real>): (o: seq<Option<real>>)
    ensures |o| == |xs| && forall k :: 0 <= k < |xs| ==> o[k] == Some(xs[k])
  {
    seq(|xs|, k requires 0 <= k < |xs| => Some(xs[k]))
  }

  /** Lowest battery voltage in a window; none for an empty window. */
  function MinVoltage(w: seq<Sample>): (m: Option<real>)
    ensures m.Some? <==> w != []
    ensures m.Some? ==> (exists k :: 0 <= k < |w| && w[k].vBatt == m.value)
    ensures m.Some? ==> forall k :: 0 <= k < |w| ==> m.value <= w[k].vBatt
  {
    if w == [] then None
    else
      var v := Voltages(w);
      var m := Minimum(v);
      assert exists k :: 0 <= k < |v| && v[k] == m;
      Some(m)
  }

  /** Time of the first sample attaining the lowest voltage. */
  function MinVoltageTime(w: seq<Sample>): (t: Option<real>)
    ensures t.Some? <==> w != []
    ensures t.Some? ==> exists k :: (0 <= k < |w| && t.value == w[k].time
      && w[k].vBatt == MinVoltage(w).value
      && forall j :: 0 <= j < k ==> w[j].vBatt > w[k].vBatt)
  {
    if w == [] then None
    else
      var o := AllPresent(Voltages(w));
      assert o[0].Some?;
      var k := IdxMin(o).value;
      Some(w[k].time)
  }

  /** Depth of the parallel trace's voltage dip below the serial one. */
  function SagDepth(serial: seq<Sample>, parallel: seq<Sample>): (d: Option<real>)
    ensures d.Some? <==> serial != [] && parallel != []
    ensures d.Some? ==> d.value == MinVoltage(serial).value - MinVoltage(parallel).value
  {
    if serial == [] || parallel == [] then None
    else Some(MinVoltage(serial).value - MinVoltage(parallel).value)
  }

  /** The sag is positive exactly when some parallel sample lies below every serial sample. */
  lemma SagPositiveIff(serial: seq<Sample>, parallel: seq<Sample>)
    requires serial != [] && parallel != []
    ensures SagDepth(serial, parallel).value > 0.0 <==>
      exists j :: 0 <= j < |parallel| && forall k :: 0 <= k < |serial| ==> parallel[j].vBatt < serial[k].vBatt
  {
    var ms, mp := MinVoltage(serial).value, MinVoltage(parallel).value;
    var ks :| 0 <= ks < |serial| && serial[ks].vBatt == ms;
    var kp :| 0 <= kp < |parallel| && parallel[kp].vBatt == mp;
    if ms - mp > 0.0 {
      assert forall k :: 0 <= k < |serial| ==> parallel[kp].vBatt < serial[k].vBatt;
    }
  }
}

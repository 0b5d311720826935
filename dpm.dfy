/** The timeout-sweep helpers of the power-management experiment: the
    idle-time distribution of a workload file, the conversion of scraped
    simulator figures and the choice of the energy-optimal timeout. */
module DpmSweep {
  import opened Wrappers
  import opened Seqs
  import opened Stats
  import opened Workload

  // ---------------------------------------------------------------
  // Idle-time distribution of a workload
  // ---------------------------------------------------------------

  /** One row of a workload file, as pandas reads it. */
  datatype Row = Row(start: real, duration: real)

  /** The rows of a generated workload file. */
  function AsRows(lines: seq<Line>): (rows: seq<Row>)
    ensures |rows| == |lines|
    ensures forall k :: 0 <= k < |lines| ==> rows[k] == Row(lines[k].start as real, lines[k].duration as real)
  {
    seq(|lines|, k requires 0 <= k < |lines| => Row(lines[k].start as real, lines[k].duration as real))
  }

  /** Gap between the end of row k-1 and the start of row k. */
  function IdleBefore(rows: seq<Row>, k: nat): real
    requires 1 <= k < |rows|
  {
    rows[k].start - (rows[k - 1].start + rows[k - 1].duration)
  }

  /** The `idle_time` column: absent for row 0, which has no predecessor. */
  function IdleColumn(rows: seq<Row>): (c: seq<Option<real>>)
    ensures |c| == |rows|
    ensures |c| > 0 ==> c[0] == None
    ensures forall k :: 1 <= k < |rows| ==> c[k] == Some(IdleBefore(rows, k))
  {
    seq(|rows|, k requires 0 <= k < |rows| => if k == 0 then None else Some(IdleBefore(rows, k)))
  }

  /** The gaps of rows 1 .. |rows|-1, in order. */
  function Idles(rows: seq<Row>): (r: seq<real>)
    ensures |r| == if |rows| == 0 then 0 else |rows| - 1
    ensures forall k :: 0 <= k < |r| ==> k + 1 < |rows| && r[k] == IdleBefore(rows, k + 1)
  {
    if |rows| <= 1 then []
    else seq(|rows| - 1, k requires 0 <= k < |rows| - 1 => IdleBefore(rows, k + 1))
  }

  lemma {:induction false} PresentOfSomes(xs: seq<Option<real>>)
    requires forall k :: 0 <= k < |xs| ==> xs[k].Some?
    ensures |Present(xs)| == |xs|
    ensures forall k :: 0 <= k < |xs| ==> Present(xs)[k] == xs[k].value
  {
    if xs != [] {
      PresentOfSomes(xs[1..]);
    }
  }

  /** Dropping the absent entries leaves exactly the gaps of rows 1 onwards. */
  lemma DropnaKeepsGaps(rows: seq<Row>)
    ensures Present(IdleColumn(rows)) == Idles(rows)
  {
    var c := IdleColumn(rows);
    if |rows| > 0 {
      assert c == [None] + c[1..];
      PresentConcat([None], c[1..]);
      PresentOfSomes(c[1..]);
    }
  }

  predicate PositiveIdle(v: real) { v > 0.0 }

  /** Idle times that survive `dropna` and the strict `> 0` filter. */
  function KeptIdles(rows: seq<Row>): (r: seq<real>)
    ensures forall k :: 0 <= k < |r| ==> r[k] > 0.0
  {
    Filter(Present(IdleColumn(rows)), PositiveIdle)
  }

  /** Generating a workload and analysing it returns each task's idle time as
      the gap before the next line; the final task's idle is never seen. */
  lemma RoundTrip(pattern: seq<Task>)
    requires pattern != []
    ensures Idles(AsRows(Schedule(pattern, FirstStart))) == IdleTimes(pattern)
  {
    var lines := Schedule(pattern, FirstStart);
    var rows := AsRows(lines);
    var idles := Idles(rows);
    ScheduleShape(pattern, FirstStart);
    forall k | 0 <= k < |pattern| - 1 ensures idles[k] == pattern[k].idle as real {
      assert lines[k + 1].start == lines[k].start + pattern[k].active + pattern[k].idle;
      assert lines[k].duration == pattern[k].active;
    }
  }

  /** The idle time of every task but the last, as the analysis reads it back. */
  function IdleTimes(pattern: seq<Task>): (r: seq<real>)
    requires pattern != []
    ensures |r| == |pattern| - 1 && forall k :: 0 <= k < |r| ==> r[k] == pattern[k].idle as real
  {
    seq(|pattern| - 1, k requires 0 <= k < |pattern| - 1 => pattern[k].idle as real)
  }

  lemma RoundTripKept(pattern: seq<Task>)
    requires pattern != []
    ensures KeptIdles(AsRows(Schedule(pattern, FirstStart))) == Filter(IdleTimes(pattern), PositiveIdle)
  {
    DropnaKeepsGaps(AsRows(Schedule(pattern, FirstStart)));
    RoundTrip(pattern);
  }

  /** One entry of `value_counts().sort_index()`: a distinct value and its count. */
  datatype Bin = Bin(value: real, count: nat)

  predicate Ascending(bins: seq<Bin>)
  {
    forall j, k :: 0 <= j < k < |bins| ==> bins[j].value < bins[k].value
  }

  predicate Counted(bins: seq<Bin>)
  {
    forall k :: 0 <= k < |bins| ==> bins[k].count >= 1
  }

  /** How often `v` is recorded in `bins`. */
  function CountOf(bins: seq<Bin>, v: real): nat
  {
    if bins == [] then 0
    else (if bins[0].value == v then bins[0].count else 0) + CountOf(bins[1..], v)
  }

  function Total(bins: seq<Bin>): nat
  {
    if bins == [] then 0 else bins[0].count + Total(bins[1..])
  }

  /** Records one more occurrence of `v`, keeping the keys in order. */
  function Insert(bins: seq<Bin>, v: real): (r: seq<Bin>)
    ensures |r| == |bins| || |r| == |bins| + 1
  {
    if bins == [] then [Bin(v, 1)]
    else if v < bins[0].value then [Bin(v, 1)] + bins
    else if v == bins[0].value then [Bin(v, bins[0].count + 1)] + bins[1..]
    else [bins[0]] + Insert(bins[1..], v)
  }

  lemma {:induction false} InsertCounts(bins: seq<Bin>, v: real, x: real)
    ensures CountOf(Insert(bins, v), x) == CountOf(bins, x) + (if x == v then 1 else 0)
    ensures Total(Insert(bins, v)) == Total(bins) + 1
  {
    if bins != [] && v > bins[0].value {
      InsertCounts(bins[1..], v, x);
      assert Insert(bins, v)[1..] == Insert(bins[1..], v);
    } else if bins != [] && v == bins[0].value {
      assert Insert(bins, v)[1..] == bins[1..];
    } else if bins != [] {
      assert Insert(bins, v)[1..] == bins;
    }
  }

  lemma {:induction false} InsertOrdered(bins: seq<Bin>, v: real)
    requires Ascending(bins) && Counted(bins)
    ensures Ascending(Insert(bins, v)) && Counted(Insert(bins, v))
  {
    if bins != [] && v > bins[0].value {
      InsertOrdered(bins[1..], v);
      InsertAbove(bins[1..], v, bins[0].value);
      var r := Insert(bins, v);
      assert r == [bins[0]] + Insert(bins[1..], v);
    }
  }

  /** A bound below `v` and below every key stays below every key after the insertion. */
  lemma {:induction false} InsertAbove(bins: seq<Bin>, v: real, lo: real)
    requires lo < v && forall k :: 0 <= k < |bins| ==> lo < bins[k].value
    ensures forall k :: 0 <= k < |Insert(bins, v)| ==> lo < Insert(bins, v)[k].value
  {
    if bins != [] && v > bins[0].value {
      InsertAbove(bins[1..], v, lo);
      assert Insert(bins, v) == [bins[0]] + Insert(bins[1..], v);
    }
  }

  /** The idle-time distribution: each distinct value with its number of occurrences. */
  function Distribution(xs: seq<real>): seq<Bin>
  {
    if xs == [] then [] else Insert(Distribution(xs[..|xs| - 1]), xs[|xs| - 1])
  }

  /** Keys strictly ascending, counts positive, each value counted as often as
      it occurs, and the counts summing to the number of values. */
  lemma {:induction false} DistributionProperties(xs: seq<real>)
    ensures Ascending(Distribution(xs)) && Counted(Distribution(xs))
    ensures forall x :: CountOf(Distribution(xs), x) == multiset(xs)[x]
    ensures Total(Distribution(xs)) == |xs|
  {
    if xs != [] {
      var init, last := xs[..|xs| - 1], xs[|xs| - 1];
      DistributionProperties(init);
      InsertOrdered(Distribution(init), last);
      assert xs == init + [last];
      forall x ensures CountOf(Distribution(xs), x) == multiset(xs)[x] {
        InsertCounts(Distribution(init), last, x);
      }
      InsertCounts(Distribution(init), last, last);
    }
  }

  /** The analysis as written: build the idle column row by row, drop row 0
      and the non-positive gaps, then count the values. */
  method AnalyzeWorkloadDistribution(rows: seq<Row>) returns (bins: seq<Bin>)
    ensures bins == Distribution(KeptIdles(rows))
  {
    var kept := PositiveIdles(rows);
    bins := CountValues(kept);
  }

  method PositiveIdles(rows: seq<Row>) returns (kept: seq<real>)
    ensures kept == KeptIdles(rows)
  {
    kept := [];
    var i := 0;
    ghost var idles := Idles(rows);
    DropnaKeepsGaps(rows);
    while i + 1 < |rows|
      invariant 0 <= i <= |idles|
      invariant kept == Filter(idles[..i], PositiveIdle)
    {
      var idle := rows[i + 1].start - (rows[i].start + rows[i].duration);
      assert idle == idles[i];
      FilterPrefixStep(idles, i, PositiveIdle);
      if idle > 0.0 {
        kept := kept + [idle];
      }
      i := i + 1;
    }
    assert idles[..i] == idles;
  }

  method CountValues(xs: seq<real>) returns (bins: seq<Bin>)
    ensures bins == Distribution(xs)
  {
    bins := [];
    var i := 0;
    while i < |xs|
      invariant 0 <= i <= |xs|
      invariant bins == Distribution(xs[..i])
    {
      assert xs[..i + 1][..i] == xs[..i];
      bins := Insert(bins, xs[i]);
      i := i + 1;
    }
    assert xs[..i] == xs;
  }

  /** The timeout printed for an idle value: the value truncated toward zero. */
  function Threshold(v: real): (r: int)
    ensures v >= 0.0 ==> r as real <= v < r as real + 1.0
    ensures v < 0.0 ==> r as real - 1.0 < v <= r as real
  {
    if v >= 0.0 then v.Floor else -((-v).Floor)
  }

  /** For an integer timeout and a non-negative idle value, exceeding the
      printed threshold is the same as exceeding the idle value itself. */
  lemma ThresholdSuppresses(v: real, timeout: int)
    requires v >= 0.0
    ensures timeout > Threshold(v) <==> timeout as real > v
  {
  }

  // ---------------------------------------------------------------
  // Conversion of the scraped figures
  // ---------------------------------------------------------------

  datatype Number = IntValue(i: int) | FloatValue(f: real)

  predicate IsDigit(c: char) { '0' <= c <= '9' }

  predicate AllDigits(s: string) { forall k :: 0 <= k < |s| ==> IsDigit(s[k]) }

  function DigitsValue(s: string): nat
    requires AllDigits(s)
  {
    if s == [] then 0 else DigitsValue(s[..|s| - 1]) * 10 + (s[|s| - 1] as int - '0' as int)
  }

  function Pow10(n: nat): (p: nat)
    ensures p >= 1
  {
    if n == 0 then 1 else 10 * Pow10(n - 1)
  }

  /** The value of the decimal spelling `whole.frac`. */
  function DecimalValue(whole: string, frac: string): real
    requires AllDigits(whole) && AllDigits(frac)
  {
    DigitsValue(whole) as real + DigitsValue(frac) as real / Pow10(|frac|) as real
  }

  /** Position of the first '.' in `s`, if any. */
  function FirstDot(s: string): (r: Option<nat>)
    ensures r.None? <==> '.' !in s
    ensures r.Some? ==> r.value < |s| && s[r.value] == '.' && '.' !in s[..r.value]
  {
    if s == [] then None
    else if s[0] == '.' then Some(0)
    else match FirstDot(s[1..])
      case None => None
      case Some(k) =>
        assert s[..k + 1] == [s[0]] + s[1..][..k];
        Some(k + 1)
  }

  /** `float(s)` when `s` contains a '.', `int(s)` otherwise; none where Python
      would raise (no digits, or a second '.'). */
  function ParseNumber(s: string): (r: Option<Number>)
    ensures r.Some? && '.' in s ==> r.value.FloatValue?
    ensures r.Some? && '.' !in s ==> r.value.IntValue?
    ensures r.Some? ==> s != []
  {
    match FirstDot(s)
    case None =>
      if s != [] && AllDigits(s) then Some(IntValue(DigitsValue(s))) else None
    case Some(d) =>
      var whole, frac := s[..d], s[d + 1..];
      if AllDigits(whole) && AllDigits(frac) && |whole| + |frac| > 0 then
        Some(FloatValue(DecimalValue(whole, frac)))
      else None
  }

  /** The text Python's `int` or `float` accepts from a `[\d.]+` match:
      digits and dots only, at most one dot, and at least one digit. */
  predicate Numeral(s: string)
  {
    && (forall k :: 0 <= k < |s| ==> IsDigit(s[k]) || s[k] == '.')
    && (forall j, k :: 0 <= j < k < |s| && s[j] == '.' ==> s[k] != '.')
    && (exists k :: 0 <= k < |s| && IsDigit(s[k]))
  }

  /** A matched string converts exactly when it is a numeral; every other
      string makes the conversion raise. */
  lemma ParseNumberAccepts(s: string)
    ensures ParseNumber(s).Some? <==> Numeral(s)
  {
    match FirstDot(s)
    case None =>
      assert forall k :: 0 <= k < |s| ==> s[k] != '.';
    case Some(d) =>
      var whole, frac := s[..d], s[d + 1..];
      assert forall k :: 0 <= k < d ==> s[k] == whole[k];
      assert forall k :: d < k < |s| ==> s[k] == frac[k - d - 1];
      if Numeral(s) {
        assert forall k :: 0 <= k < d ==> s[k] != '.' by {
          forall k | 0 <= k < d ensures s[k] != '.' {
            assert whole[k] in whole;
          }
        }
        assert AllDigits(whole);
        assert forall k :: d < k < |s| ==> s[k] != '.';
        assert AllDigits(frac) by {
          forall m | 0 <= m < |frac| ensures IsDigit(frac[m]) {
            assert s[m + d + 1] == frac[m];
          }
        }
        var k :| 0 <= k < |s| && IsDigit(s[k]);
        assert k != d;
      }
      if AllDigits(whole) && AllDigits(frac) && |s| > 1 {
        assert forall k :: 0 <= k < |s| ==> IsDigit(s[k]) || s[k] == '.';
        assert forall j, k :: 0 <= j < k < |s| && s[j] == '.' ==> s[k] != '.';
        var k := if d == 0 then 1 else 0;
        assert IsDigit(s[k]);
      }
  }

  lemma {:induction false} DigitsBelowPow10(s: string)
    requires AllDigits(s)
    ensures DigitsValue(s) < Pow10(|s|)
  {
    if s != [] {
      DigitsBelowPow10(s[..|s| - 1]);
    }
  }

  /** `float(w + "." + f)`: the digits before the dot are the integer part and
      the digits after it a fraction below one. */
  lemma ParseFloatValue(w: string, f: string)
    requires AllDigits(w) && AllDigits(f) && |w| + |f| > 0
    ensures ParseNumber(w + "." + f).Some?
    ensures var v := ParseNumber(w + "." + f).value;
      && v == FloatValue(DecimalValue(w, f))
      && DigitsValue(w) as real <= v.f < DigitsValue(w) as real + 1.0
  {
    ParseFloatParts(w, f);
    DecimalValueBounds(w, f);
  }

  /** A decimal `whole.frac` lies in `[whole, whole + 1)`. */
  lemma DecimalValueBounds(w: string, f: string)
    requires AllDigits(w) && AllDigits(f)
    ensures DigitsValue(w) as real <= DecimalValue(w, f) < DigitsValue(w) as real + 1.0
  {
    DigitsBelowPow10(f);
    FractionBelowOne(DigitsValue(f), Pow10(|f|));
    var q := DigitsValue(f) as real / Pow10(|f|) as real;
    assert DecimalValue(w, f) == DigitsValue(w) as real + q;
  }

  lemma ParseFloatParts(w: string, f: string)
    requires AllDigits(w) && AllDigits(f) && |w| + |f| > 0
    ensures ParseNumber(w + "." + f) == Some(FloatValue(DecimalValue(w, f)))
  {
    var s := w + "." + f;
    DotSplit(w, f);
    ParseAtDot(s, |w|, w, f);
  }

  /** In `w + "." + f` with a dot-free `w`, the first dot sits right after `w`. */
  lemma DotSplit(w: string, f: string)
    requires AllDigits(w)
    ensures var s := w + "." + f; FirstDot(s) == Some(|w|) && s[..|w|] == w && s[|w| + 1..] == f
  {
    var s := w + "." + f;
    NoDotInDigits(w);
    FirstDotAfter(w, f);
    assert s[..|w|] == w by {
      assert forall k :: 0 <= k < |w| ==> s[k] == w[k];
    }
    assert s[|w| + 1..] == f by {
      assert forall k :: 0 <= k < |f| ==> s[|w| + 1 + k] == f[k];
    }
  }

  /** What `ParseNumber` yields once the first dot and its digit sides are known. */
  lemma ParseAtDot(s: string, d: nat, whole: string, frac: string)
    requires FirstDot(s) == Some(d) && d < |s| && s[..d] == whole && s[d + 1..] == frac
    requires AllDigits(whole) && AllDigits(frac) && |whole| + |frac| > 0
    ensures ParseNumber(s) == Some(FloatValue(DecimalValue(whole, frac)))
  {
  }

  lemma NoDotInDigits(w: string)
    requires AllDigits(w)
    ensures '.' !in w
  {
    forall k | 0 <= k < |w| ensures w[k] != '.' {
      assert IsDigit(w[k]);
    }
  }

  lemma FractionBelowOne(a: nat, b: nat)
    requires a < b
    ensures 0.0 <= a as real / b as real < 1.0
  {
    var q := a as real / b as real;
    assert q * b as real == a as real;
  }

  lemma {:induction false} FirstDotAfter(w: string, f: string)
    requires '.' !in w
    ensures FirstDot(w + "." + f) == Some(|w|)
  {
    if w != [] {
      assert (w + "." + f)[1..] == w[1..] + "." + f;
      FirstDotAfter(w[1..], f);
    }
  }

  /** An integer printed with a trailing `.0` reads back as that number, as a float. */
  lemma ParseFloatOfInteger(n: nat)
    ensures ParseNumber(NatToString(n) + ".0") == Some(FloatValue(n as real))
  {
    DigitsRoundTrip(n);
    ParseWithZeroFraction(NatToString(n));
  }

  /** Digits followed by `.0` read back as the digits' value, as a float. */
  lemma ParseWithZeroFraction(w: string)
    requires AllDigits(w)
    ensures ParseNumber(w + ".0") == Some(FloatValue(DigitsValue(w) as real))
  {
    assert w + ".0" == w + "." + "0";
    ParseFloatParts(w, "0");
    WholeDecimal(w);
  }

  /** A zero fraction adds nothing: `w.0` is worth `w`. */
  lemma WholeDecimal(w: string)
    requires AllDigits(w)
    ensures DecimalValue(w, "0") == DigitsValue(w) as real
  {
    assert DigitsValue("0") == DigitsValue("") * 10 + 0;
  }

  /** Decimal spelling of a natural number. */
  function NatToString(n: nat): (s: string)
    ensures s != [] && AllDigits(s)
    decreases n
  {
    var d := ['0' + (n % 10) as char];
    if n < 10 then d else NatToString(n / 10) + d
  }

  lemma {:induction false} DigitsRoundTrip(n: nat)
    ensures DigitsValue(NatToString(n)) == n
    decreases n
  {
    var s := NatToString(n);
    if n >= 10 {
      DigitsRoundTrip(n / 10);
      assert s[..|s| - 1] == NatToString(n / 10);
    }
  }

  /** An integer figure printed without a '.' reads back as that integer. */
  lemma ParseIntRoundTrip(n: nat)
    ensures ParseNumber(NatToString(n)) == Some(IntValue(n))
  {
    DigitsRoundTrip(n);
    var s := NatToString(n);
    assert forall k :: 0 <= k < |s| ==> s[k] != '.';
  }

  lemma ParseExamples()
    ensures ParseNumber("12.5") == Some(FloatValue(12.5))
    ensures ParseNumber(".") == None
    ensures ParseNumber("1.2.3") == None
  {
    assert FirstDot("12.5") == Some(2) by {
      assert "12.5"[1..] == "2.5";
      assert "2.5"[1..] == ".5";
    }
    assert "12.5"[..2] == "12" && "12.5"[3..] == "5";
    assert "12"[..1] == "1";
    assert FirstDot("1.2.3") == Some(1) by {
      assert "1.2.3"[1..] == ".2.3";
    }
    assert "1.2.3"[2..] == "2.3";
    assert "2.3"[1] == '.';
    assert FirstDot(".") == Some(0);
  }

  /** An empty fraction counts as zero: `float("1.")` is 1.0. */
  lemma ParseTrailingDot()
    ensures ParseNumber("1.") == Some(FloatValue(1.0))
  {
    ParseFloatParts("1", "");
    assert "1" + "." + "" == "1.";
    assert DigitsValue("1") == DigitsValue("") * 10 + 1;
  }

  /** An empty integer part counts as zero: `float(".5")` is 0.5. */
  lemma ParseLeadingDot()
    ensures ParseNumber(".5") == Some(FloatValue(0.5))
  {
    ParseFloatParts("", "5");
    assert "" + "." + "5" == ".5";
    assert DigitsValue("5") == DigitsValue("") * 10 + 5;
  }

  /** Leading zeros are harmless: `int("007")` is 7. */
  lemma ParseLeadingZeros()
    ensures ParseNumber("007") == Some(IntValue(7))
  {
    assert FirstDot("007") == None by {
      assert "007"[1..] == "07" && "07"[1..] == "7" && "7"[1..] == "";
    }
    assert "007"[..2] == "00" && "00"[..1] == "0" && "0"[..0] == "";
  }

  /** The thirteen figures scraped from the simulator report, in order. */
  const Keys: seq<string> := [
    "active_time", "inactive_time", "time_no_dpm", "time_dpm", "time_run",
    "time_idle", "time_sleep", "time_waiting", "time_transitions",
    "transitions", "energy_transitions", "energy_no_dpm", "energy_dpm"]

  lemma KeysDistinct()
    ensures |Keys| == 13
    ensures forall j, k :: 0 <= j < k < |Keys| ==> Keys[j] != Keys[k]
  {
  }

  /** One figure: absent without a match, a failure naming the key when the
      matched text does not convert. */
  function Convert(found: map<string, string>, key: string): (r: Result<Option<Number>, string>)
    ensures r.Failure? <==> Unconvertible(found, key)
    ensures r.Failure? ==> r.error == key
    ensures r.Success? ==> (r.value.None? <==> key !in found)
    ensures r.Success? && key in found ==> r.value.Some? && Some(r.value.value) == ParseNumber(found[key])
  {
    if key !in found then Success(None)
    else match ParseNumber(found[key])
      case None => Failure(key)
      case Some(n) => Success(Some(n))
  }

  predicate Unconvertible(found: map<string, string>, key: string)
  {
    key in found && ParseNumber(found[key]).None?
  }

  /** The dictionary built over `keys` in order; the first unconvertible key aborts. */
  function Parsed(found: map<string, string>, keys: seq<string>): (r: Result<map<string, Option<Number>>, string>)
    ensures r.Success? <==> forall k :: 0 <= k < |keys| ==> !Unconvertible(found, keys[k])
    ensures r.Success? ==> r.value.Keys == set k | k in keys
    ensures r.Success? ==> forall k :: 0 <= k < |keys| ==> r.value[keys[k]] == Convert(found, keys[k]).value
    ensures r.Failure? ==> exists k :: (0 <= k < |keys| && r.error == keys[k] && Unconvertible(found, keys[k])
      && forall j :: 0 <= j < k ==> !Unconvertible(found, keys[j]))
  {
    if keys == [] then Success(map[])
    else
      var init, last := keys[..|keys| - 1], keys[|keys| - 1];
      assert keys == init + [last];
      match Parsed(found, init)
      case Failure(e) =>
        FailureInPrefix(found, init, last, e);
        Failure(e)
      case Success(m) =>
        match Convert(found, last)
        case Failure(e) =>
          FailureAtLast(found, init, last, e);
          Failure(e)
        case Success(v) =>
          ExtendParsed(found, init, last, m, v);
          Success(m[last := v])
  }

  /** A key that fails among the first keys is still the first failure after one more key. */
  lemma FailureInPrefix(found: map<string, string>, init: seq<string>, last: string, e: string)
    requires exists k :: (0 <= k < |init| && e == init[k] && Unconvertible(found, init[k])
      && forall j :: 0 <= j < k ==> !Unconvertible(found, init[j]))
    ensures var keys := init + [last];
      exists k :: (0 <= k < |keys| && e == keys[k] && Unconvertible(found, keys[k])
        && forall j :: 0 <= j < k ==> !Unconvertible(found, keys[j]))
  {
    var keys := init + [last];
    var k :| 0 <= k < |init| && e == init[k] && Unconvertible(found, init[k])
      && forall j :: 0 <= j < k ==> !Unconvertible(found, init[j]);
    assert keys[k] == init[k];
    assert forall j :: 0 <= j < k ==> keys[j] == init[j];
  }

  /** When every earlier key converts, a failing last key is the first failure. */
  lemma FailureAtLast(found: map<string, string>, init: seq<string>, last: string, e: string)
    requires forall k :: 0 <= k < |init| ==> !Unconvertible(found, init[k])
    requires Convert(found, last) == Failure(e)
    ensures var keys := init + [last];
      exists k :: (0 <= k < |keys| && e == keys[k] && Unconvertible(found, keys[k])
        && forall j :: 0 <= j < k ==> !Unconvertible(found, keys[j]))
  {
    var keys := init + [last];
    assert keys[|init|] == last;
    assert forall j :: 0 <= j < |init| ==> keys[j] == init[j];
  }

  /** A converting last key extends the dictionary of the earlier keys by one entry. */
  lemma ExtendParsed(found: map<string, string>, init: seq<string>, last: string,
                     m: map<string, Option<Number>>, v: Option<Number>)
    requires forall k :: 0 <= k < |init| ==> !Unconvertible(found, init[k])
    requires m.Keys == set k | k in init
    requires forall k :: 0 <= k < |init| ==> m[init[k]] == Convert(found, init[k]).value
    requires Convert(found, last) == Success(v)
    ensures var keys := init + [last];
      && (forall k :: 0 <= k < |keys| ==> !Unconvertible(found, keys[k]))
      && m[last := v].Keys == (set k | k in keys)
      && forall k :: 0 <= k < |keys| ==> m[last := v][keys[k]] == Convert(found, keys[k]).value
  {
    var keys := init + [last];
    assert forall k :: 0 <= k < |init| ==> keys[k] == init[k];
    assert keys[|init|] == last;
  }

  /** `parse_output`: fills the dictionary key by key. Where the original would
      raise a conversion error the result is a failure naming the key. */
  method ParseOutput(found: map<string, string>) returns (r: Result<map<string, Option<Number>>, string>)
    ensures r == Parsed(found, Keys)
  {
    r := ParseKeys(found, Keys);
  }

  method ParseKeys(found: map<string, string>, keys: seq<string>) returns (r: Result<map<string, Option<Number>>, string>)
    ensures r == Parsed(found, keys)
  {
    var parsed: map<string, Option<Number>> := map[];
    var i := 0;
    while i < |keys|
      invariant 0 <= i <= |keys|
      invariant Parsed(found, keys[..i]) == Success(parsed)
    {
      var key := keys[i];
      ParsedStep(found, keys, i);
      if key in found {
        var value := ParseNumber(found[key]);
        if value.None? {
          r := Failure(key);
          PrefixFailure(found, keys, i + 1);
          return;
        }
        parsed := parsed[key := value];
      } else {
        parsed := parsed[key := None];
      }
      i := i + 1;
    }
    assert keys[..i] == keys;
    r := Success(parsed);
  }

  lemma ParsedStep(found: map<string, string>, keys: seq<string>, i: nat)
    requires i < |keys|
    ensures Parsed(found, keys[..i + 1]) ==
      match Parsed(found, keys[..i])
      case Failure(e) => Failure(e)
      case Success(m) =>
        match Convert(found, keys[i])
        case Failure(e) => Failure(e)
        case Success(v) => Success(m[keys[i] := v])
  {
    assert keys[..i + 1][..i] == keys[..i];
  }

  /** A failure on a prefix of the keys is the failure on all of them. */
  lemma {:induction false} PrefixFailure(found: map<string, string>, keys: seq<string>, n: nat)
    requires n <= |keys| && Parsed(found, keys[..n]).Failure?
    ensures Parsed(found, keys) == Parsed(found, keys[..n])
    decreases |keys| - n
  {
    if n < |keys| {
      assert keys[..n + 1][..n] == keys[..n];
      PrefixFailure(found, keys, n + 1);
    } else {
      assert keys[..n] == keys;
    }
  }

  /** Every key is present in a successful result, absent matches as none. */
  lemma ParsedHasAllKeys(found: map<string, string>)
    requires Parsed(found, Keys).Success?
    ensures forall k :: 0 <= k < |Keys| ==> Keys[k] in Parsed(found, Keys).value
    ensures forall k :: 0 <= k < |Keys| && Keys[k] !in found ==> Parsed(found, Keys).value[Keys[k]] == None
  {
  }

  // ---------------------------------------------------------------
  // Energy-optimal timeout
  // ---------------------------------------------------------------

  /** One row of the sweep results: the timeout tried and the energy reported with it. */
  datatype SweepRow = SweepRow(timeout: int, energyDpm: Option<Number>)

  function AsReal(n: Number): real
  {
    match n
    case IntValue(i) => i as real
    case FloatValue(f) => f
  }

  function Energies(results: seq<SweepRow>): (e: seq<Option<real>>)
    ensures |e| == |results|
    ensures forall k :: 0 <= k < |results| ==>
      e[k] == if results[k].energyDpm.Some? then Some(AsReal(results[k].energyDpm.value)) else None
  {
    seq(|results|, k requires 0 <= k < |results| =>
      if results[k].energyDpm.Some? then Some(AsReal(results[k].energyDpm.value)) else None)
  }

  /** The timeout of the first row with the least energy; none when no row has an energy. */
  function OptimalTimeout(results: seq<SweepRow>): (t: Option<int>)
    ensures t.None? <==> forall k :: 0 <= k < |results| ==> results[k].energyDpm.None?
    ensures t.Some? ==> exists k :: (0 <= k < |results| && results[k].timeout == t.value
      && results[k].energyDpm.Some?
      && (forall j :: 0 <= j < |results| && results[j].energyDpm.Some? ==>
            AsReal(results[k].energyDpm.value) <= AsReal(results[j].energyDpm.value))
      && forall j :: 0 <= j < k && results[j].energyDpm.Some? ==>
            AsReal(results[k].energyDpm.value) < AsReal(results[j].energyDpm.value))
  {
    var e := Energies(results);
    match IdxMin(e)
    case None => None
    case Some(k) =>
      assert forall j :: 0 <= j < |results| && results[j].energyDpm.Some? ==> e[j].Some?;
      Some(results[k].timeout)
  }
}

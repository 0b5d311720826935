/** The trace loader: column-name normalisation, the in-place addition of
    the `day` and `hour` columns, comment lines, the explicit schema, and the
    conversion of a named-column table into typed samples. */
module Loader {
  import opened Wrappers
  import opened Seqs
  import opened Trace

  predicate NotPercent(c: char) { c != '%' }

  /** A column name with every `%` removed, wherever it occurs. */
  function RemovePercent(name: string): (r: string)
    ensures '%' !in r
    ensures forall c :: c != '%' ==> multiset(r)[c] == multiset(name)[c]
    ensures IsSubsequence(r, name)
  {
    FilterExactly(name, NotPercent);
    var r := Filter(name, NotPercent);
    assert forall k :: 0 <= k < |r| ==> r[k] != '%';
    r
  }

  /** A name without `%` is left as it is, so stripping twice is stripping once. */
  lemma {:induction false} RemovePercentIdentity(name: string)
    requires '%' !in name
    ensures RemovePercent(name) == name
  {
    FilterAll(name, NotPercent);
  }

  lemma RemovePercentIdempotent(name: string)
    ensures RemovePercent(RemovePercent(name)) == RemovePercent(name)
  {
    RemovePercentIdentity(RemovePercent(name));
  }

  function StrippedNames(names: seq<string>): (r: seq<string>)
    ensures |r| == |names|
    ensures forall k :: 0 <= k < |r| ==> r[k] == RemovePercent(names[k])
  {
    seq(|names|, k requires 0 <= k < |names| => RemovePercent(names[k]))
  }

  /** `from` renamed to `to` wherever it occurs exactly; every other name kept. */
  function Renamed(names: seq<string>, from: string, to: string): (r: seq<string>)
    ensures |r| == |names|
    ensures forall k :: 0 <= k < |r| ==> r[k] == if names[k] == from then to else names[k]
  {
    seq(|names|, k requires 0 <= k < |names| => if names[k] == from then to else names[k])
  }

  /** Position of the first column called `name`. */
  function IndexOf(names: seq<string>, name: string): (r: Option<nat>)
    ensures r.Some? <==> name in names
    ensures r.Some? ==> r.value < |names| && names[r.value] == name && name !in names[..r.value]
  {
    if names == [] then None
    else if names[0] == name then Some(0)
    else
      var rest := IndexOf(names[1..], name);
      assert names[1..] == names[..|names|][1..];
      if rest.None? then None
      else
        assert names[..rest.value + 1] == [names[0]] + names[1..][..rest.value];
        Some(rest.value + 1)
  }

  /** Every column has one value per row. */
  predicate Rectangular(names: seq<string>, columns: seq<seq<real>>, rows: nat)
  {
    |names| == |columns| && forall j :: 0 <= j < |columns| ==> |columns[j]| == rows
  }

  /** The values of the first column called `name`; none when there is no such column. */
  function ColumnOf(names: seq<string>, columns: seq<seq<real>>, rows: nat, name: string): (r: Option<seq<real>>)
    requires Rectangular(names, columns, rows)
    ensures r.Some? <==> name in names
    ensures r.Some? ==> |r.value| == rows
  {
    match IndexOf(names, name)
    case None => None
    case Some(j) => Some(columns[j])
  }

  function DayColumn(times: seq<real>): (r: seq<real>)
    ensures |r| == |times| && forall k :: 0 <= k < |r| ==> r[k] == Day(times[k])
  {
    seq(|times|, k requires 0 <= k < |times| => Day(times[k]))
  }

  function HourColumn(times: seq<real>): (r: seq<real>)
    ensures |r| == |times| && forall k :: 0 <= k < |r| ==> r[k] == Hour(times[k])
  {
    seq(|times|, k requires 0 <= k < |times| => Hour(times[k]))
  }

  /** The names and columns after `df[name] = values`: every column carrying
      that label is overwritten, or a new column is appended at the end when
      there is none. */
  function Assigned(names: seq<string>, columns: seq<seq<real>>, name: string, values: seq<real>):
    (r: (seq<string>, seq<seq<real>>))
    requires |names| == |columns|
    ensures |r.0| == |r.1|
    ensures name in names ==> r.0 == names && |r.1| == |columns|
    ensures name in names ==> forall j :: 0 <= j < |columns| ==>
      r.1[j] == if names[j] == name then values else columns[j]
    ensures name !in names ==> r.0 == names + [name] && r.1 == columns + [values]
  {
    if name in names then
      (names, seq(|columns|, j requires 0 <= j < |columns| => if names[j] == name then values else columns[j]))
    else (names + [name], columns + [values])
  }

  /** After the assignment, the column called `name` holds `values`. */
  lemma AssignedReadsBack(names: seq<string>, columns: seq<seq<real>>, rows: nat, name: string, values: seq<real>)
    requires Rectangular(names, columns, rows) && |values| == rows
    ensures var (n, c) := Assigned(names, columns, name, values);
      Rectangular(n, c, rows) && ColumnOf(n, c, rows, name) == Some(values)
  {
    var (n, c) := Assigned(names, columns, name, values);
    if name !in names {
      IndexOfAppend(names, name, name);
    }
  }

  /** The assignment leaves every other column as it was. */
  lemma AssignedKeepsOthers(names: seq<string>, columns: seq<seq<real>>, rows: nat, name: string, values: seq<real>, other: string)
    requires Rectangular(names, columns, rows) && |values| == rows && other != name
    ensures var (n, c) := Assigned(names, columns, name, values);
      Rectangular(n, c, rows) && ColumnOf(n, c, rows, other) == ColumnOf(names, columns, rows, other)
  {
    var (n, c) := Assigned(names, columns, name, values);
    IndexOfAppend(names, name, other);
  }

  lemma {:induction false} IndexOfAppend(names: seq<string>, extra: string, name: string)
    ensures name in names ==> IndexOf(names + [extra], name) == IndexOf(names, name)
    ensures name !in names && name == extra ==> IndexOf(names + [extra], name) == Some(|names|)
    ensures name !in names && name != extra ==> IndexOf(names + [extra], name) == None
  {
    if names != [] && names[0] != name {
      assert (names + [extra])[1..] == names[1..] + [extra];
      IndexOfAppend(names[1..], extra, name);
    }
  }

  /** A table with named columns, updated in place as a DataFrame is. */
  class Frame {
    var names: seq<string>
    var columns: seq<seq<real>>
    var rows: nat

    ghost predicate Valid()
      reads this
    {
      Rectangular(names, columns, rows)
    }

    constructor (names0: seq<string>, columns0: seq<seq<real>>, rows0: nat)
      requires Rectangular(names0, columns0, rows0)
      ensures Valid() && names == names0 && columns == columns0 && rows == rows0
    {
      names, columns, rows := names0, columns0, rows0;
    }

    function Column(name: string): (r: Option<seq<real>>)
      reads this
      requires Valid()
      ensures r.Some? <==> name in names
    {
      ColumnOf(names, columns, rows, name)
    }

    /** `df.columns = df.columns.str.replace('%', '')` */
    method StripPercent()
      requires Valid()
      modifies this
      ensures Valid()
      ensures names == StrippedNames(old(names))
      ensures columns == old(columns) && rows == old(rows)
    {
      names := StrippedNames(names);
    }

    /** `df.rename(columns={from: to}, inplace=True)` */
    method Rename(from: string, to: string)
      requires Valid()
      modifies this
      ensures Valid()
      ensures names == Renamed(old(names), from, to)
      ensures columns == old(columns) && rows == old(rows)
    {
      names := Renamed(names, from, to);
    }

    /** `df[name] = values` */
    method SetColumn(name: string, values: seq<real>)
      requires Valid() && |values| == rows
      modifies this
      ensures Valid() && rows == old(rows)
      ensures (names, columns) == Assigned(old(names), old(columns), name, values)
    {
      AssignedReadsBack(names, columns, rows, name, values);
      names, columns := Assigned(names, columns, name, values).0, Assigned(names, columns, name, values).1;
    }
  }

  /** The table after the shared loader: every `%` stripped from every
      column name, then `day` and `hour` assigned from `time`. `ok` is false
      (pandas `KeyError`) when no column is called `time` after stripping; the
      names are stripped all the same and nothing is added. */
  datatype Loaded = Loaded(ok: bool, names: seq<string>, columns: seq<seq<real>>)

  function Load(names: seq<string>, columns: seq<seq<real>>, rows: nat): (r: Loaded)
    requires Rectangular(names, columns, rows)
    ensures Rectangular(r.names, r.columns, rows)
  {
    var stripped := StrippedNames(names);
    match ColumnOf(stripped, columns, rows, "time")
    case None => Loaded(false, stripped, columns)
    case Some(times) =>
      AssignedReadsBack(stripped, columns, rows, "day", DayColumn(times));
      var (n1, c1) := Assigned(stripped, columns, "day", DayColumn(times));
      AssignedReadsBack(n1, c1, rows, "hour", HourColumn(times));
      var (n2, c2) := Assigned(n1, c1, "hour", HourColumn(times));
      Loaded(true, n2, c2)
  }

  lemma StringsDiffer()
    ensures "day" != "time" && "hour" != "time" && "hour" != "day"
  {
    assert "day"[0] != "time"[0] && "hour"[0] != "time"[0] && "hour"[0] != "day"[0];
  }

  /** The loader fails exactly when no stripped name is `time`; on success,
      `day` and `hour` hold the time in days and hours, one value per row,
      and the `time` column itself is unchanged. */
  lemma LoadReadsBack(names: seq<string>, columns: seq<seq<real>>, rows: nat)
    requires Rectangular(names, columns, rows)
    ensures Load(names, columns, rows).ok <==> "time" in StrippedNames(names)
    ensures !Load(names, columns, rows).ok ==>
      Load(names, columns, rows).names == StrippedNames(names) && Load(names, columns, rows).columns == columns
    ensures Load(names, columns, rows).ok ==>
      var times := ColumnOf(StrippedNames(names), columns, rows, "time").value;
      var r := Load(names, columns, rows);
      && ColumnOf(r.names, r.columns, rows, "time") == Some(times)
      && ColumnOf(r.names, r.columns, rows, "day") == Some(DayColumn(times))
      && ColumnOf(r.names, r.columns, rows, "hour") == Some(HourColumn(times))
  {
    var stripped := StrippedNames(names);
    var t := ColumnOf(stripped, columns, rows, "time");
    if t.Some? {
      var times := t.value;
      StringsDiffer();
      AssignedReadsBack(stripped, columns, rows, "day", DayColumn(times));
      AssignedKeepsOthers(stripped, columns, rows, "day", DayColumn(times), "time");
      var (n1, c1) := Assigned(stripped, columns, "day", DayColumn(times));
      AssignedReadsBack(n1, c1, rows, "hour", HourColumn(times));
      AssignedKeepsOthers(n1, c1, rows, "hour", HourColumn(times), "time");
      AssignedKeepsOthers(n1, c1, rows, "hour", HourColumn(times), "day");
    }
  }

  /** When the trace has no `day` or `hour` column yet, the loader adds exactly
      those two columns at the end and changes nothing else. */
  lemma LoadAddsTwoColumns(names: seq<string>, columns: seq<seq<real>>, rows: nat)
    requires Rectangular(names, columns, rows)
    requires "time" in StrippedNames(names)
    requires "day" !in StrippedNames(names) && "hour" !in StrippedNames(names)
    ensures var times := ColumnOf(StrippedNames(names), columns, rows, "time").value;
      var r := Load(names, columns, rows);
      && r.names == StrippedNames(names) + ["day", "hour"]
      && r.columns == columns + [DayColumn(times), HourColumn(times)]
  {
    StringsDiffer();
    var stripped := StrippedNames(names);
    assert "hour" !in stripped + ["day"];
  }

  /** `load_simulation_data`: updates the frame in place to `Load` of its old contents. */
  method LoadSimulationData(f: Frame) returns (ok: bool)
    requires f.Valid()
    modifies f
    ensures f.Valid() && f.rows == old(f.rows)
    ensures Load(old(f.names), old(f.columns), old(f.rows)) == Loaded(ok, f.names, f.columns)
  {
    f.StripPercent();
    var time := f.Column("time");
    if time.None? {
      ok := false;
      return;
    }
    ok := true;
    f.SetColumn("day", DayColumn(time.value));
    f.SetColumn("hour", HourColumn(time.value));
  }

  /** Reported trace duration: the largest `day` value (absent for an empty trace). */
  function DurationDays(days: seq<real>): (r: Option<real>)
    ensures r.Some? <==> days != []
    ensures r.Some? ==> r.value in days && forall k :: 0 <= k < |days| ==> days[k] <= r.value
  {
    if days == [] then None else Some(Maximum(days))
  }

  /** The largest day is the day of the largest time. */
  lemma DurationIsDayOfLastSecond(times: seq<real>)
    requires times != []
    ensures DurationDays(DayColumn(times)) == Some(Day(Maximum(times)))
  {
    var days := DayColumn(times);
    var m := Maximum(times);
    var i :| 0 <= i < |times| && times[i] == m;
    assert days[i] == Day(m);
    forall k | 0 <= k < |days| ensures days[k] <= Day(m) {
      DayMonotone(times[k], m);
    }
    var d := DurationDays(days).value;
    var j :| 0 <= j < |days| && days[j] == d;
    assert d <= Day(m) && Day(m) <= d;
  }

  // Comment lines and the explicit schema of the charge-efficiency script.

  predicate IsBlank(c: char) { c == ' ' || c == '\t' || c == '\r' || c == '\n' }

  /** The part of a line before its first `%` (`comment='%'`). */
  function StripComment(line: string): (r: string)
    ensures '%' !in r
    ensures r <= line
    ensures '%' !in line ==> r == line
  {
    if line == [] || line[0] == '%' then []
    else [line[0]] + StripComment(line[1..])
  }

  predicate IsDataLine(line: string)
  {
    exists c :: c in StripComment(line) && !IsBlank(c)
  }

  /** A line that is only blanks up to a `%` is a comment and is skipped. */
  lemma CommentLineSkipped(line: string, k: nat)
    requires k < |line| && line[k] == '%'
    requires forall j :: 0 <= j < k ==> IsBlank(line[j])
    ensures !IsDataLine(line)
  {
  }

  function DataLines(lines: seq<string>): (r: seq<string>)
    ensures forall k :: 0 <= k < |r| ==> IsDataLine(r[k])
  {
    Filter(lines, IsDataLine)
  }

  /** The fixed 14-name column list given to the reader instead of a header. */
  const ChargeSchema: seq<string> := [
    "time", "soc", "i_tot", "i_mcu", "i_rf", "i_pv", "v_pv", "real_i_pv",
    "i_batt", "v_batt", "i_air_quality_sensor", "i_methane_sensor",
    "i_temperature_sensor", "i_mic_click_sensor"]

  /** The columns a sample is built from, in the order the derived-column
      loader first reads them (`time`, then the load and battery currents, then
      the panel signals); `soc` is read last, by the plots and the lifetime
      analysis. */
  const RequiredColumns: seq<string> := ["time", "i_tot", "real_i_pv", "i_batt", "v_batt", "i_pv", "v_pv", "soc"]

  lemma SchemaHasRequiredColumns()
    ensures |ChargeSchema| == 14
    ensures forall c :: c in RequiredColumns ==> c in ChargeSchema
  {
  }

  /** Every column a sample is built from is present. */
  predicate HasRequired(names: seq<string>)
  {
    && "time" in names && "soc" in names && "i_tot" in names && "i_pv" in names
    && "v_pv" in names && "real_i_pv" in names && "i_batt" in names && "v_batt" in names
  }

  /** The first required column the table lacks, if any. */
  function MissingColumn(names: seq<string>, required: seq<string>): (r: Option<string>)
    ensures r.None? <==> forall c :: c in required ==> c in names
    ensures r.Some? ==> r.value in required && r.value !in names
    ensures r.Some? ==> var i := IndexOf(required, r.value).value; forall j :: 0 <= j < i ==> required[j] in names
  {
    if required == [] then None
    else if required[0] !in names then Some(required[0])
    else
      var rest := MissingColumn(names, required[1..]);
      if rest.Some? then
        var i := IndexOf(required[1..], rest.value).value;
        assert IndexOf(required, rest.value) == Some(i + 1) by {
          assert required[..i + 1] == [required[0]] + required[1..][..i];
        }
        rest
      else rest
  }

  /** Typed samples from a named-column table, or the name of the first
      required column it lacks in the order the columns are read. */
  function ToTrace(names: seq<string>, columns: seq<seq<real>>, rows: nat): (r: Result<seq<Sample>, string>)
    requires Rectangular(names, columns, rows)
    ensures r.Failure? <==> exists c :: c in RequiredColumns && c !in names
    ensures r.Failure? ==> r.error in RequiredColumns && r.error !in names
    ensures r.Failure? ==> Some(r.error) == MissingColumn(names, RequiredColumns)
    ensures r.Success? ==> |r.value| == rows && HasRequired(names)
    ensures r.Success? ==> forall k :: 0 <= k < rows ==>
      && r.value[k].time == ColumnOf(names, columns, rows, "time").value[k]
      && r.value[k].soc == ColumnOf(names, columns, rows, "soc").value[k]
      && r.value[k].iTot == ColumnOf(names, columns, rows, "i_tot").value[k]
      && r.value[k].iPv == ColumnOf(names, columns, rows, "i_pv").value[k]
      && r.value[k].vPv == ColumnOf(names, columns, rows, "v_pv").value[k]
      && r.value[k].realIPv == ColumnOf(names, columns, rows, "real_i_pv").value[k]
      && r.value[k].iBatt == ColumnOf(names, columns, rows, "i_batt").value[k]
      && r.value[k].vBatt == ColumnOf(names, columns, rows, "v_batt").value[k]
  {
    match MissingColumn(names, RequiredColumns)
    case Some(c) => Failure(c)
    case None =>
      assert HasRequired(names) by {
        assert forall c :: c in RequiredColumns ==> c in names;
        assert RequiredColumns[0] == "time" && RequiredColumns[1] == "i_tot";
        assert RequiredColumns[2] == "real_i_pv" && RequiredColumns[3] == "i_batt";
        assert RequiredColumns[4] == "v_batt" && RequiredColumns[5] == "i_pv";
        assert RequiredColumns[6] == "v_pv" && RequiredColumns[7] == "soc";
      }
      var time := ColumnOf(names, columns, rows, "time").value;
      var soc := ColumnOf(names, columns, rows, "soc").value;
      var iTot := ColumnOf(names, columns, rows, "i_tot").value;
      var iPv := ColumnOf(names, columns, rows, "i_pv").value;
      var vPv := ColumnOf(names, columns, rows, "v_pv").value;
      var realIPv := ColumnOf(names, columns, rows, "real_i_pv").value;
      var iBatt := ColumnOf(names, columns, rows, "i_batt").value;
      var vBatt := ColumnOf(names, columns, rows, "v_batt").value;
      Success(seq(rows, k requires 0 <= k < rows =>
        Sample(time[k], soc[k], iTot[k], iPv[k], vPv[k], realIPv[k], iBatt[k], vBatt[k])))
  }

  /** A table lacking only `v_pv` is refused with that name, before any sample is built. */
  lemma MissingVpvNamed(names: seq<string>, columns: seq<seq<real>>, rows: nat)
    requires Rectangular(names, columns, rows)
    requires "v_pv" !in names
    requires forall c :: c in RequiredColumns && c != "v_pv" ==> c in names
    ensures ToTrace(names, columns, rows) == Failure("v_pv")
  {
    var m := MissingColumn(names, RequiredColumns);
    assert m.Some?;
    assert m.value == "v_pv";
  }

  /** With a `time` column, a table without `i_tot` is refused with `i_tot`
      whatever else it lacks: the load current is the first column read after
      the time. */
  lemma MissingITotNamedFirst(names: seq<string>, columns: seq<seq<real>>, rows: nat)
    requires Rectangular(names, columns, rows)
    requires "time" in names && "i_tot" !in names
    ensures ToTrace(names, columns, rows) == Failure("i_tot")
  {
    assert RequiredColumns[0] == "time" && RequiredColumns[1] == "i_tot";
    assert MissingColumn(names, RequiredColumns[1..]) == Some("i_tot");
  }
}

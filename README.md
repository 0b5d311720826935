# EMIOT labs: trace analysis, workload tooling and simulator steps in Dafny

This project models the computations of the EMIOT laboratory repository and proves
properties about them. It covers six parts, and all signals are exact reals.

- **Lab 3 trace analysis.** A simulator trace is a sequence of `Sample` records.
  The model covers:
  - the loader that normalises column names and adds `day`/`hour`;
  - the per-sample powers and guarded converter efficiencies at the fixed 3.3 V bus voltage;
  - the night flag, artifact masking and cleaning (values above 100 % are dropped, never clamped);
  - the discharging/charging counts and ratios and the plot windows;
  - the charging-efficiency selection with its divisor floor and [0, 100] filter;
  - the 120-second serial/parallel comparison: trapezoidal charge, mAh, symmetric difference and voltage sag;
  - the lifetime estimate: warm-up drop, depleted/alive status, first crossing.
- **Lab 1 workload tooling.**
  - The generator turns (active, idle) pairs into (start, duration) lines starting at 2000 ms.
  - The idle-time analysis recovers the gaps and counts each distinct value.
  - The conversion rule applies to scraped simulator figures.
  - The energy-optimal timeout is selected.
- **Simulator steps.**
  - The battery state-of-charge update is a class with a `Processing` step.
  - The bus current balance is a pure function.

Absent values (pandas NaN) are `Option.None`. A pandas error that stops a script
(`KeyError`, `ZeroDivisionError`, `ValueError`) is either a `None`/`Failure` result or
the absent branch of the contract. The modules follow the repository:

| module | models |
|---|---|
| `Wrappers`, `Seqs`, `Stats` | option/result types; filtering, `dropna`, sums, min/max; percentages, summaries, `idxmin` |
| `Trace` | the trace record and its shared constants |
| `Loader` | `load_simulation_data` of `lab3/analysis.py` (a `Frame` class updated in place), comment lines, the explicit schema |
| `Derived` | derived columns, cleaning, counts and windows of `part3_first_and_second_analysis.py` |
| `DischargeDistribution` | `part3_analysis_discharge_distribution.py` |
| `ChargeDistribution` | `part3_second_analysis_charge_distribution.py` |
| `ChargeIntegrator` | `part3_second_analysis.py` |
| `Lifetime` | `part3_third_analysis_lifetime.py` |
| `Workload` | `get_workload.py` |
| `DpmSweep` | `run_all.py` |
| `BatteryVoc`, `Bus` | `battery_voc.cpp`, `bus.cpp` |

The duplicate scripts share one model, because their code lines are identical and only
comments and messages differ:

- `part3_first_second_analysis.py` duplicates `part3_first_and_second_analysis.py`;
- `part3_second_analysis_discharge_distribution.py` duplicates `part3_analysis_discharge_distribution.py`;
- `part3_third_analysis.py` duplicates `part3_third_analysis_lifetime.py`.

The loader at `part3_second_analysis.py:5-16` is the same as the one in `lab3/analysis.py`.

## Model

| member | source | states |
|---|---|---|
| Stats.Percent | lab3/scripts/part3_first_and_second_analysis.py:163 | `part/whole*100` is defined iff `whole > 0`; it lies in [0,100] when `part <= whole`; value times `whole` is `part*100` |
| Stats.Summarize | lab3/scripts/part3_second_analysis_charge_distribution.py:50-53 | mean, max and min exist iff the series is non-empty; min and max are attained and bound every value; mean times count is the sum |
| Stats.Mean | lab3/scripts/part3_second_analysis_charge_distribution.py:51 | the mean of a non-empty series times its length is its sum |
| Stats.SummaryMeanBetween | lab3/scripts/part3_second_analysis_charge_distribution.py:51-53 | the mean lies between the min and the max |
| Stats.MeanBetween | lab3/scripts/part3_second_analysis_charge_distribution.py:51 | any bounds on every value of a series bound its mean |
| Stats.IdxMin | lab1/dpm-simulator/dpm-simulator/run_all.py:168 | none iff every entry is NaN; otherwise the position of a present minimal entry, with every earlier present entry strictly larger (first minimum) |
| Trace.Day | lab3/analysis.py:13 | `day * 86400 == time` |
| Trace.Hour | lab3/analysis.py:14 | `hour * 3600 == time` |
| Trace.HourIsTwentyFourDays | lab3/analysis.py:13-14 | `hour == 24 * day` for every time |
| Trace.DayMonotone | lab3/analysis.py:24-25 | days are monotone in seconds |
| Loader.RemovePercent | lab3/analysis.py:10 | the result has no `%`; every other character keeps its multiplicity; the result is an order-preserving subsequence of the name |
| Loader.RemovePercentIdentity | lab3/analysis.py:10 | a name without `%` is unchanged |
| Loader.RemovePercentIdempotent | lab3/analysis.py:10 | stripping twice equals stripping once |
| Loader.StrippedNames | lab3/analysis.py:10 | one stripped name per column, in column order |
| Loader.Renamed | lab3/scripts/part3_third_analysis_lifetime.py:20 | only names equal to `from` (exactly `%time`) become `to`; all others and the column count are kept |
| Loader.IndexOf | lab3/analysis.py:13 | a column is found iff the name occurs; the position is that of its first occurrence |
| Loader.ColumnOf | lab3/analysis.py:13 | `df[name]` exists iff the name occurs and has one value per row |
| Loader.DayColumn | lab3/analysis.py:13 | one `day` value per row, each `Day(time)` of that row |
| Loader.HourColumn | lab3/analysis.py:14 | one `hour` value per row, each `Hour(time)` of that row |
| Loader.Assigned | lab3/analysis.py:13-14 | `df[name] = values` overwrites every column carrying that label (all of them when it is duplicated) and leaves the others; without such a column it appends one at the end |
| Loader.AssignedReadsBack | lab3/analysis.py:13-14 | after an assignment the table stays rectangular and the column reads back as the assigned values |
| Loader.AssignedKeepsOthers | lab3/analysis.py:13-14 | an assignment leaves every other column unchanged |
| Loader.IndexOfAppend | lab3/analysis.py:13-14 | appending a column does not change the lookup of existing names and finds the new one at the end |
| Loader.Frame.constructor | lab3/analysis.py:7 | the frame holds the given rectangular table |
| Loader.Frame.Column | lab3/analysis.py:13 | a column read exists iff the name is present |
| Loader.Frame.StripPercent | lab3/analysis.py:10 | in place: names become their stripped versions; columns and row count are unchanged |
| Loader.Frame.Rename | lab3/scripts/part3_third_analysis_lifetime.py:20 | in place: names renamed as `Renamed`; columns and row count are unchanged |
| Loader.Frame.SetColumn | lab3/analysis.py:13-14 | in place: names and columns become `Assigned` of the old ones; the row count is unchanged |
| Loader.Load | lab3/analysis.py:5-16 | the loader result on values; it stays rectangular |
| Loader.LoadReadsBack | lab3/analysis.py:5-16 | fails (pandas `KeyError`) iff no stripped name is `time`; on success, `time` is unchanged and `day`/`hour` hold `Day`/`Hour` of every row (the same loader is at part3_second_analysis.py:5-16) |
| Loader.LoadAddsTwoColumns | lab3/analysis.py:7-16 | without `day`/`hour` columns yet, exactly `day` and `hour` are appended; every original name and column is unchanged and so is the row count |
| Loader.LoadSimulationData | lab3/analysis.py:5-16 | updates the frame in place to `Load` of its old contents, reporting failure the same way |
| Loader.DurationDays | lab3/analysis.py:24-25 | `day.max()` exists iff the trace is non-empty; it is attained and bounds every day |
| Loader.DurationIsDayOfLastSecond | lab3/analysis.py:24-25 | the reported duration is `max(time)/86400` |
| Loader.StripComment | lab3/scripts/part3_second_analysis_charge_distribution.py:15 | the text before the first `%`: a prefix of the line with no `%`; the whole line if it has none |
| Loader.CommentLineSkipped | lab3/scripts/part3_second_analysis_charge_distribution.py:15 | a line whose first non-blank character is `%` is not a data line |
| Loader.IsDataLine | lab3/scripts/part3_second_analysis_charge_distribution.py:15 | a line is data when some non-blank character comes before its first `%` |
| Loader.DataLines | lab3/scripts/part3_second_analysis_charge_distribution.py:15 | only data lines are kept |
| Loader.SchemaHasRequiredColumns | lab3/scripts/part3_second_analysis_charge_distribution.py:7-11 | the schema has 14 names and contains every column the analyses read |
| Loader.MissingColumn | lab3/scripts/part3_second_analysis_charge_distribution.py:19-26 | none iff every required column is present; otherwise the first missing one in order |
| Loader.ToTrace | lab3/scripts/part3_first_and_second_analysis.py:12-35 | fails iff a required column is missing, naming the first one missing in the order the loader reads them (`time`, `i_tot`, `real_i_pv`, `i_batt`, `v_batt`, `i_pv`, `v_pv`, then `soc`); otherwise one sample per row whose every field is that row's value in the named column |
| Loader.MissingVpvNamed | lab3/scripts/part3_first_and_second_analysis.py:24 | a table lacking only `v_pv` fails with `v_pv` |
| Loader.MissingITotNamedFirst | lab3/scripts/part3_first_and_second_analysis.py:12-16 | with a `time` column, a table lacking `i_tot` is refused with `i_tot` whatever else it lacks, as the `KeyError` at line 16 |
| Derived.LoadPowerSplits | lab3/scripts/part3_first_and_second_analysis.py:16-20 | `P_load = P_pv_out + 3.3*i_tot` |
| Derived.ILoadTrue | lab3/scripts/part3_first_and_second_analysis.py:16 | `i_load_true = i_tot + real_i_pv` |
| Derived.PLoad | lab3/scripts/part3_first_and_second_analysis.py:18 | `P_load = i_load_true * 3.3` |
| Derived.PPvOut | lab3/scripts/part3_first_and_second_analysis.py:19 | `P_pv_out = real_i_pv * 3.3` |
| Derived.PBatt | lab3/scripts/part3_first_and_second_analysis.py:20 | `P_batt = i_batt * v_batt` |
| Derived.PPvIn | lab3/scripts/part3_first_and_second_analysis.py:24 | `P_pv_in = i_pv * v_pv` |
| Derived.DerivedFormulas | lab3/scripts/part3_first_and_second_analysis.py:12-35 | `day*86400 = time`, `i_load_true = i_tot + real_i_pv`, `P_load = 3.3*(i_tot+real_i_pv)`, `P_pv_out = 3.3*real_i_pv`, `P_batt = i_batt*v_batt`, `P_pv_in = i_pv*v_pv`, night iff `real_i_pv < 0.001`, clean = mask of raw (also part3_analysis_discharge_distribution.py:11-34) |
| Derived.PvEfficiency | lab3/scripts/part3_first_and_second_analysis.py:24-25 | present iff `P_pv_in > 0`; then value times `P_pv_in` is `P_pv_out*100`; at most 100 iff `P_pv_out <= P_pv_in` |
| Derived.RatioAtMostHundred | lab3/scripts/part3_first_and_second_analysis.py:25 | `out/in*100 <= 100` iff `out <= in`, for a positive `in` |
| Derived.BattDischargeEff | lab3/scripts/part3_first_and_second_analysis.py:31-35 | present iff `i_tot > 0 and i_batt > 0`; value times `P_batt` is `3.3*i_tot*100`; with `v_batt > 0` it is positive and at most 100 iff `3.3*i_tot <= P_batt` (also part3_analysis_discharge_distribution.py:26-30) |
| Derived.NightBoundaryIsDay | lab3/scripts/part3_analysis_discharge_distribution.py:21 | a sample exactly at 0.001 is day (strict comparison) |
| Derived.IsNight | lab3/scripts/part3_analysis_discharge_distribution.py:21 | night iff `real_i_pv < 0.001`, strictly |
| Derived.Mask | lab3/scripts/part3_analysis_discharge_distribution.py:34 | values above 100 become absent; absent stays absent; every other value is unchanged |
| Derived.Derive | lab3/scripts/part3_first_and_second_analysis.py:12-35 | the derived record of a sample carries that sample |
| Derived.DeriveTrace | lab3/scripts/part3_first_and_second_analysis.py:8-37 | exactly one derived record per input sample, in input order |
| Derived.DeriveTraceConcat | lab3/scripts/part3_first_and_second_analysis.py:8-37 | deriving is row-wise: deriving a concatenation concatenates the results |
| Derived.Cleaned | lab3/scripts/part3_first_and_second_analysis.py:110-116 | every kept value is at most 100 |
| Derived.CleanedMultiplicity | lab3/scripts/part3_first_and_second_analysis.py:110-116 | each present value at most 100 (100 and negatives included) is kept as often as it occurs; no other value is kept |
| Derived.CleanedConcat | lab3/scripts/part3_first_and_second_analysis.py:110-116 | cleaning is row-wise, so order is kept |
| Derived.CleanedScenarios | lab3/scripts/part3_first_and_second_analysis.py:114-116 | 137.4 is dropped (not clamped); 100 and -2 are kept; NaN is ignored |
| Derived.PvEfficiencyColumn | lab3/scripts/part3_first_and_second_analysis.py:25 | one PV efficiency entry per sample |
| Derived.BattDischargeEffColumn | lab3/scripts/part3_first_and_second_analysis.py:31-35 | one discharge efficiency entry per sample |
| Derived.Discharging | lab3/scripts/part3_first_and_second_analysis.py:32 | the discharge mask: the bus draws current (`i_tot > 0`) and the battery delivers it (`i_batt > 0`) |
| Derived.PvEffCleaned | lab3/scripts/part3_first_and_second_analysis.py:110-115 | `pv_eff_cleaned`: the present PV efficiencies at most 100, in order; every value is at most 100 |
| Derived.BattEffCleaned | lab3/scripts/part3_first_and_second_analysis.py:111-116 | `batt_eff_cleaned`: the present discharge efficiencies at most 100, in order; every value is at most 100 |
| Derived.BattEffCleanedStep | lab3/scripts/part3_first_and_second_analysis.py:111-116 | a sample's efficiency enters the cleaned series iff it is discharging with efficiency at most 100 |
| Derived.DischargingTime | lab3/scripts/part3_first_and_second_analysis.py:148 | counts samples with `i_tot > 0`; at most the total |
| Derived.ChargingIdleTime | lab3/scripts/part3_first_and_second_analysis.py:150 | equals the count of samples with `i_tot <= 0`; with the discharging time it partitions the total |
| Derived.DischargingRatio | lab3/scripts/part3_first_and_second_analysis.py:163 | undefined for an empty trace; otherwise in [0,100], and it is `discharging_time/total_time*100` |
| Derived.MacroWindow | lab3/scripts/part3_first_and_second_analysis.py:46 | every kept record has `day <= 7` |
| Derived.MicroWindow | lab3/scripts/part3_first_and_second_analysis.py:77-79 | every kept record has `10800 <= time <= 18000` |
| Derived.WindowsExact | lab3/scripts/part3_first_and_second_analysis.py:46-79 | both windows are order-preserving subsequences holding exactly the in-range records, each as often as it occurs |
| Derived.MicroWindowInclusive | lab3/scripts/part3_first_and_second_analysis.py:77-79 | records at exactly 10800 s and 18000 s are kept |
| DischargeDistribution.DischargeData | lab3/scripts/part3_analysis_discharge_distribution.py:45 | every kept row has a clean efficiency |
| DischargeDistribution.DischargeDataExactly | lab3/scripts/part3_analysis_discharge_distribution.py:26-45 | discharge data is an order-preserving subsequence; a row is in it iff it is discharging with raw efficiency at most 100, and each such row occurs in it exactly as often as in the derived trace |
| DischargeDistribution.CleanValues | lab3/scripts/part3_analysis_discharge_distribution.py:51-52 | the clean efficiency of each row, in order |
| DischargeDistribution.NightEff | lab3/scripts/part3_analysis_discharge_distribution.py:51 | the clean efficiencies of the night discharge rows; no more of them than discharge rows |
| DischargeDistribution.DayEff | lab3/scripts/part3_analysis_discharge_distribution.py:52 | the clean efficiencies of the day discharge rows; no more of them than discharge rows |
| DischargeDistribution.NightDayPartition | lab3/scripts/part3_analysis_discharge_distribution.py:51-52 | night and day counts sum to the discharge count (the printed counts at 74-76) |
| DischargeDistribution.LowEffCount | lab3/scripts/part3_analysis_discharge_distribution.py:82 | the low-efficiency count is at most the discharge count |
| DischargeDistribution.LowEffFraction | lab3/scripts/part3_analysis_discharge_distribution.py:84 | undefined without discharge rows (division by zero); otherwise in [0,100] |
| DischargeDistribution.LowBoundaryNotCounted | lab3/scripts/part3_analysis_discharge_distribution.py:82 | a row at exactly 40 % is not counted (strict `< 40`) |
| ChargeDistribution.PBusIn | lab3/scripts/part3_second_analysis_charge_distribution.py:25 | bus input power is non-negative |
| ChargeDistribution.Charging | lab3/scripts/part3_second_analysis_charge_distribution.py:19 | the charging phase is `i_tot < 0`, strictly |
| ChargeDistribution.PBattOut | lab3/scripts/part3_second_analysis_charge_distribution.py:26 | `P_batt_out = abs(i_batt) * v_batt` |
| ChargeDistribution.Divisible | lab3/scripts/part3_second_analysis_charge_distribution.py:29 | a row is kept for the division iff `P_batt_out > 1e-6` |
| ChargeDistribution.EffCharge | lab3/scripts/part3_second_analysis_charge_distribution.py:29-32 | above the floor the divisor is positive; the efficiency is non-negative and times `P_batt_out` it is `P_bus_in*100` |
| ChargeDistribution.WithEfficiency | lab3/scripts/part3_second_analysis_charge_distribution.py:25-32 | one row per sample carrying `P_bus_in`, `P_batt_out` and `eff_charge` |
| ChargeDistribution.ChargeRows | lab3/scripts/part3_second_analysis_charge_distribution.py:19-35 | every surviving row is charging (`i_tot < 0`), above the floor (`P_batt_out > 1e-6`), with its powers and efficiency by formula and `0 <= eff <= 100` |
| ChargeDistribution.RowSamples | lab3/scripts/part3_second_analysis_charge_distribution.py:19-35 | the samples of the rows, in order |
| ChargeDistribution.ChargeRowsSingle | lab3/scripts/part3_second_analysis_charge_distribution.py:19-35 | a single sample survives iff it is charging, above the floor and at most 100 % |
| ChargeDistribution.ChargeRowsConcat | lab3/scripts/part3_second_analysis_charge_distribution.py:19-35 | the selection is row-wise |
| ChargeDistribution.RowSamplesConcat | lab3/scripts/part3_second_analysis_charge_distribution.py:19-35 | taking the samples is row-wise |
| ChargeDistribution.ChargeRowsExactly | lab3/scripts/part3_second_analysis_charge_distribution.py:19-35 | the surviving samples are exactly the input samples that are charging, above the floor and at most 100 %, in input order |
| ChargeDistribution.ChargeRowsSubsequence | lab3/scripts/part3_second_analysis_charge_distribution.py:19-35 | the survivors are an order-preserving subsequence with exact multiplicities |
| ChargeDistribution.LowerBoundRemovesNothing | lab3/scripts/part3_second_analysis_charge_distribution.py:35 | the `>= 0` half of the range filter never removes a row |
| ChargeDistribution.ChargeExcludesDischarge | lab3/scripts/part3_second_analysis_charge_distribution.py:19 | a charging sample never has a discharge efficiency (the phases exclude each other) |
| ChargeDistribution.Efficiencies | lab3/scripts/part3_second_analysis_charge_distribution.py:50-53 | the efficiency of each row, in order |
| ChargeDistribution.ChargeSummary | lab3/scripts/part3_second_analysis_charge_distribution.py:50-53 | mean/max/min exist iff the set is non-empty; the count is the row count; min and max bound every efficiency |
| ChargeDistribution.LowChargeCount | lab3/scripts/part3_second_analysis_charge_distribution.py:56 | the `< 40` count is at most the total |
| ChargeDistribution.LowChargeRatio | lab3/scripts/part3_second_analysis_charge_distribution.py:57 | reported iff the set is non-empty; in [0,100] |
| ChargeIntegrator.Window | lab3/scripts/part3_second_analysis.py:26-27 | every kept sample has `time <= 120` and comes from the trace |
| ChargeIntegrator.WindowExactly | lab3/scripts/part3_second_analysis.py:22-27 | the window is an order-preserving subsequence holding exactly the samples with `time <= 120` (inclusive) |
| ChargeIntegrator.Trapezoid | lab3/scripts/part3_second_analysis.py:32-37 | the composite trapezoidal rule, the sum of `(x_{k+1}-x_k)*(y_k+y_{k+1})/2` over consecutive points |
| ChargeIntegrator.TrapezoidDegenerate | lab3/scripts/part3_second_analysis.py:32-37 | fewer than two points integrate to 0 |
| ChargeIntegrator.TrapezoidConstant | lab3/scripts/part3_second_analysis.py:32-37 | a constant current `c` integrates to `c*(t_last - t_first)` |
| ChargeIntegrator.TrapezoidSplit | lab3/scripts/part3_second_analysis.py:32-37 | splitting at a shared sample splits the integral into two summands |
| ChargeIntegrator.TrapezoidNonNegative | lab3/scripts/part3_second_analysis.py:32-37 | a non-negative current over non-decreasing times has a non-negative charge |
| ChargeIntegrator.TrapezoidExample | lab3/scripts/part3_second_analysis.py:32-37 | 5 mA from 0 s to 20 s in two steps gives 100 mAs |
| ChargeIntegrator.CurrentCurve | lab3/scripts/part3_second_analysis.py:32-33 | the integrated points are `(time, i_tot)` of each windowed sample, in order |
| ChargeIntegrator.Charge | lab3/scripts/part3_second_analysis.py:32-33 | the trapezoid integral of `i_tot` over `time` in the window; non-negative when the window is time-ordered and never pushes current into the battery |
| ChargeIntegrator.ChargeOfShortWindow | lab3/scripts/part3_second_analysis.py:32-33 | a window with fewer than two samples has charge 0 |
| ChargeIntegrator.ToMilliampHours | lab3/scripts/part3_second_analysis.py:40-41 | `mAh * 3600 == mAs` (the hour conversion of `Trace.Hour`); a non-negative charge stays non-negative and does not grow |
| ChargeIntegrator.DiffPercent | lab3/scripts/part3_second_analysis.py:47 | undefined iff `a + b == 0`; otherwise value times `(a+b)` is `200*abs(a-b)` |
| ChargeIntegrator.DiffPercentSymmetric | lab3/scripts/part3_second_analysis.py:47 | symmetric in `a` and `b` |
| ChargeIntegrator.DiffPercentOfEqual | lab3/scripts/part3_second_analysis.py:47 | equal non-zero charges differ by 0 % |
| ChargeIntegrator.DiffPercentBounds | lab3/scripts/part3_second_analysis.py:47 | for non-negative charges (not both 0) the difference lies in [0,200] |
| ChargeIntegrator.Voltages | lab3/scripts/part3_second_analysis.py:95 | the `v_batt` of each windowed sample |
| ChargeIntegrator.AllPresent | lab3/scripts/part3_second_analysis.py:96 | a column without NaN |
| ChargeIntegrator.MinVoltage | lab3/scripts/part3_second_analysis.py:95 | exists iff the window is non-empty; attained by a sample and at most every `v_batt` |
| ChargeIntegrator.MinVoltageTime | lab3/scripts/part3_second_analysis.py:96 | the time of a sample at the minimum with every earlier sample strictly higher (first `idxmin`), also at 109-110 |
| ChargeIntegrator.SagDepth | lab3/scripts/part3_second_analysis.py:129 | defined iff both windows are non-empty; `min_v_serial - min_v_parallel` |
| ChargeIntegrator.SagPositiveIff | lab3/scripts/part3_second_analysis.py:129 | the sag is positive iff some parallel sample lies below every serial sample |
| Lifetime.WarmedUp | lab3/scripts/part3_third_analysis_lifetime.py:24-27 | every kept row has `time >= 10` and comes from the trace |
| Lifetime.WarmedUpExactly | lab3/scripts/part3_third_analysis_lifetime.py:24-27 | the warm-up drop keeps exactly the rows with `time >= 10`, in order, each as often as it occurs |
| Lifetime.WarmedUpEmptyIff | lab3/scripts/part3_third_analysis_lifetime.py:24-31 | the drop leaves nothing iff every row has `time < 10` |
| Lifetime.FirstAtOrBelow | lab3/scripts/part3_third_analysis_lifetime.py:44-46 | none iff no row has `soc <= threshold`; otherwise the first such row |
| Lifetime.EstimateWith | lab3/scripts/part3_third_analysis_lifetime.py:29-49 | no report iff nothing remains; DEAD iff final `soc <= depleted`; ALIVE lifetime is the final time in days |
| Lifetime.Estimate | lab3/scripts/part3_third_analysis_lifetime.py:24-49 | the report on the warmed-up trace with thresholds 0.015 and 0.0101; none (the early return) iff every row is before 10 s |
| Lifetime.AnalyzeLifetime | lab3/scripts/part3_third_analysis_lifetime.py:24-49 | the drop loop and the overwrite-on-crossing scan compute `Estimate` of the trace (same logic at part3_third_analysis.py:24-46) |
| Lifetime.DeadAtFirstCrossing | lab3/scripts/part3_third_analysis_lifetime.py:44-46 | a depleted trace dies at the first row with `soc <= 0.0101`, in days |
| Lifetime.DeadFallsBackToFinalRow | lab3/scripts/part3_third_analysis_lifetime.py:35-46 | depleted with no crossing row: lifetime is the final time in days |
| Lifetime.WarmedUpKeepsOrder | lab3/scripts/part3_third_analysis_lifetime.py:24-27 | the drop keeps a time-ordered trace time-ordered |
| Lifetime.LifetimeAtMostFinal | lab3/scripts/part3_third_analysis_lifetime.py:34-46 | for non-decreasing time the reported lifetime is at most the final row's |
| Lifetime.CrossingMonotone | lab3/scripts/part3_third_analysis_lifetime.py:44 | raising the crossing threshold never gives a later crossing |
| Lifetime.CrossingTimeMonotone | lab3/scripts/part3_third_analysis_lifetime.py:44-46 | on a time-ordered trace a higher threshold never gives a later crossing time, in seconds or in days |
| Lifetime.LifetimeThresholdMonotone | lab3/scripts/part3_third_analysis_lifetime.py:38-44 | on a time-ordered trace whose battery is depleted, both thresholds report DEAD and the higher death threshold never reports a longer lifetime, whether or not either crossing exists |
| Lifetime.AliveExample | lab3/scripts/part3_third_analysis_lifetime.py:24-49 | a warm-up row at soc 0 is ignored; a final soc of 0.02 at 86400 s gives ALIVE, 1 day |
| Workload.Schedule | lab1/workloads/workloads/get_workload.py:12-14 | one line per task |
| Workload.ScheduleShape | lab1/workloads/workloads/get_workload.py:9-17 | the first start is the initial time; each line carries its task's active time; each next start is the previous start plus active plus idle |
| Workload.ScheduleStep | lab1/workloads/workloads/get_workload.py:12-17 | the schedule is the first line followed by the schedule of the rest from the advanced clock |
| Workload.GenerateFile | lab1/workloads/workloads/get_workload.py:4-19 | the generator loop yields `Schedule(pattern, 2000)` |
| Workload.StartsNonDecreasing | lab1/workloads/workloads/get_workload.py:17 | with non-negative durations, start times never decrease |
| Workload.LastIdleIgnored | lab1/workloads/workloads/get_workload.py:12-17 | the last task's idle time does not affect the output |
| Workload.HoverData | lab1/workloads/workloads/get_workload.py:26-30 | 100 tasks alternating (10, 120000) and (10, 4) |
| DpmSweep.AsRows | lab1/dpm-simulator/dpm-simulator/run_all.py:76 | one (start, duration) row per generated line |
| DpmSweep.IdleColumn | lab1/dpm-simulator/dpm-simulator/run_all.py:80-81 | row 0 is NaN; for k >= 1, `idle_k = start_k - (start_{k-1} + duration_{k-1})` |
| DpmSweep.Idles | lab1/dpm-simulator/dpm-simulator/run_all.py:80-84 | the gaps of rows 1 onwards, in order |
| DpmSweep.DropnaKeepsGaps | lab1/dpm-simulator/dpm-simulator/run_all.py:83-84 | `dropna` removes only row 0 and keeps every gap |
| DpmSweep.KeptIdles | lab1/dpm-simulator/dpm-simulator/run_all.py:85 | every kept idle time is strictly positive |
| DpmSweep.RoundTrip | lab1/dpm-simulator/dpm-simulator/run_all.py:80-81 | analysing a generated workload gives back the idle time of every task but the last (get_workload.py:14-17) |
| DpmSweep.IdleTimes | lab1/workloads/workloads/get_workload.py:17 | the idle of each task but the last |
| DpmSweep.RoundTripKept | lab1/dpm-simulator/dpm-simulator/run_all.py:80-85 | the kept idles of a generated workload are its positive task idles |
| DpmSweep.Insert | lab1/dpm-simulator/dpm-simulator/run_all.py:88 | counting one value adds at most one key |
| DpmSweep.InsertCounts | lab1/dpm-simulator/dpm-simulator/run_all.py:88 | counting a value raises its count by one and leaves the others |
| DpmSweep.InsertOrdered | lab1/dpm-simulator/dpm-simulator/run_all.py:88 | keys stay strictly ascending and counts positive |
| DpmSweep.InsertAbove | lab1/dpm-simulator/dpm-simulator/run_all.py:88 | a bound below the value and all keys stays below all keys |
| DpmSweep.Distribution | lab1/dpm-simulator/dpm-simulator/run_all.py:88 | `value_counts().sort_index()`: the values counted one by one into ascending bins (properties in DistributionProperties) |
| DpmSweep.DistributionProperties | lab1/dpm-simulator/dpm-simulator/run_all.py:88 | keys strictly ascending, counts positive, each value counted as often as it occurs, counts summing to the number of kept rows |
| DpmSweep.AnalyzeWorkloadDistribution | lab1/dpm-simulator/dpm-simulator/run_all.py:68-88 | computes `Distribution(KeptIdles(rows))` |
| DpmSweep.PositiveIdles | lab1/dpm-simulator/dpm-simulator/run_all.py:80-85 | the loop computes `KeptIdles(rows)` |
| DpmSweep.CountValues | lab1/dpm-simulator/dpm-simulator/run_all.py:88 | the loop computes `Distribution(xs)` |
| DpmSweep.Threshold | lab1/dpm-simulator/dpm-simulator/run_all.py:98 | truncation toward 0: `r <= v < r+1` for `v >= 0`, `r-1 < v <= r` for `v < 0` |
| DpmSweep.ThresholdSuppresses | lab1/dpm-simulator/dpm-simulator/run_all.py:97-98 | for an integer timeout, exceeding the printed threshold is exceeding the idle value |
| DpmSweep.FirstDot | lab1/dpm-simulator/dpm-simulator/run_all.py:60 | the first `.` of a matched string, if any |
| DpmSweep.ParseNumber | lab1/dpm-simulator/dpm-simulator/run_all.py:60 | with a `.` the value is a float, without one an int; none where Python raises (exactly the strings of ParseNumberAccepts) |
| DpmSweep.Numeral | lab1/dpm-simulator/dpm-simulator/run_all.py:60 | the strings `int`/`float` accept here: digits with at most one `.` and at least one digit |
| DpmSweep.ParseNumberAccepts | lab1/dpm-simulator/dpm-simulator/run_all.py:60 | a matched string converts iff it is a Numeral |
| DpmSweep.DecimalValue | lab1/dpm-simulator/dpm-simulator/run_all.py:60 | the value of `whole.frac`: the integer part plus the fraction digits over a power of ten |
| DpmSweep.DecimalValueBounds | lab1/dpm-simulator/dpm-simulator/run_all.py:60 | `whole.frac` lies in `[whole, whole + 1)` |
| DpmSweep.DigitsBelowPow10 | lab1/dpm-simulator/dpm-simulator/run_all.py:60 | `n` digits are worth less than `10^n` |
| DpmSweep.ParseFloatValue | lab1/dpm-simulator/dpm-simulator/run_all.py:60 | `w.f` with digit sides, not both empty, converts to the float DecimalValue(w, f), between `w` and `w + 1` |
| DpmSweep.ParseFloatParts | lab1/dpm-simulator/dpm-simulator/run_all.py:60 | `w.f` converts to the float DecimalValue(w, f) |
| DpmSweep.DotSplit | lab1/dpm-simulator/dpm-simulator/run_all.py:60 | in `w.f` with digits `w`, the first dot follows `w` and splits the string back into `w` and `f` |
| DpmSweep.FirstDotAfter | lab1/dpm-simulator/dpm-simulator/run_all.py:60 | the first dot of `w.f` with dot-free `w` sits right after `w` |
| DpmSweep.ParseAtDot | lab1/dpm-simulator/dpm-simulator/run_all.py:60 | once the first dot and both digit sides are known, the string converts to their DecimalValue |
| DpmSweep.ParseWithZeroFraction | lab1/dpm-simulator/dpm-simulator/run_all.py:60 | digits followed by `.0` convert to the float of the digits' value |
| DpmSweep.WholeDecimal | lab1/dpm-simulator/dpm-simulator/run_all.py:60 | a `.0` fraction adds nothing |
| DpmSweep.ParseFloatOfInteger | lab1/dpm-simulator/dpm-simulator/run_all.py:60 | an integer printed with `.0` converts to that number as a float |
| DpmSweep.NatToString | lab1/dpm-simulator/dpm-simulator/run_all.py:60 | a decimal spelling is a non-empty digit string |
| DpmSweep.DigitsRoundTrip | lab1/dpm-simulator/dpm-simulator/run_all.py:60 | digits of a number read back as that number |
| DpmSweep.ParseIntRoundTrip | lab1/dpm-simulator/dpm-simulator/run_all.py:60 | an integer printed without `.` parses as that int |
| DpmSweep.ParseExamples | lab1/dpm-simulator/dpm-simulator/run_all.py:60 | `12.5` gives the float 12.5; `.` and `1.2.3` do not convert |
| DpmSweep.ParseTrailingDot | lab1/dpm-simulator/dpm-simulator/run_all.py:60 | `1.` gives the float 1.0 |
| DpmSweep.ParseLeadingDot | lab1/dpm-simulator/dpm-simulator/run_all.py:60 | `.5` gives the float 0.5 |
| DpmSweep.ParseLeadingZeros | lab1/dpm-simulator/dpm-simulator/run_all.py:60 | `007` gives the int 7 |
| DpmSweep.KeysDistinct | lab1/dpm-simulator/dpm-simulator/run_all.py:39-53 | 13 pairwise distinct keys |
| DpmSweep.Convert | lab1/dpm-simulator/dpm-simulator/run_all.py:57-62 | one key: None without a match; a failure naming the key iff the matched text does not convert; otherwise the converted number |
| DpmSweep.Parsed | lab1/dpm-simulator/dpm-simulator/run_all.py:55-64 | succeeds iff no matched string fails to convert; then it maps every key, absent matches to None; otherwise it names the first failing key |
| DpmSweep.FailureInPrefix | lab1/dpm-simulator/dpm-simulator/run_all.py:55-62 | a failure among the first keys stays the first failure after one more key |
| DpmSweep.FailureAtLast | lab1/dpm-simulator/dpm-simulator/run_all.py:55-62 | with every earlier key converting, a failing last key is the first failure |
| DpmSweep.ExtendParsed | lab1/dpm-simulator/dpm-simulator/run_all.py:55-62 | a converting last key adds exactly its entry to the dictionary of the earlier keys |
| DpmSweep.ParseOutput | lab1/dpm-simulator/dpm-simulator/run_all.py:37-64 | computes `Parsed(found, Keys)` |
| DpmSweep.ParseKeys | lab1/dpm-simulator/dpm-simulator/run_all.py:55-62 | the key loop computes `Parsed` |
| DpmSweep.ParsedStep | lab1/dpm-simulator/dpm-simulator/run_all.py:55-62 | one loop iteration extends the dictionary by one key or fails |
| DpmSweep.PrefixFailure | lab1/dpm-simulator/dpm-simulator/run_all.py:55-62 | a failure on the first keys is the overall failure |
| DpmSweep.ParsedHasAllKeys | lab1/dpm-simulator/dpm-simulator/run_all.py:55-64 | every key is in the result; keys without a match map to None |
| DpmSweep.Energies | lab1/dpm-simulator/dpm-simulator/run_all.py:168 | the `energy_dpm` column, NaN where absent |
| DpmSweep.OptimalTimeout | lab1/dpm-simulator/dpm-simulator/run_all.py:158-170 | none iff no row has an energy; otherwise the timeout of a row with minimal energy, every earlier row strictly higher |
| BatteryVoc.Clamp | lab3/lab3-em4iot/simulator/src/battery_voc.cpp:34-42 | at most 1; 1 or the input; the input when below 1 |
| BatteryVoc.Integrate | lab3/lab3-em4iot/simulator/src/battery_voc.cpp:26-27 | trapezoidal update `soc - (i + prev_i)*SIM_STEP/(2*3600*3200)` |
| BatteryVoc.SelfDischarge | lab3/lab3-em4iot/simulator/src/battery_voc.cpp:31 | `(1 - SELFDISCH_FACTOR) * soc` |
| BatteryVoc.Voc | lab3/lab3-em4iot/simulator/src/battery_voc.cpp:45-49 | the fourth-degree open-circuit voltage fit |
| BatteryVoc.Rs | lab3/lab3-em4iot/simulator/src/battery_voc.cpp:52-56 | the fourth-degree series-resistance fit |
| BatteryVoc.VocEndpoints | lab3/lab3-em4iot/simulator/src/battery_voc.cpp:45-56 | the fits give 2.05464539 V at SOC 0, 4.05922341 V and 0.00006707 ohm at SOC 1 |
| BatteryVoc.Step | lab3/lab3-em4iot/simulator/src/battery_voc.cpp:15-66 | after a step the SOC is at most 1; the previous current is the current read; the stop flag is set iff it was set or the SOC is at most 0.01 |
| BatteryVoc.StepClamps | lab3/lab3-em4iot/simulator/src/battery_voc.cpp:27-42 | the new SOC is 1 when the updated value reaches 1, otherwise the updated value |
| BatteryVoc.IntegrationDirection | lab3/lab3-em4iot/simulator/src/battery_voc.cpp:26-27 | a negative current sum (charging) raises the integrated SOC; a positive one lowers it |
| BatteryVoc.SelfDischargeShrinks | lab3/lab3-em4iot/simulator/src/battery_voc.cpp:31 | self-discharge keeps a non-negative SOC in [0, SOC] |
| BatteryVoc.DischargeNeverRaises | lab3/lab3-em4iot/simulator/src/battery_voc.cpp:27-42 | discharging from a non-negative integrated SOC never raises the SOC |
| BatteryVoc.NoLowerClamp | lab3/lab3-em4iot/simulator/src/battery_voc.cpp:34-42 | an empty battery that keeps discharging goes below 0 and requests a stop |
| BatteryVoc.StopIffLow | lab3/lab3-em4iot/simulator/src/battery_voc.cpp:61-65 | from a running state a stop is requested iff the post-clamp SOC is at most 0.01 |
| BatteryVoc.Run | lab3/lab3-em4iot/simulator/src/battery_voc.cpp:15-66 | consecutive processing steps over a sequence of currents |
| BatteryVoc.RunProperties | lab3/lab3-em4iot/simulator/src/battery_voc.cpp:15-66 | after a run of steps the SOC is at most 1 and the previous current is the last read; a stop is never withdrawn |
| BatteryVoc.RunConcat | lab3/lab3-em4iot/simulator/src/battery_voc.cpp:15-66 | running two current sequences in turn is running their concatenation |
| BatteryVoc.Battery.constructor | lab3/lab3-em4iot/simulator/src/battery_voc.cpp:13 | the module starts with the given SOC and current and no stop request |
| BatteryVoc.Battery.Processing | lab3/lab3-em4iot/simulator/src/battery_voc.cpp:15-66 | in place: the state becomes `Step` of the old state; written SOC equals the state; `v_oc` and `r_s` are the fits at the post-clamp SOC |
| Bus.Scavenged | lab3/lab3-em4iot/simulator/src/bus.cpp:18-19 | scavenged current is three times the panel current |
| Bus.Consumed | lab3/lab3-em4iot/simulator/src/bus.cpp:11-16 | the total consumption: the sum of the six consumer currents read in the step |
| Bus.ITot | lab3/lab3-em4iot/simulator/src/bus.cpp:21-23 | `i_tot >= 0` iff consumption covers scavenging (battery supplies); `i_tot < 0` iff surplus goes to the battery |
| Bus.RaiseConsumer | lab3/lab3-em4iot/simulator/src/bus.cpp:11-21 | raising any consumer current by `d` raises `i_tot` by exactly `d` (the panel current being left alone) |
| Bus.RaisePanelCurrent | lab3/lab3-em4iot/simulator/src/bus.cpp:18-21 | raising the panel current by `d` lowers `i_tot` by `3d` |
| Bus.ScriptLoadCurrent | lab3/lab3-em4iot/simulator/src/bus.cpp:11-21 | with the bus as written, the scripts' `i_tot + real_i_pv` is consumption minus two panel currents, and it equals consumption iff the panels deliver nothing |

## Left out

- Plotting, histograms, pie charts, figure saving and every console message are presentation and are not modelled.
- File reading (`read_csv` whitespace splitting, engines) and writing are left out. The generator returns its lines instead of writing them, and a trace enters as a named-column table.
- Process launching (`subprocess.run`) and the regular-expression scraping are left out. `ParseOutput` takes the matched text per key, with absence meaning no match.
- The module-level timeout sweep of `run_all.py` is left out. It refers to the commented-out `WORKLOAD_FILE`, so it fails as written. `OptimalTimeout` models only the selection it feeds.
- `lab2/lab2_hist_eq.py` and `lab2/results_analyze.py` are left out: image numerics through an external library, and report scraping.
- IEEE-754 behaviour is left out: NaN propagation, rounding in the trapezoid sum, and `np.where` evaluating both branches.
- Derived.BattDischargeEff: requires `v_batt != 0` while discharging (`Measurable`). There numpy would produce an infinity, which exact reals cannot represent.
- The in-place, column-by-column build of the derived DataFrame is modelled as a per-row `Record` function mapped over the trace. In-place column assignment is modelled once, by `Loader.Frame`.
- `df_charge` is reassigned step by step to filtered copies. It is modelled as a composition of filters on values.
- `SIM_STEP`, `SELFDISCH_FACTOR` and the initial SOC and current come from a header that is not part of this model. They are parameters.
- `sc_stop`, `cout` and the port time steps are simulator kernel plumbing. The stop is a boolean field that stays set.
- BatteryVoc.Voc: `pow` is written as repeated products of the exact SOC.
- DpmSweep.ParseNumber: recognises ASCII digits only. Other Unicode digits that `\d` would match are not modelled, and float conversion is exact.
- Loader.IsDataLine: a line counts as data when some non-blank character precedes its first `%`. Quoting and other reader options are not modelled.
- Loader.ToTrace: builds every field of a sample, `soc` included, so a table without `soc` is refused although the derived-column loader alone never reads it (the plots and the lifetime analysis do).
- Loader.ColumnOf: with duplicate column labels pandas returns a frame rather than a column. The model reads the first column of that name.

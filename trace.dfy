/** One sample (row) of a simulator trace, with the signals the analysis
    scripts read, and the fixed constants they share. Times are seconds,
    currents milliamps, voltages volts; all values are exact reals. */
module Trace {

  datatype Sample = Sample(
    time: real,      // elapsed seconds
    soc: real,       // battery state of charge, a fraction
    iTot: real,      // bus current: > 0 drawn from the battery, < 0 surplus to it
    iPv: real,       // PV panel current
    vPv: real,       // PV panel voltage
    realIPv: real,   // realised PV current delivered to the bus
    iBatt: real,     // battery current
    vBatt: real)     // battery voltage

  /** The fixed bus reference voltage used for every power conversion. */
  const BusVoltage: real := 3.3
  const SecondsPerDay: real := 86400.0
  const SecondsPerHour: real := 3600.0

  /** Elapsed days of a time in seconds (the added `day` column). */
  function Day(time: real): (d: real)
    ensures d * SecondsPerDay == time
  {
    time / SecondsPerDay
  }

  /** Elapsed hours of a time in seconds (the added `hour` column). */
  function Hour(time: real): (h: real)
    ensures h * SecondsPerHour == time
  {
    time / SecondsPerHour
  }

  lemma HourIsTwentyFourDays(time: real)
    ensures Hour(time) == 24.0 * Day(time)
  {
  }

  /** Days are monotone in seconds. */
  lemma DayMonotone(a: real, b: real)
    requires a <= b
    ensures Day(a) <= Day(b)
  {
  }

  predicate NonDecreasingTime(t: seq<Sample>)
  {
    forall j, k :: 0 <= j <= k < |t| ==> t[j].time <= t[k].time
  }
}

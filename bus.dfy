/** The bus current balance: the six consumer currents minus the current
    scavenged by the PV panels. A stateless step; its output depends only on
    the inputs of the same instant. */
module Bus {
  import opened Trace
  import opened Derived

  /** The inputs read in one step, in mA. `realIPv` is the current of one PV panel. */
  datatype Inputs = Inputs(
    iMcu: real, iRf: real, iAirQuality: real, iMethane: real,
    iTemperature: real, iMicClick: real, realIPv: real)

  const NumPvPanels: real := 3.0

  function Consumed(b: Inputs): real
  {
    b.iMcu + b.iRf + b.iAirQuality + b.iMethane + b.iTemperature + b.iMicClick
  }

  function Scavenged(b: Inputs): (r: real)
    ensures r == 3.0 * b.realIPv
  {
    b.realIPv * NumPvPanels
  }

  /** The bus current: drawn from the battery when non-negative, pushed into it when negative. */
  function ITot(b: Inputs): (r: real)
    ensures r >= 0.0 <==> Consumed(b) >= Scavenged(b)
    ensures r < 0.0 <==> Scavenged(b) > Consumed(b)
  {
    Consumed(b) - Scavenged(b)
  }

  datatype Consumer = Mcu | Rf | AirQuality | Methane | Temperature | MicClick

  /** The inputs with one consumer current raised by `d`. */
  function Raise(b: Inputs, c: Consumer, d: real): (r: Inputs)
    ensures r.realIPv == b.realIPv
  {
    match c
    case Mcu => b.(iMcu := b.iMcu + d)
    case Rf => b.(iRf := b.iRf + d)
    case AirQuality => b.(iAirQuality := b.iAirQuality + d)
    case Methane => b.(iMethane := b.iMethane + d)
    case Temperature => b.(iTemperature := b.iTemperature + d)
    case MicClick => b.(iMicClick := b.iMicClick + d)
  }

  /** Raising any consumer current by `d` raises the bus current by exactly `d`. */
  lemma RaiseConsumer(b: Inputs, c: Consumer, d: real)
    ensures ITot(Raise(b, c, d)) == ITot(b) + d
  {
  }

  /** Raising the panel current by `d` lowers the bus current by three times `d`. */
  lemma RaisePanelCurrent(b: Inputs, d: real)
    ensures ITot(b.(realIPv := b.realIPv + d)) == ITot(b) - 3.0 * d
  {
  }

  /** The analysis scripts add one panel current back to the bus current; with
      the bus as written this gives the consumption minus two panel currents,
      which equals the consumption only when the panels deliver nothing. */
  lemma ScriptLoadCurrent(b: Inputs, s: Sample)
    requires s.iTot == ITot(b) && s.realIPv == b.realIPv
    ensures ILoadTrue(s) == Consumed(b) - 2.0 * b.realIPv
    ensures ILoadTrue(s) == Consumed(b) <==> b.realIPv == 0.0
  {
  }
}

/** One time step of the battery model: the state of charge is integrated
    from the battery current with the trapezoidal rule, reduced by
    self-discharge, clamped from above at 1, and mapped to the open-circuit
    voltage and series resistance; a low state of charge stops the run. */
module BatteryVoc {

  /** Nominal capacity in mAh. */
  const NominalCapacity: real := 3200.0
  /** At or below this state of charge the simulation is stopped. */
  const StopSoc: real := 0.01

  /** Trapezoidal SOC update over one step of `simStep` seconds; the currents are in mA. */
  function Integrate(soc: real, current: real, prevCurrent: real, simStep: real): real
  {
    soc - ((current + prevCurrent) * simStep) / (2.0 * 3600.0 * NominalCapacity)
  }

  function SelfDischarge(soc: real, factor: real): real
  {
    (1.0 - factor) * soc
  }

  /** Upper clamp only: a state of charge above 1 becomes 1, nothing is raised. */
  function Clamp(soc: real): (r: real)
    ensures r <= 1.0
    ensures r == 1.0 || r == soc
    ensures soc < 1.0 ==> r == soc
  {
    if soc >= 1.0 then 1.0 else soc
  }

  /** Open-circuit voltage fit as a fourth-degree polynomial in the state of charge. */
  function Voc(soc: real): real
  {
    -18.64842845 * (soc * soc * soc * soc)
      + 44.69486002 * (soc * soc * soc)
      - 36.60037106 * (soc * soc)
      + 12.55851751 * soc
      + 2.05464539
  }

  /** Series-resistance fit as a fourth-degree polynomial in the state of charge. */
  function Rs(soc: real): real
  {
    -0.00045524 * (soc * soc * soc * soc)
      + 0.00116024 * (soc * soc * soc)
      - 0.00091822 * (soc * soc)
      + 0.000177 * soc
      + 0.00010329
  }

  lemma VocEndpoints()
    ensures Voc(0.0) == 2.05464539
    ensures Voc(1.0) == 4.05922341
    ensures Rs(1.0) == 0.00006707
  {
  }

  /** The persistent part of the battery: the integrator state, the previous
      current and whether a stop has been requested. */
  datatype Cell = Cell(tmpsoc: real, prevIBatt: real, stopRequested: bool)

  /** One processing step of the model as a function of the old state. */
  function Step(c: Cell, current: real, simStep: real, factor: real): (r: Cell)
    ensures r.tmpsoc <= 1.0
    ensures r.prevIBatt == current
    ensures r.stopRequested <==> c.stopRequested || r.tmpsoc <= StopSoc
  {
    var soc := Clamp(SelfDischarge(Integrate(c.tmpsoc, current, c.prevIBatt, simStep), factor));
    Cell(soc, current, c.stopRequested || soc <= StopSoc)
  }

  /** The SOC written in a step: 1 when the updated value reaches 1, the updated value otherwise. */
  lemma StepClamps(c: Cell, current: real, simStep: real, factor: real)
    ensures var u := SelfDischarge(Integrate(c.tmpsoc, current, c.prevIBatt, simStep), factor);
      Step(c, current, simStep, factor).tmpsoc == if u >= 1.0 then 1.0 else u
  {
  }

  /** For a positive step, a negative (charging) current sum raises the integrated
      SOC and a positive one lowers it. */
  lemma IntegrationDirection(soc: real, current: real, prevCurrent: real, simStep: real)
    requires simStep > 0.0
    ensures current + prevCurrent < 0.0 ==> Integrate(soc, current, prevCurrent, simStep) > soc
    ensures current + prevCurrent > 0.0 ==> Integrate(soc, current, prevCurrent, simStep) < soc
  {
    var d := 2.0 * 3600.0 * NominalCapacity;
    var q := (current + prevCurrent) * simStep;
    if current + prevCurrent < 0.0 {
      assert q < 0.0;
    } else if current + prevCurrent > 0.0 {
      assert q > 0.0;
    }
    assert Integrate(soc, current, prevCurrent, simStep) == soc - q / d;
  }

  /** Self-discharge moves a non-negative SOC toward 0 and never below it. */
  lemma SelfDischargeShrinks(soc: real, factor: real)
    requires 0.0 <= factor < 1.0 && soc >= 0.0
    ensures 0.0 <= SelfDischarge(soc, factor) <= soc
  {
    assert SelfDischarge(soc, factor) == soc - factor * soc;
    assert factor * soc <= 1.0 * soc;
  }

  /** While discharging from a non-negative integrated SOC, a step never raises the SOC. */
  lemma DischargeNeverRaises(c: Cell, current: real, simStep: real, factor: real)
    requires simStep > 0.0 && 0.0 <= factor < 1.0
    requires current >= 0.0 && c.prevIBatt >= 0.0
    requires Integrate(c.tmpsoc, current, c.prevIBatt, simStep) >= 0.0
    ensures Step(c, current, simStep, factor).tmpsoc <= c.tmpsoc
  {
    var u := Integrate(c.tmpsoc, current, c.prevIBatt, simStep);
    IntegrationDirection(c.tmpsoc, current, c.prevIBatt, simStep);
    SelfDischargeShrinks(u, factor);
  }

  /** There is no lower clamp: an empty battery that keeps discharging goes below 0. */
  lemma NoLowerClamp()
    ensures Step(Cell(0.0, 1000.0, false), 1000.0, 1.0, 0.0).tmpsoc < 0.0
    ensures Step(Cell(0.0, 1000.0, false), 1000.0, 1.0, 0.0).stopRequested
  {
    assert Integrate(0.0, 1000.0, 1000.0, 1.0) == -2000.0 / 23040000.0;
  }

  /** From a running state, a step requests a stop exactly when its SOC is at most 1%. */
  lemma StopIffLow(c: Cell, current: real, simStep: real, factor: real)
    requires !c.stopRequested
    ensures Step(c, current, simStep, factor).stopRequested <==> Step(c, current, simStep, factor).tmpsoc <= StopSoc
  {
  }

  /** A run of consecutive steps over a current sequence. */
  function Run(c: Cell, currents: seq<real>, simStep: real, factor: real): Cell
    decreases |currents|
  {
    if currents == [] then c else Run(Step(c, currents[0], simStep, factor), currents[1..], simStep, factor)
  }

  /** After at least one step the SOC is at most 1 and the previous current is the last one read;
      a requested stop is never withdrawn. */
  lemma {:induction false} RunProperties(c: Cell, currents: seq<real>, simStep: real, factor: real)
    ensures currents != [] ==> Run(c, currents, simStep, factor).tmpsoc <= 1.0
    ensures currents != [] ==> Run(c, currents, simStep, factor).prevIBatt == currents[|currents| - 1]
    ensures c.stopRequested ==> Run(c, currents, simStep, factor).stopRequested
    decreases |currents|
  {
    if currents != [] {
      RunProperties(Step(c, currents[0], simStep, factor), currents[1..], simStep, factor);
    }
  }

  lemma {:induction false} RunConcat(c: Cell, a: seq<real>, b: seq<real>, simStep: real, factor: real)
    ensures Run(c, a + b, simStep, factor) == Run(Run(c, a, simStep, factor), b, simStep, factor)
    decreases |a|
  {
    if a != [] {
      assert (a + b)[1..] == a[1..] + b;
      RunConcat(Step(c, a[0], simStep, factor), a[1..], b, simStep, factor);
    } else {
      assert a + b == b;
    }
  }

  /** The battery module with its member state and output ports. */
  class Battery {
    const simStep: real
    const selfDischargeFactor: real
    var tmpsoc: real
    var prevIBatt: real
    var socOut: real
    var vOc: real
    var rS: real
    var stopRequested: bool

    /** The initial state of charge and previous current come from the
        module's declaration, which is not part of this model. */
    constructor(simStep: real, selfDischargeFactor: real, initialSoc: real, initialCurrent: real)
      requires simStep > 0.0 && 0.0 <= selfDischargeFactor < 1.0
      ensures this.simStep == simStep && this.selfDischargeFactor == selfDischargeFactor
      ensures tmpsoc == initialSoc && prevIBatt == initialCurrent && !stopRequested
    {
      this.simStep := simStep;
      this.selfDischargeFactor := selfDischargeFactor;
      tmpsoc := initialSoc;
      prevIBatt := initialCurrent;
      // The module's `initialize` is empty and its ports carry nothing before
      // the first `processing`; these three writes only give the port fields
      // a defined starting value in the model.
      socOut := initialSoc;
      vOc := Voc(initialSoc);
      rS := Rs(initialSoc);
      stopRequested := false;
    }

    function State(): Cell
      reads this
    {
      Cell(tmpsoc, prevIBatt, stopRequested)
    }

    /** `processing`: read the current, update the SOC in place and write the
        SOC, open-circuit voltage and series resistance of the new state. */
    method Processing(current: real)
      modifies this
      ensures State() == Step(old(State()), current, simStep, selfDischargeFactor)
      ensures socOut == tmpsoc && vOc == Voc(tmpsoc) && rS == Rs(tmpsoc)
    {
      tmpsoc := tmpsoc - (((current + prevIBatt) * simStep) / (2.0 * 3600.0 * NominalCapacity));
      prevIBatt := current;
      tmpsoc := (1.0 - selfDischargeFactor) * tmpsoc;
      if tmpsoc >= 1.0 {
        socOut := 1.0;
        tmpsoc := 1.0;
      } else {
        socOut := tmpsoc;
      }
      vOc := Voc(tmpsoc);
      rS := Rs(tmpsoc);
      if tmpsoc <= StopSoc {
        stopRequested := true;
      }
    }
  }
}

/**
 Low-voltage copper wire-gauge sizing: given the nominal voltage, the design
 current, the one-way run length and the largest acceptable voltage drop in
 percent, pick the smallest standard commercial cross-section that keeps the
 drop within the limit, and report the drop it actually gives.

 All quantities are exact reals; the result's text fields are kept as the
 numbers they would be formatted from.
 */
module ElectricalCalculations {
  import opened Wrappers
  import Ladder

  /** Resistivity of copper at 20 degrees Celsius, in ohm mm2 per metre. */
  const RhoCopper: real := 0.0172

  /** Smallest section allowed for power circuits, in mm2. */
  const MinGaugePower: real := 1.5

  /** Standard commercial cross-sections, in mm2, smallest first. */
  const StandardGaugesMm2: seq<real> :=
    [1.5, 2.5, 4.0, 6.0, 10.0, 16.0, 25.0, 35.0, 50.0, 70.0, 95.0]

  /** The largest standard cross-section: the fallback when none suffices. */
  const LargestGauge: real := StandardGaugesMm2[|StandardGaugesMm2| - 1]

  /** What the caller supplies. */
  datatype CalculationInput = CalculationInput(
    voltage: real,                // nominal voltage, V
    current: real,                // design current, A
    distance: real,               // one-way run length, m
    allowedDropPercentage: real   // largest acceptable drop, % of voltage
  )

  /** What the calculation returns. */
  datatype CalculationResult = CalculationResult(
    suggestedGauge: real,         // the standard section to use, mm2
    calculatedMinSection: real,   // required section after the safety floor, mm2
    actualDropVolts: real,        // drop with the suggested section, V
    actualDropPercentage: real,   // the same drop as % of the voltage
    isFeasible: bool              // false when no standard section suffices
  )

  /** The zeroed, infeasible result returned for unusable input. */
  const InvalidResult: CalculationResult := CalculationResult(0.0, 0.0, 0.0, 0.0, false)

  /** All four inputs are strictly positive. */
  predicate IsValid(input: CalculationInput) {
    && input.voltage > 0.0
    && input.allowedDropPercentage > 0.0
    && input.current > 0.0
    && input.distance > 0.0
  }

  /** The largest acceptable drop, in volts. */
  function MaxAllowedDropVolts(input: CalculationInput): real {
    input.voltage * (input.allowedDropPercentage / 100.0)
  }

  /** The drop, in volts, that the run would show over a 1 mm2 conductor:
      2 rho L I, the factor 2 counting the outgoing and the return wire. */
  function DropAtUnitSection(input: CalculationInput): real {
    2.0 * RhoCopper * input.distance * input.current
  }

  /** The drop, in volts, over a conductor of the given section. */
  function DropVolts(input: CalculationInput, section: real): real
    requires section > 0.0
  {
    DropAtUnitSection(input) / section
  }

  /** A drop in volts expressed as a percentage of the nominal voltage. */
  function DropPercentage(input: CalculationInput, dropVolts: real): real
    requires input.voltage > 0.0
  {
    (dropVolts / input.voltage) * 100.0
  }

  /** The exact section S = 2 rho L I / dV_max, before the safety floor. */
  function RequiredSection(input: CalculationInput): real
    requires IsValid(input)
  {
    DropAtUnitSection(input) / MaxAllowedDropVolts(input)
  }

  /** The required section raised to the safety floor when it is below it:
      the larger of the two. */
  function ExactSectionNeeded(input: CalculationInput): (r: real)
    requires IsValid(input)
    ensures r >= MinGaugePower && r >= RequiredSection(input)
    ensures r == MinGaugePower || r == RequiredSection(input)
  {
    var exact := RequiredSection(input);
    if exact < MinGaugePower then MinGaugePower else exact
  }

  /** JavaScript truthiness of what `find` returns: `undefined` and 0 are
      falsy, every other number is truthy. */
  predicate Truthy(found: Option<real>) {
    found.Some? && found.value != 0.0
  }

  /** The standard ladder is strictly ascending. */
  lemma StandardGaugesAscending()
    ensures Ladder.StrictlyAscending(StandardGaugesMm2)
  {
  }

  /** No standard section is below the safety floor, so none is 0, and a
      found section is never mistaken for "not found". */
  lemma StandardGaugesAboveFloor()
    ensures forall g :: g in StandardGaugesMm2 ==> g >= MinGaugePower
    ensures forall target :: Truthy(Ladder.Find(StandardGaugesMm2, target)) <==>
                               Ladder.Find(StandardGaugesMm2, target).Some?
  {
  }

  /** Rounding up to the ladder: the first standard section not below
      `section`, or the largest one, flagged infeasible, when none is. The
      "not found" test is JavaScript's falsiness, as written in the source. */
  function SelectGauge(section: real): (r: (real, bool))
    ensures r.0 in StandardGaugesMm2
    ensures r.1 <==> section <= LargestGauge
    ensures !r.1 ==> r.0 == LargestGauge
    ensures r.1 ==> r.0 >= section
    ensures r.1 ==> forall g :: g in StandardGaugesMm2 && g >= section ==> r.0 <= g
  {
    var found := Ladder.Find(StandardGaugesMm2, section);
    StandardGaugesAscending();
    StandardGaugesAboveFloor();
    Ladder.FindIsLeastAdequate(StandardGaugesMm2, section);
    Ladder.FindFailsIffAboveTop(StandardGaugesMm2, section);
    if !Truthy(found) then (LargestGauge, false) else (found.value, true)
  }

  /** What the calculation promises for valid input, stated of a candidate
      result `r`:
      - the suggested section is a standard one;
      - the reported section is the exact section after the safety floor;
      - the result is feasible exactly when that section fits the ladder,
        and otherwise the largest standard section is suggested;
      - a feasible suggestion is the smallest standard section not below
        the reported one;
      - the drop fields are those of the suggested section. */
  predicate SizedFor(input: CalculationInput, r: CalculationResult)
    requires IsValid(input)
  {
    && r.suggestedGauge in StandardGaugesMm2
    && r.suggestedGauge >= MinGaugePower
    && r.calculatedMinSection == ExactSectionNeeded(input)
    && (r.isFeasible <==> r.calculatedMinSection <= LargestGauge)
    && (!r.isFeasible ==> r.suggestedGauge == LargestGauge)
    && (r.isFeasible ==> r.suggestedGauge >= r.calculatedMinSection)
    && (r.isFeasible ==>
          forall g :: g in StandardGaugesMm2 && g >= r.calculatedMinSection ==>
                        r.suggestedGauge <= g)
    && r.actualDropVolts == DropVolts(input, r.suggestedGauge)
    && r.actualDropPercentage == DropPercentage(input, r.actualDropVolts)
  }

  /** The sizing calculation: the zeroed, infeasible result for unusable
      input, and a result meeting `SizedFor` otherwise. */
  function CalculateWireGauge(input: CalculationInput): (r: CalculationResult)
    ensures !IsValid(input) ==> r == InvalidResult
    ensures IsValid(input) ==> SizedFor(input, r)
  {
    if input.voltage <= 0.0 || input.allowedDropPercentage <= 0.0
       || input.current <= 0.0 || input.distance <= 0.0 then
      InvalidResult
    else
      var exactSectionNeeded := ExactSectionNeeded(input);
      var (suggestedGauge, isFeasible) := SelectGauge(exactSectionNeeded);
      var actualDropV := DropVolts(input, suggestedGauge);
      var actualDropPrc := DropPercentage(input, actualDropV);
      CalculationResult(suggestedGauge, exactSectionNeeded, actualDropV, actualDropPrc, isFeasible)
  }

  // ---------------------------------------------------------------------
  // Arithmetic helpers over positive reals
  // ---------------------------------------------------------------------

  /** Comparing k/s with m is comparing k/m with s. */
  lemma DivAtMostIff(k: real, s: real, m: real)
    requires k >= 0.0 && s > 0.0 && m > 0.0
    ensures k / s <= m <==> k / m <= s
  {
    assert k / s <= m <==> k <= m * s;
    assert k / m <= s <==> k <= m * s;
  }

  /** Products of non-negative reals grow with their factors. */
  lemma MulMonotone(a1: real, a2: real, b1: real, b2: real)
    requires 0.0 <= a1 <= a2 && 0.0 <= b1 <= b2
    ensures a1 * b1 <= a2 * b2
  {
    assert a1 * b1 <= a2 * b1;
    assert a2 * b1 <= a2 * b2;
  }

  /** A quotient grows with its numerator and shrinks with its denominator. */
  lemma QuotientMonotone(n1: real, n2: real, d1: real, d2: real)
    requires 0.0 <= n1 <= n2 && 0.0 < d2 <= d1
    ensures n1 / d1 <= n2 / d2
  {
    assert n1 / d1 <= n2 / d1;
    assert n2 / d1 <= n2 / d2 by {
      assert n2 / d1 * d1 == n2 == n2 / d2 * d2;
    }
  }

  // ---------------------------------------------------------------------
  // Properties of the calculation
  // ---------------------------------------------------------------------

  /** The exact section is the inverse of the drop formula: a conductor keeps
      the run within the allowed drop exactly when its section is at least
      the exact section. */
  lemma RequiredSectionIsThreshold(input: CalculationInput, section: real)
    requires IsValid(input) && section > 0.0
    ensures DropVolts(input, section) <= MaxAllowedDropVolts(input) <==>
            section >= RequiredSection(input)
  {
    DivAtMostIff(DropAtUnitSection(input), section, MaxAllowedDropVolts(input));
  }

  /** A drop is within the allowed percentage exactly when it is within the
      allowed number of volts. */
  lemma DropPercentageWithinLimitIff(input: CalculationInput, dropVolts: real)
    requires IsValid(input)
    ensures DropPercentage(input, dropVolts) <= input.allowedDropPercentage <==>
            dropVolts <= MaxAllowedDropVolts(input)
  {
    var v := input.voltage;
    var p := input.allowedDropPercentage;
    assert DropPercentage(input, dropVolts) <= p <==> dropVolts / v <= p / 100.0;
    assert dropVolts / v <= p / 100.0 <==> dropVolts <= v * (p / 100.0);
  }

  /** The feasibility flag is set exactly when the suggested section keeps
      the drop within the limit, counted in volts or in percent. */
  lemma FeasibleIffDropWithinLimit(input: CalculationInput, r: CalculationResult)
    requires IsValid(input) && SizedFor(input, r)
    ensures r.isFeasible <==> r.actualDropVolts <= MaxAllowedDropVolts(input)
    ensures r.isFeasible <==> r.actualDropPercentage <= input.allowedDropPercentage
  {
    RequiredSectionIsThreshold(input, r.suggestedGauge);
    DropPercentageWithinLimitIff(input, r.actualDropVolts);
  }

  /** A conductor of this section keeps the run within the allowed drop. */
  predicate WithinLimit(input: CalculationInput, section: real) {
    section > 0.0 && DropVolts(input, section) <= MaxAllowedDropVolts(input)
  }

  /** When the calculation is feasible, the standard sections that keep the
      drop within the limit are exactly those at least as large as the
      suggested one; when it is not, no standard section does. */
  lemma SuggestedGaugeIsSmallestWithinLimit(input: CalculationInput, r: CalculationResult)
    requires IsValid(input) && SizedFor(input, r)
    ensures r.isFeasible ==>
              forall g :: g in StandardGaugesMm2 ==>
                (WithinLimit(input, g) <==> g >= r.suggestedGauge)
    ensures !r.isFeasible ==>
              forall g :: g in StandardGaugesMm2 ==> !WithinLimit(input, g)
  {
    StandardGaugesAboveFloor();
    forall g | g in StandardGaugesMm2
      ensures r.isFeasible ==> (WithinLimit(input, g) <==> g >= r.suggestedGauge)
      ensures !r.isFeasible ==> !WithinLimit(input, g)
    {
      RequiredSectionIsThreshold(input, g);
      assert g <= LargestGauge;
    }
  }

  /** Input `a` asks no more of the conductor than input `b`: no more
      current, no longer run, no lower voltage and no looser limit. */
  predicate NoMoreDemanding(a: CalculationInput, b: CalculationInput) {
    && a.current <= b.current
    && a.distance <= b.distance
    && a.voltage >= b.voltage
    && a.allowedDropPercentage >= b.allowedDropPercentage
  }

  /** The exact section never decreases with current or distance and never
      increases with voltage or allowed percentage, before and after the
      safety floor. */
  lemma ExactSectionMonotone(a: CalculationInput, b: CalculationInput)
    requires IsValid(a) && IsValid(b) && NoMoreDemanding(a, b)
    ensures RequiredSection(a) <= RequiredSection(b)
    ensures ExactSectionNeeded(a) <= ExactSectionNeeded(b)
  {
    MulMonotone(2.0 * RhoCopper * a.distance, 2.0 * RhoCopper * b.distance, a.current, b.current);
    MulMonotone(b.voltage, a.voltage, b.allowedDropPercentage / 100.0, a.allowedDropPercentage / 100.0);
    assert DropAtUnitSection(a) <= DropAtUnitSection(b);
    assert 0.0 < MaxAllowedDropVolts(b) <= MaxAllowedDropVolts(a);
    QuotientMonotone(DropAtUnitSection(a), DropAtUnitSection(b),
                     MaxAllowedDropVolts(a), MaxAllowedDropVolts(b));
  }

  /** A more demanding input never gets a smaller suggested section, and if
      it is still feasible so is the less demanding one. */
  lemma SuggestedGaugeMonotone(a: CalculationInput, ra: CalculationResult,
                               b: CalculationInput, rb: CalculationResult)
    requires IsValid(a) && IsValid(b) && NoMoreDemanding(a, b)
    requires SizedFor(a, ra) && SizedFor(b, rb)
    ensures ra.suggestedGauge <= rb.suggestedGauge
    ensures rb.isFeasible ==> ra.isFeasible
  {
    ExactSectionMonotone(a, b);
    if !rb.isFeasible {
      assert ra.suggestedGauge <= LargestGauge;
    }
  }
}

/** The worked sizing cases, evaluated exactly. */
module ElectricalCalculationsExamples {
  import opened ElectricalCalculations

  /** 220 V, 30 A over 50 m with a 4 % limit: 8.8 V allowed, an exact
      section of 129/22 (about 5.86) mm2, rounded up to 6 mm2, which drops
      8.6 V, 43/11 (about 3.91) percent. */
  lemma Example220Volts30Amps()
    ensures MaxAllowedDropVolts(CalculationInput(220.0, 30.0, 50.0, 4.0)) == 8.8
    ensures CalculateWireGauge(CalculationInput(220.0, 30.0, 50.0, 4.0)) ==
            CalculationResult(6.0, 129.0 / 22.0, 8.6, 43.0 / 11.0, true)
  {
  }

  /** 127 V, 60 A over 100 m with a 3 % limit: an exact section of about
      54.17 mm2, rounded up to 70 mm2. */
  lemma Example127Volts60Amps()
    ensures CalculateWireGauge(CalculationInput(127.0, 60.0, 100.0, 3.0)).suggestedGauge == 70.0
    ensures CalculateWireGauge(CalculationInput(127.0, 60.0, 100.0, 3.0)).isFeasible
    ensures 54.17 < CalculateWireGauge(CalculationInput(127.0, 60.0, 100.0, 3.0)).calculatedMinSection < 54.18
  {
    var input := CalculationInput(127.0, 60.0, 100.0, 3.0);
    assert DropAtUnitSection(input) == 206.4;
    assert MaxAllowedDropVolts(input) == 3.81;
    assert 54.0 < RequiredSection(input) < 55.0;
    var r := CalculateWireGauge(input);
    assert 54.0 < r.calculatedMinSection < 55.0;
    assert r.suggestedGauge <= 70.0 by {
      assert StandardGaugesMm2[9] == 70.0;
    }
  }

  /** 220 V, 200 A over 500 m with a 4 % limit: an exact section of about
      390.9 mm2, beyond the ladder, so 95 mm2 is returned as infeasible. */
  lemma ExampleBeyondLadder()
    ensures CalculateWireGauge(CalculationInput(220.0, 200.0, 500.0, 4.0)).suggestedGauge == 95.0
    ensures !CalculateWireGauge(CalculationInput(220.0, 200.0, 500.0, 4.0)).isFeasible
    ensures 390.9 < CalculateWireGauge(CalculationInput(220.0, 200.0, 500.0, 4.0)).calculatedMinSection < 391.0
  {
    var input := CalculationInput(220.0, 200.0, 500.0, 4.0);
    assert DropAtUnitSection(input) == 3440.0;
    assert MaxAllowedDropVolts(input) == 8.8;
    assert 390.0 < RequiredSection(input) < 391.0;
  }

  /** Zero current yields the zeroed, infeasible result. */
  lemma ExampleZeroCurrent()
    ensures CalculateWireGauge(CalculationInput(220.0, 0.0, 50.0, 4.0)) == InvalidResult
  {
  }
}

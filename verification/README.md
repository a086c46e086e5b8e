# Copper wire-gauge sizing, modelled in Dafny

This project models `calculateWireGauge`, the sizing calculation of a
low-voltage installation calculator. Given the nominal voltage, the design
current, the one-way run length and the largest acceptable voltage drop in
percent, the calculation does the following:

1. It rejects any non-positive input with a zeroed, infeasible result.
2. It computes the exact copper section `S = 2·ρ·L·I / ΔV_max`, with
   ρ = 0.0172 Ω·mm²/m and `ΔV_max = V · (p / 100)`.
3. It raises that section to the 1.5 mm² safety floor.
4. It rounds the section up to the first entry of the commercial ladder
   1.5, 2.5, 4, 6, 10, 16, 25, 35, 50, 70, 95 mm² that is at least as large.
   If no entry is large enough, it takes 95 mm² and marks the result
   infeasible.
5. It back-computes the drop that the chosen section really gives, in volts
   and in percent.

All arithmetic is exact (`real`). The files are:

- `wrappers.dfy`: `Option`, which stands for JavaScript's `undefined`-or-value.
- `ladder.dfy`: module `Ladder`. This is the "first element not less than
  the target" search that `Array.prototype.find` performs. It comes with the
  lemmas that make it a true ceiling on an ascending ladder.
- `electrical_calculations.dfy`: module `ElectricalCalculations`. It holds the
  constants, the input and result records, the calculation, and its
  properties. The predicate `SizedFor(input, r)` collects what the
  calculation promises for valid input. `CalculateWireGauge` ensures it, and
  the feasibility, minimality and monotonicity lemmas are proved for every
  result that meets it.
- `examples.dfy`: the worked cases, evaluated exactly.

The source tests "nothing found" with `!suggestedGauge`, which is true for
`undefined` and also for 0. The model keeps that test (`Truthy`).
`StandardGaugesAboveFloor` shows that the test is the same as "not found",
because every ladder entry is at least 1.5.

Two details of the code that the model follows as written:

- `calculatedMinSection` holds the section after the 1.5 mm² floor is
  applied (src/electricalCalculations.ts:67-69, 94). Its declaration
  comment (line 30) calls it the exact value before rounding.
- The invalid-input result carries the text `"0"` in its three text fields
  (lines 50-52). It does not carry the `"0.00"` that `toFixed(2)` would
  produce.

The helper definitions follow specific lines of src/electricalCalculations.ts.
They carry no contract of their own, so they have no rows below:

- `IsValid` is the negation of the guard on line 46.
- `MaxAllowedDropVolts` is line 59.
- `DropAtUnitSection` and `RequiredSection` are the numerator and the
  quotient of line 64.
- `DropVolts` is line 86, and `DropPercentage` is line 87.
- `Truthy` is JavaScript truthiness; line 77 tests its negation, `!suggestedGauge`.
- `InvalidResult` is the record of lines 48-54.

## Model

| member | source | states |
|---|---|---|
| Ladder.FindIndex | src/electricalCalculations.ts:73 | The result is the index of the first ladder entry that is at least the target: every earlier entry is below it. None is returned only when every entry is below the target. |
| Ladder.Find | src/electricalCalculations.ts:73 | A found value is a ladder entry at least as large as the target. The search fails exactly when every entry is below the target. |
| Ladder.FindIsLeastAdequate | src/electricalCalculations.ts:72-73 | On an ascending ladder, the first adequate entry is no larger than any other adequate entry, so `find` is a true ceiling. |
| Ladder.FindMonotone | src/electricalCalculations.ts:72-73 | On an ascending ladder, a larger target never selects a smaller entry. If the larger target is served, the smaller one is served too. |
| Ladder.FindFailsIffAboveTop | src/electricalCalculations.ts:76-78 | On a non-empty ascending ladder, the search fails exactly when the target exceeds the last entry. |
| ElectricalCalculations.StandardGaugesAscending | src/electricalCalculations.ts:15-17 | The commercial ladder is strictly ascending. |
| ElectricalCalculations.StandardGaugesAboveFloor | src/electricalCalculations.ts:73-77 | Every ladder entry is at least the 1.5 mm² floor. The falsiness test `!suggestedGauge` holds exactly when `find` found nothing. |
| ElectricalCalculations.ExactSectionNeeded | src/electricalCalculations.ts:62-69 | The floored section is at least 1.5 and at least `2ρLI/ΔV_max`, and it equals one of the two: it is their maximum. |
| ElectricalCalculations.SelectGauge | src/electricalCalculations.ts:72-80 | The chosen section is always a ladder entry. The selection is feasible exactly when the target is at most 95. When infeasible, the choice is 95. When feasible, the choice is at least the target and no larger than any ladder entry that is at least the target. |
| ElectricalCalculations.CalculateWireGauge | src/electricalCalculations.ts:41-99 | A non-positive voltage, percentage, current or distance yields the zeroed, infeasible result. Any other input yields a result meeting `SizedFor`. That result suggests a ladder section, and reports the floored section `max(2ρLI/ΔV_max, 1.5)`. It is feasible exactly when that section is at most 95, and otherwise it suggests 95. A feasible suggestion is the least ladder entry not below the reported section. The drop fields are those of the suggested section. |
| ElectricalCalculations.RequiredSectionIsThreshold | src/electricalCalculations.ts:59-64 | The section formula inverts the drop formula. A conductor keeps the drop within `ΔV_max` exactly when its section is at least `2ρLI/ΔV_max`. |
| ElectricalCalculations.DropPercentageWithinLimitIff | src/electricalCalculations.ts:86-87 | A drop is within the allowed percentage of the voltage exactly when it is within the allowed number of volts. |
| ElectricalCalculations.FeasibleIffDropWithinLimit | src/electricalCalculations.ts:72-87 | For valid input and a result meeting `SizedFor` (the calculation's own result among them), `isFeasible` holds exactly when the realised drop is within the limit, counted in volts and also in percent. |
| ElectricalCalculations.SuggestedGaugeIsSmallestWithinLimit | src/electricalCalculations.ts:64-87 | For a result meeting `SizedFor`: when feasible, the ladder sections that keep the drop within the limit are exactly those at least as large as the suggestion. When infeasible, no ladder section does. |
| ElectricalCalculations.ExactSectionMonotone | src/electricalCalculations.ts:59-69 | With valid inputs, the exact section and the floored section do not decrease as current or distance rise. They do not increase as voltage or allowed percentage rise. |
| ElectricalCalculations.SuggestedGaugeMonotone | src/electricalCalculations.ts:59-80 | For results meeting `SizedFor`, a more demanding valid input never gets a smaller suggested section. If the more demanding input is feasible, so is the less demanding one. |
| ElectricalCalculationsExamples.Example220Volts30Amps | src/electricalCalculations.ts:57-97 | 220 V, 30 A, 50 m and 4 % allow 8.8 V and need 129/22 mm². The result is 6 mm², a drop of 8.6 V (43/11 %), and feasible. |
| ElectricalCalculationsExamples.Example127Volts60Amps | src/electricalCalculations.ts:57-80 | 127 V, 60 A, 100 m and 3 % need between 54.17 and 54.18 mm². The result is 70 mm² and feasible. |
| ElectricalCalculationsExamples.ExampleBeyondLadder | src/electricalCalculations.ts:57-80 | 220 V, 200 A, 500 m and 4 % need between 390.9 and 391 mm². The result is 95 mm² and infeasible. |
| ElectricalCalculationsExamples.ExampleZeroCurrent | src/electricalCalculations.ts:46-54 | Zero current yields the zeroed, infeasible result. |

## Left out

- Number formatting with `toFixed(2)` (src/electricalCalculations.ts:94-96) is not modelled. The three text fields of the result are kept as the exact numbers they would be formatted from. The `"0"` texts of the invalid-input result are the number 0.
- IEEE-754 double arithmetic is not modelled; all quantities are exact reals. Where the exact section lies on a ladder entry, a double rounding error in the source may select the next entry. The exact model does not reproduce that.
- NaN and infinite inputs are not modelled, because reals cannot express them. The source guards only against values `<= 0`.
- The user interface, its form state, the locale display of the gauge and the PDF export (src/App.tsx) are not modelled. They are presentation code and foreign libraries outside the calculation.
- Calling the calculation twice with the same input gives the same result. This needs no lemma, because every member is a pure function.

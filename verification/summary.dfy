/** The decision rule and the whole run of the engine, from the event log
    to the report it produces. */
module Summary {
  import opened Events
  import opened Cohort
  import opened Retention
  import opened AbTest
  import opened Curves

  /** The significance threshold, compared strictly. */
  const Alpha: real := 0.05

  const SignificantDecision: string := "Variant B is better (statistically significant)"
  const LiftOnlyDecision: string := "Variant B shows lift, but not statistically significant"
  const NoDifferenceDecision: string := "No significant difference yet"

  /** `decision`: a significant p-value wins; otherwise a computed lift;
      otherwise the default. */
  method Decide(p: Option<real>, lift: Option<real>) returns (decision: string)
    ensures decision == SignificantDecision <==> p.Some? && p.value < Alpha
    ensures decision == LiftOnlyDecision <==> !(p.Some? && p.value < Alpha) && lift.Some?
    ensures decision == NoDifferenceDecision <==> !(p.Some? && p.value < Alpha) && lift.None?
  {
    decision := NoDifferenceDecision;
    if p.Some? && p.value < Alpha {
      decision := SignificantDecision;
    } else if lift.Some? {
      decision := LiftOnlyDecision;
    }
  }

  /** What one run produces: the user count, D1 and D7 retention, the A/B
      table, lift and p-value, the curve frame and the decision. */
  datatype Report = Report(
    users: nat, d1: real, d7: real, ab: seq<Row>,
    lift: Option<real>, p: Option<real>, curves: CurveFrame, decision: string)

  /** The A/B section: the table, then lift and p-value when both "A" and
      "B" are present. */
  method AbSection(log: seq<Event>, chiSquareP: Contingency -> real) returns (ab: seq<Row>, lift: Option<real>, p: Option<real>)
    ensures ab == AbTable(log)
    ensures lift.Some? <==> "A" in SignupVariants(log) && "B" in SignupVariants(log)
    ensures p.Some? <==> lift.Some?
    ensures lift.Some? ==> lift.value == VariantRow(log, "B").pct - VariantRow(log, "A").pct
    ensures p.Some? ==>
      var c := ContingencyOf(VariantRow(log, "A"), VariantRow(log, "B"));
      && p.value == chiSquareP(c)
      && 0 <= c.a.retained && 0 <= c.a.notRetained && 0 <= c.b.retained && 0 <= c.b.notRetained
  {
    ab := ComputeAbTable(log);
    lift, p := CompareVariants(ab, chiSquareP);
    LookupInTable(log, "A");
    LookupInTable(log, "B");
    if lift.Some? {
      VariantRowFacts(log, "A");
      VariantRowFacts(log, "B");
    }
  }

  /** The curves section: the overall curve, one curve per variant, and the
      frame with a `retention_<variant>` column per variant in label order. */
  method CurveSection(log: seq<Event>) returns (frame: CurveFrame)
    ensures frame.day == Days && frame.overallRetention == OverallCurve(log)
    ensures |frame.columns| == |Variants(log)|
    ensures forall i :: 0 <= i < |Variants(log)| ==>
      frame.columns[i] == Column(RetentionColumn(Variants(log)[i]), CohortCurve(log, Variants(log)[i]))
  {
    var variants := Variants(log);
    var overall := OverallCurve(log);
    var variantCurves := VariantCurves(log, variants);
    frame := CurveTable(overall, variants, variantCurves);
    assert DistinctLabels(variants) by {
      VariantsSortedAndComplete(log);
    }
    CurveColumnsElements(variantCurves, variants, |variants|);
  }

  /** The script from the merge to the decision, with the chi-square test
      given as `chiSquareP`. */
  method Run(log: seq<Event>, chiSquareP: Contingency -> real) returns (report: Report)
    ensures report.users == |SignupUsers(log)|
    ensures report.d1 == DayRetention(log, 1) && report.d7 == DayRetention(log, 7)
    ensures 0.0 <= report.d1 <= 1.0 && 0.0 <= report.d7 <= 1.0
    ensures report.ab == AbTable(log)
    ensures report.lift.Some? <==> "A" in SignupVariants(log) && "B" in SignupVariants(log)
    ensures report.p.Some? <==> report.lift.Some?
    ensures report.lift.Some? ==> report.lift.value == VariantRow(log, "B").pct - VariantRow(log, "A").pct
    ensures report.p.Some? ==>
      var c := ContingencyOf(VariantRow(log, "A"), VariantRow(log, "B"));
      && report.p.value == chiSquareP(c)
      && 0 <= c.a.retained && 0 <= c.a.notRetained && 0 <= c.b.retained && 0 <= c.b.notRetained
    ensures report.curves.day == Days && report.curves.overallRetention == OverallCurve(log)
    ensures |report.curves.columns| == |Variants(log)|
    ensures forall i :: 0 <= i < |Variants(log)| ==>
      report.curves.columns[i] == Column(RetentionColumn(Variants(log)[i]), CohortCurve(log, Variants(log)[i]))
    ensures report.decision == SignificantDecision <==> report.p.Some? && report.p.value < Alpha
    ensures report.decision == LiftOnlyDecision <==> !(report.p.Some? && report.p.value < Alpha) && report.lift.Some?
    ensures report.decision == SignificantDecision ==> "A" in SignupVariants(log) && "B" in SignupVariants(log)
    ensures !("A" in SignupVariants(log) && "B" in SignupVariants(log)) ==> report.decision == NoDifferenceDecision
  {
    var d1 := DayRetention(log, 1);
    var d7 := DayRetention(log, 7);
    var ab, lift, p := AbSection(log, chiSquareP);
    var frame := CurveSection(log);
    var decision := Decide(p, lift);
    report := Report(|SignupUsers(log)|, d1, d7, ab, lift, p, frame, decision);
  }
}

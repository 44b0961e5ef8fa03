/** The A/B test runner: counts, rates and relative change of a control and a
    treatment frame on one outcome column, and the sorted posterior of the
    rate difference assembled from the given Beta draws. */
module AbTest {
  import opened Frames
  import opened Counting
  import opened Posterior

  datatype Result<T> = Success(value: T) | Failure(error: AbError)

  /** Which of the two frames an error concerns. */
  datatype Role = ControlFrame | TreatmentFrame

  /** Selecting an outcome column that a frame lacks (a key error), and
      dividing by the size of an empty frame (a division by zero). */
  datatype AbError = MissingColumn(column: string) | DivisionByZero(group: Role)

  /** Number of Beta draws per group. */
  const SampleSize := 100000

  /** Everything the runner computes before sampling. */
  datatype Summary = Summary(
    control: GroupCounts,
    treatment: GroupCounts,
    controlRate: real,
    treatmentRate: real,
    participants: nat,
    percentChange: real,
    controlShape: BetaShape,
    treatmentShape: BetaShape)

  /** The counting, rate and relative-change steps, failing where the runner
      fails: a missing column in the control frame, then in the treatment
      frame, then an empty control frame, then an empty treatment frame. */
  function Summarize(controlDf: Frame, treatmentDf: Frame, column: string): (r: Result<Summary>)
    ensures r.Success? <==>
              HasColumn(controlDf, column) && HasColumn(treatmentDf, column) &&
              |controlDf| > 0 && |treatmentDf| > 0
    ensures !HasColumn(controlDf, column) ==> r == Failure(MissingColumn(column))
    ensures HasColumn(controlDf, column) && !HasColumn(treatmentDf, column) ==>
              r == Failure(MissingColumn(column))
    ensures HasColumn(controlDf, column) && HasColumn(treatmentDf, column) && |controlDf| == 0 ==>
              r == Failure(DivisionByZero(ControlFrame))
    ensures HasColumn(controlDf, column) && HasColumn(treatmentDf, column) &&
            |controlDf| > 0 && |treatmentDf| == 0 ==>
              r == Failure(DivisionByZero(TreatmentFrame))
    ensures r.Success? ==>
              var s := r.value;
              s.control.size == |controlDf| && s.treatment.size == |treatmentDf| &&
              s.participants == s.control.size + s.treatment.size &&
              s.control.successes + s.control.failures == s.control.size &&
              s.treatment.successes + s.treatment.failures == s.treatment.size &&
              s.controlRate * (|controlDf| as real) == s.control.successes as real &&
              s.treatmentRate * (|treatmentDf| as real) == s.treatment.successes as real
    ensures r.Success? ==>
              var s := r.value;
              s.control == Count(Column(controlDf, column)) &&
              s.treatment == Count(Column(treatmentDf, column)) &&
              s.percentChange == PercentChange(s.controlRate, s.treatmentRate) &&
              s.controlShape == PosteriorShape(s.control) &&
              s.treatmentShape == PosteriorShape(s.treatment)
  {
    if !HasColumn(controlDf, column) then Failure(MissingColumn(column))
    else if !HasColumn(treatmentDf, column) then Failure(MissingColumn(column))
    else
      var a := Count(Column(controlDf, column));
      var b := Count(Column(treatmentDf, column));
      if a.size == 0 then Failure(DivisionByZero(ControlFrame))
      else if b.size == 0 then Failure(DivisionByZero(TreatmentFrame))
      else
        var controlRate := Rate(a);
        var treatmentRate := Rate(b);
        RateTimesSize(a);
        RateTimesSize(b);
        Success(Summary(a, b, controlRate, treatmentRate, a.size + b.size,
                        PercentChange(controlRate, treatmentRate),
                        PosteriorShape(a), PosteriorShape(b)))
  }

  /** With binary outcome columns, both rates lie in [0, 1], the counts are
      within the group sizes, the relative change is 0 when either group has
      no successes, and each Beta shape's first parameter is at least 1. */
  lemma SummaryBounds(controlDf: Frame, treatmentDf: Frame, column: string)
    requires Summarize(controlDf, treatmentDf, column).Success?
    requires Binary(Column(controlDf, column)) && Binary(Column(treatmentDf, column))
    ensures var s := Summarize(controlDf, treatmentDf, column).value;
            0.0 <= s.controlRate <= 1.0 && 0.0 <= s.treatmentRate <= 1.0 &&
            0 <= s.control.successes <= s.control.size && s.control.failures >= 0 &&
            0 <= s.treatment.successes <= s.treatment.size && s.treatment.failures >= 0 &&
            (s.control.successes == 0 || s.treatment.successes == 0 ==> s.percentChange == 0.0) &&
            s.controlShape.alpha >= 1 && s.treatmentShape.alpha >= 1
  {
    RateBounds(Column(controlDf, column));
    RateBounds(Column(treatmentDf, column));
  }

  /** The runner: on the same failures as `Summarize`, fails; otherwise
      returns the posterior assembled from the two groups' draws and the
      control group's number of successes. */
  method PerformAbTest(controlDf: Frame, treatmentDf: Frame, column: string,
                       drawsControl: seq<real>, drawsTreatment: seq<real>)
    returns (r: Result<(seq<real>, int)>)
    requires |drawsControl| == SampleSize && |drawsTreatment| == SampleSize
    ensures Summarize(controlDf, treatmentDf, column).Failure? ==>
              r == Failure(Summarize(controlDf, treatmentDf, column).error)
    ensures Summarize(controlDf, treatmentDf, column).Success? ==>
              r.Success? &&
              |r.value.0| == SampleSize &&
              Sorted(r.value.0) &&
              multiset(r.value.0) == multiset(Differences(drawsTreatment, drawsControl)) &&
              r.value.1 == Summarize(controlDf, treatmentDf, column).value.control.successes
  {
    var summary := Summarize(controlDf, treatmentDf, column);
    if summary.Failure? {
      return Failure(summary.error);
    }
    var posterior := AssemblePosterior(drawsControl, drawsTreatment);
    return Success((posterior, summary.value.control.successes));
  }
}

/** Per-group arithmetic of the A/B test: success and failure counts,
    conversion rates, the relative change between them and the Beta shape
    parameters of each group's posterior. */
module Counting {

  /** An outcome column is binary when every value is 0 or 1. */
  predicate Binary(col: seq<int>)
  {
    forall i :: 0 <= i < |col| ==> col[i] == 0 || col[i] == 1
  }

  /** The sum of a column. */
  function Sum(col: seq<int>): int
  {
    if col == [] then 0 else col[0] + Sum(col[1..])
  }

  /** The sum of a binary column counts its ones; its zeros are the rest. */
  lemma {:induction false} SumOfBinary(col: seq<int>)
    requires Binary(col)
    ensures Sum(col) == multiset(col)[1]
    ensures |col| - Sum(col) == multiset(col)[0]
    ensures 0 <= Sum(col) <= |col|
  {
    if col != [] {
      SumOfBinary(col[1..]);
      assert col == [col[0]] + col[1..];
    }
  }

  /** A group's size, number of successes and number of failures. */
  datatype GroupCounts = GroupCounts(size: nat, successes: int, failures: int)

  /** Successes are the sum of the outcome column, failures the group size
      minus the successes. */
  function Count(col: seq<int>): (g: GroupCounts)
    ensures g.size == |col|
    ensures g.successes + g.failures == g.size
    ensures Binary(col) ==> 0 <= g.successes <= g.size && g.failures >= 0
    ensures Binary(col) ==> g.successes == multiset(col)[1] && g.failures == multiset(col)[0]
  {
    var g := GroupCounts(|col|, Sum(col), |col| - Sum(col));
    if Binary(col) then SumOfBinary(col); g else g
  }

  /** The conversion rate of a non-empty group. */
  function Rate(g: GroupCounts): real
    requires g.size > 0
  {
    g.successes as real / g.size as real
  }

  /** For counts of a binary column, the rate lies in [0, 1]; it is 0 exactly
      when there are no successes and 1 exactly when there are no failures. */
  lemma RateBounds(col: seq<int>)
    requires Binary(col) && |col| > 0
    ensures 0.0 <= Rate(Count(col)) <= 1.0
    ensures Rate(Count(col)) == 0.0 <==> Count(col).successes == 0
    ensures Rate(Count(col)) == 1.0 <==> Count(col).failures == 0
  {
    var g := Count(col);
    FractionBounds(g.successes as real, g.size as real);
  }

  /** A fraction of a positive whole lies between 0 and 1. */
  lemma FractionBounds(part: real, whole: real)
    requires 0.0 <= part <= whole && whole > 0.0
    ensures 0.0 <= part / whole <= 1.0
    ensures part / whole == 0.0 <==> part == 0.0
    ensures part / whole == 1.0 <==> part == whole
  {
    var q := part / whole;
    assert q * whole == part;
  }

  /** A rate scaled back by its group size gives the number of successes. */
  lemma RateTimesSize(g: GroupCounts)
    requires g.size > 0
    ensures Rate(g) * (g.size as real) == g.successes as real
  {
  }

  /** The reported relative change of the treatment rate over the control
      rate: 0 when either rate is 0, otherwise treatment / control - 1. */
  function PercentChange(controlRate: real, treatmentRate: real): (r: real)
    ensures controlRate == 0.0 || treatmentRate == 0.0 ==> r == 0.0
    ensures controlRate != 0.0 && treatmentRate != 0.0 ==> controlRate * (1.0 + r) == treatmentRate
    ensures controlRate > 0.0 && treatmentRate > 0.0 ==> r > -1.0
    ensures controlRate > 0.0 && treatmentRate > 0.0 ==>
              (r > 0.0 <==> treatmentRate > controlRate) &&
              (r == 0.0 <==> treatmentRate == controlRate) &&
              (r < 0.0 <==> treatmentRate < controlRate)
  {
    if controlRate == 0.0 || treatmentRate == 0.0 then 0.0
    else treatmentRate / controlRate - 1.0
  }

  /** Shape parameters of a Beta distribution. */
  datatype BetaShape = BetaShape(alpha: int, beta: int)

  /** Each group's posterior is sampled from Beta(successes + 1, failures). */
  function PosteriorShape(g: GroupCounts): BetaShape
  {
    BetaShape(g.successes + 1, g.failures)
  }

  /** For a binary column the first shape parameter is at least 1, and the
      second is 0 exactly when every row succeeded: the one case in which
      the shape is not strictly positive. */
  lemma PosteriorShapeDegenerate(col: seq<int>)
    requires Binary(col)
    ensures PosteriorShape(Count(col)).alpha >= 1
    ensures PosteriorShape(Count(col)).alpha + PosteriorShape(Count(col)).beta == |col| + 1
    ensures PosteriorShape(Count(col)).beta >= 0
    ensures PosteriorShape(Count(col)).beta == 0 <==> forall i :: 0 <= i < |col| ==> col[i] == 1
  {
  }
}

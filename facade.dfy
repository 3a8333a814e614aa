/** algorithmArgumentFacade (algorithm/helper.js): validate, then hand the engine a Points object. */
module Facade {
  import opened Wrappers
  import opened Interface
  import opened Checks
  import opened ModeCast
  import opened PointsInterface

  /**
    The part of `algorithmArgumentFacade(algorithm)(points)` before the
    engine runs. When checkPoints throws, its error is the result and no
    Points object (hence no engine run) exists; otherwise the engine
    receives `new Points(points)`, which holds at least three normalised
    points.
  */
  method AlgorithmArgumentFacade(input: Input) returns (r: Result<Points, Error>)
    ensures CheckArgumentCorrect(input).Fail? ==> r == Failure(CheckArgumentCorrect(input).error)
    ensures CheckArgumentCorrect(input).Pass? ==> r.Success?
    ensures r.Success? ==> input.Items? && r.value.size == |input.items| >= 3
    ensures r.Success? ==> r.value.mode != ErrorMode && Normalizes(input.items, r.value.values)
  {
    var check := CheckArgumentCorrect(input);
    if check.Fail? {
      return Failure(check.error);
    }
    PointsModeCharacterised(input.items);
    r := Points.FromItems(input.items);
  }
}

/** The Points wrapper (interface/points.js) the legacy engines receive. */
module PointsInterface {
  import opened Wrappers
  import opened Geometry
  import opened Interface
  import opened Checks
  import opened ModeCast

  /** A validated, normalised set of points: its mode, its {x, y} values and their number. */
  class Points {
    const mode: PointsMode
    const values: seq<Point>
    const size: nat

    constructor (mode: PointsMode, values: seq<Point>)
      ensures this.mode == mode && this.values == values && size == |values|
    {
      this.mode := mode;
      this.values := values;
      this.size := |values|;
    }

    /**
      `new Points(points)`: determines the mode, casts the items and counts
      the values. An ERROR mode makes the cast throw.
    */
    static method FromItems(items: seq<Item>) returns (r: Result<Points, Error>)
      ensures PointsModeOf(items).Failure? ==> r == Failure(PointsModeOf(items).error)
      ensures PointsModeOf(items) == Success(ErrorMode) ==> r == Failure(ModeCastError(ErrorMode, Str("object")))
      ensures r.Success? <==> PointsModeOf(items).Success? && PointsModeOf(items).value != ErrorMode
      ensures r.Success? ==> r.value.mode == PointsModeOf(items).value
      ensures r.Success? ==> r.value.size == |items| && Normalizes(items, r.value.values)
    {
      var mode := DeterminePointsMode(items);
      if mode.Failure? {
        return Failure(mode.error);
      }
      PointsModeCharacterised(items);
      var values := CastToObjectMode(items, mode.value);
      if values.Failure? {
        return Failure(values.error);
      }
      var p := new Points(mode.value, values.value);
      return Success(p);
    }
  }
}

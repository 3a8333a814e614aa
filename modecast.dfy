/**
  Normalisation (util/mode-cast.js): object items are kept as they are,
  pairs become new {x, y} points.
*/
module ModeCast {
  import opened Wrappers
  import opened Geometry
  import opened Interface
  import opened Checks

  /** The branch castToObjectMode takes. */
  datatype CastPath = CopyObjects | ConvertPairs | Throw(error: Error)

  /**
    The comparisons of castToObjectMode, given the values its `POINTS_MODE.OBJECT`
    and `POINTS_MODE.ITERABLE` evaluate to.
  */
  function CastBranch(mode: PointsMode, objectConst: JsValue, iterableConst: JsValue): CastPath
  {
    if Str(ModeName(mode)) == objectConst then CopyObjects
    else if Str(ModeName(mode)) == iterableConst then ConvertPairs
    else Throw(ModeCastError(mode, objectConst))
  }

  /**
    As written, mode-cast.js binds POINTS_MODE to the whole module object of
    util/interface.js, so both constants are undefined and every mode,
    including the two real ones, reaches the throw.
  */
  lemma AsWrittenAlwaysThrows(mode: PointsMode)
    ensures CastBranch(mode, InterfaceExports("OBJECT"), InterfaceExports("ITERABLE"))
         == Throw(ModeCastError(mode, Undefined))
  {
  }

  /** With the frozen mode table bound, OBJECT copies, ITERABLE converts and only ERROR throws. */
  lemma CorrectedBranches(mode: PointsMode)
    ensures CastBranch(mode, PointsModeTable("OBJECT"), PointsModeTable("ITERABLE"))
         == match mode
            case ObjectMode => CopyObjects
            case IterableMode => ConvertPairs
            case ErrorMode => Throw(ModeCastError(ErrorMode, Str("object")))
  {
  }

  /** p is what the normalisation makes of item. */
  predicate Normal(item: Item, p: Point)
  {
    match item
    case Obj(q) => p == q
    case Iter(elems) => |elems| >= 2 && p.x == elems[0] && p.y == elems[1]
    case _ => false
  }

  /** values is the item-by-item normalisation of items, in the same order. */
  predicate Normalizes(items: seq<Item>, values: seq<Point>)
  {
    |values| == |items| && forall i :: 0 <= i < |items| ==> Normal(items[i], values[i])
  }

  /** castPointFromIterableToObject: a new point from the first two elements only. */
  method CastPointFromIterableToObject(elems: seq<int>) returns (p: Point)
    requires |elems| >= 2
    ensures fresh(p)
    ensures p.x == elems[0] && p.y == elems[1]
  {
    p := new Point(elems[0], elems[1]);
  }

  /**
    castToObjectMode, with the mode constants bound as intended. OBJECT mode
    keeps the very same item objects; ITERABLE mode makes a new point per pair,
    so even coordinate-equal pairs become distinct points.
  */
  method CastToObjectMode(items: seq<Item>, mode: PointsMode) returns (r: Result<seq<Point>, Error>)
    requires mode == ObjectMode ==> AllObjects(items)
    requires mode == IterableMode ==> AllPairs(items)
    ensures r.Failure? <==> mode == ErrorMode
    ensures r.Failure? ==> r.error == ModeCastError(mode, Str("object"))
    ensures r.Success? ==> Normalizes(items, r.value)
    ensures r.Success? && mode == IterableMode ==> Distinct(r.value)
    ensures r.Success? && mode == IterableMode ==> forall i :: 0 <= i < |r.value| ==> fresh(r.value[i])
  {
    CorrectedBranches(mode);
    match CastBranch(mode, PointsModeTable("OBJECT"), PointsModeTable("ITERABLE"))
    case CopyObjects =>
      r := Success(seq(|items|, i requires 0 <= i < |items| => items[i].point));
    case ConvertPairs =>
      var values: seq<Point> := [];
      for i := 0 to |items|
        invariant |values| == i
        invariant forall k :: 0 <= k < i ==> Normal(items[k], values[k])
        invariant Distinct(values)
        invariant forall k :: 0 <= k < i ==> fresh(values[k])
      {
        var p := CastPointFromIterableToObject(items[i].elems);
        values := values + [p];
      }
      r := Success(values);
    case Throw(e) =>
      r := Failure(e);
  }
}

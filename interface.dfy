/**
  The frozen constants of the repository and the errors it throws: the
  points modes (util/points-mode.js and util/interface.js), the shape of the
  util/interface.js module object, and the error kinds of util/error.js.
*/
module Interface {

  /** POINTS_MODE: how the items of an input are shaped. */
  datatype PointsMode = IterableMode | ObjectMode | ErrorMode

  /** The string each mode constant holds. */
  function ModeName(m: PointsMode): string
  {
    match m
    case IterableMode => "iterable"
    case ObjectMode => "object"
    case ErrorMode => "error"
  }

  /** The few JavaScript values the mode lookups can produce. */
  datatype JsValue = Undefined | Str(s: string) | ModeTable

  /** A property of the frozen POINTS_MODE object. */
  function PointsModeTable(key: string): JsValue
  {
    if key == "ITERABLE" then Str(ModeName(IterableMode))
    else if key == "OBJECT" then Str(ModeName(ObjectMode))
    else if key == "ERROR" then Str(ModeName(ErrorMode))
    else Undefined
  }

  /** A property of the object util/interface.js exports, `{ POINTS_MODE }`. */
  function InterfaceExports(key: string): JsValue
  {
    if key == "POINTS_MODE" then ModeTable else Undefined
  }

  /** The error kinds, one per error class; TypeError is the runtime's own. */
  datatype Error =
    | EmptyArgument
    | NotIterableArgument
    | ArgumentSize
    | PointsModeCantBeDetermined
    | ModeCastError(fromMode: PointsMode, toMode: JsValue)
    | TypeError
}

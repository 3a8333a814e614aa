/**
  Input validation (util/checks.js): the ordered guards of
  checkArgumentCorrect and the classification of items into one points mode.
*/
module Checks {
  import opened Wrappers
  import opened Geometry
  import opened Interface

  /**
    One item of the raw input, as the runtime checks of the source see it.
    Obj is an object whose x and y are numbers; Record any other object that
    is not iterable; Iter an iterable (array, Set, ...) of numbers; Scalar a
    number or boolean; Nullish null or undefined.
  */
  datatype Item =
    | Obj(point: Point)
    | Record
    | Iter(elems: seq<int>)
    | Scalar
    | Nullish

  /** The raw argument: falsy, truthy but not iterable, or an iterable of items. */
  datatype Input = Falsy | NotIterable | Items(items: seq<Item>)

  /**
    detectPointMode: an object with numeric x and y is OBJECT (this test comes
    first), otherwise an iterable of length two is ITERABLE, anything else is
    ERROR. Asking null or undefined for its iterator throws a TypeError.
  */
  function DetectPointMode(item: Item): (r: Result<PointsMode, Error>)
    ensures r.Failure? <==> item.Nullish?
    ensures r.Failure? ==> r.error == TypeError
    ensures r == Success(ObjectMode) <==> item.Obj?
    ensures r == Success(IterableMode) <==> item.Iter? && |item.elems| == 2
  {
    match item
    case Obj(_) => Success(ObjectMode)
    case Iter(elems) => Success(if |elems| == 2 then IterableMode else ErrorMode)
    case Record => Success(ErrorMode)
    case Scalar => Success(ErrorMode)
    case Nullish => Failure(TypeError)
  }

  /** The ITERABLE test looks at the length of an iterable only, never at its elements. */
  lemma IterableIgnoresElements(a: seq<int>, b: seq<int>)
    requires |a| == |b|
    ensures DetectPointMode(Iter(a)) == DetectPointMode(Iter(b))
  {
  }

  /** detectPointsMode: the only element of a one-element set of modes, ERROR otherwise. */
  function DetectPointsMode(modes: set<PointsMode>): (m: PointsMode)
    ensures |modes| == 1 ==> modes == {m}
    ensures |modes| != 1 ==> m == ErrorMode
  {
    SingletonSet(modes);
    if modes == {ObjectMode} then ObjectMode
    else if modes == {IterableMode} then IterableMode
    else ErrorMode
  }

  /** A one-element set of modes is one of the three singletons. */
  lemma SingletonSet(modes: set<PointsMode>)
    ensures |modes| == 1 ==> modes == {ObjectMode} || modes == {IterableMode} || modes == {ErrorMode}
  {
    if |modes| == 1 {
      var m :| m in modes;
      assert modes - {m} == {} by {
        assert |modes - {m}| == 0;
      }
      assert modes == {m};
      match m
      case ObjectMode =>
      case IterableMode =>
      case ErrorMode =>
    }
  }

  /** The modes of the items, when no item is null or undefined. */
  function ModesOf(items: seq<Item>): set<PointsMode>
    requires forall i :: 0 <= i < |items| ==> !items[i].Nullish?
  {
    set i | 0 <= i < |items| :: DetectPointMode(items[i]).value
  }

  /** determinePointsMode, as a value: the first null item throws; otherwise the modes collapse. */
  function PointsModeOf(items: seq<Item>): Result<PointsMode, Error>
  {
    if exists i :: 0 <= i < |items| && items[i].Nullish? then Failure(TypeError)
    else Success(DetectPointsMode(ModesOf(items)))
  }

  /** determinePointsMode: gathers the mode of every item into a set, then collapses it. */
  method DeterminePointsMode(items: seq<Item>) returns (r: Result<PointsMode, Error>)
    ensures r == PointsModeOf(items)
  {
    var modes: set<PointsMode> := {};
    for i := 0 to |items|
      invariant forall j :: 0 <= j < i ==> !items[j].Nullish?
      invariant modes == set j | 0 <= j < i :: DetectPointMode(items[j]).value
    {
      var m := DetectPointMode(items[i]);
      if m.Failure? {
        return Failure(m.error);
      }
      modes := modes + {m.value};
    }
    return Success(DetectPointsMode(modes));
  }

  predicate AllObjects(items: seq<Item>)
  {
    forall i :: 0 <= i < |items| ==> items[i].Obj?
  }

  predicate AllPairs(items: seq<Item>)
  {
    forall i :: 0 <= i < |items| ==> items[i].Iter? && |items[i].elems| == 2
  }

  /**
    The input is in OBJECT mode exactly when it is non-empty and every item is
    an object point, in ITERABLE mode exactly when it is non-empty and every
    item is a pair; every other input without null items is ERROR.
  */
  lemma {:induction false} PointsModeCharacterised(items: seq<Item>)
    ensures PointsModeOf(items) == Success(ObjectMode) <==> |items| > 0 && AllObjects(items)
    ensures PointsModeOf(items) == Success(IterableMode) <==> |items| > 0 && AllPairs(items)
  {
    if exists i :: 0 <= i < |items| && items[i].Nullish? {
      var i :| 0 <= i < |items| && items[i].Nullish?;
      assert !items[i].Obj? && !items[i].Iter?;
    } else {
      var modes := ModesOf(items);
      if |items| > 0 && AllObjects(items) {
        assert DetectPointMode(items[0]).value in modes;
        assert modes == {ObjectMode};
      } else if |items| > 0 && AllPairs(items) {
        assert DetectPointMode(items[0]).value in modes;
        assert modes == {IterableMode};
      } else if |items| == 0 {
        assert modes == {};
      } else {
        var k :| 0 <= k < |items| && !items[k].Obj?;
        var l :| 0 <= l < |items| && !(items[l].Iter? && |items[l].elems| == 2);
        assert DetectPointMode(items[k]).value in modes;
        assert DetectPointMode(items[l]).value in modes;
        if |modes| == 1 {
          SingletonSet(modes);
        }
      }
    }
  }

  /** Mixing an object point with a pair gives ERROR. */
  lemma MixedShapesAreError(items: seq<Item>, i: nat, j: nat)
    requires i < |items| && j < |items|
    requires items[i].Obj? && items[j].Iter? && |items[j].elems| == 2
    requires forall k :: 0 <= k < |items| ==> !items[k].Nullish?
    ensures PointsModeOf(items) == Success(ErrorMode)
  {
    PointsModeCharacterised(items);
    assert !AllObjects(items) && !AllPairs(items);
  }

  /** The mode depends only on which items occur, not on their order or repetition. */
  lemma {:induction false} PointsModeOrderFree(a: seq<Item>, b: seq<Item>)
    requires forall it :: it in a <==> it in b
    ensures PointsModeOf(a) == PointsModeOf(b)
  {
    var nullA := exists i :: 0 <= i < |a| && a[i].Nullish?;
    var nullB := exists i :: 0 <= i < |b| && b[i].Nullish?;
    if nullA {
      var i :| 0 <= i < |a| && a[i].Nullish?;
      assert a[i] in b;
    }
    if nullB {
      var i :| 0 <= i < |b| && b[i].Nullish?;
      assert b[i] in a;
    }
    if !nullA && !nullB {
      forall m | m in ModesOf(a) ensures m in ModesOf(b) {
        var i :| 0 <= i < |a| && DetectPointMode(a[i]).value == m;
        assert a[i] in b;
        var j :| 0 <= j < |b| && b[j] == a[i];
      }
      forall m | m in ModesOf(b) ensures m in ModesOf(a) {
        var j :| 0 <= j < |b| && DetectPointMode(b[j]).value == m;
        assert b[j] in a;
        var i :| 0 <= i < |a| && a[i] == b[j];
      }
      assert ModesOf(a) == ModesOf(b);
    }
  }

  /**
    checkArgumentCorrect: falsy input, then a non-iterable, then fewer than
    three items, then an undeterminable mode are rejected, in that order.
  */
  function CheckArgumentCorrect(input: Input): (r: Outcome<Error>)
    ensures r == Pass <==> input.Items? && |input.items| >= 3 && (AllObjects(input.items) || AllPairs(input.items))
  {
    PassesWhenUniform(input);
    match input
    case Falsy => Fail(EmptyArgument)
    case NotIterable => Fail(NotIterableArgument)
    case Items(items) =>
      if |items| < 3 then Fail(ArgumentSize)
      else match PointsModeOf(items)
        case Failure(e) => Fail(e)
        case Success(m) => if m == ErrorMode then Fail(PointsModeCantBeDetermined) else Pass
  }

  lemma PassesWhenUniform(input: Input)
    ensures input.Items? && |input.items| >= 3 ==>
      (PointsModeOf(input.items).Success? && PointsModeOf(input.items).value != ErrorMode
       <==> AllObjects(input.items) || AllPairs(input.items))
  {
    if input.Items? && |input.items| >= 3 {
      var items := input.items;
      PointsModeCharacterised(items);
      if PointsModeOf(items).Success? && PointsModeOf(items).value != ErrorMode {
        var m := PointsModeOf(items).value;
        assert m == ObjectMode || m == IterableMode;
      }
    }
  }

  /**
    An empty array is truthy and iterable, so it fails the size guard rather
    than the emptiness guard; a short input is rejected for its size before
    its items are looked at.
  */
  lemma GuardOrder(items: seq<Item>)
    requires |items| < 3
    ensures CheckArgumentCorrect(Items([])) == Fail(ArgumentSize)
    ensures CheckArgumentCorrect(Items(items)) == Fail(ArgumentSize)
    ensures CheckArgumentCorrect(Falsy) == Fail(EmptyArgument)
    ensures CheckArgumentCorrect(NotIterable) == Fail(NotIterableArgument)
  {
  }

  /**
    A null or undefined item among three or more makes determinePointsMode
    call isIterable on it, which throws a TypeError before the mode guard.
  */
  lemma NullishItemThrows(items: seq<Item>, i: int)
    requires |items| >= 3 && 0 <= i < |items| && items[i].Nullish?
    ensures CheckArgumentCorrect(Items(items)) == Fail(TypeError)
  {
  }

  /** An input of three or more items that are neither all objects nor all pairs fails on its mode. */
  lemma ModeGuard(items: seq<Item>)
    requires |items| >= 3 && !AllObjects(items) && !AllPairs(items)
    requires forall k :: 0 <= k < |items| ==> !items[k].Nullish?
    ensures CheckArgumentCorrect(Items(items)) == Fail(PointsModeCantBeDetermined)
  {
    PointsModeCharacterised(items);
    var m := DetectPointsMode(ModesOf(items));
    assert m != ObjectMode && m != IterableMode;
  }
}

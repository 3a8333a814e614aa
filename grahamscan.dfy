/**
  The "Graham scan" engine: the TypeScript copy, its JavaScript twin under
  algorithms/ and the legacy copy under algorithm/ that runs on
  `points.values` behind the argument facade. Despite its name the engine
  walks the hull like a gift wrapper: it starts at the lowest-leftmost
  point, takes the point of smallest non-negative polar angle to its right,
  and then repeatedly appends the point of smallest turn cosine until it
  comes back to the start.

  `polarAngle` (atan2 in degrees) and `calcCos` (square roots and a
  division) are floating-point helpers; they are parameters of the model,
  so every property holds whatever functions are supplied. The three
  copies differ only in their "nothing found yet" sentinels, which are
  parameters too; `CopiesAgree` shows the sentinels never matter for an
  angle function bounded by 180 and a cosine bounded by 1.
*/
module GrahamScan {
  import opened Wrappers
  import opened Geometry
  import opened Interface
  import opened Checks
  import opened ModeCast
  import opened PointsInterface
  import opened Facade

  /** `Number.MAX_VALUE`, (2^53 - 1) * 2^971: both sentinels of the TypeScript copy. */
  const MaxValue: real := 179769313486231570814527423731704356798070567525844996598917476803157260780028538760589558632766878171540458953514382464234321326889464182768467546703537516986049910576551282076245490090389328944075868508455133942304583236903222948165808559332123348274797826204144723168738177180919299881250404026184124858368.0

  /** `Number.MAX_SAFE_INTEGER`: both sentinels of the JavaScript copy. */
  const MaxSafeInteger: real := 9007199254740991.0

  /** The legacy copy's sentinel for the polar angle. */
  const LegacyAngleBound: real := 1000000.0

  /** The legacy copy's sentinel for the turn cosine. */
  const LegacyCosBound: real := 10000000.0

  /** `polarAngle`: the angle of a point seen from the origin. */
  type Angle = Point -> real

  /** `calcCos(a, b, c)`: the negated cosine between the segments ab and bc. */
  type TurnCosine = (Point, Point, Point) -> real

  // ---------------------------------------------------------------------
  // getFirstPoint
  // ---------------------------------------------------------------------

  /** The ordering getFirstPoint minimises: smaller x, then smaller y. */
  predicate LexLess(p: Point, q: Point)
  {
    p.x < q.x || (p.x == q.x && p.y < q.y)
  }

  /** getFirstPoint's loop after the first n points, starting from points[0]. */
  function LexMinAmong(s: seq<Point>, n: nat): Point
    requires 0 < |s| && n <= |s|
  {
    if n == 0 then s[0]
    else
      var first := LexMinAmong(s, n - 1);
      if LexLess(s[n - 1], first) then s[n - 1] else first
  }

  /** The first hull point: the lowest of the leftmost points. */
  function FirstPoint(points: seq<Point>): Point
    requires |points| > 0
  {
    LexMinAmong(points, |points|)
  }

  /**
    The loop keeps an input point that no earlier point undercuts in the
    (x, y) order, and of several points at the same coordinates it keeps
    the earliest: everything before it is strictly above it.
  */
  lemma {:induction false} LexMinAmongSelects(s: seq<Point>, n: nat)
    requires 0 < |s| && n <= |s|
    ensures 0 <= IndexOf(s, LexMinAmong(s, n))
    ensures n > 0 ==> IndexOf(s, LexMinAmong(s, n)) < n
    ensures forall i :: 0 <= i < n ==> !LexLess(s[i], LexMinAmong(s, n))
    ensures forall i :: 0 <= i < IndexOf(s, LexMinAmong(s, n)) ==> LexLess(LexMinAmong(s, n), s[i])
  {
    if n > 0 {
      var first := LexMinAmong(s, n - 1);
      LexMinAmongSelects(s, n - 1);
      if LexLess(s[n - 1], first) {
        IndexOfAtMost(s, n - 1, s[n - 1]);
      }
    }
  }

  /** The first point is an input point and no input point is below it. */
  lemma FirstPointIsLowestLeftmost(points: seq<Point>)
    requires |points| > 0
    ensures FirstPoint(points) in points
    ensures forall i :: 0 <= i < |points| ==> !LexLess(points[i], FirstPoint(points))
    ensures forall i :: 0 <= i < |points| ==> FirstPoint(points).x <= points[i].x
    ensures forall i :: 0 <= i < IndexOf(points, FirstPoint(points)) ==> LexLess(FirstPoint(points), points[i])
  {
    LexMinAmongSelects(points, |points|);
  }

  /** getFirstPoint. */
  method GetFirstPoint(points: seq<Point>) returns (first: Point)
    requires |points| > 0
    ensures first == FirstPoint(points)
  {
    first := points[0];
    for i := 0 to |points|
      invariant first == LexMinAmong(points, i)
    {
      var point := points[i];
      if point.x < first.x || (point.x == first.x && point.y < first.y) {
        first := point;
      }
    }
  }

  // ---------------------------------------------------------------------
  // The selection loop shared by getSecondPoint and getNextHullPoint
  // ---------------------------------------------------------------------

  /** The running minimum of a selection loop and the point that attains it, if any. */
  datatype Best = Best(min: real, point: Option<Point>)

  /**
    A selection loop after the first n points: an eligible point replaces
    the current choice when its key is strictly below the running minimum,
    which starts at the sentinel `bound`.
  */
  function ArgMinAmong(s: seq<Point>, n: nat, eligible: Point -> bool, key: Point -> real, bound: real): Best
    requires n <= |s|
  {
    if n == 0 then Best(bound, None)
    else
      var best := ArgMinAmong(s, n - 1, eligible, key, bound);
      var p := s[n - 1];
      if eligible(p) && key(p) < best.min then Best(key(p), Some(p)) else best
  }

  /**
    The loop picks an eligible input point of least key, strictly below the
    sentinel, and the earliest of those with that key; it picks nothing
    exactly when no eligible point has a key below the sentinel.
  */
  lemma {:induction false} ArgMinAmongSelects(s: seq<Point>, n: nat, eligible: Point -> bool, key: Point -> real, bound: real)
    requires n <= |s|
    ensures var b := ArgMinAmong(s, n, eligible, key, bound);
      && (b.point.None? ==> b.min == bound)
      && (b.point.Some? ==> 0 <= IndexOf(s, b.point.value) < n && eligible(b.point.value)
                            && b.min == key(b.point.value) < bound)
      && (forall i :: 0 <= i < n && eligible(s[i]) ==> b.min <= key(s[i]))
      && (b.point.Some? ==> forall i :: 0 <= i < IndexOf(s, b.point.value) && eligible(s[i]) ==> b.min < key(s[i]))
  {
    if n > 0 {
      ArgMinAmongSelects(s, n - 1, eligible, key, bound);
      var best := ArgMinAmong(s, n - 1, eligible, key, bound);
      var p := s[n - 1];
      if eligible(p) && key(p) < best.min {
        IndexOfAtMost(s, n - 1, p);
      }
    }
  }

  /** The part of the selection the scan's progress needs: a picked point is an eligible input point below the sentinel. */
  lemma {:induction false} ArgMinAmongPicks(s: seq<Point>, n: nat, eligible: Point -> bool, key: Point -> real, bound: real)
    requires n <= |s|
    ensures var b := ArgMinAmong(s, n, eligible, key, bound);
      && b.min <= bound
      && (b.point.Some? ==> b.point.value in s && eligible(b.point.value) && b.min == key(b.point.value) < bound)
  {
    if n > 0 {
      ArgMinAmongPicks(s, n - 1, eligible, key, bound);
    }
  }

  /** A corollary of the selection: nothing is picked iff no eligible point is below the sentinel. */
  lemma ArgMinNoneIffNothingBelow(s: seq<Point>, eligible: Point -> bool, key: Point -> real, bound: real)
    ensures ArgMinAmong(s, |s|, eligible, key, bound).point.None?
        <==> forall i :: 0 <= i < |s| && eligible(s[i]) ==> bound <= key(s[i])
  {
    ArgMinAmongSelects(s, |s|, eligible, key, bound);
  }

  /** The sentinel does not matter when every eligible key is below both candidates. */
  lemma {:induction false} ArgMinBoundIrrelevant(s: seq<Point>, n: nat, eligible: Point -> bool, key: Point -> real, b1: real, b2: real)
    requires n <= |s|
    requires forall i :: 0 <= i < n && eligible(s[i]) ==> key(s[i]) < b1 && key(s[i]) < b2
    ensures ArgMinAmong(s, n, eligible, key, b1).point == ArgMinAmong(s, n, eligible, key, b2).point
    ensures ArgMinAmong(s, n, eligible, key, b1).point.Some? ==>
              ArgMinAmong(s, n, eligible, key, b1).min == ArgMinAmong(s, n, eligible, key, b2).min
  {
    if n > 0 {
      ArgMinBoundIrrelevant(s, n - 1, eligible, key, b1, b2);
      ArgMinAmongSelects(s, n - 1, eligible, key, b1);
      ArgMinAmongSelects(s, n - 1, eligible, key, b2);
    }
  }

  // ---------------------------------------------------------------------
  // getSecondPoint
  // ---------------------------------------------------------------------

  /** getSecondPoint considers points other than the first, to its right, with a non-negative angle. */
  function SecondEligible(first: Point, angle: Angle): Point -> bool
  {
    (p: Point) => p != first && p.x > first.x && angle(p) >= 0.0
  }

  /** getSecondPoint: the point of least polar angle among the eligible ones, if any. */
  function SecondPoint(points: seq<Point>, first: Point, angle: Angle, bound: real): Option<Point>
  {
    ArgMinAmong(points, |points|, SecondEligible(first, angle), angle, bound).point
  }

  /**
    The second point is an input point other than the first, strictly to
    its right, with a non-negative angle below the sentinel that no
    eligible point undercuts, and the earliest such; there is none exactly
    when no eligible point has an angle below the sentinel.
  */
  lemma SecondPointSelects(points: seq<Point>, first: Point, angle: Angle, bound: real)
    ensures SecondPoint(points, first, angle, bound).None? <==>
      forall i :: 0 <= i < |points| && SecondEligible(first, angle)(points[i]) ==> bound <= angle(points[i])
    ensures SecondPoint(points, first, angle, bound).Some? ==>
      var q := SecondPoint(points, first, angle, bound).value;
      && 0 <= IndexOf(points, q)
      && q != first && q.x > first.x && 0.0 <= angle(q) < bound
      && (forall i :: 0 <= i < |points| && SecondEligible(first, angle)(points[i]) ==> angle(q) <= angle(points[i]))
      && (forall i :: 0 <= i < IndexOf(points, q) && SecondEligible(first, angle)(points[i]) ==> angle(q) < angle(points[i]))
  {
    ArgMinAmongSelects(points, |points|, SecondEligible(first, angle), angle, bound);
    ArgMinNoneIffNothingBelow(points, SecondEligible(first, angle), angle, bound);
  }

  /** getSecondPoint. */
  method GetSecondPoint(points: seq<Point>, first: Point, angle: Angle, bound: real) returns (minAnglePoint: Option<Point>)
    ensures minAnglePoint == SecondPoint(points, first, angle, bound)
  {
    var minAngle := bound;
    minAnglePoint := None;
    for i := 0 to |points|
      invariant Best(minAngle, minAnglePoint) == ArgMinAmong(points, i, SecondEligible(first, angle), angle, bound)
    {
      var point := points[i];
      if point == first {
        continue;
      }
      var a := angle(point);
      if point.x > first.x && (a >= 0.0 && a < minAngle) {
        minAngle := a;
        minAnglePoint := Some(point);
      }
    }
  }

  // ---------------------------------------------------------------------
  // getNextHullPoint
  // ---------------------------------------------------------------------

  /** getNextHullPoint considers every point not yet in the hull, and the hull's first point. */
  function NextEligible(hull: seq<Point>): Point -> bool
    requires |hull| > 0
  {
    (p: Point) => !(IsPointInHull(p, hull) && p != hull[0])
  }

  /** The key getNextHullPoint minimises: the turn cosine at the hull's last point. */
  function TurnKey(a: Point, b: Point, cos: TurnCosine): Point -> real
  {
    (p: Point) => cos(a, b, p)
  }

  /** getNextHullPoint: the eligible point of least turn cosine, if any. */
  function NextHullPoint(points: seq<Point>, hull: seq<Point>, cos: TurnCosine, bound: real): Option<Point>
    requires |hull| >= 2
  {
    ArgMinAmong(points, |points|, NextEligible(hull), TurnKey(hull[|hull| - 2], hull[|hull| - 1], cos), bound).point
  }

  /**
    The next point is an input point that is either new to the hull or the
    hull's first point, whose turn cosine is below the sentinel and is
    least among those points, and the earliest such.
  */
  lemma NextHullPointSelects(points: seq<Point>, hull: seq<Point>, cos: TurnCosine, bound: real)
    requires |hull| >= 2
    ensures NextHullPoint(points, hull, cos, bound).Some? ==>
      var q := NextHullPoint(points, hull, cos, bound).value;
      var a, b := hull[|hull| - 2], hull[|hull| - 1];
      && 0 <= IndexOf(points, q)
      && (q == hull[0] || q !in hull)
      && cos(a, b, q) < bound
      && (forall i :: 0 <= i < |points| && NextEligible(hull)(points[i]) ==> cos(a, b, q) <= cos(a, b, points[i]))
      && (forall i :: 0 <= i < IndexOf(points, q) && NextEligible(hull)(points[i]) ==> cos(a, b, q) < cos(a, b, points[i]))
  {
    var key := TurnKey(hull[|hull| - 2], hull[|hull| - 1], cos);
    ArgMinAmongSelects(points, |points|, NextEligible(hull), key, bound);
  }

  /** A picked next point is an input point that is new to the hull or is its first point. */
  lemma NextHullPointIsCandidate(points: seq<Point>, hull: seq<Point>, cos: TurnCosine, bound: real)
    requires |hull| >= 2
    ensures NextHullPoint(points, hull, cos, bound).Some? ==>
      && NextHullPoint(points, hull, cos, bound).value in points
      && (NextHullPoint(points, hull, cos, bound).value == hull[0] || NextHullPoint(points, hull, cos, bound).value !in hull)
  {
    var key := TurnKey(hull[|hull| - 2], hull[|hull| - 1], cos);
    ArgMinAmongPicks(points, |points|, NextEligible(hull), key, bound);
  }

  /** The hull's first point is always a candidate, so a bounded cosine never leaves the search empty. */
  lemma NextHullPointExists(points: seq<Point>, hull: seq<Point>, cos: TurnCosine, bound: real)
    requires |hull| >= 2 && hull[0] in points
    requires cos(hull[|hull| - 2], hull[|hull| - 1], hull[0]) < bound
    ensures NextHullPoint(points, hull, cos, bound).Some?
  {
    var key := TurnKey(hull[|hull| - 2], hull[|hull| - 1], cos);
    var k := IndexOf(points, hull[0]);
    assert NextEligible(hull)(points[k]) && key(points[k]) < bound;
    ArgMinNoneIffNothingBelow(points, NextEligible(hull), key, bound);
  }

  /** getNextHullPoint. */
  method GetNextHullPoint(points: seq<Point>, hull: seq<Point>, cos: TurnCosine, bound: real) returns (minCosPoint: Option<Point>)
    requires |hull| >= 2
    ensures minCosPoint == NextHullPoint(points, hull, cos, bound)
  {
    var minCos := bound;
    minCosPoint := None;
    var size := |hull|;
    for i := 0 to |points|
      invariant Best(minCos, minCosPoint)
        == ArgMinAmong(points, i, NextEligible(hull), TurnKey(hull[size - 2], hull[size - 1], cos), bound)
    {
      var point := points[i];
      if !(IsPointInHull(point, hull) && point != hull[0]) {
        var a := hull[size - 2];
        var b := hull[size - 1];
        var c := cos(a, b, point);
        if c < minCos {
          minCos := c;
          minCosPoint := Some(point);
        }
      }
    }
  }

  // ---------------------------------------------------------------------
  // grahamScan
  // ---------------------------------------------------------------------

  /** What a hull under construction satisfies: no repeats, input points only. */
  ghost predicate HullSoFar(points: seq<Point>, hull: seq<Point>)
  {
    |hull| >= 2 && Distinct(hull) && Elements(hull) <= Elements(points)
  }

  /** Appending a point that is new to the hull shrinks the set of unvisited input points. */
  lemma AppendShrinksRemaining(points: seq<Point>, hull: seq<Point>, p: Point)
    requires p in points && p !in hull
    ensures Elements(hull + [p]) == Elements(hull) + {p}
    ensures |Elements(points) - Elements(hull + [p])| < |Elements(points) - Elements(hull)|
  {
    var rest := Elements(points) - Elements(hull);
    AppendNew(hull, p);
    assert p in rest;
    assert Elements(points) - Elements(hull + [p]) == rest - {p};
  }

  /** A point picked by getNextHullPoint that is not the hull's first point is new to the hull. */
  lemma NextKeepsHullSoFar(points: seq<Point>, hull: seq<Point>, cos: TurnCosine, bound: real)
    requires HullSoFar(points, hull)
    requires NextHullPoint(points, hull, cos, bound).Some?
    requires NextHullPoint(points, hull, cos, bound).value != hull[0]
    ensures NextHullPoint(points, hull, cos, bound).value in points
    ensures NextHullPoint(points, hull, cos, bound).value !in hull
    ensures HullSoFar(points, hull + [NextHullPoint(points, hull, cos, bound).value])
    ensures |Elements(points) - Elements(hull + [NextHullPoint(points, hull, cos, bound).value])|
          < |Elements(points) - Elements(hull)|
  {
    var p := NextHullPoint(points, hull, cos, bound).value;
    NextHullPointIsCandidate(points, hull, cos, bound);
    AppendNew(hull, p);
    AppendShrinksRemaining(points, hull, p);
  }

  /**
    The do-while loop of grahamScan from a hull of at least two points:
    append the next point; stop when it is the first point, and return the
    hull without that closing copy. An undefined next point makes the
    following `calcCos` read a coordinate of `undefined`: a TypeError.
  */
  function ScanFrom(points: seq<Point>, hull: seq<Point>, cos: TurnCosine, bound: real): Result<seq<Point>, Error>
    requires HullSoFar(points, hull)
    decreases |Elements(points) - Elements(hull)|
  {
    match NextHullPoint(points, hull, cos, bound)
    case None => Failure(TypeError)
    case Some(p) =>
      if p == hull[0] then Success(hull)
      else
        NextKeepsHullSoFar(points, hull, cos, bound);
        ScanFrom(points, hull + [p], cos, bound)
  }

  /** The first two points start a hull under construction. */
  lemma StartIsHullSoFar(points: seq<Point>, angle: Angle, angleBound: real)
    requires |points| > 0
    requires SecondPoint(points, FirstPoint(points), angle, angleBound).Some?
    ensures HullSoFar(points, [FirstPoint(points), SecondPoint(points, FirstPoint(points), angle, angleBound).value])
  {
    FirstPointIsLowestLeftmost(points);
    SecondPointSelects(points, FirstPoint(points), angle, angleBound);
  }

  /**
    grahamScan: the first point, the second point, then the scan. A missing
    second point is pushed as `undefined` and the first `calcCos` of the
    loop fails on it with a TypeError, since the first point is always a
    candidate there.
  */
  function GrahamScanRun(points: seq<Point>, angle: Angle, cos: TurnCosine, angleBound: real, cosBound: real): Result<seq<Point>, Error>
    requires |points| > 0
  {
    var first := FirstPoint(points);
    match SecondPoint(points, first, angle, angleBound)
    case None => Failure(TypeError)
    case Some(second) =>
      StartIsHullSoFar(points, angle, angleBound);
      ScanFrom(points, [first, second], cos, cosBound)
  }

  /** One step of the chain: a result built on `hull + [p]` is built on `hull` when `p` is the pick for `hull`. */
  lemma ChainStep(points: seq<Point>, hull: seq<Point>, p: Point, longer: seq<Point>, h: seq<Point>, cos: TurnCosine, bound: real)
    requires |hull| >= 2 && NextHullPoint(points, hull, cos, bound) == Some(p) && longer == hull + [p]
    requires |longer| <= |h| && h[..|longer|] == longer
    requires forall i :: |longer| <= i < |h| ==> NextHullPoint(points, h[..i], cos, bound) == Some(h[i])
    ensures h[..|hull|] == hull
    ensures forall i :: |hull| <= i < |h| ==> NextHullPoint(points, h[..i], cos, bound) == Some(h[i])
  {
    assert h[..|hull|] == h[..|hull| + 1][..|hull|];
    assert h[|hull|] == h[..|hull| + 1][|hull|];
  }

  /**
    Every point the scan appends is the one getNextHullPoint picks for the
    hull before it, the returned hull extends the starting one, has no
    repeats and holds input points only, and getNextHullPoint on it picks
    the starting point again; the only failure is the TypeError.
  */
  lemma {:induction false} ScanFromChain(points: seq<Point>, hull: seq<Point>, cos: TurnCosine, bound: real)
    requires HullSoFar(points, hull)
    decreases |Elements(points) - Elements(hull)|
    ensures var r := ScanFrom(points, hull, cos, bound);
      && (r.Failure? ==> r.error == TypeError)
      && (r.Success? ==>
            && HullSoFar(points, r.value)
            && |hull| <= |r.value|
            && r.value[..|hull|] == hull
            && (forall i :: |hull| <= i < |r.value| ==> NextHullPoint(points, r.value[..i], cos, bound) == Some(r.value[i]))
            && NextHullPoint(points, r.value, cos, bound) == Some(hull[0]))
  {
    match NextHullPoint(points, hull, cos, bound)
    case None =>
      assert ScanFrom(points, hull, cos, bound) == Failure(TypeError);
    case Some(p) =>
      if p == hull[0] {
        assert ScanFrom(points, hull, cos, bound) == Success(hull);
        assert hull[..|hull|] == hull;
      } else {
        NextKeepsHullSoFar(points, hull, cos, bound);
        var longer := hull + [p];
        ScanFromChain(points, longer, cos, bound);
        var r := ScanFrom(points, longer, cos, bound);
        assert ScanFrom(points, hull, cos, bound) == r;
        if r.Success? {
          ChainStep(points, hull, p, longer, r.value, cos, bound);
        }
      }
  }

  /**
    What grahamScan returns: it starts with the first point and the second
    point, each further point is the one getNextHullPoint picks for the
    points before it, and getNextHullPoint on the whole result closes the
    walk at the first point.
  */
  ghost predicate IsScanResult(points: seq<Point>, angle: Angle, cos: TurnCosine, angleBound: real, cosBound: real, hull: seq<Point>)
    requires |points| > 0
  {
    && |hull| >= 2
    && hull[0] == FirstPoint(points)
    && SecondPoint(points, hull[0], angle, angleBound) == Some(hull[1])
    && (forall i :: 2 <= i < |hull| ==> NextHullPoint(points, hull[..i], cos, cosBound) == Some(hull[i]))
    && NextHullPoint(points, hull, cos, cosBound) == Some(hull[0])
  }

  /**
    A successful grahamScan returns a hull of distinct input points built
    exactly as described by `IsScanResult`; a failing one fails with a
    TypeError, and it fails at the start exactly when there is no second
    point.
  */
  lemma GrahamScanSound(points: seq<Point>, angle: Angle, cos: TurnCosine, angleBound: real, cosBound: real)
    requires |points| > 0
    ensures var r := GrahamScanRun(points, angle, cos, angleBound, cosBound);
      && (r.Failure? ==> r.error == TypeError)
      && (SecondPoint(points, FirstPoint(points), angle, angleBound).None? ==> r.Failure?)
      && (r.Success? ==>
            && IsScanResult(points, angle, cos, angleBound, cosBound, r.value)
            && Distinct(r.value)
            && Elements(r.value) <= Elements(points))
  {
    var first := FirstPoint(points);
    match SecondPoint(points, first, angle, angleBound)
    case None =>
    case Some(second) =>
      StartIsHullSoFar(points, angle, angleBound);
      ScanFromChain(points, [first, second], cos, cosBound);
  }

  /** The scan's result depends on the cosine sentinel only through keys that reach it. */
  lemma {:induction false} ScanFromBoundIrrelevant(points: seq<Point>, hull: seq<Point>, cos: TurnCosine, b1: real, b2: real)
    requires HullSoFar(points, hull)
    requires forall a: Point, b: Point, c: Point :: cos(a, b, c) < b1 && cos(a, b, c) < b2
    decreases |Elements(points) - Elements(hull)|
    ensures ScanFrom(points, hull, cos, b1) == ScanFrom(points, hull, cos, b2)
  {
    var key := TurnKey(hull[|hull| - 2], hull[|hull| - 1], cos);
    ArgMinBoundIrrelevant(points, |points|, NextEligible(hull), key, b1, b2);
    match NextHullPoint(points, hull, cos, b1)
    case None =>
    case Some(p) =>
      if p != hull[0] {
        NextKeepsHullSoFar(points, hull, cos, b1);
        ScanFromBoundIrrelevant(points, hull + [p], cos, b1, b2);
      }
  }

  /**
    The three copies agree: with `polarAngle` at most 180 degrees and
    `calcCos` at most 1, the sentinels of the TypeScript, JavaScript and
    legacy copies are never reached, so all three return the same result.
  */
  lemma CopiesAgree(points: seq<Point>, angle: Angle, cos: TurnCosine)
    requires |points| > 0
    requires forall p: Point :: angle(p) <= 180.0
    requires forall a: Point, b: Point, c: Point :: cos(a, b, c) <= 1.0
    ensures GrahamScanRun(points, angle, cos, MaxValue, MaxValue)
         == GrahamScanRun(points, angle, cos, MaxSafeInteger, MaxSafeInteger)
    ensures GrahamScanRun(points, angle, cos, MaxValue, MaxValue)
         == GrahamScanRun(points, angle, cos, LegacyAngleBound, LegacyCosBound)
  {
    var first := FirstPoint(points);
    var eligible := SecondEligible(first, angle);
    ArgMinBoundIrrelevant(points, |points|, eligible, angle, MaxValue, MaxSafeInteger);
    ArgMinBoundIrrelevant(points, |points|, eligible, angle, MaxValue, LegacyAngleBound);
    match SecondPoint(points, first, angle, MaxValue)
    case None =>
    case Some(second) =>
      StartIsHullSoFar(points, angle, MaxValue);
      ScanFromBoundIrrelevant(points, [first, second], cos, MaxValue, MaxSafeInteger);
      ScanFromBoundIrrelevant(points, [first, second], cos, MaxValue, LegacyCosBound);
  }

  /** grahamScan. */
  method GrahamScan(points: seq<Point>, angle: Angle, cos: TurnCosine, angleBound: real, cosBound: real)
    returns (r: Result<seq<Point>, Error>)
    requires |points| > 0
    ensures r == GrahamScanRun(points, angle, cos, angleBound, cosBound)
  {
    var first := GetFirstPoint(points);
    var hull := [first];
    var second := GetSecondPoint(points, first, angle, angleBound);
    if second.None? {
      // `undefined` is pushed and the loop's first calcCos fails on it
      return Failure(TypeError);
    }
    hull := hull + [second.value];
    assert hull == [first, second.value];
    StartIsHullSoFar(points, angle, angleBound);
    while true
      invariant HullSoFar(points, hull) && hull[0] == first
      invariant ScanFrom(points, hull, cos, cosBound) == GrahamScanRun(points, angle, cos, angleBound, cosBound)
      decreases |Elements(points) - Elements(hull)|
    {
      var next := GetNextHullPoint(points, hull, cos, cosBound);
      if next.None? {
        // `undefined` is pushed and the next calcCos fails on it
        return Failure(TypeError);
      }
      if next.value == first {
        // the closing copy of the first point is sliced off
        return Success(hull);
      }
      NextKeepsHullSoFar(points, hull, cos, cosBound);
      hull := hull + [next.value];
    }
  }

  /** The TypeScript copy, with `Number.MAX_VALUE` for both sentinels. */
  method GrahamScanTs(points: seq<Point>, angle: Angle, cos: TurnCosine) returns (r: Result<seq<Point>, Error>)
    requires |points| > 0
    ensures r == GrahamScanRun(points, angle, cos, MaxValue, MaxValue)
  {
    r := GrahamScan(points, angle, cos, MaxValue, MaxValue);
  }

  /** The JavaScript copy, with `Number.MAX_SAFE_INTEGER` for both sentinels. */
  method GrahamScanJs(points: seq<Point>, angle: Angle, cos: TurnCosine) returns (r: Result<seq<Point>, Error>)
    requires |points| > 0
    ensures r == GrahamScanRun(points, angle, cos, MaxSafeInteger, MaxSafeInteger)
  {
    r := GrahamScan(points, angle, cos, MaxSafeInteger, MaxSafeInteger);
  }

  /** The legacy copy: the argument facade, then the scan over `points.values` with its own sentinels. */
  method LegacyGrahamScan(input: Input, angle: Angle, cos: TurnCosine) returns (r: Result<seq<Point>, Error>, values: seq<Point>)
    ensures CheckArgumentCorrect(input).Fail? ==> r == Failure(CheckArgumentCorrect(input).error)
    ensures r.Success? ==> input.Items? && Normalizes(input.items, values) && |values| >= 3
    ensures CheckArgumentCorrect(input).Pass? ==>
      input.Items? && Normalizes(input.items, values) && |values| >= 3
      && r == GrahamScanRun(values, angle, cos, LegacyAngleBound, LegacyCosBound)
  {
    values := [];
    var points := AlgorithmArgumentFacade(input);
    if points.Failure? {
      return Failure(points.error), values;
    }
    values := points.value.values;
    r := GrahamScan(values, angle, cos, LegacyAngleBound, LegacyCosBound);
  }
}

/**
  The geometric primitives shared by the three hull engines: the orientation
  test, the squared distance, the unnormalised line distance and identity
  membership. The three textual copies in the repository (the TypeScript
  helper, the JavaScript helper and the legacy helper) compute the same
  formulas, so one definition stands for all of them.
*/
module Geometry {

  /**
    A point of the plane. Points are objects: two points with equal
    coordinates that were supplied as distinct entries are different points,
    and `==` on `Point` is JavaScript's `===`.
  */
  class Point {
    const x: int
    const y: int

    constructor (x: int, y: int)
      ensures this.x == x && this.y == y
    {
      this.x := x;
      this.y := y;
    }
  }

  datatype Orientation = Collinear | Clockwise | Counterclockwise

  /** The value whose sign the orientation test classifies. */
  function Cross(p: Point, q: Point, r: Point): int
  {
    (q.y - p.y) * (r.x - q.x) - (q.x - p.x) * (r.y - q.y)
  }

  /** getOrientation / orientation: positive is clockwise, negative counterclockwise. */
  function GetOrientation(p: Point, q: Point, r: Point): Orientation
  {
    var val := Cross(p, q, r);
    if val > 0 then Clockwise
    else if val < 0 then Counterclockwise
    else Collinear
  }

  /** Clockwise and counterclockwise exchanged. */
  function Mirror(o: Orientation): Orientation
  {
    match o
    case Clockwise => Counterclockwise
    case Counterclockwise => Clockwise
    case Collinear => Collinear
  }

  predicate SameCoordinates(p: Point, q: Point)
  {
    p.x == q.x && p.y == q.y
  }

  /** The orientation is decided by the sign of the cross value alone, and only three answers exist. */
  lemma OrientationBySign(p: Point, q: Point, r: Point)
    ensures GetOrientation(p, q, r) == Clockwise <==> Cross(p, q, r) > 0
    ensures GetOrientation(p, q, r) == Counterclockwise <==> Cross(p, q, r) < 0
    ensures GetOrientation(p, q, r) == Collinear <==> Cross(p, q, r) == 0
  {
  }

  /** Swapping the last two points negates the cross value. */
  lemma CrossSwap(p: Point, q: Point, r: Point)
    ensures Cross(p, r, q) == -Cross(p, q, r)
  {
    var ux, uy, vx, vy := q.x - p.x, q.y - p.y, r.x - p.x, r.y - p.y;
    assert Cross(p, q, r) == uy * (vx - ux) - ux * (vy - uy);
    assert Cross(p, r, q) == vy * (ux - vx) - vx * (uy - vy);
  }

  /** Swapping q and r exchanges clockwise and counterclockwise. */
  lemma OrientationSwap(p: Point, q: Point, r: Point)
    ensures GetOrientation(p, r, q) == Mirror(GetOrientation(p, q, r))
  {
    CrossSwap(p, q, r);
  }

  /** Rotating the triplet does not change its orientation. */
  lemma OrientationRotate(p: Point, q: Point, r: Point)
    ensures GetOrientation(q, r, p) == GetOrientation(p, q, r)
  {
    var ux, uy, vx, vy := q.x - p.x, q.y - p.y, r.x - p.x, r.y - p.y;
    assert Cross(p, q, r) == uy * (vx - ux) - ux * (vy - uy);
    assert Cross(q, r, p) == (vy - uy) * (-vx) - (vx - ux) * (-vy);
  }

  /** Two coinciding points make any triplet collinear. */
  lemma CoincidentIsCollinear(p: Point, q: Point, r: Point)
    requires SameCoordinates(p, q) || SameCoordinates(q, r) || SameCoordinates(p, r)
    ensures GetOrientation(p, q, r) == Collinear
  {
    if SameCoordinates(p, r) {
      assert Cross(p, q, r) == (q.y - p.y) * (p.x - q.x) - (q.x - p.x) * (p.y - q.y);
    }
  }

  /** Translating the three points by one vector does not change the orientation. */
  lemma OrientationTranslate(p: Point, q: Point, r: Point, p': Point, q': Point, r': Point, dx: int, dy: int)
    requires p'.x == p.x + dx && p'.y == p.y + dy
    requires q'.x == q.x + dx && q'.y == q.y + dy
    requires r'.x == r.x + dx && r'.y == r.y + dy
    ensures GetOrientation(p', q', r') == GetOrientation(p, q, r)
  {
    assert Cross(p', q', r') == Cross(p, q, r);
  }

  /** getDistance / distance: the squared Euclidean distance. */
  function SquaredDistance(p: Point, q: Point): (d: int)
    ensures d >= 0
    ensures d == 0 <==> SameCoordinates(p, q)
  {
    var dy, dx := p.y - q.y, p.x - q.x;
    SquareNonNegative(dy);
    SquareNonNegative(dx);
    SquareZero(dy);
    SquareZero(dx);
    dy * dy + dx * dx
  }

  lemma SquareNonNegative(a: int)
    ensures a * a >= 0
  {
    if a < 0 {
      assert a * a == (-a) * (-a);
    }
  }

  lemma SquareZero(a: int)
    ensures a * a == 0 <==> a == 0
  {
    if a > 0 {
      assert a * a >= a;
    } else if a < 0 {
      assert a * a == (-a) * (-a) >= -a;
    }
  }

  /** The squared distance does not depend on the order of its arguments. */
  lemma SquaredDistanceSymmetric(p: Point, q: Point)
    ensures SquaredDistance(p, q) == SquaredDistance(q, p)
  {
    assert (p.y - q.y) * (p.y - q.y) == (q.y - p.y) * (q.y - p.y);
    assert (p.x - q.x) * (p.x - q.x) == (q.x - p.x) * (q.x - p.x);
  }

  function Abs(a: int): int
  {
    if a < 0 then -a else a
  }

  /**
    getLineDistance / lineDistance: the unnormalised distance of q from the
    line through p1 and p2, which is the magnitude of the orientation value
    of (p1, p2, q).
  */
  function LineDistance(p1: Point, p2: Point, q: Point): (d: int)
    ensures d >= 0
    ensures d == Abs(Cross(p1, p2, q))
  {
    var v := (q.y - p1.y) * (p2.x - p1.x) - (p2.y - p1.y) * (q.x - p1.x);
    assert v == -Cross(p1, p2, q) by {
      var ux, uy, wx, wy := p2.x - p1.x, p2.y - p1.y, q.x - p1.x, q.y - p1.y;
      assert v == wy * ux - uy * wx;
      assert Cross(p1, p2, q) == uy * (wx - ux) - ux * (wy - uy);
    }
    Abs(v)
  }

  /** The line distance vanishes exactly on the line, where the orientation is collinear. */
  lemma LineDistanceZeroIffCollinear(p1: Point, p2: Point, q: Point)
    ensures LineDistance(p1, p2, q) == 0 <==> GetOrientation(p1, p2, q) == Collinear
  {
  }

  /** Both ends of the line are at distance zero from it. */
  lemma LineDistanceAtEnds(p1: Point, p2: Point)
    ensures LineDistance(p1, p2, p1) == 0 && LineDistance(p1, p2, p2) == 0
  {
    CoincidentIsCollinear(p1, p2, p1);
    CoincidentIsCollinear(p1, p2, p2);
  }

  /** isPointInHull: a search of the hull for the very same point object. */
  function IsPointInHull(point: Point, hull: seq<Point>): (b: bool)
    ensures b <==> exists i :: 0 <= i < |hull| && hull[i] == point
  {
    if hull == [] then false
    else hull[0] == point || IsPointInHull(point, hull[1..])
  }

  /**
    Membership is by identity: a hull that holds p but not q finds p and
    not q, even when q has the same coordinates as p.
  */
  lemma MembershipIsIdentity(p: Point, q: Point, hull: seq<Point>)
    requires p != q && SameCoordinates(p, q) && p in hull && q !in hull
    ensures IsPointInHull(p, hull) && !IsPointInHull(q, hull)
  {
  }

  /** Array.prototype.indexOf by identity: the first index of p, or -1. */
  function IndexOf(s: seq<Point>, p: Point): (i: int)
    ensures -1 <= i < |s|
    ensures i == -1 <==> p !in s
    ensures 0 <= i ==> s[i] == p && p !in s[..i]
  {
    if s == [] then -1
    else if s[0] == p then 0
    else
      var j := IndexOf(s[1..], p);
      assert s[1..][..j + 1] == s[1..j + 2] by { }
      if j == -1 then -1 else j + 1
  }

  /** A point's first occurrence is no later than any occurrence. */
  lemma {:induction false} IndexOfAtMost(s: seq<Point>, j: int, p: Point)
    requires 0 <= j < |s| && s[j] == p
    ensures 0 <= IndexOf(s, p) <= j
  {
    if s[0] != p {
      assert s[1..][j - 1] == p;
      IndexOfAtMost(s[1..], j - 1, p);
    }
  }

  /** Appending after a point's first occurrence does not move that occurrence. */
  lemma IndexOfAppend(s: seq<Point>, a: Point, p: Point)
    requires p in s
    ensures IndexOf(s + [a], p) == IndexOf(s, p)
  {
    var k, k' := IndexOf(s + [a], p), IndexOf(s, p);
    assert (s + [a])[k'] == p;
    assert (s + [a])[..k] == s[..k] by {
      assert k <= k';
    }
  }

  /** The points a sequence holds, as a set. */
  function Elements(s: seq<Point>): set<Point>
  {
    set p | p in s
  }

  /** No point occurs twice (by identity). */
  predicate Distinct(s: seq<Point>)
  {
    forall i, j :: 0 <= i < j < |s| ==> s[i] != s[j]
  }

  /** Appending a point that is not there yet adds it to the elements and keeps them distinct. */
  lemma AppendNew(s: seq<Point>, p: Point)
    requires p !in s
    ensures Elements(s + [p]) == Elements(s) + {p}
    ensures Distinct(s) ==> Distinct(s + [p])
  {
    assert forall i :: 0 <= i < |s| ==> (s + [p])[i] == s[i];
  }
}

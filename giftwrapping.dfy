/**
  Gift wrapping (Jarvis march): the TypeScript copy, its behaviourally equivalent
  JavaScript copy under algorithms/, and the legacy copy under algorithm/
  that runs on `points.values` behind the argument facade.
*/
module GiftWrapping {
  import opened Wrappers
  import opened Geometry
  import opened Interface
  import opened Checks
  import opened ModeCast
  import opened PointsInterface
  import opened Facade

  /**
    `s.reduce((curr, next) => next.x < curr.x ? next : curr, seed)`: a point
    of least x, the seed unless something is strictly further left, and
    among equal x the one met first.
  */
  function ReduceLeftMost(s: seq<Point>, seed: Point): (r: Point)
    ensures r == seed || r in s
    ensures r.x <= seed.x && forall i :: 0 <= i < |s| ==> r.x <= s[i].x
    ensures r != seed ==> r.x < seed.x
    ensures r != seed ==> forall i :: 0 <= i < IndexOf(s, r) ==> s[i].x > r.x
  {
    if s == [] then seed
    else
      var prefix, last := s[..|s| - 1], s[|s| - 1];
      assert s == prefix + [last];
      var curr := ReduceLeftMost(prefix, seed);
      assert curr in prefix ==> IndexOf(s, curr) == IndexOf(prefix, curr) by {
        if curr in prefix {
          IndexOfAppend(prefix, last, curr);
        }
      }
      if last.x < curr.x then last else curr
  }

  /** findLeftMost: the earliest point of least x. */
  function FindLeftMost(points: seq<Point>): (r: Point)
    requires |points| > 0
    ensures r in points
    ensures forall i :: 0 <= i < |points| ==> r.x <= points[i].x
    ensures forall i :: 0 <= i < IndexOf(points, r) ==> points[i].x > r.x
  {
    ReduceLeftMost(points, points[0])
  }

  /** isOrientationCounterclockwise: the cross value of (p, q, r) is negative. */
  function IsOrientationCounterclockwise(p: Point, q: Point, r: Point): (b: bool)
    ensures b <==> Cross(p, q, r) < 0
  {
    GetOrientation(p, q, r) == Counterclockwise
  }

  /**
    getInitialIterationPoint: the cyclic successor of the first occurrence of
    currentPoint; indexOf gives -1 for an absent point, hence points[0].
  */
  function GetInitialIterationPoint(points: seq<Point>, currentPoint: Point): (r: Point)
    requires |points| > 0
    ensures r in points
    ensures currentPoint !in points ==> r == points[0]
    ensures IndexOf(points, currentPoint) == |points| - 1 ==> r == points[0]
    ensures 0 <= IndexOf(points, currentPoint) < |points| - 1 ==> r == points[IndexOf(points, currentPoint) + 1]
  {
    var k := IndexOf(points, currentPoint) + 1;
    SuccessorModulo(k, |points|);
    points[k % |points|]
  }

  lemma SuccessorModulo(k: int, n: int)
    requires 0 <= k <= n && 0 < n
    ensures k % n == if k == n then 0 else k
  {
  }

  /**
    The candidate after the forEach of getIterationPoint has visited s: it is
    replaced by a point only when (current, point, candidate) turns strictly
    counterclockwise.
  */
  function Scan(s: seq<Point>, current: Point, candidate: Point): (r: Point)
    ensures r == candidate || r in s
  {
    if s == [] then candidate
    else
      var c := Scan(s[..|s| - 1], current, candidate);
      if IsOrientationCounterclockwise(current, s[|s| - 1], c) then s[|s| - 1] else c
  }

  /** What getIterationPoint returns: the scan of all points from the cyclic successor. */
  function IterationPoint(points: seq<Point>, current: Point): (r: Point)
    requires |points| > 0
    ensures r in points
  {
    Scan(points, current, GetInitialIterationPoint(points, current))
  }

  /** When no scanned point turns counterclockwise from the candidate, the candidate stays. */
  lemma {:induction false} ScanKeepsWithoutTurn(s: seq<Point>, current: Point, candidate: Point)
    requires forall i :: 0 <= i < |s| ==> !IsOrientationCounterclockwise(current, s[i], candidate)
    ensures Scan(s, current, candidate) == candidate
  {
    if s != [] {
      ScanKeepsWithoutTurn(s[..|s| - 1], current, candidate);
    }
  }

  /**
    A changed candidate is a point that won by a strict counterclockwise turn
    against the candidate held just before it: collinear and clockwise points
    never displace it.
  */
  lemma {:induction false} ScanChangesOnlyOnTurn(s: seq<Point>, current: Point, candidate: Point)
    requires Scan(s, current, candidate) != candidate
    ensures exists i :: 0 <= i < |s| && s[i] == Scan(s, current, candidate)
                        && IsOrientationCounterclockwise(current, s[i], Scan(s[..i], current, candidate))
  {
    var prefix := s[..|s| - 1];
    var c := Scan(prefix, current, candidate);
    if IsOrientationCounterclockwise(current, s[|s| - 1], c) {
      assert s[..|s| - 1] == prefix;
    } else {
      ScanChangesOnlyOnTurn(prefix, current, candidate);
      var i :| 0 <= i < |prefix| && prefix[i] == Scan(prefix, current, candidate)
               && IsOrientationCounterclockwise(current, prefix[i], Scan(prefix[..i], current, candidate));
      assert prefix[..i] == s[..i];
    }
  }

  /** With no counterclockwise finding, getIterationPoint returns the cyclic successor. */
  lemma IterationWithoutTurn(points: seq<Point>, current: Point)
    requires |points| > 0
    requires forall i :: 0 <= i < |points| ==>
      !IsOrientationCounterclockwise(current, points[i], GetInitialIterationPoint(points, current))
    ensures IterationPoint(points, current) == GetInitialIterationPoint(points, current)
  {
    ScanKeepsWithoutTurn(points, current, GetInitialIterationPoint(points, current));
  }

  /** getIterationPoint: one pass that reassigns the candidate on strict counterclockwise turns. */
  method GetIterationPoint(points: seq<Point>, currentPoint: Point) returns (iterationPoint: Point)
    requires |points| > 0
    ensures iterationPoint == IterationPoint(points, currentPoint)
    ensures iterationPoint in points
  {
    var initial := GetInitialIterationPoint(points, currentPoint);
    iterationPoint := initial;
    for i := 0 to |points|
      invariant iterationPoint == Scan(points[..i], currentPoint, initial)
    {
      assert points[..i + 1][..i] == points[..i];
      if IsOrientationCounterclockwise(currentPoint, points[i], iterationPoint) {
        iterationPoint := points[i];
      }
    }
    assert points[..|points|] == points;
  }

  /**
    hull is what the do-while of giftWrapping pushes, given `fuel` iterations
    beyond the first: it starts at the leftmost point, each next element is
    the iteration point of the one before, the leftmost point is never pushed
    again, and `closed` tells whether the walk came back to it.
  */
  ghost predicate IsMarch(points: seq<Point>, fuel: nat, hull: seq<Point>, closed: bool)
    requires |points| > 0
  {
    && 0 < |hull| <= fuel + 1
    && hull[0] == FindLeftMost(points)
    && (forall i :: 0 <= i < |hull| ==> hull[i] in points)
    && (forall i :: 1 <= i < |hull| ==> hull[i] != hull[0])
    && (forall i :: 0 <= i < |hull| - 1 ==> hull[i + 1] == IterationPoint(points, hull[i]))
    && (closed <==> IterationPoint(points, hull[|hull| - 1]) == hull[0])
    && (!closed ==> |hull| == fuel + 1)
  }

  /**
    giftWrapping: start at the leftmost point and push the current point until
    the next one is the leftmost point again. The source loops without bound;
    here at most `fuel` further iterations run and `closed` reports whether
    the loop ended by itself.
  */
  method GiftWrapping(points: seq<Point>, fuel: nat) returns (hull: seq<Point>, closed: bool)
    requires |points| > 0
    ensures IsMarch(points, fuel, hull, closed)
    ensures hull[0] == FindLeftMost(points) && FindLeftMost(points) !in hull[1..]
    ensures forall p :: p in hull ==> p in points
  {
    var leftMost := FindLeftMost(points);
    hull := [leftMost];
    var currentPoint := GetIterationPoint(points, leftMost);
    var budget := fuel;
    while currentPoint != leftMost && budget > 0
      invariant 0 < |hull| == fuel - budget + 1
      invariant hull[0] == leftMost
      invariant forall i :: 0 <= i < |hull| ==> hull[i] in points
      invariant forall i :: 1 <= i < |hull| ==> hull[i] != leftMost
      invariant forall i :: 0 <= i < |hull| - 1 ==> hull[i + 1] == IterationPoint(points, hull[i])
      invariant currentPoint == IterationPoint(points, hull[|hull| - 1])
    {
      hull := hull + [currentPoint];
      currentPoint := GetIterationPoint(points, currentPoint);
      budget := budget - 1;
    }
    closed := currentPoint == leftMost;
  }

  /** Inside a march, no step leads back to the leftmost point. */
  lemma MarchStaysAway(points: seq<Point>, fuel: nat, hull: seq<Point>, closed: bool, j: nat)
    requires |points| > 0
    requires IsMarch(points, fuel, hull, closed) && 0 < j < |hull|
    ensures IterationPoint(points, hull[j - 1]) != hull[0]
  {
    assert hull[j] == IterationPoint(points, hull[j - 1]);
  }

  /** A march that agrees with a longer one on its length cannot be shorter than it. */
  lemma MarchCannotOutrun(points: seq<Point>, fuel: nat, h1: seq<Point>, c1: bool, h2: seq<Point>, c2: bool)
    requires |points| > 0
    requires IsMarch(points, fuel, h1, c1) && IsMarch(points, fuel, h2, c2)
    requires |h1| <= |h2| && h1 == h2[..|h1|]
    ensures h1 == h2
  {
    var n := |h1|;
    assert h2[n - 1] == h1[n - 1];
    assert n < |h2| ==> c1;
    if n < |h2| {
      MarchStaysAway(points, fuel, h2, c2, n);
      assert false;
    }
  }

  /** The march is determined by the points and the fuel: two runs agree element for element. */
  lemma {:induction false} MarchUnique(points: seq<Point>, fuel: nat, h1: seq<Point>, c1: bool, h2: seq<Point>, c2: bool)
    requires |points| > 0
    requires IsMarch(points, fuel, h1, c1) && IsMarch(points, fuel, h2, c2)
    ensures h1 == h2 && c1 == c2
  {
    var n := if |h1| < |h2| then |h1| else |h2|;
    var k := 0;
    while k < n
      invariant 0 <= k <= n
      invariant forall i :: 0 <= i < k ==> h1[i] == h2[i]
    {
      if k > 0 {
        assert h1[k] == IterationPoint(points, h1[k - 1]);
      }
      k := k + 1;
    }
    assert h1[..n] == h2[..n];
    if |h1| <= |h2| {
      MarchCannotOutrun(points, fuel, h1, c1, h2, c2);
    } else {
      MarchCannotOutrun(points, fuel, h2, c2, h1, c1);
    }
  }

  /**
    The legacy copy: `facade(giftWrapping)`. Validation runs first; on success
    the march runs on the normalised `points.values`, returned as `values`.
  */
  method LegacyGiftWrapping(input: Input, fuel: nat) returns (r: Result<seq<Point>, Error>, values: seq<Point>, closed: bool)
    ensures CheckArgumentCorrect(input).Fail? ==> r == Failure(CheckArgumentCorrect(input).error)
    ensures CheckArgumentCorrect(input).Pass? ==> r.Success?
    ensures r.Success? ==> input.Items? && Normalizes(input.items, values) && |values| >= 3
    ensures r.Success? ==> IsMarch(values, fuel, r.value, closed)
  {
    values, closed := [], false;
    var points := AlgorithmArgumentFacade(input);
    if points.Failure? {
      return Failure(points.error), values, closed;
    }
    values := points.value.values;
    var hull;
    hull, closed := GiftWrapping(values, fuel);
    r := Success(hull);
  }
}

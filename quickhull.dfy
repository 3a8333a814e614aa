/**
  QuickHull: the TypeScript copy, its JavaScript twin under algorithms/ and
  the legacy copy under algorithm/ that runs on `points.values` behind the
  argument facade. The three copies differ only in where the points come
  from, so one model of `subHull` and `quickhull` stands for all of them.
*/
module QuickHull {
  import opened Wrappers
  import opened Geometry
  import opened Interface
  import opened Checks
  import opened ModeCast
  import opened PointsInterface
  import opened Facade

  /** findSide: 1 for a clockwise triplet, -1 for counterclockwise, 0 for collinear. */
  function FindSide(p: Point, q: Point, r: Point): int
  {
    match GetOrientation(p, q, r)
    case Clockwise => 1
    case Counterclockwise => -1
    case Collinear => 0
  }

  /** The side is the sign of the orientation value, and 0 exactly on the line. */
  lemma FindSideSign(p: Point, q: Point, r: Point)
    ensures -1 <= FindSide(p, q, r) <= 1
    ensures FindSide(p, q, r) == 1 <==> Cross(p, q, r) > 0
    ensures FindSide(p, q, r) == -1 <==> Cross(p, q, r) < 0
    ensures FindSide(p, q, r) == 0 <==> LineDistance(p, q, r) == 0
  {
  }

  /** Exchanging the last two points flips the side: what the two recursive calls rely on. */
  lemma FindSideSwap(p: Point, q: Point, r: Point)
    ensures FindSide(p, r, q) == -FindSide(p, q, r)
  {
    CrossSwap(p, q, r);
  }

  /** The `{point, distance}` accumulator of the selecting reduce; no point is the `{distance: 0}` seed. */
  datatype Candidate = Candidate(point: Option<Point>, distance: int)

  /** On the requested side of the directed line from p1 to p2. */
  predicate OnSide(p1: Point, p2: Point, side: int, q: Point)
  {
    FindSide(p1, p2, q) == side
  }

  /**
    The reduce of subHull over the first n points: a point replaces the
    running candidate when it is on the requested side and strictly farther
    from the line. The result is the earliest point of greatest distance on
    that side, and only a positive distance beats the seed.
  */
  function FarthestAmong(s: seq<Point>, n: nat, p1: Point, p2: Point, side: int): Candidate
    requires n <= |s|
    decreases n
  {
    if n == 0 then Candidate(None, 0)
    else
      var curr := FarthestAmong(s, n - 1, p1, p2, side);
      var next := s[n - 1];
      var distance := LineDistance(p1, p2, next);
      if FindSide(p1, p2, next) == side && distance > curr.distance then Candidate(Some(next), distance)
      else curr
  }

  /**
    What the reduce selects: nothing, with distance 0, or a point among the
    first n that is on the side at positive distance, no nearer than any
    point on the side, and strictly farther than every such point before its
    first occurrence.
  */
  lemma {:induction false} FarthestAmongSelects(s: seq<Point>, n: nat, p1: Point, p2: Point, side: int)
    requires n <= |s|
    decreases n
    ensures var c := FarthestAmong(s, n, p1, p2, side);
      && (c.point.None? <==> c.distance == 0)
      && (c.point.Some? ==> 0 <= IndexOf(s, c.point.value) < n && OnSide(p1, p2, side, c.point.value)
                            && c.distance == LineDistance(p1, p2, c.point.value) > 0)
      && (forall i :: 0 <= i < n && OnSide(p1, p2, side, s[i]) ==> LineDistance(p1, p2, s[i]) <= c.distance)
      && (c.point.Some? ==> forall i :: 0 <= i < IndexOf(s, c.point.value) && OnSide(p1, p2, side, s[i]) ==>
                              LineDistance(p1, p2, s[i]) < c.distance)
  {
    if n > 0 {
      FarthestAmongSelects(s, n - 1, p1, p2, side);
    }
  }

  /** The reduce over all the points. */
  function Farthest(s: seq<Point>, p1: Point, p2: Point, side: int): Candidate
  {
    FarthestAmong(s, |s|, p1, p2, side)
  }

  /** For side 1 or -1, nothing is selected exactly when no point lies on that side. */
  lemma FarthestNoneIffSideEmpty(s: seq<Point>, p1: Point, p2: Point, side: int)
    requires side == 1 || side == -1
    ensures Farthest(s, p1, p2, side).point.None? <==> forall i :: 0 <= i < |s| ==> !OnSide(p1, p2, side, s[i])
  {
    var c := Farthest(s, p1, p2, side);
    FarthestAmongSelects(s, |s|, p1, p2, side);
    if c.point.None? {
      forall i | 0 <= i < |s|
        ensures !OnSide(p1, p2, side, s[i])
      {
        FindSideSign(p1, p2, s[i]);
      }
    } else {
      assert OnSide(p1, p2, side, s[IndexOf(s, c.point.value)]);
    }
  }

  /** `Set.prototype.add`: a new member goes to the end, an existing one changes nothing. */
  function Added(s: seq<Point>, p: Point): seq<Point>
  {
    if p in s then s else s + [p]
  }

  /**
    Adding makes p a member and nothing else: the members already there
    keep their places, at most one slot is appended, and a duplicate-free
    set stays duplicate-free.
  */
  lemma AddedFacts(s: seq<Point>, p: Point)
    ensures p in Added(s, p)
    ensures Elements(Added(s, p)) == Elements(s) + {p}
    ensures IsPrefix(s, Added(s, p)) && |Added(s, p)| <= |s| + 1
    ensures Distinct(s) ==> Distinct(Added(s, p))
  {
    if p !in s {
      AppendNew(s, p);
    }
  }

  predicate IsPrefix(a: seq<Point>, b: seq<Point>)
  {
    |a| <= |b| && b[..|a|] == a
  }

  lemma PrefixKeeps(a: seq<Point>, b: seq<Point>, p: Point)
    requires IsPrefix(a, b) && p in a
    ensures p in b
  {
    var i :| 0 <= i < |a| && a[i] == p;
    assert b[i] == p;
  }

  lemma PrefixTransitive(a: seq<Point>, b: seq<Point>, c: seq<Point>)
    requires IsPrefix(a, b) && IsPrefix(b, c)
    ensures IsPrefix(a, c)
  {
    assert c[..|a|] == c[..|b|][..|a|];
  }

  /** The JavaScript `Set` the engine accumulates into: its members in insertion order. */
  class PointSet {
    var items: seq<Point>

    constructor ()
      ensures items == []
    {
      items := [];
    }

    /** hull.add(p) */
    method Add(p: Point)
      modifies this
      ensures items == Added(old(items), p)
    {
      if p !in items {
        items := items + [p];
      }
    }
  }

  /**
    The set after a subHull call, and whether every nested call ended before
    the depth bound. The source recursion has no bound; `depth` caps its
    nesting and a call that hits the cap adds nothing.
  */
  datatype Run = Run(hull: seq<Point>, complete: bool)

  /**
    Where a subHull call recurses: the farthest point q and the side each of
    the two new lines (q to p1, q to p2) is searched on.
  */
  datatype Split = Split(q: Point, leftSide: int, rightSide: int)

  /** The split a subHull call makes on its line and side; None ends the call. */
  type Picker = (Point, Point, int) -> Option<Split>

  /**
    The split subHull computes: the farthest point by the reduce over all the
    input points, and `-findSide(q, p1, p2)`, `-findSide(q, p2, p1)`.
  */
  function FarthestSplit(points: seq<Point>, p1: Point, p2: Point, side: int): Option<Split>
  {
    match Farthest(points, p1, p2, side).point
    case None => None
    case Some(q) => Some(Split(q, -FindSide(q, p1, p2), -FindSide(q, p2, p1)))
  }

  function FarthestPicker(points: seq<Point>): Picker
  {
    (p1: Point, p2: Point, side: int) => FarthestSplit(points, p1, p2, side)
  }

  /** The split point is an input point. */
  lemma FarthestPickerFromInput(points: seq<Point>)
    ensures forall p1, p2, side :: FarthestPicker(points)(p1, p2, side).Some? ==>
      FarthestPicker(points)(p1, p2, side).value.q in Elements(points)
  {
    forall p1, p2, side | FarthestPicker(points)(p1, p2, side).Some?
      ensures FarthestPicker(points)(p1, p2, side).value.q in Elements(points)
    {
      FarthestAmongSelects(points, |points|, p1, p2, side);
      var q := Farthest(points, p1, p2, side).point.value;
      assert points[IndexOf(points, q)] == q;
    }
  }

  /**
    The two new lines are searched away from each other's far end: the line
    from q to p1 on the side of p2 negated, which is the side of q relative
    to the line from p2 to p1, and symmetrically.
  */
  lemma FarthestSplitSides(points: seq<Point>, p1: Point, p2: Point, side: int)
    requires FarthestSplit(points, p1, p2, side).Some?
    ensures var split := FarthestSplit(points, p1, p2, side).value;
      && split.leftSide == FindSide(split.q, p2, p1)
      && split.rightSide == FindSide(split.q, p1, p2)
      && OnSide(p1, p2, side, split.q) && LineDistance(p1, p2, split.q) > 0
  {
    FarthestAmongSelects(points, |points|, p1, p2, side);
    FindSideSwap(Farthest(points, p1, p2, side).point.value, p1, p2);
  }

  /**
    The set after a subHull call started from `hull`, and whether every
    nested call ended before the depth bound. The split comes from `pick`,
    which the engine sets to the farthest-point split.
  */
  function SubHullRun(pick: Picker, hull: seq<Point>, p1: Point, p2: Point, side: int, depth: nat): Run
    decreases depth
  {
    match pick(p1, p2, side)
    case None => Run(Added(Added(hull, p1), p2), true)
    case Some(split) =>
      if depth == 0 then Run(hull, false)
      else
        var left := SubHullRun(pick, hull, split.q, p1, split.leftSide, depth - 1);
        var right := SubHullRun(pick, left.hull, split.q, p2, split.rightSide, depth - 1);
        Run(right.hull, left.complete && right.complete)
  }

  /**
    What subHull does to the set: it only grows (existing members keep
    their place), and a call that completes has added both its endpoints.
  */
  lemma {:induction false} SubHullRunGrows(pick: Picker, hull: seq<Point>, p1: Point, p2: Point, side: int, depth: nat)
    decreases depth
    ensures var r := SubHullRun(pick, hull, p1, p2, side, depth);
      && IsPrefix(hull, r.hull)
      && (r.complete ==> p1 in r.hull && p2 in r.hull)
  {
    match pick(p1, p2, side)
    case None =>
      var once := Added(hull, p1);
      AddedFacts(hull, p1);
      AddedFacts(once, p2);
      PrefixKeeps(once, Added(once, p2), p1);
      PrefixTransitive(hull, once, Added(once, p2));
    case Some(split) =>
      if depth > 0 {
        var left := SubHullRun(pick, hull, split.q, p1, split.leftSide, depth - 1);
        var right := SubHullRun(pick, left.hull, split.q, p2, split.rightSide, depth - 1);
        SubHullRunGrows(pick, hull, split.q, p1, split.leftSide, depth - 1);
        SubHullRunGrows(pick, left.hull, split.q, p2, split.rightSide, depth - 1);
        PrefixTransitive(hull, left.hull, right.hull);
        if left.complete {
          PrefixKeeps(left.hull, right.hull, p1);
        }
      }
  }

  /** subHull never adds a member twice: a duplicate-free set stays duplicate-free. */
  lemma {:induction false} SubHullRunDistinct(pick: Picker, hull: seq<Point>, p1: Point, p2: Point, side: int, depth: nat)
    requires Distinct(hull)
    decreases depth
    ensures Distinct(SubHullRun(pick, hull, p1, p2, side, depth).hull)
  {
    match pick(p1, p2, side)
    case None =>
      AddedFacts(hull, p1);
      AddedFacts(Added(hull, p1), p2);
    case Some(split) =>
      if depth > 0 {
        var left := SubHullRun(pick, hull, split.q, p1, split.leftSide, depth - 1);
        SubHullRunDistinct(pick, hull, split.q, p1, split.leftSide, depth - 1);
        SubHullRunDistinct(pick, left.hull, split.q, p2, split.rightSide, depth - 1);
      }
  }

  /**
    subHull adds nothing but its endpoints and the split points, so a set
    holding the starting members, both endpoints and every point the picker
    can return also holds everything the call leaves in the set.
  */
  lemma {:induction false} SubHullRunStaysWithin(pick: Picker, within: set<Point>, hull: seq<Point>, p1: Point, p2: Point, side: int, depth: nat)
    requires forall a, b, side :: pick(a, b, side).Some? ==> pick(a, b, side).value.q in within
    requires Elements(hull) <= within && p1 in within && p2 in within
    decreases depth
    ensures Elements(SubHullRun(pick, hull, p1, p2, side, depth).hull) <= within
  {
    match pick(p1, p2, side)
    case None =>
      AddedFacts(hull, p1);
      AddedFacts(Added(hull, p1), p2);
    case Some(split) =>
      if depth > 0 {
        var left := SubHullRun(pick, hull, split.q, p1, split.leftSide, depth - 1);
        SubHullRunStaysWithin(pick, within, hull, split.q, p1, split.leftSide, depth - 1);
        SubHullRunStaysWithin(pick, within, left.hull, split.q, p2, split.rightSide, depth - 1);
      }
  }

  /** The base case: with nothing on the requested side, exactly p1 and p2 are added and the call ends. */
  lemma SubHullBase(points: seq<Point>, hull: seq<Point>, p1: Point, p2: Point, side: int, depth: nat)
    requires side == 1 || side == -1
    requires forall i :: 0 <= i < |points| ==> !OnSide(p1, p2, side, points[i])
    ensures SubHullRun(FarthestPicker(points), hull, p1, p2, side, depth) == Run(Added(Added(hull, p1), p2), true)
  {
    FarthestNoneIffSideEmpty(points, p1, p2, side);
  }

  /** subHull: the imperative recursion over the shared set. */
  method SubHull(points: seq<Point>, hull: PointSet, p1: Point, p2: Point, side: int, depth: nat) returns (complete: bool)
    modifies hull
    decreases depth
    ensures Run(hull.items, complete) == SubHullRun(FarthestPicker(points), old(hull.items), p1, p2, side, depth)
  {
    var split := FarthestSplit(points, p1, p2, side);
    assert split == FarthestPicker(points)(p1, p2, side);
    if split.None? {
      hull.Add(p1);
      hull.Add(p2);
      return true;
    }
    if depth == 0 {
      return false;
    }
    var q := split.value.q;
    var left := SubHull(points, hull, q, p1, split.value.leftSide, depth - 1);
    var right := SubHull(points, hull, q, p2, split.value.rightSide, depth - 1);
    complete := left && right;
  }

  /**
    `points.reduce((curr, next) => next.x < curr.x ? next : curr, {x: Infinity, y: 0})`:
    None is the sentinel, which only survives an empty array.
  */
  function MinXPoint(s: seq<Point>): (r: Option<Point>)
    ensures r.Some? <==> |s| > 0
    ensures r.Some? ==> r.value in s && forall i :: 0 <= i < |s| ==> s[i].x >= r.value.x
    ensures r.Some? ==> forall i :: 0 <= i < IndexOf(s, r.value) ==> s[i].x > r.value.x
  {
    if s == [] then None
    else
      var prefix, next := s[..|s| - 1], s[|s| - 1];
      assert s == prefix + [next];
      var curr := MinXPoint(prefix);
      assert curr.Some? ==> IndexOf(s, curr.value) == IndexOf(prefix, curr.value) by {
        if curr.Some? {
          IndexOfAppend(prefix, next, curr.value);
        }
      }
      if curr.None? || next.x < curr.value.x then Some(next) else curr
  }

  /** The same reduce with `>` and the `{x: -Infinity, y: 0}` sentinel. */
  function MaxXPoint(s: seq<Point>): (r: Option<Point>)
    ensures r.Some? <==> |s| > 0
    ensures r.Some? ==> r.value in s && forall i :: 0 <= i < |s| ==> s[i].x <= r.value.x
    ensures r.Some? ==> forall i :: 0 <= i < IndexOf(s, r.value) ==> s[i].x < r.value.x
  {
    if s == [] then None
    else
      var prefix, next := s[..|s| - 1], s[|s| - 1];
      assert s == prefix + [next];
      var curr := MaxXPoint(prefix);
      assert curr.Some? ==> IndexOf(s, curr.value) == IndexOf(prefix, curr.value) by {
        if curr.Some? {
          IndexOfAppend(prefix, next, curr.value);
        }
      }
      if curr.None? || next.x > curr.value.x then Some(next) else curr
  }

  /** quickhull with a given picker: both halves of the line from minX to maxX, into one set. */
  function QuickHullWith(pick: Picker, minX: Point, maxX: Point, depth: nat): Run
  {
    var upper := SubHullRun(pick, [], minX, maxX, 1, depth);
    var lower := SubHullRun(pick, upper.hull, minX, maxX, -1, depth);
    Run(lower.hull, upper.complete && lower.complete)
  }

  /** quickhull as a value: the farthest-point picker between the extreme-x points. */
  function QuickHullRun(points: seq<Point>, depth: nat): Run
    requires |points| > 0
  {
    QuickHullWith(FarthestPicker(points), MinXPoint(points).value, MaxXPoint(points).value, depth)
  }

  lemma QuickHullWithSound(pick: Picker, points: seq<Point>, minX: Point, maxX: Point, depth: nat)
    requires forall a, b, side :: pick(a, b, side).Some? ==> pick(a, b, side).value.q in Elements(points)
    requires minX in Elements(points) && maxX in Elements(points)
    ensures var r := QuickHullWith(pick, minX, maxX, depth);
      && Distinct(r.hull)
      && Elements(r.hull) <= Elements(points)
      && (r.complete ==> minX in r.hull && maxX in r.hull)
  {
    var upper := SubHullRun(pick, [], minX, maxX, 1, depth);
    var lower := SubHullRun(pick, upper.hull, minX, maxX, -1, depth);
    SubHullRunGrows(pick, [], minX, maxX, 1, depth);
    SubHullRunGrows(pick, upper.hull, minX, maxX, -1, depth);
    SubHullRunDistinct(pick, [], minX, maxX, 1, depth);
    SubHullRunDistinct(pick, upper.hull, minX, maxX, -1, depth);
    SubHullRunStaysWithin(pick, Elements(points), [], minX, maxX, 1, depth);
    SubHullRunStaysWithin(pick, Elements(points), upper.hull, minX, maxX, -1, depth);
    if upper.complete {
      PrefixKeeps(upper.hull, lower.hull, minX);
      PrefixKeeps(upper.hull, lower.hull, maxX);
    }
  }

  /**
    What quickhull returns: a duplicate-free array of input points, and when
    no call hit the depth bound it holds the min-x and max-x points.
  */
  lemma QuickHullRunSound(points: seq<Point>, depth: nat)
    requires |points| > 0
    ensures var r := QuickHullRun(points, depth);
      && Distinct(r.hull)
      && Elements(r.hull) <= Elements(points)
      && (r.complete ==> MinXPoint(points).value in r.hull && MaxXPoint(points).value in r.hull)
  {
    FarthestPickerFromInput(points);
    QuickHullWithSound(FarthestPicker(points), points, MinXPoint(points).value, MaxXPoint(points).value, depth);
  }

  /** quickhull: run both halves into one set and return its members in insertion order. */
  method QuickHull(points: seq<Point>, depth: nat) returns (hull: seq<Point>, complete: bool)
    requires |points| > 0
    ensures Run(hull, complete) == QuickHullRun(points, depth)
    ensures Distinct(hull) && Elements(hull) <= Elements(points)
  {
    var hullSet := new PointSet();
    var minXPoint, maxXPoint := MinXPoint(points).value, MaxXPoint(points).value;
    var upper := SubHull(points, hullSet, minXPoint, maxXPoint, 1, depth);
    var lower := SubHull(points, hullSet, minXPoint, maxXPoint, -1, depth);
    hull, complete := hullSet.items, upper && lower;
    QuickHullRunSound(points, depth);
  }

  /**
    The legacy copy: `facade(quickhull)`. Validation runs first; on success
    the engine runs on the normalised `points.values`, returned as `values`.
  */
  method LegacyQuickHull(input: Input, depth: nat) returns (r: Result<seq<Point>, Error>, values: seq<Point>, complete: bool)
    ensures CheckArgumentCorrect(input).Fail? ==> r == Failure(CheckArgumentCorrect(input).error)
    ensures CheckArgumentCorrect(input).Pass? ==> r.Success?
    ensures r.Success? ==> input.Items? && Normalizes(input.items, values) && |values| >= 3
    ensures r.Success? ==> Run(r.value, complete) == QuickHullRun(values, depth)
  {
    values, complete := [], false;
    var points := AlgorithmArgumentFacade(input);
    if points.Failure? {
      return Failure(points.error), values, complete;
    }
    values := points.value.values;
    var hull;
    hull, complete := QuickHull(values, depth);
    r := Success(hull);
  }
}

/**
  Where the engines meet: all three start their walk at a leftmost input
  point, and gift wrapping and QuickHull pick the very same one.
*/
module Agreement {
  import opened Wrappers
  import opened Geometry
  import GiftWrapping
  import QuickHull
  import GrahamScan

  /**
    QuickHull's minimum-x scan and gift wrapping's findLeftMost both keep
    the earliest point of least x, so they return the same object.
  */
  lemma LeftMostAgrees(points: seq<Point>)
    requires |points| > 0
    ensures QuickHull.MinXPoint(points) == Some(GiftWrapping.FindLeftMost(points))
  {
    var a, b := QuickHull.MinXPoint(points).value, GiftWrapping.FindLeftMost(points);
    var ia, ib := IndexOf(points, a), IndexOf(points, b);
    assert points[ia] == a && points[ib] == b;
    assert a.x == b.x;
    assert ia == ib;
  }

  /**
    The "Graham scan" starts at a point of least x too, the lowest one
    there: it shares its x with gift wrapping's start and is no higher.
  */
  lemma FirstPointIsLeftMost(points: seq<Point>)
    requires |points| > 0
    ensures GrahamScan.FirstPoint(points).x == GiftWrapping.FindLeftMost(points).x
    ensures GrahamScan.FirstPoint(points).y <= GiftWrapping.FindLeftMost(points).y
  {
    var f, b := GrahamScan.FirstPoint(points), GiftWrapping.FindLeftMost(points);
    GrahamScan.FirstPointIsLowestLeftmost(points);
    var ib := IndexOf(points, b);
    assert points[ib] == b;
    assert !GrahamScan.LexLess(points[ib], f);
  }
}

/** Ray casting and motion zones (src/zones/spatial-motion-filter.ts), in exact reals. */
module Zones {
  datatype Point = Point(x: real, y: real)

  type Polygon = seq<Point>

  /** The edge between `b` and `a` straddles the horizontal through `p`. */
  predicate Straddles(p: Point, a: Point, b: Point) {
    (a.y > p.y) != (b.y > p.y)
  }

  /** Where the line through the edge meets that horizontal. */
  function MeetsAt(p: Point, a: Point, b: Point): real
    requires a.y != b.y
  {
    ((b.x - a.x) * (p.y - a.y)) / (b.y - a.y) + a.x
  }

  /** The edge test of the loop, with `a` the current vertex and `b` the previous one. */
  predicate Intersects(p: Point, a: Point, b: Point) {
    Straddles(p, a, b) && p.x < MeetsAt(p, a, b)
  }

  /** Parity of the crossed edges of an open path. */
  function Crossings(p: Point, path: Polygon): bool {
    if |path| < 2 then false
    else Crossings(p, path[..|path| - 1]) != Intersects(p, path[|path| - 1], path[|path| - 2])
  }

  /** Parity of the crossed edges of the closed polygon. */
  function Inside(p: Point, polygon: Polygon): bool {
    polygon != [] && Crossings(p, polygon) != Intersects(p, polygon[0], polygon[|polygon| - 1])
  }

  method IsPointInPolygon(point: Point, polygon: Polygon) returns (inside: bool)
    ensures inside == Inside(point, polygon)
  {
    if |polygon| < 3 {
      FewVerticesAreOutside(point, polygon);
      return false;
    }
    inside := false;
    var j := |polygon| - 1;
    for i := 0 to |polygon|
      invariant j == if i == 0 then |polygon| - 1 else i - 1
      invariant i == 0 ==> !inside
      invariant i > 0 ==>
                  inside == (Crossings(point, polygon[..i]) != Intersects(point, polygon[0], polygon[|polygon| - 1]))
    {
      assert i > 0 ==> polygon[..i + 1][..i] == polygon[..i];
      if Intersects(point, polygon[i], polygon[j]) {
        inside := !inside;
      }
      j := i;
    }
    assert polygon[..|polygon|] == polygon;
  }

  // ---------------------------------------------------------------------
  // The edge test
  // ---------------------------------------------------------------------

  /** Dividing by d != 0 and multiplying again. */
  lemma DivMul(n: real, d: real)
    requires d != 0.0
    ensures (n / d) * d == n
  {
  }

  lemma SameProduct(u: real, v: real, d: real)
    requires d != 0.0 && u * d == v * d
    ensures u == v
  {
  }

  /** The meeting point does not depend on which end of the edge comes first. */
  lemma MeetsAtSymmetric(p: Point, a: Point, b: Point)
    requires a.y != b.y
    ensures MeetsAt(p, a, b) == MeetsAt(p, b, a)
  {
    var d := b.y - a.y;
    var n1 := (b.x - a.x) * (p.y - a.y);
    var n2 := (a.x - b.x) * (p.y - b.y);
    DivMul(n1, d);
    DivMul(n2, -d);
    var u, v := MeetsAt(p, a, b), MeetsAt(p, b, a);
    assert u * d == n1 + a.x * d;
    assert v * (-d) == n2 + b.x * (-d);
    assert v * d == -n2 + b.x * d;
    assert n1 + a.x * d == -n2 + b.x * d;
    SameProduct(u, v, d);
  }

  lemma IntersectsSymmetric(p: Point, a: Point, b: Point)
    ensures Intersects(p, a, b) == Intersects(p, b, a)
  {
    if Straddles(p, a, b) {
      MeetsAtSymmetric(p, a, b);
    }
  }

  /** Twice the signed area of the triangle a, b, p: positive when p is left of the line from a to b. */
  function Cross(a: Point, b: Point, p: Point): real {
    (b.x - a.x) * (p.y - a.y) - (b.y - a.y) * (p.x - a.x)
  }

  lemma CrossAntisymmetric(a: Point, b: Point, p: Point)
    ensures Cross(b, a, p) == -Cross(a, b, p)
  {
  }

  lemma UpwardEdge(p: Point, a: Point, b: Point)
    requires a.y <= p.y < b.y
    ensures Intersects(p, a, b) <==> (p.x - a.x) * (b.y - a.y) < (b.x - a.x) * (p.y - a.y)
  {
    var d, n := b.y - a.y, (b.x - a.x) * (p.y - a.y);
    DivMul(n, d);
    var m := n / d;
    assert (p.x - a.x) * d - n == (p.x - a.x - m) * d;
    if p.x < MeetsAt(p, a, b) {
      ProductSign(m + a.x - p.x, d);
    } else {
      assert p.x - a.x - m >= 0.0;
      NonNegative(p.x - a.x - m, d);
    }
  }

  lemma NonNegative(a: real, b: real)
    requires a >= 0.0 && b >= 0.0
    ensures a * b >= 0.0
  {
  }

  /** The edge test without a division: an edge is crossed when the ray starts on the inner side of it. */
  lemma EdgeTest(p: Point, a: Point, b: Point)
    ensures a.y <= p.y < b.y ==>
              (Intersects(p, a, b) <==> (p.x - a.x) * (b.y - a.y) < (b.x - a.x) * (p.y - a.y))
    ensures b.y <= p.y < a.y ==>
              (Intersects(p, a, b) <==> (p.x - b.x) * (a.y - b.y) < (a.x - b.x) * (p.y - b.y))
    ensures !(a.y <= p.y < b.y) && !(b.y <= p.y < a.y) ==> !Intersects(p, a, b)
  {
    IntersectsSymmetric(p, a, b);
    if a.y <= p.y < b.y {
      UpwardEdge(p, a, b);
    } else if b.y <= p.y < a.y {
      UpwardEdge(p, b, a);
    }
  }

  /** An edge is crossed by going up past a point on its left, or down past one on its right. */
  lemma CrossedBySide(p: Point, a: Point, b: Point)
    ensures Straddles(p, a, b) ==> (Intersects(p, a, b) <==> if Above(p, b) then Cross(a, b, p) > 0.0
                                                              else Cross(a, b, p) < 0.0)
    ensures !Straddles(p, a, b) ==> !Intersects(p, a, b)
  {
    EdgeTest(p, a, b);
    CrossAntisymmetric(a, b, p);
    assert Cross(a, b, p) == (b.x - a.x) * (p.y - a.y) - (p.x - a.x) * (b.y - a.y);
    assert Cross(b, a, p) == (a.x - b.x) * (p.y - b.y) - (p.x - b.x) * (a.y - b.y);
  }

  lemma FewVerticesAreOutside(p: Point, polygon: Polygon)
    requires |polygon| < 3
    ensures !Inside(p, polygon)
  {
    if |polygon| == 2 {
      IntersectsSymmetric(p, polygon[0], polygon[1]);
      assert !Crossings(p, polygon[..1]);
    }
  }

  // ---------------------------------------------------------------------
  // Parity is a property of the cycle, not of the vertex list
  // ---------------------------------------------------------------------

  /** Joining two paths adds the edge between them. */
  lemma {:induction false} JoinPaths(p: Point, a: Polygon, b: Polygon)
    requires a != [] && b != []
    ensures Crossings(p, a + b) == ((Crossings(p, a) != Crossings(p, b)) != Intersects(p, b[0], a[|a| - 1]))
  {
    if |b| == 1 {
      assert (a + b)[..|a|] == a;
    } else {
      var init := b[..|b| - 1];
      JoinPaths(p, a, init);
      assert (a + b)[..|a + b| - 1] == a + init;
    }
  }

  /** Splitting a path at a vertex loses no edge. */
  lemma SplitPath(p: Point, path: Polygon, k: nat)
    requires k < |path|
    ensures Crossings(p, path) == (Crossings(p, path[..k + 1]) != Crossings(p, path[k..]))
  {
    if k == 0 {
      assert path[0..] == path;
    } else {
      JoinPaths(p, path[..k], path[k..]);
      assert path[..k] + path[k..] == path;
      assert path[..k + 1][..k] == path[..k];
    }
  }

  /** Starting the vertex list elsewhere changes nothing. */
  lemma RotationInvariant(p: Point, polygon: Polygon, k: nat)
    requires k <= |polygon|
    ensures Inside(p, polygon[k..] + polygon[..k]) == Inside(p, polygon)
  {
    var a, b := polygon[..k], polygon[k..];
    assert a + b == polygon;
    if a == [] || b == [] {
      assert b + a == polygon;
    } else {
      JoinPaths(p, a, b);
      JoinPaths(p, b, a);
    }
  }

  function Reversed(path: Polygon): Polygon {
    if path == [] then [] else [path[|path| - 1]] + Reversed(path[..|path| - 1])
  }

  lemma {:induction false} ReversedEnds(path: Polygon)
    requires path != []
    ensures |Reversed(path)| == |path|
    ensures Reversed(path)[0] == path[|path| - 1] && Reversed(path)[|path| - 1] == path[0]
  {
    if |path| > 1 {
      ReversedEnds(path[..|path| - 1]);
    }
  }

  lemma {:induction false} ReversedCrossings(p: Point, path: Polygon)
    ensures Crossings(p, Reversed(path)) == Crossings(p, path)
  {
    if |path| >= 2 {
      var init, last := path[..|path| - 1], path[|path| - 1];
      ReversedCrossings(p, init);
      ReversedEnds(init);
      JoinPaths(p, [last], Reversed(init));
      IntersectsSymmetric(p, path[|path| - 2], last);
    }
  }

  /** Listing the vertices the other way round changes nothing. */
  lemma ReversalInvariant(p: Point, polygon: Polygon)
    ensures Inside(p, Reversed(polygon)) == Inside(p, polygon)
  {
    if polygon != [] {
      ReversedEnds(polygon);
      ReversedCrossings(p, polygon);
      IntersectsSymmetric(p, polygon[0], polygon[|polygon| - 1]);
    }
  }

  /** Cutting a polygon along the chord between two of its vertices cuts its inside in two. */
  lemma ChordCut(p: Point, polygon: Polygon, i: nat, j: nat)
    requires i < j < |polygon|
    ensures Inside(p, polygon) == (Inside(p, polygon[i..j + 1]) != Inside(p, polygon[j..] + polygon[..i + 1]))
  {
    hide Intersects, Crossings;
    SplitPath(p, polygon, i);
    SplitPath(p, polygon[i..], j - i);
    assert polygon[i..][..j - i + 1] == polygon[i..j + 1] && polygon[i..][j - i..] == polygon[j..];
    JoinPaths(p, polygon[j..], polygon[..i + 1]);
    IntersectsSymmetric(p, polygon[i], polygon[j]);
  }

  // ---------------------------------------------------------------------
  // Points outside the bounding box
  // ---------------------------------------------------------------------

  predicate Above(p: Point, v: Point) {
    v.y > p.y
  }

  lemma {:induction false} NoStraddleNoCrossing(p: Point, path: Polygon)
    requires forall i, j :: 0 <= i < |path| && 0 <= j < |path| ==> !Intersects(p, path[i], path[j])
    ensures !Crossings(p, path)
  {
    if |path| >= 2 {
      var init := path[..|path| - 1];
      assert forall i :: 0 <= i < |init| ==> init[i] == path[i];
      NoStraddleNoCrossing(p, init);
    }
  }

  /** Whether an open path ends on the other side of the horizontal is the parity of its straddling edges. */
  lemma {:induction false} StraddleParity(p: Point, path: Polygon)
    requires path != []
    requires forall i, j :: 0 <= i < |path| && 0 <= j < |path| ==>
                              (Intersects(p, path[i], path[j]) <==> Straddles(p, path[i], path[j]))
    ensures Crossings(p, path) == (Above(p, path[0]) != Above(p, path[|path| - 1]))
  {
    if |path| >= 2 {
      var init := path[..|path| - 1];
      assert forall i :: 0 <= i < |init| ==> init[i] == path[i];
      StraddleParity(p, init);
    }
  }

  /** A weighted mean of two reals below a bound is below it. */
  lemma MeanBelow(u: real, v: real, bound: real, s: real, d: real)
    requires u < bound && v < bound && 0.0 <= s <= d && 0.0 < d
    ensures v * s + u * (d - s) < bound * d
  {
    var rest, e, f := d - s, bound - v, bound - u;
    ProductSign(e, s);
    ProductSign(f, rest);
    var es, fr := e * s, f * rest;
    if s == 0.0 {
      assert fr > 0.0;
    }
    assert es + fr > 0.0;
    assert es == bound * s - v * s && fr == bound * rest - u * rest;
    assert bound * s + bound * rest == bound * d;
  }

  lemma ProductSign(a: real, b: real)
    requires a > 0.0 && b >= 0.0
    ensures a * b >= 0.0 && (b > 0.0 ==> a * b > 0.0)
  {
  }

  lemma Less(m: real, bound: real, d: real)
    requires 0.0 < d && m * d < bound * d
    ensures m < bound
  {
    assert (bound - m) * d > 0.0;
  }

  lemma MeetsBelowUp(p: Point, a: Point, b: Point, bound: real)
    requires a.y <= p.y < b.y && a.x < bound && b.x < bound
    ensures MeetsAt(p, a, b) < bound
  {
    var d, s := b.y - a.y, p.y - a.y;
    DivMul((b.x - a.x) * s, d);
    assert MeetsAt(p, a, b) * d == (b.x - a.x) * s + a.x * d;
    assert (b.x - a.x) * s + a.x * d == b.x * s + a.x * (d - s);
    MeanBelow(a.x, b.x, bound, s, d);
    Less(MeetsAt(p, a, b), bound, d);
  }

  /** A straddling edge meets the horizontal left of every bound its ends are left of. */
  lemma MeetsBelow(p: Point, a: Point, b: Point, bound: real)
    requires Straddles(p, a, b) && a.x < bound && b.x < bound
    ensures MeetsAt(p, a, b) < bound
  {
    if a.y <= p.y {
      MeetsBelowUp(p, a, b, bound);
    } else {
      MeetsAtSymmetric(p, a, b);
      MeetsBelowUp(p, b, a, bound);
    }
  }

  function Mirrored(v: Point): Point {
    Point(-v.x, v.y)
  }

  lemma MirroredMeets(p: Point, a: Point, b: Point)
    requires a.y != b.y
    ensures MeetsAt(Mirrored(p), Mirrored(a), Mirrored(b)) == -MeetsAt(p, a, b)
  {
    var d := b.y - a.y;
    var n := (b.x - a.x) * (p.y - a.y);
    DivMul(n, d);
    DivMul(-n, d);
    assert (Mirrored(b).x - Mirrored(a).x) * (p.y - a.y) == -n;
    SameProduct((-n) / d, -(n / d), d);
  }

  /** ... and right of every bound its ends are right of. */
  lemma MeetsAbove(p: Point, a: Point, b: Point, bound: real)
    requires Straddles(p, a, b) && a.x > bound && b.x > bound
    ensures MeetsAt(p, a, b) > bound
  {
    MirroredMeets(p, a, b);
    MeetsBelow(Mirrored(p), Mirrored(a), Mirrored(b), -bound);
  }

  /** A point strictly outside the bounding box, on any side, is never inside. */
  lemma OutsideBoundingBox(p: Point, polygon: Polygon)
    requires
      || (forall i :: 0 <= i < |polygon| ==> polygon[i].x < p.x)
      || (forall i :: 0 <= i < |polygon| ==> p.x < polygon[i].x)
      || (forall i :: 0 <= i < |polygon| ==> polygon[i].y < p.y)
      || (forall i :: 0 <= i < |polygon| ==> p.y < polygon[i].y)
    ensures !Inside(p, polygon)
  {
    if polygon != [] {
      if forall i :: 0 <= i < |polygon| ==> p.x < polygon[i].x {
        forall i, j | 0 <= i < |polygon| && 0 <= j < |polygon|
          ensures Intersects(p, polygon[i], polygon[j]) <==> Straddles(p, polygon[i], polygon[j])
        {
          if Straddles(p, polygon[i], polygon[j]) {
            MeetsAbove(p, polygon[i], polygon[j], p.x);
          }
        }
        StraddleParity(p, polygon);
      } else {
        forall i, j | 0 <= i < |polygon| && 0 <= j < |polygon|
          ensures !Intersects(p, polygon[i], polygon[j])
        {
          if Straddles(p, polygon[i], polygon[j]) {
            MeetsBelow(p, polygon[i], polygon[j], p.x);
          }
        }
        NoStraddleNoCrossing(p, polygon);
      }
    }
  }

  // ---------------------------------------------------------------------
  // Triangles
  // ---------------------------------------------------------------------

  /** The point is on the same side of all three edges, followed in order. */
  predicate InTriangle(p: Point, a: Point, b: Point, c: Point) {
    || (Cross(a, b, p) > 0.0 && Cross(b, c, p) > 0.0 && Cross(c, a, p) > 0.0)
    || (Cross(a, b, p) < 0.0 && Cross(b, c, p) < 0.0 && Cross(c, a, p) < 0.0)
  }

  predicate OffLines(p: Point, a: Point, b: Point, c: Point) {
    Cross(a, b, p) != 0.0 && Cross(b, c, p) != 0.0 && Cross(c, a, p) != 0.0
  }

  /** The three signed areas weigh the vertices' heights over the point to zero. */
  lemma Barycentric(p: Point, a: Point, b: Point, c: Point)
    ensures (a.y - p.y) * Cross(b, c, p) + (b.y - p.y) * Cross(c, a, p) + (c.y - p.y) * Cross(a, b, p) == 0.0
  {
  }

  lemma TriangleEdges(p: Point, a: Point, b: Point, c: Point)
    ensures Inside(p, [a, b, c])
            == ((Intersects(p, a, b) != Intersects(p, b, c)) != Intersects(p, c, a))
  {
    IntersectsSymmetric(p, a, b);
    IntersectsSymmetric(p, b, c);
    IntersectsSymmetric(p, c, a);
    hide Intersects;
    assert [a, b, c][..2] == [a, b] && [a, b][..1] == [a];
    assert !Crossings(p, [a]);
    assert Crossings(p, [a, b]) == Intersects(p, b, a);
    assert Crossings(p, [a, b, c]) == (Crossings(p, [a, b]) != Intersects(p, c, b));
  }

  lemma SignOfProduct(a: real, b: real)
    ensures a > 0.0 && b > 0.0 ==> a * b > 0.0
    ensures a > 0.0 && b < 0.0 ==> a * b < 0.0
    ensures a <= 0.0 && b > 0.0 ==> a * b <= 0.0
    ensures a <= 0.0 && b < 0.0 ==> a * b >= 0.0
  {
    if a > 0.0 && b > 0.0 {
      assert a * b > 0.0;
    } else if a > 0.0 && b < 0.0 {
      assert a * (-b) > 0.0;
    } else if a <= 0.0 && b > 0.0 {
      assert (-a) * b >= 0.0;
    } else if a <= 0.0 && b < 0.0 {
      assert (-a) * (-b) >= 0.0;
    }
  }

  /** Two heights on one side with areas of one sign force the third area, against a height on the other side. */
  lemma ThirdArea(u: real, v: real, w: real, x: real, y: real, z: real)
    requires u * x + v * y + w * z == 0.0 && x != 0.0
    requires (u > 0.0 && v <= 0.0 && w <= 0.0) || (u <= 0.0 && v > 0.0 && w > 0.0)
    ensures y > 0.0 && z > 0.0 ==> x > 0.0
    ensures y < 0.0 && z < 0.0 ==> x < 0.0
  {
    SignOfProduct(u, x);
    SignOfProduct(v, y);
    SignOfProduct(w, z);
  }

  /** With one vertex alone on its side of the horizontal, exactly one edge at it is crossed from inside. */
  lemma ApexCase(p: Point, a: Point, b: Point, c: Point)
    requires OffLines(p, a, b, c) && Above(p, b) == Above(p, c) != Above(p, a)
    ensures ((Intersects(p, a, b) != Intersects(p, b, c)) != Intersects(p, c, a)) <==> InTriangle(p, a, b, c)
  {
    hide Intersects, Cross;
    CrossedBySide(p, a, b);
    CrossedBySide(p, b, c);
    CrossedBySide(p, c, a);
    Barycentric(p, a, b, c);
    ThirdArea(a.y - p.y, b.y - p.y, c.y - p.y, Cross(b, c, p), Cross(c, a, p), Cross(a, b, p));
  }

  lemma FlatCase(p: Point, a: Point, b: Point, c: Point)
    requires OffLines(p, a, b, c) && Above(p, a) == Above(p, b) == Above(p, c)
    ensures !InTriangle(p, a, b, c)
    ensures !Intersects(p, a, b) && !Intersects(p, b, c) && !Intersects(p, c, a)
  {
    hide Cross;
    Barycentric(p, a, b, c);
    var u, v, w := a.y - p.y, b.y - p.y, c.y - p.y;
    SignOfProduct(u, Cross(b, c, p));
    SignOfProduct(v, Cross(c, a, p));
    SignOfProduct(w, Cross(a, b, p));
    if InTriangle(p, a, b, c) {
      assert u * Cross(b, c, p) == 0.0 && v * Cross(c, a, p) == 0.0 && w * Cross(a, b, p) == 0.0;
      LevelEdge(p, a, b);
    }
  }

  lemma LevelEdge(p: Point, a: Point, b: Point)
    ensures a.y == p.y && b.y == p.y ==> Cross(a, b, p) == 0.0
  {
  }

  /** A point off the edge lines is inside a triangle exactly when it is on the same side of all three edges. */
  lemma TriangleInside(p: Point, a: Point, b: Point, c: Point)
    requires OffLines(p, a, b, c)
    ensures Inside(p, [a, b, c]) <==>
              || (Cross(a, b, p) > 0.0 && Cross(b, c, p) > 0.0 && Cross(c, a, p) > 0.0)
              || (Cross(a, b, p) < 0.0 && Cross(b, c, p) < 0.0 && Cross(c, a, p) < 0.0)
  {
    hide Inside, Intersects, Cross;
    TriangleEdges(p, a, b, c);
    if Above(p, a) == Above(p, b) == Above(p, c) {
      FlatCase(p, a, b, c);
    } else if Above(p, b) == Above(p, c) {
      ApexCase(p, a, b, c);
    } else if Above(p, c) == Above(p, a) {
      ApexCase(p, b, c, a);
    } else {
      ApexCase(p, c, a, b);
    }
  }

  // ---------------------------------------------------------------------
  // Any polygon, as a fan of triangles
  // ---------------------------------------------------------------------

  /** Whether an odd number of the triangles between the first vertex and the edges not at it hold the point. */
  function FanParity(p: Point, polygon: Polygon): bool {
    if |polygon| < 3 then false
    else
      var n := |polygon|;
      FanParity(p, polygon[..n - 1]) != InTriangle(p, polygon[0], polygon[n - 2], polygon[n - 1])
  }

  ghost predicate OffFanLines(p: Point, polygon: Polygon) {
    forall i, next :: 0 < i < |polygon| - 1 && next == i + 1 ==> OffLines(p, polygon[0], polygon[i], polygon[next])
  }

  /** The toggling loop means geometry: a point off the lines of the fan is inside a polygon, convex or not, exactly
    * when it lies in an odd number of the triangles of the fan. */
  lemma {:induction false} InsideIsFanParity(p: Point, polygon: Polygon)
    requires OffFanLines(p, polygon)
    ensures Inside(p, polygon) <==> FanParity(p, polygon)
  {
    hide Inside, InTriangle, OffLines;
    if |polygon| < 3 {
      FewVerticesAreOutside(p, polygon);
    } else {
      var n := |polygon|;
      var init := polygon[..n - 1];
      assert OffLines(p, polygon[0], polygon[n - 2], polygon[n - 1]);
      InsideIsFanParity(p, init);
      ChordCut(p, polygon, 0, n - 2);
      assert polygon[0..n - 2 + 1] == init;
      assert polygon[n - 2..] + polygon[..0 + 1] == [polygon[n - 2], polygon[n - 1], polygon[0]];
      CutTriangle(p, polygon[0], polygon[n - 2], polygon[n - 1]);
    }
  }

  lemma CutTriangle(p: Point, a: Point, b: Point, c: Point)
    requires OffLines(p, a, b, c)
    ensures Inside(p, [b, c, a]) <==> InTriangle(p, a, b, c)
  {
    hide Inside, Cross;
    TriangleInside(p, b, c, a);
  }

  // ---------------------------------------------------------------------
  // Zones
  // ---------------------------------------------------------------------

  datatype ZoneType = INCLUSION | EXCLUSION

  datatype Zone = Zone(name: string, zoneType: ZoneType, enabled: bool, coordinates: Polygon)

  predicate Hits(p: Point, zone: Zone, zoneType: ZoneType) {
    zone.enabled && zone.zoneType == zoneType && Inside(p, zone.coordinates)
  }

  /** Excluded nowhere, and included somewhere unless there is no inclusion zone. */
  predicate PointAllowed(p: Point, zones: seq<Zone>) {
    && (forall z :: z in zones ==> !Hits(p, z, EXCLUSION))
    && ((exists z :: z in zones && z.enabled && z.zoneType == INCLUSION) ==>
          exists z :: z in zones && Hits(p, z, INCLUSION))
  }

  method MatchedZones(point: Point, zones: seq<Zone>, zoneType: ZoneType)
    returns (matched: seq<string>, configured: bool)
    ensures |matched| > 0 <==> exists z :: z in zones && Hits(point, z, zoneType)
    ensures forall name :: name in matched <==> exists z :: z in zones && Hits(point, z, zoneType) && z.name == name
    ensures configured <==> exists z :: z in zones && z.enabled && z.zoneType == zoneType
  {
    matched, configured := [], false;
    for i := 0 to |zones|
      invariant |matched| > 0 <==> exists z :: z in zones[..i] && Hits(point, z, zoneType)
      invariant forall name :: name in matched <==>
                                 exists z :: z in zones[..i] && Hits(point, z, zoneType) && z.name == name
      invariant configured <==> exists z :: z in zones[..i] && z.enabled && z.zoneType == zoneType
    {
      var zone := zones[i];
      assert forall z :: z in zones[..i + 1] <==> z in zones[..i] || z == zone;
      if zone.enabled && zone.zoneType == zoneType {
        configured := true;
        var inside := IsPointInPolygon(point, zone.coordinates);
        if inside {
          matched := matched + [zone.name];
        }
      }
    }
    assert zones[..|zones|] == zones;
  }

  /** Exclusions win; without inclusion zones the full frame is active. */
  method EvaluateMotionPoint(point: Point, zones: seq<Zone>)
    returns (allowed: bool, matchedExclusion: seq<string>, matchedInclusion: seq<string>)
    ensures allowed <==> PointAllowed(point, zones)
    ensures matchedExclusion != [] ==> !allowed && matchedInclusion == []
    ensures forall name :: name in matchedExclusion <==>
                            exists z :: z in zones && Hits(point, z, EXCLUSION) && z.name == name
    ensures matchedExclusion == [] ==>
              forall name :: name in matchedInclusion <==>
                             exists z :: z in zones && Hits(point, z, INCLUSION) && z.name == name
  {
    var configured;
    matchedExclusion, configured := MatchedZones(point, zones, EXCLUSION);
    matchedInclusion := [];
    if |matchedExclusion| > 0 {
      return false, matchedExclusion, [];
    }
    matchedInclusion, configured := MatchedZones(point, zones, INCLUSION);
    allowed := !configured || |matchedInclusion| > 0;
  }

  // ---------------------------------------------------------------------
  // Grid motion
  // ---------------------------------------------------------------------

  datatype GridCell = GridCell(col: int, row: int)

  /** The middle of the cell in a frame of unit size: as far from its left edge as from its right, and so on. */
  function Centroid(cell: GridCell, totalCols: int, totalRows: int): (middle: Point)
    requires totalCols > 0 && totalRows > 0
    ensures middle.x * totalCols as real - cell.col as real == (cell.col + 1) as real - middle.x * totalCols as real
    ensures middle.y * totalRows as real - cell.row as real == (cell.row + 1) as real - middle.y * totalRows as real
  {
    DivMul(cell.col as real + 0.5, totalCols as real);
    DivMul(cell.row as real + 0.5, totalRows as real);
    Point((cell.col as real + 0.5) / totalCols as real, (cell.row as real + 0.5) / totalRows as real)
  }

  ghost predicate HitsAt(points: seq<Point>, zones: seq<Zone>, zoneType: ZoneType, name: string, passing: bool) {
    exists p :: p in points && PointAllowed(p, zones) == passing && ZoneNamed(p, zones, zoneType, name)
  }

  predicate ZoneNamed(p: Point, zones: seq<Zone>, zoneType: ZoneType, name: string) {
    exists z :: z in zones && Hits(p, z, zoneType) && z.name == name
  }

  ghost predicate AnyAllowed(points: seq<Point>, zones: seq<Zone>) {
    exists p :: p in points && PointAllowed(p, zones)
  }

  function Centroids(cells: seq<GridCell>, totalCols: int, totalRows: int): (points: seq<Point>)
    requires totalCols > 0 && totalRows > 0
    ensures |points| == |cells|
  {
    seq(|cells|, i requires 0 <= i < |cells| => Centroid(cells[i], totalCols, totalRows))
  }

  /** Passes when some cell's centroid passes; without cells nothing passes, on a malformed grid everything does.
    * An answer names the zones behind it: the inclusions of the passing cells, or else all exclusions hit. */
  method EvaluateCellGrid(cells: seq<GridCell>, totalCols: int, totalRows: int, zones: seq<Zone>)
    returns (allowed: bool, blockedExclusions: set<string>, passedInclusions: set<string>)
    ensures allowed <==>
      && cells != []
      && (totalCols > 0 && totalRows > 0 ==> AnyAllowed(Centroids(cells, totalCols, totalRows), zones))
    ensures totalCols > 0 && totalRows > 0 ==>
      var points := Centroids(cells, totalCols, totalRows);
      && (forall name :: name in passedInclusions <==> HitsAt(points, zones, INCLUSION, name, true))
      && (forall name :: name in blockedExclusions <==> !allowed && HitsAt(points, zones, EXCLUSION, name, false))
  {
    hide PointAllowed, ZoneNamed;
    allowed, blockedExclusions, passedInclusions := false, {}, {};
    if |cells| == 0 {
      return;
    }
    if totalCols <= 0 || totalRows <= 0 {
      return true, {}, {};
    }
    ghost var points := Centroids(cells, totalCols, totalRows);
    for i := 0 to |cells|
      invariant allowed <==> AnyAllowed(points[..i], zones)
      invariant forall name :: name in passedInclusions <==> HitsAt(points[..i], zones, INCLUSION, name, true)
      invariant forall name :: name in blockedExclusions <==> HitsAt(points[..i], zones, EXCLUSION, name, false)
    {
      var centroid := Centroid(cells[i], totalCols, totalRows);
      var cellAllowed, exclusions, inclusions := EvaluatePoint(centroid, zones);
      assert points[..i + 1] == points[..i] + [centroid];
      OnePointMore(points[..i], centroid, zones);
      if cellAllowed {
        allowed := true;
        passedInclusions := passedInclusions + inclusions;
      } else {
        blockedExclusions := blockedExclusions + exclusions;
      }
    }
    assert points[..|cells|] == points;
    if allowed {
      blockedExclusions := {};
    }
  }

  lemma OnePointMore(points: seq<Point>, p: Point, zones: seq<Zone>)
    ensures AnyAllowed(points + [p], zones) <==> AnyAllowed(points, zones) || PointAllowed(p, zones)
    ensures forall zoneType, name, passing :: HitsAt(points + [p], zones, zoneType, name, passing) <==>
      HitsAt(points, zones, zoneType, name, passing)
      || (PointAllowed(p, zones) == passing && ZoneNamed(p, zones, zoneType, name))
  {
    hide PointAllowed, ZoneNamed;
    var more := points + [p];
    assert p in more && forall q :: q in points ==> q in more;
  }

  /** One cell's answer, with the names as sets. */
  method EvaluatePoint(p: Point, zones: seq<Zone>)
    returns (allowed: bool, exclusions: set<string>, inclusions: set<string>)
    ensures allowed <==> PointAllowed(p, zones)
    ensures allowed ==> forall name :: name in inclusions <==> ZoneNamed(p, zones, INCLUSION, name)
    ensures !allowed ==> forall name :: name in exclusions <==> ZoneNamed(p, zones, EXCLUSION, name)
  {
    hide Hits;
    var matchedExclusion, matchedInclusion;
    allowed, matchedExclusion, matchedInclusion := EvaluateMotionPoint(p, zones);
    exclusions := set name | name in matchedExclusion;
    inclusions := set name | name in matchedInclusion;
  }
}

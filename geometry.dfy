/** The geometry helpers of utils.py (duplicated in ball.py): the
    ray-crossing point-in-polygon test, the closest point of a segment, and
    the six vertices of the rotated hexagon. */
module Geometry {
  import opened Vector

  function Min(a: real, b: real): real { if a <= b then a else b }

  function Max(a: real, b: real): real { if a >= b then a else b }

  /** The half-open height test of one edge: `min(p1y, p2y) < y <= max(p1y, p2y)`. */
  predicate InBand(p1: Vec2, p2: Vec2, y: real) {
    Min(p1.y, p2.y) < y <= Max(p1.y, p2.y)
  }

  /** The x-coordinate where the edge from `p1` to `p2` meets height `y`. */
  function XIntersect(p1: Vec2, p2: Vec2, y: real): real
    requires p1.y != p2.y
  {
    (y - p1.y) * (p2.x - p1.x) / (p2.y - p1.y) + p1.x
  }

  /** Does the edge from `p1` to `p2` toggle `inside` for the point `pt`?
      The x-intersection is consulted only for an edge that is not
      horizontal, so it is never a division by zero. */
  predicate Crosses(p1: Vec2, p2: Vec2, pt: Vec2) {
    && InBand(p1, p2, pt.y)
    && pt.x <= Max(p1.x, p2.x)
    && (p1.x == p2.x || pt.x <= XIntersect(p1, p2, pt.y))
  }

  /** Edge `k` of a closed polygon joins vertex `k` to vertex `k + 1 mod n`. */
  function EdgeEnd(vs: seq<Vec2>, k: nat): Vec2
    requires 0 <= k < |vs|
  {
    vs[(k + 1) % |vs|]
  }

  /** The number of edges among the first `k` that the point's ray crosses. */
  function CrossingCount(vs: seq<Vec2>, pt: Vec2, k: nat): nat
    requires k <= |vs|
  {
    if k == 0 then 0
    else CrossingCount(vs, pt, k - 1) + (if Crosses(vs[k - 1], EdgeEnd(vs, k - 1), pt) then 1 else 0)
  }

  /** The reference meaning of the test: the point is inside exactly when
      an odd number of the polygon's edges are crossed. */
  predicate OddCrossings(vs: seq<Vec2>, pt: Vec2) {
    CrossingCount(vs, pt, |vs|) % 2 == 1
  }

  /** `point_in_polygon`. The loop runs n + 1 times: the first pass pairs
      vertex 0 with itself, the following n passes visit the n edges. */
  method PointInPolygon(pt: Vec2, vs: seq<Vec2>) returns (inside: bool)
    requires |vs| > 0
    ensures inside <==> OddCrossings(vs, pt)
  {
    var n := |vs|;
    inside := false;
    var p1 := vs[0];
    var xinters := 0.0;
    for i := 0 to n + 1
      invariant i == 0 ==> p1 == vs[0]
      invariant 0 < i ==> p1 == vs[(i - 1) % n]
      invariant inside <==> CrossingCount(vs, pt, if i == 0 then 0 else i - 1) % 2 == 1
    {
      var p2 := vs[i % n];
      var toggle;
      toggle, xinters := EdgeTest(p1, p2, pt, xinters);
      if toggle {
        inside := !inside;
      }
      CountStep(vs, pt, i);
      p1 := p2;
    }
  }

  /** The body of the loop for the edge from `p1` to `p2`: the three
      comparisons, the x-intersection for an edge that is not horizontal
      (the previous value is kept otherwise), and whether `inside` flips. */
  method EdgeTest(p1: Vec2, p2: Vec2, pt: Vec2, xinters: real) returns (toggle: bool, xinters': real)
    ensures toggle <==> Crosses(p1, p2, pt)
    ensures p1.y != p2.y && InBand(p1, p2, pt.y) && pt.x <= Max(p1.x, p2.x) ==> xinters' == XIntersect(p1, p2, pt.y)
  {
    toggle, xinters' := false, xinters;
    ghost var computedForThisEdge := false;
    if pt.y > Min(p1.y, p2.y) {
      if pt.y <= Max(p1.y, p2.y) {
        if pt.x <= Max(p1.x, p2.x) {
          if p1.y != p2.y {
            xinters' := (pt.y - p1.y) * (p2.x - p1.x) / (p2.y - p1.y) + p1.x;
            computedForThisEdge := true;
          }
          // A horizontal edge never passes the two height tests, so the
          // value read below was computed for this very edge.
          assert computedForThisEdge;
          if p1.x == p2.x || pt.x <= xinters' {
            toggle := true;
          }
        }
      }
    }
  }

  /** One pass of the loop: pass 0 adds nothing, pass `i > 0` adds edge `i - 1`. */
  lemma CountStep(vs: seq<Vec2>, pt: Vec2, i: nat)
    requires 0 < |vs| && i <= |vs|
    ensures CrossingCount(vs, pt, i) % 2 == 1 <==>
      ((if i == 0 then 0 else CrossingCount(vs, pt, i - 1)) % 2 == 1) != Crosses(vs[if i == 0 then 0 else (i - 1) % |vs|], vs[i % |vs|], pt)
  {
    if i > 0 {
      var n := |vs|;
      assert (i - 1) % n == i - 1;
      assert EdgeEnd(vs, i - 1) == vs[i % n];
      var prev := CrossingCount(vs, pt, i - 1);
      var c := Crosses(vs[i - 1], vs[i % n], pt);
      assert CrossingCount(vs, pt, i) == prev + (if c then 1 else 0);
      Parity(prev, c);
    }
  }

  lemma Parity(x: nat, c: bool)
    ensures (x + (if c then 1 else 0)) % 2 == 1 <==> (x % 2 == 1) != c
  {
  }

  /** A horizontal edge never toggles, and neither does the first pass,
      which pairs vertex 0 with itself. */
  lemma HorizontalEdgeNeverCrosses(p1: Vec2, p2: Vec2, pt: Vec2)
    requires p1.y == p2.y
    ensures !Crosses(p1, p2, pt)
    ensures !Crosses(p1, p1, pt)
  {
  }

  /** At a vertex `v` that lies exactly at the ray's height, each of the two
      edges meeting there is counted only when its other end lies below the
      ray, so a vertex where the boundary passes through the ray is counted
      once and a vertex where it turns back is counted zero or two times. */
  lemma SharedVertexCountedOnce(a: Vec2, v: Vec2, b: Vec2, y: real)
    requires v.y == y
    ensures InBand(a, v, y) <==> a.y < y
    ensures InBand(v, b, y) <==> b.y < y
    ensures a.y < y < b.y ==> InBand(a, v, y) && !InBand(v, b, y)
  {
  }

  /** The point lies to the right of every vertex, or not strictly above the
      lowest `y`, or above the highest `y`. */
  predicate OutsideBoundingBox(vs: seq<Vec2>, pt: Vec2) {
    || (forall j :: 0 <= j < |vs| ==> vs[j].x < pt.x)
    || (forall j :: 0 <= j < |vs| ==> pt.y <= vs[j].y)
    || (forall j :: 0 <= j < |vs| ==> vs[j].y < pt.y)
  }

  lemma {:induction false} NoCrossingsOutsideBox(vs: seq<Vec2>, pt: Vec2, k: nat)
    requires k <= |vs| && OutsideBoundingBox(vs, pt)
    ensures CrossingCount(vs, pt, k) == 0
  {
    if k > 0 {
      NoCrossingsOutsideBox(vs, pt, k - 1);
      var j := (k - 1 + 1) % |vs|;
      assert 0 <= j < |vs|;
      assert !Crosses(vs[k - 1], vs[j], pt);
    }
  }

  /** A point outside the bounding box of the vertices is reported outside. */
  lemma OutsideBoxIsOutside(vs: seq<Vec2>, pt: Vec2)
    requires |vs| > 0 && OutsideBoundingBox(vs, pt)
    ensures !OddCrossings(vs, pt)
  {
    NoCrossingsOutsideBox(vs, pt, |vs|);
  }

  /** The point `a + t (b - a)` of the segment from `a` to `b`. */
  function Lerp(a: Vec2, b: Vec2, t: real): Vec2 {
    Add(a, Scale(Sub(b, a), t))
  }

  /** `get_closest_point_on_line`: project the point onto the line through
      the segment and clamp the parameter to [0, 1]; a segment of zero
      length gives its start. */
  function ClosestPointOnLine(p: Vec2, a: Vec2, b: Vec2, m: Numerics): Vec2 {
    ProjectOntoSegment(p, a, b, Length(Sub(b, a), m))
  }

  /** The computation once the segment's length `len` is known. */
  function ProjectOntoSegment(p: Vec2, a: Vec2, b: Vec2, len: real): Vec2 {
    if len == 0.0 then a
    else Lerp(a, b, ClampUnit(Dot(Sub(p, a), Sub(b, a)) / (len * len)))
  }

  /** `max(0, min(1, t))`. */
  function ClampUnit(t: real): (r: real)
    ensures 0.0 <= r <= 1.0
    ensures 0.0 <= t <= 1.0 ==> r == t
  {
    Max(0.0, Min(1.0, t))
  }

  /** The closest point always lies on the segment, and is its start when
      the segment is a single point; it is the start when
      the point projects behind the start, the end when it projects beyond
      the end, and otherwise the foot of the perpendicular from the point. */
  lemma ClosestPointOnSegment(p: Vec2, a: Vec2, b: Vec2, m: Numerics)
    requires m.Valid()
    ensures a == b ==> ClosestPointOnLine(p, a, b, m) == a
    ensures exists t :: 0.0 <= t <= 1.0 && ClosestPointOnLine(p, a, b, m) == Lerp(a, b, t)
    ensures Dot(Sub(p, a), Sub(b, a)) <= 0.0 ==> ClosestPointOnLine(p, a, b, m) == a
    ensures a != b && Dot(Sub(p, a), Sub(b, a)) >= Dot(Sub(b, a), Sub(b, a)) ==> ClosestPointOnLine(p, a, b, m) == b
    ensures 0.0 < Dot(Sub(p, a), Sub(b, a)) < Dot(Sub(b, a), Sub(b, a)) ==>
      Dot(Sub(p, ClosestPointOnLine(p, a, b, m)), Sub(b, a)) == 0.0
  {
    LerpEnds(a, b);
    if a == b {
      LengthFacts(Sub(b, a), m);
    } else {
      LengthFacts(Sub(b, a), m);
      DotSelfPositive(Sub(b, a));
      ProjectionFacts(p, a, b, Length(Sub(b, a), m));
    }
  }

  /** The projection for a segment of positive length `len`. */
  lemma ProjectionFacts(p: Vec2, a: Vec2, b: Vec2, len: real)
    requires len > 0.0 && len * len == Dot(Sub(b, a), Sub(b, a)) && Dot(Sub(b, a), Sub(b, a)) > 0.0
    ensures var r := ProjectOntoSegment(p, a, b, len);
      var c := Dot(Sub(p, a), Sub(b, a));
      && (exists t :: 0.0 <= t <= 1.0 && r == Lerp(a, b, t))
      && (c <= 0.0 ==> r == a)
      && (c >= Dot(Sub(b, a), Sub(b, a)) ==> r == b)
      && (0.0 < c < Dot(Sub(b, a), Sub(b, a)) ==> Dot(Sub(p, r), Sub(b, a)) == 0.0)
  {
    assert ProjectOntoSegment(p, a, b, len)
      == Lerp(a, b, ClampUnit(Dot(Sub(p, a), Sub(b, a)) / Dot(Sub(b, a), Sub(b, a))));
    ClampedProjection(p, a, b);
  }

  lemma LerpEnds(a: Vec2, b: Vec2)
    ensures Lerp(a, b, 0.0) == a && Lerp(a, b, 1.0) == b
  {
  }

  /** The projection parameter clamped to [0, 1] picks a point of the
      segment: its start when the point lies behind the start, its end when
      the point lies beyond the end, and the foot of the perpendicular
      otherwise. */
  lemma ClampedProjection(p: Vec2, a: Vec2, b: Vec2)
    requires Dot(Sub(b, a), Sub(b, a)) > 0.0
    ensures var c := Dot(Sub(p, a), Sub(b, a));
      var t := ClampUnit(c / Dot(Sub(b, a), Sub(b, a)));
      && 0.0 <= t <= 1.0
      && (c <= 0.0 ==> Lerp(a, b, t) == a)
      && (c >= Dot(Sub(b, a), Sub(b, a)) ==> Lerp(a, b, t) == b)
      && (0.0 < c < Dot(Sub(b, a), Sub(b, a)) ==> Dot(Sub(p, Lerp(a, b, t)), Sub(b, a)) == 0.0)
  {
    var d := Sub(b, a);
    ProjectionBounds(Dot(Sub(p, a), d), Dot(d, d));
    LerpEnds(a, b);
    if 0.0 < Dot(Sub(p, a), d) < Dot(d, d) {
      PerpendicularFoot(p, a, b, Dot(d, d));
    }
  }

  /** Where the unclamped parameter `c / dd` falls, by the sign of `c` and
      its size against `dd`. */
  lemma ProjectionBounds(c: real, dd: real)
    requires dd > 0.0
    ensures c <= 0.0 ==> c / dd <= 0.0
    ensures c >= dd ==> c / dd >= 1.0
    ensures 0.0 < c < dd ==> 0.0 < c / dd < 1.0
  {
    var q := c / dd;
    assert q * dd == c;
    var e := q - 1.0;
    assert e * dd == c - dd;
    SignOfProduct(q, dd);
    SignOfProduct(e, dd);
  }

  /** Multiplying by a positive number keeps the sign. */
  lemma SignOfProduct(x: real, y: real)
    requires y > 0.0
    ensures x < 0.0 ==> x * y < 0.0
    ensures x > 0.0 ==> x * y > 0.0
  {
  }

  /** The unclamped projection leaves a remainder perpendicular to the segment. */
  lemma PerpendicularFoot(p: Vec2, a: Vec2, b: Vec2, dd: real)
    requires dd == Dot(Sub(b, a), Sub(b, a)) && dd != 0.0
    ensures Dot(Sub(p, Lerp(a, b, Dot(Sub(p, a), Sub(b, a)) / dd)), Sub(b, a)) == 0.0
  {
    var d, w := Sub(b, a), Sub(p, a);
    var t := Dot(w, d) / dd;
    assert t * dd == Dot(w, d);
    calc {
      Dot(Sub(p, Lerp(a, b, t)), d);
      Dot(Sub(w, Scale(d, t)), d);
      Dot(w, d) - t * Dot(d, d);
      0.0;
    }
  }

  /** The vertex `i` of the hexagon turned by `angle` degrees:
      `center + radius * (cos(angle + 60 i), sin(angle + 60 i))`. */
  function HexVertex(angle: real, i: nat, center: Vec2, radius: real, m: Numerics): Vec2 {
    var theta := m.Radians(angle + (i as real) * 60.0);
    Vec2(center.x + radius * m.cos(theta), center.y + radius * m.sin(theta))
  }

  /** The six vertices of the hexagon turned by `angle` degrees. */
  function HexagonPoints(angle: real, center: Vec2, radius: real, m: Numerics): (pts: seq<Vec2>)
    ensures |pts| == 6
  {
    seq(6, i requires 0 <= i < 6 => HexVertex(angle, i, center, radius, m))
  }

  /** Every vertex lies on the circle of the given radius around the center. */
  lemma HexVertexOnCircle(angle: real, i: nat, center: Vec2, radius: real, m: Numerics)
    requires m.Valid() && m.OnUnitCircle() && radius >= 0.0
    ensures Length(Sub(HexVertex(angle, i, center, radius, m), center), m) == radius
  {
    var theta := m.Radians(angle + (i as real) * 60.0);
    var c, s := m.cos(theta), m.sin(theta);
    assert c * c + s * s == 1.0;
    var d := Sub(HexVertex(angle, i, center, radius, m), center);
    assert d == Vec2(radius * c, radius * s);
    calc {
      Dot(d, d);
    ==
      (radius * c) * (radius * c) + (radius * s) * (radius * s);
    ==
      radius * radius * (c * c + s * s);
    ==
      radius * radius;
    }
    LengthFacts(d, m);
    SquareRootUnique(Length(d, m), radius);
  }

  /** `get_hex_points`: always exactly six vertices, vertex `i` at
      `angle + 60 i` degrees. */
  method HexPoints(angle: real, center: Vec2, radius: real, m: Numerics) returns (points: seq<Vec2>)
    ensures points == HexagonPoints(angle, center, radius, m)
  {
    points := [];
    for i := 0 to 6
      invariant |points| == i
      invariant forall j :: 0 <= j < i ==> points[j] == HexVertex(angle, j, center, radius, m)
    {
      var theta := m.Radians(angle + (i as real) * 60.0);
      var x := center.x + radius * m.cos(theta);
      var y := center.y + radius * m.sin(theta);
      points := points + [Vec2(x, y)];
    }
  }
}

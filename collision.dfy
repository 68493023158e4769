/** The physics shared by ball.py and the engine in game_engine.py: the
    centripetal pull towards the hexagon's center, the search for the
    nearest wall, the velocity of the rotating wall at the contact point,
    and the bounce. The two programs differ only in constants (the force
    factor, the speed limit, the push-out distance), which are parameters
    here. */
module Collision {
  import opened Vector
  import opened Geometry

  /** The exceptions the collision code can raise. */
  datatype Fault =
    | ZeroDivision         // `rotation_speed / abs(rotation_speed)` with a zero speed
    | NormalizeZeroVector  // `normalize()` of a vector of length zero

  datatype Result<T> = Success(value: T) | Failure(fault: Fault)

  datatype Option<T> = None | Some(value: T)

  // ---------------------------------------------------------------------
  // The centripetal force

  /** `calculate_centripetal_force` (ball.py, factor `k` = 0.2) and
      `_calculate_centripetal_force` (game_engine.py, factor `k` = 0.1):
      zero at the center, elsewhere `-r.normalize() * (w^2 |r|) * k` for
      the offset `r` from the center and the rotation speed `w` in radians. */
  function CentripetalForce(pos: Vec2, speed: real, center: Vec2, k: real, m: Numerics): Vec2 {
    var r := Sub(pos, center);
    var rLength := Length(r, m);
    if rLength == 0.0 then Zero
    else
      var angularVelocity := m.Radians(Abs(speed));
      var centripetalAcc := angularVelocity * angularVelocity * rLength;
      Scale(Scale(Scale(Normalize(r, m), -1.0), centripetalAcc), k)
  }

  /** The rate of the pull, `k w^2` for the rotation speed `w` in radians. */
  function SpringRate(speed: real, k: real, m: Numerics): real {
    k * m.Radians(Abs(speed)) * m.Radians(Abs(speed))
  }

  lemma CentripetalScalar(x: real, q: real, len: real, w: real, k: real)
    requires q * len == 1.0
    ensures x * q * -1.0 * (w * w * len) * k == x * -1.0 * (k * w * w)
  {
    calc {
      x * q * -1.0 * (w * w * len) * k;
    ==
      (q * len) * (x * -1.0 * (k * w * w));
    ==
      x * -1.0 * (k * w * w);
    }
  }

  /** The unit vector `r / len`, scaled by `-1`, by `w^2 len` and by `k`,
      is `r` scaled by `-(k w^2)`. */
  lemma CentripetalAlgebra(r: Vec2, len: real, w: real, k: real)
    requires len > 0.0
    ensures Scale(Scale(Scale(Scale(r, 1.0 / len), -1.0), w * w * len), k) == Scale(Scale(r, -1.0), k * w * w)
  {
    var q := 1.0 / len;
    assert q * len == 1.0;
    CentripetalScalar(r.x, q, len, w, k);
    CentripetalScalar(r.y, q, len, w, k);
  }

  lemma PullAway(pos: Vec2, speed: real, center: Vec2, k: real, m: Numerics, f: Vec2)
    requires f == Scale(Scale(Sub(pos, center), -1.0), SpringRate(speed, k, m))
    ensures f == Scale(Sub(center, pos), SpringRate(speed, k, m))
  {
    assert Scale(Sub(pos, center), -1.0) == Sub(center, pos);
  }

  lemma PullAtCenter(pos: Vec2, speed: real, center: Vec2, k: real, m: Numerics)
    requires pos == center
    ensures Zero == Scale(Sub(center, pos), SpringRate(speed, k, m))
  {
  }

  /** In both branches the force is `k w^2` times the vector from the ball
      to the center: a spring pulling towards the center. */
  lemma CentripetalIsSpring(pos: Vec2, speed: real, center: Vec2, k: real, m: Numerics)
    requires m.Valid()
    ensures CentripetalForce(pos, speed, center, k, m) == Scale(Sub(center, pos), SpringRate(speed, k, m))
  {
    var r := Sub(pos, center);
    var len := Length(r, m);
    LengthFacts(r, m);
    if len == 0.0 {
      SamePoint(pos, center, m);
      PullAtCenter(pos, speed, center, k, m);
    } else {
      CentripetalAlgebra(r, len, m.Radians(Abs(speed)), k);
      PullAway(pos, speed, center, k, m, CentripetalForce(pos, speed, center, k, m));
    }
  }

  /** A spring with a non-negative rate points against the offset, and its
      size is the rate times the length of the offset. */
  lemma SpringFacts(d: Vec2, c: real, m: Numerics)
    requires m.Valid() && c >= 0.0
    ensures Dot(Scale(d, c), Scale(d, -1.0)) <= 0.0
    ensures Length(Scale(d, c), m) == c * Length(Scale(d, -1.0), m)
  {
    SpringDot(d, c);
    LengthScale(d, c, m);
    LengthScale(d, -1.0, m);
  }

  lemma SpringDot(d: Vec2, c: real)
    requires c >= 0.0
    ensures Dot(Scale(d, c), Scale(d, -1.0)) <= 0.0
  {
    calc {
      Dot(Scale(d, c), Scale(d, -1.0));
    ==
      -(c * (d.x * d.x + d.y * d.y));
    <=
      0.0;
    }
  }

  lemma RateNonNegative(speed: real, k: real, m: Numerics)
    requires k >= 0.0
    ensures SpringRate(speed, k, m) >= 0.0
  {
    var w := m.Radians(Abs(speed));
    assert w * w >= 0.0;
    assert k * (w * w) >= 0.0;
  }

  /** With a non-negative factor the force points towards the center, and
      its size is `k w^2` times the distance from the center. */
  lemma CentripetalPointsInward(pos: Vec2, speed: real, center: Vec2, k: real, m: Numerics)
    requires m.Valid() && k >= 0.0
    ensures Dot(CentripetalForce(pos, speed, center, k, m), Sub(pos, center)) <= 0.0
    ensures Length(CentripetalForce(pos, speed, center, k, m), m)
      == SpringRate(speed, k, m) * Length(Sub(pos, center), m)
  {
    CentripetalIsSpring(pos, speed, center, k, m);
    RateNonNegative(speed, k, m);
    SpringInward(CentripetalForce(pos, speed, center, k, m), pos, center, SpringRate(speed, k, m), m);
  }

  lemma SpringInward(f: Vec2, pos: Vec2, center: Vec2, c: real, m: Numerics)
    requires m.Valid() && c >= 0.0 && f == Scale(Sub(center, pos), c)
    ensures Dot(f, Sub(pos, center)) <= 0.0
    ensures Length(f, m) == c * Length(Sub(pos, center), m)
  {
    var d := Sub(center, pos);
    assert Scale(d, -1.0) == Sub(pos, center);
    SpringFacts(d, c, m);
  }

  /** The force does not depend on the direction of rotation. */
  lemma CentripetalSymmetric(pos: Vec2, speed: real, center: Vec2, k: real, m: Numerics)
    ensures CentripetalForce(pos, -speed, center, k, m) == CentripetalForce(pos, speed, center, k, m)
  {
    assert Abs(-speed) == Abs(speed);
  }

  // ---------------------------------------------------------------------
  // The nearest wall

  /** The wall `k` of a polygon, from vertex `k` to the next one. */
  function Wall(pts: seq<Vec2>, k: nat): Vec2
    requires k < |pts|
  {
    Sub(EdgeEnd(pts, k), pts[k])
  }

  /** `(p - get_closest_point_on_line(p, start, end)).length()` for wall `j`. */
  function EdgeDistance(p: Vec2, pts: seq<Vec2>, j: nat, m: Numerics): real
    requires j < |pts|
  {
    Length(Sub(p, ClosestPointOnLine(p, pts[j], EdgeEnd(pts, j), m)), m)
  }

  /** Does `Vector2(-w.y, w.x).normalize()` raise for the wall vector `w`
      of wall `j`? */
  predicate ZeroNormal(pts: seq<Vec2>, j: nat, m: Numerics)
    requires j < |pts|
  {
    Length(Perp(Wall(pts, j)), m) == 0.0
  }

  /** Only a wall of zero length has no normal. */
  lemma ZeroNormalIsZeroWall(pts: seq<Vec2>, j: nat, m: Numerics)
    requires m.Valid() && j < |pts|
    ensures ZeroNormal(pts, j, m) <==> Wall(pts, j) == Zero
  {
    PerpLength(Wall(pts, j), m);
    LengthFacts(Wall(pts, j), m);
  }

  /** What the wall loop records for the nearest wall: its index, the
      distance `min_dist`, the point `closest_point` and the `normal`. */
  datatype Contact = Contact(edge: nat, dist: real, point: Vec2, normal: Vec2)

  /** The record for wall `j`; the normal is `Vector2(-w.y, w.x).normalize()`
      for the wall vector `w`. */
  function ContactAt(p: Vec2, pts: seq<Vec2>, j: nat, m: Numerics): Contact
    requires j < |pts| && !ZeroNormal(pts, j, m)
  {
    Contact(j, EdgeDistance(p, pts, j, m), ClosestPointOnLine(p, pts[j], EdgeEnd(pts, j), m),
            Normalize(Perp(Wall(pts, j)), m))
  }

  /** The normal of a wall is a unit vector perpendicular to it. */
  lemma ContactNormal(p: Vec2, pts: seq<Vec2>, j: nat, m: Numerics)
    requires m.Valid() && j < |pts| && !ZeroNormal(pts, j, m)
    ensures var n := ContactAt(p, pts, j, m).normal;
      Dot(n, n) == 1.0 && Dot(n, Wall(pts, j)) == 0.0
  {
    var w := Wall(pts, j);
    assert ContactAt(p, pts, j, m).normal == Normalize(Perp(w), m);
    NormalizeUnit(Perp(w), m);
    ScaleDot(Perp(w), 1.0 / Length(Perp(w), m), w);
    assert Dot(Perp(w), w) == 0.0;
  }

  /** The index the wall loop has recorded after its first `k` walls, given
      each wall's distance `ds` and whether its normal cannot be computed:
      `None` while nothing is recorded (`min_dist` is still infinite), or the
      exception raised when such a wall was to be recorded. A wall replaces
      the record only when it is strictly nearer. */
  function FirstNearest(ds: seq<real>, zero: seq<bool>, k: nat): (r: Result<Option<nat>>)
    requires k <= |ds| == |zero|
    ensures r.Success? && r.value.Some? ==> r.value.value < k
  {
    if k == 0 then Success(None)
    else
      match FirstNearest(ds, zero, k - 1)
      case Failure(f) => Failure(f)
      case Success(best) =>
        if best.None? || ds[k - 1] < ds[best.value] then
          if zero[k - 1] then Failure(NormalizeZeroVector) else Success(Some(k - 1))
        else Success(best)
  }

  /** The recorded wall is the nearest, and the first of the nearest when
      several are equally near; nothing is recorded only when there is no
      wall; the loop fails only when some wall has no normal, and then with
      the normalisation error. */
  lemma {:induction false} FirstNearestIsNearest(ds: seq<real>, zero: seq<bool>, k: nat)
    requires k <= |ds| == |zero|
    ensures var r := FirstNearest(ds, zero, k);
      r.Success? ==> (r.value.Some? <==> k > 0)
    ensures var r := FirstNearest(ds, zero, k);
      r.Success? && r.value.Some? ==>
        && !zero[r.value.value]
        && (forall j :: 0 <= j < k ==> ds[r.value.value] <= ds[j])
        && (forall j :: 0 <= j < r.value.value ==> ds[r.value.value] < ds[j])
    ensures var r := FirstNearest(ds, zero, k);
      r.Failure? ==> r.fault == NormalizeZeroVector && exists j :: 0 <= j < k && zero[j]
    ensures (forall j :: 0 <= j < k ==> !zero[j]) ==> FirstNearest(ds, zero, k).Success?
  {
    if k > 0 {
      FirstNearestIsNearest(ds, zero, k - 1);
    }
  }

  /** Once the loop has raised, later walls do not matter. */
  lemma {:induction false} FirstNearestFailureSticks(ds: seq<real>, zero: seq<bool>, i: nat, k: nat)
    requires i <= k <= |ds| == |zero|
    requires FirstNearest(ds, zero, i).Failure?
    ensures FirstNearest(ds, zero, k) == FirstNearest(ds, zero, i)
  {
    if i < k {
      FirstNearestFailureSticks(ds, zero, i, k - 1);
    }
  }

  /** Each wall's distance from `p`. */
  function Distances(p: Vec2, pts: seq<Vec2>, m: Numerics): (ds: seq<real>)
    ensures |ds| == |pts|
    ensures forall j :: 0 <= j < |pts| ==> ds[j] == EdgeDistance(p, pts, j, m)
  {
    seq(|pts|, j requires 0 <= j < |pts| => EdgeDistance(p, pts, j, m))
  }

  /** Which walls have no normal. */
  function ZeroNormals(pts: seq<Vec2>, m: Numerics): (zero: seq<bool>)
    ensures |zero| == |pts|
    ensures forall j :: 0 <= j < |pts| ==> (zero[j] <==> ZeroNormal(pts, j, m))
  {
    seq(|pts|, j requires 0 <= j < |pts| => ZeroNormal(pts, j, m))
  }

  /** The outcome of the wall loop over all walls: the record of the
      nearest wall, `None` for a polygon without walls, or the exception. */
  function Nearest(p: Vec2, pts: seq<Vec2>, m: Numerics): Result<Option<Contact>> {
    var ds, zero := Distances(p, pts, m), ZeroNormals(pts, m);
    FirstNearestIsNearest(ds, zero, |pts|);
    match FirstNearest(ds, zero, |pts|)
    case Failure(f) => Failure(f)
    case Success(None) => Success(None)
    case Success(Some(j)) =>
      assert !zero[j];
      Success(Some(ContactAt(p, pts, j, m)))
  }

  /** What `Nearest` promises, in terms of the polygon. */
  lemma NearestIsNearest(p: Vec2, pts: seq<Vec2>, m: Numerics)
    ensures var r := Nearest(p, pts, m);
      r.Success? ==> (r.value.Some? <==> |pts| > 0)
    ensures var r := Nearest(p, pts, m);
      r.Success? && r.value.Some? ==>
        var c := r.value.value;
        && c.edge < |pts|
        && !ZeroNormal(pts, c.edge, m)
        && c == ContactAt(p, pts, c.edge, m)
        && (forall j :: 0 <= j < |pts| ==> c.dist <= EdgeDistance(p, pts, j, m))
        && (forall j :: 0 <= j < c.edge ==> c.dist < EdgeDistance(p, pts, j, m))
    ensures var r := Nearest(p, pts, m);
      r.Failure? ==> r.fault == NormalizeZeroVector && exists j :: 0 <= j < |pts| && ZeroNormal(pts, j, m)
    ensures (forall j :: 0 <= j < |pts| ==> !ZeroNormal(pts, j, m)) ==> Nearest(p, pts, m).Success?
  {
    var ds, zero := Distances(p, pts, m), ZeroNormals(pts, m);
    FirstNearestIsNearest(ds, zero, |pts|);
    if FirstNearest(ds, zero, |pts|).Failure? {
      var j :| 0 <= j < |pts| && zero[j];
      assert ZeroNormal(pts, j, m);
    }
  }

  /** The index of a record, as `FirstNearest` gives it. */
  function EdgeOf(best: Option<Contact>): Option<nat> {
    if best.None? then None else Some(best.value.edge)
  }

  /** What the wall loop knows after its first `i` walls: its record is
      the one `FirstNearest` describes, with the contact of that wall. */
  ghost predicate ScanInvariant(p: Vec2, pts: seq<Vec2>, m: Numerics, i: nat, best: Option<Contact>)
    requires i <= |pts|
  {
    && FirstNearest(Distances(p, pts, m), ZeroNormals(pts, m), i) == Success(EdgeOf(best))
    && (best.Some? ==>
          && best.value.edge < i
          && !ZeroNormal(pts, best.value.edge, m)
          && best.value == ContactAt(p, pts, best.value.edge, m))
  }

  /** One pass of the wall loop: the distance to wall `i`; if the wall is
      strictly nearer than the record, its normal, which raises for a wall
      of zero length, and the new record. */
  method ConsiderWall(p: Vec2, pts: seq<Vec2>, m: Numerics, i: nat, best: Option<Contact>)
    returns (r: Result<Option<Contact>>)
    requires i < |pts| && ScanInvariant(p, pts, m, i, best)
    ensures r.Failure? ==>
      && r.fault == NormalizeZeroVector
      && FirstNearest(Distances(p, pts, m), ZeroNormals(pts, m), i + 1) == Failure(NormalizeZeroVector)
    ensures r.Success? ==> ScanInvariant(p, pts, m, i + 1, r.value)
  {
    ghost var ds, zero := Distances(p, pts, m), ZeroNormals(pts, m);
    var lineStart := pts[i];
    var lineEnd := pts[(i + 1) % |pts|];
    var closest := ClosestPointOnLine(p, lineStart, lineEnd, m);
    var dist := Length(Sub(p, closest), m);
    assert dist == ds[i];
    if best.None? || dist < best.value.dist {
      var wallVec := Sub(lineEnd, lineStart);
      assert wallVec == Wall(pts, i);
      if Length(Perp(wallVec), m) == 0.0 {
        return Failure(NormalizeZeroVector);
      }
      return Success(Some(Contact(i, dist, closest, Normalize(Perp(wallVec), m))));
    }
    assert ds[best.value.edge] == best.value.dist;
    return Success(best);
  }

  /** The wall loop of `handle_collision` and `_handle_collision`, wall
      by wall. */
  method NearestWall(p: Vec2, pts: seq<Vec2>, m: Numerics) returns (r: Result<Option<Contact>>)
    ensures r == Nearest(p, pts, m)
  {
    var best: Option<Contact> := None;
    for i := 0 to |pts|
      invariant ScanInvariant(p, pts, m, i, best)
    {
      var next := ConsiderWall(p, pts, m, i, best);
      if next.Failure? {
        FirstNearestFailureSticks(Distances(p, pts, m), ZeroNormals(pts, m), i + 1, |pts|);
        return Failure(next.fault);
      }
      best := next.value;
    }
    return Success(best);
  }

  // ---------------------------------------------------------------------
  // The bounce off the rotating wall

  /** The factors of the wall speed collapse to the signed angular speed:
      `(1 / len) * (radians(|s|) * len * (s / |s|)) == radians(s)`. */
  lemma TangentialScalar(len: real, a: real, s: real, d: real)
    requires len > 0.0 && a > 0.0
    ensures (1.0 / len) * ((a * d) * len * (s / a)) == s * d
  {
    assert (1.0 / len) * len == 1.0;
    assert (s / a) * a == s;
    calc {
      (1.0 / len) * ((a * d) * len * (s / a));
    ==
      ((1.0 / len) * len) * ((s / a) * a) * d;
    ==
      s * d;
    }
  }

  /** The velocity of the rotating wall at the contact point: the speed
      `radians(|s|) * |r| * (s / |s|)`, which divides by zero when the
      rotation speed is zero, along the tangent
      `Vector2(-r.y, r.x).normalize()` of the radius vector `r`. */
  function WallVelocity(contact: Vec2, center: Vec2, s: real, m: Numerics): (r: Result<Vec2>)
    ensures r == Failure(ZeroDivision) <==> s == 0.0
  {
    var radiusVec := Sub(contact, center);
    if Abs(s) == 0.0 then Failure(ZeroDivision)
    else
      var tangentialSpeed := m.Radians(Abs(s)) * Length(radiusVec, m) * (s / Abs(s));
      if Length(Perp(radiusVec), m) == 0.0 then Failure(NormalizeZeroVector)
      else Success(Scale(Normalize(Perp(radiusVec), m), tangentialSpeed))
  }

  /** Away from the center and at a non-zero speed, the wall velocity is
      that of a point of a disc turning at `s` degrees per frame: the radius
      vector turned a quarter turn, times the angular speed in radians. */
  lemma WallVelocityIsRotation(contact: Vec2, center: Vec2, s: real, m: Numerics)
    requires m.Valid() && contact != center && s != 0.0
    ensures WallVelocity(contact, center, s, m) == Success(Scale(Perp(Sub(contact, center)), m.Radians(s)))
  {
    LengthPositive(Sub(contact, center), m);
    PerpLength(Sub(contact, center), m);
    TangentRotation(contact, center, s, m);
  }

  /** The same, knowing only that the radius vector and its quarter turn
      have the same non-zero length. */
  lemma TangentRotation(contact: Vec2, center: Vec2, s: real, m: Numerics)
    requires s != 0.0 && Length(Sub(contact, center), m) > 0.0
    requires Length(Perp(Sub(contact, center)), m) == Length(Sub(contact, center), m)
    ensures WallVelocity(contact, center, s, m) == Success(Scale(Perp(Sub(contact, center)), m.Radians(s)))
  {
    var radiusVec := Sub(contact, center);
    var len := Length(radiusVec, m);
    var speed := m.Radians(Abs(s)) * len * (s / Abs(s));
    assert WallVelocity(contact, center, s, m).Success?;
    assert WallVelocity(contact, center, s, m).value == Scale(Scale(Perp(radiusVec), 1.0 / len), speed);
    ScaleScale(Perp(radiusVec), 1.0 / len, speed);
    TangentialScalar(len, Abs(s), s, m.degToRad);
    assert (1.0 / len) * speed == m.Radians(s);
    var w := WallVelocity(contact, center, s, m);
    assert w.value == Scale(Perp(radiusVec), m.Radians(s));
    assert w == Success(w.value);
  }

  /** `wall_vel + (v - wall_vel).reflect(normal) * elasticity`. */
  function BounceVelocity(v: Vec2, wall: Vec2, n: Vec2, e: real): Vec2 {
    Add(wall, Scale(Reflect(Sub(v, wall), n), e))
  }

  /** The law of the bounce, relative to the moving wall: the component of
      the velocity along the normal is reversed and the tangential one kept,
      both then scaled by the elasticity. */
  lemma BounceLaw(v: Vec2, wall: Vec2, n: Vec2, e: real)
    requires Dot(n, n) == 1.0
    ensures Dot(Sub(BounceVelocity(v, wall, n, e), wall), n) == -(e * Dot(Sub(v, wall), n))
    ensures Dot(Sub(BounceVelocity(v, wall, n, e), wall), Perp(n)) == e * Dot(Sub(v, wall), Perp(n))
  {
    var refl := Reflect(Sub(v, wall), n);
    ReflectComponents(Sub(v, wall), n);
    assert Sub(BounceVelocity(v, wall, n, e), wall) == Scale(refl, e);
    ScaleDot(refl, e, n);
    ScaleDot(refl, e, Perp(n));
  }

  // ---------------------------------------------------------------------
  // The collision check

  /** What a collision check decides: no collision (the point is inside the
      polygon), the degenerate case where the nearest point of the walls is
      the hexagon's center, or a hit, with the new velocity (clamped to the
      speed limit) and the push-out distance `buffer - min_dist`. */
  datatype Response =
    | Miss
    | AtCenter
    | Hit(contact: Contact, velocity: Vec2, push: real)

  /** The collision check of both programs at the point `p` with velocity
      `vel`, for a polygon `pts` turning at `s` degrees per frame about
      `center`. */
  function Respond(p: Vec2, vel: Vec2, pts: seq<Vec2>, s: real, center: Vec2, e: real,
                   maxSpeed: real, buffer: real, m: Numerics): Result<Response>
    requires maxSpeed > 0.0
  {
    if OddCrossings(pts, p) then Success(Miss)
    else
      match Nearest(p, pts, m)
      case Failure(f) => Failure(f)
      case Success(None) => Success(Miss)
      case Success(Some(c)) =>
        if Length(Sub(c.point, center), m) == 0.0 then Success(AtCenter)
        else
          match WallVelocity(c.point, center, s, m)
          case Failure(f) => Failure(f)
          case Success(w) => Success(Hit(c, ClampSpeed(BounceVelocity(vel, w, c.normal, e), maxSpeed, m), buffer - c.dist))
  }

  /** Exactly the points inside a polygon with at least one vertex are not
      collisions. */
  lemma RespondInside(p: Vec2, vel: Vec2, pts: seq<Vec2>, s: real, center: Vec2, e: real,
                      maxSpeed: real, buffer: real, m: Numerics)
    requires |pts| > 0 && maxSpeed > 0.0
    ensures OddCrossings(pts, p) <==> Respond(p, vel, pts, s, center, e, maxSpeed, buffer, m) == Success(Miss)
  {
    NearestIsNearest(p, pts, m);
  }

  /** How a hit comes about: the point is outside, the nearest wall is
      recorded away from the center, the rotation speed is not zero, and the
      new velocity and push come from that wall. */
  lemma RespondHitShape(p: Vec2, vel: Vec2, pts: seq<Vec2>, s: real, center: Vec2, e: real,
                        maxSpeed: real, buffer: real, m: Numerics)
    requires maxSpeed > 0.0
    requires Respond(p, vel, pts, s, center, e, maxSpeed, buffer, m).Success?
    requires Respond(p, vel, pts, s, center, e, maxSpeed, buffer, m).value.Hit?
    ensures var h := Respond(p, vel, pts, s, center, e, maxSpeed, buffer, m).value;
      && !OddCrossings(pts, p)
      && Nearest(p, pts, m) == Success(Some(h.contact))
      && Length(Sub(h.contact.point, center), m) != 0.0
      && s != 0.0
      && WallVelocity(h.contact.point, center, s, m).Success?
      && h.velocity == ClampSpeed(BounceVelocity(vel, WallVelocity(h.contact.point, center, s, m).value, h.contact.normal, e), maxSpeed, m)
      && h.push == buffer - h.contact.dist
  {
  }

  /** A hit is against the nearest wall (the first of equally near ones);
      its normal is a unit vector perpendicular to that wall; the new
      velocity is the bounce off the wall moving with the rotation, clamped
      to the speed limit; and the push-out distance is the buffer less the
      distance to the wall. */
  lemma RespondHit(p: Vec2, vel: Vec2, pts: seq<Vec2>, s: real, center: Vec2, e: real,
                   maxSpeed: real, buffer: real, m: Numerics)
    requires m.Valid() && maxSpeed > 0.0
    requires Respond(p, vel, pts, s, center, e, maxSpeed, buffer, m).Success?
    requires Respond(p, vel, pts, s, center, e, maxSpeed, buffer, m).value.Hit?
    ensures var h := Respond(p, vel, pts, s, center, e, maxSpeed, buffer, m).value;
      var c := h.contact;
      && !OddCrossings(pts, p)
      && c.edge < |pts|
      && c.dist == EdgeDistance(p, pts, c.edge, m)
      && (forall j :: 0 <= j < |pts| ==> c.dist <= EdgeDistance(p, pts, j, m))
      && (forall j :: 0 <= j < c.edge ==> c.dist < EdgeDistance(p, pts, j, m))
      && Dot(c.normal, c.normal) == 1.0
      && Dot(c.normal, Wall(pts, c.edge)) == 0.0
      && s != 0.0
      && c.point != center
      && h.velocity == ClampSpeed(BounceVelocity(vel, Scale(Perp(Sub(c.point, center)), m.Radians(s)), c.normal, e), maxSpeed, m)
      && Length(h.velocity, m) <= maxSpeed
      && h.push == buffer - c.dist
  {
    RespondHitShape(p, vel, pts, s, center, e, maxSpeed, buffer, m);
    var h := Respond(p, vel, pts, s, center, e, maxSpeed, buffer, m).value;
    var c := h.contact;
    NearestIsNearest(p, pts, m);
    ContactNormal(p, pts, c.edge, m);
    assert c.point != center by {
      if c.point == center {
        LengthFacts(Zero, m);
      }
    }
    WallVelocityIsRotation(c.point, center, s, m);
    var bounce := BounceVelocity(vel, Scale(Perp(Sub(c.point, center)), m.Radians(s)), c.normal, e);
    ClampSpeedFacts(bounce, maxSpeed, m);
  }

  /** The only exceptions: a zero rotation speed at a hit, and a wall of
      zero length that was to be recorded as the nearest so far. */
  lemma RespondFaults(p: Vec2, vel: Vec2, pts: seq<Vec2>, s: real, center: Vec2, e: real,
                      maxSpeed: real, buffer: real, m: Numerics)
    requires m.Valid() && maxSpeed > 0.0
    ensures var r := Respond(p, vel, pts, s, center, e, maxSpeed, buffer, m);
      r.Failure? ==>
        || (r.fault == ZeroDivision && s == 0.0)
        || (r.fault == NormalizeZeroVector && exists j :: 0 <= j < |pts| && Wall(pts, j) == Zero)
  {
    NearestIsNearest(p, pts, m);
    if !OddCrossings(pts, p) {
      match Nearest(p, pts, m)
      case Failure(_) =>
        var j :| 0 <= j < |pts| && ZeroNormal(pts, j, m);
        ZeroNormalIsZeroWall(pts, j, m);
      case Success(None) =>
      case Success(Some(c)) =>
        if Length(Sub(c.point, center), m) != 0.0 && s != 0.0 {
          WallVelocityAway(c.point, center, s, m);
        }
    }
  }

  /** A polygon without walls of zero length turning at a non-zero speed
      never raises. */
  lemma RespondSucceeds(p: Vec2, vel: Vec2, pts: seq<Vec2>, s: real, center: Vec2, e: real,
                        maxSpeed: real, buffer: real, m: Numerics)
    requires m.Valid() && maxSpeed > 0.0
    requires forall j :: 0 <= j < |pts| ==> Wall(pts, j) != Zero
    requires s != 0.0
    ensures Respond(p, vel, pts, s, center, e, maxSpeed, buffer, m).Success?
  {
    forall j | 0 <= j < |pts| ensures !ZeroNormal(pts, j, m) {
      ZeroNormalIsZeroWall(pts, j, m);
    }
    NearestIsNearest(p, pts, m);
    if !OddCrossings(pts, p) {
      match Nearest(p, pts, m)
      case Success(None) =>
      case Success(Some(c)) =>
        if Length(Sub(c.point, center), m) != 0.0 {
          WallVelocityAway(c.point, center, s, m);
        }
    }
  }

  /** Away from the center and at a non-zero speed the wall velocity is
      computed without an exception. */
  lemma WallVelocityAway(contact: Vec2, center: Vec2, s: real, m: Numerics)
    requires m.Valid() && Length(Sub(contact, center), m) != 0.0 && s != 0.0
    ensures WallVelocity(contact, center, s, m).Success?
  {
    PerpLength(Sub(contact, center), m);
  }

  /** The collision check as the programs run it: the point-in-polygon
      test, then the wall loop, the center check and the bounce. */
  method Detect(p: Vec2, vel: Vec2, pts: seq<Vec2>, s: real, center: Vec2, e: real,
                maxSpeed: real, buffer: real, m: Numerics) returns (r: Result<Response>)
    requires |pts| > 0 && maxSpeed > 0.0
    ensures r == Respond(p, vel, pts, s, center, e, maxSpeed, buffer, m)
  {
    var inside := PointInPolygon(p, pts);
    if inside {
      return Success(Miss);
    }
    var scan := NearestWall(p, pts, m);
    match scan
    case Failure(f) =>
      return Failure(f);
    case Success(None) =>
      return Success(Miss);
    case Success(Some(c)) =>
      var radiusVec := Sub(c.point, center);
      if Length(radiusVec, m) == 0.0 {
        return Success(AtCenter);
      }
      var wallVel := WallVelocity(c.point, center, s, m);
      match wallVel
      case Failure(f) =>
        return Failure(f);
      case Success(w) =>
        var v := ClampSpeed(BounceVelocity(vel, w, c.normal, e), maxSpeed, m);
        return Success(Hit(c, v, buffer - c.dist));
  }
}

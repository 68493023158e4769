/** The game objects of the object-oriented program (game_objects.py): the
    ball, which moves under a force, friction and a speed limit, and the
    hexagon, which turns on the rotation schedule of module Rotation. */
module GameObjects {
  import opened Vector
  import opened Geometry
  import opened Rotation
  import opened Config

  class Ball {
    var position: Vec2
    var velocity: Vec2
    var radius: real
    var color: Color

    /** A ball at rest. */
    constructor(position: Vec2, radius: real, color: Color)
      ensures this.position == position && velocity == Zero
      ensures this.radius == radius && this.color == color
    {
      this.position := position;
      velocity := Zero;
      this.radius := radius;
      this.color := color;
    }

    /** One frame: the acceleration is added to the velocity, the velocity
        is damped by `friction` and clamped to `MAX_BALL_SPEED`, and the
        ball moves by the new velocity. The speed is then within the
        limit, whatever it was before. */
    method Update(gravity: Vec2, friction: real, m: Numerics)
      modifies this
      ensures velocity == ClampSpeed(Scale(Add(old(velocity), gravity), friction), MAX_BALL_SPEED, m)
      ensures position == Add(old(position), velocity)
      ensures radius == old(radius) && color == old(color)
      ensures m.Valid() ==> Length(velocity, m) <= MAX_BALL_SPEED
    {
      velocity := Add(velocity, gravity);
      velocity := Scale(velocity, friction);
      if Length(velocity, m) > MAX_BALL_SPEED {
        velocity := Scale(Normalize(velocity, m), MAX_BALL_SPEED);
      }
      position := Add(position, velocity);
      if m.Valid() {
        ClampSpeedFacts(Scale(Add(old(velocity), gravity), friction), MAX_BALL_SPEED, m);
      }
    }
  }

  class Hexagon {
    var position: Vec2
    var radius: real
    var color: Color
    var rotation: real
    var rotationSpeed: real
    var targetRotationSpeed: real
    var frameCount: int

    /** What every frame keeps: the counter is below the interval, the
        angle is in [0, 360), the speed is at most the maximum, and the
        target is a speed that could have been drawn. */
    ghost predicate Valid()
      reads this
    {
      && 0 <= frameCount < SPEED_CHANGE_INTERVAL
      && 0.0 <= rotation < 360.0
      && Abs(rotationSpeed) <= MAX_ROTATION_SPEED
      && MIN_ROTATION_SPEED <= Abs(targetRotationSpeed) <= MAX_ROTATION_SPEED
    }

    /** A hexagon at angle 0 turning at the initial speed, which is also
        its target. */
    constructor(center: Vec2, radius: real, color: Color)
      ensures Valid()
      ensures position == center && this.radius == radius && this.color == color
      ensures rotation == 0.0 && rotationSpeed == INITIAL_SPEED
      ensures targetRotationSpeed == INITIAL_SPEED && frameCount == 0
    {
      position := center;
      this.radius := radius;
      this.color := color;
      rotation := 0.0;
      rotationSpeed := INITIAL_SPEED;
      targetRotationSpeed := rotationSpeed;
      frameCount := 0;
    }

    /** One frame: count the frame and, every `SPEED_CHANGE_INTERVAL`
        frames, draw a new target (from `u` and `negative`); move the speed
        a tenth of the way to the target; advance the angle by the speed,
        modulo 360. The `acceleration` argument is not used: the rate is
        the constant `ROTATION_ACCELERATION`. */
    method Update(acceleration: real, u: real, negative: bool)
      requires 0.0 <= u <= 1.0
      modifies this
      ensures var t := NextFrame(old(frameCount));
        && frameCount == t.frameCount
        && targetRotationSpeed == (if t.retarget then RandomRotationSpeed(u, negative) else old(targetRotationSpeed))
        && rotationSpeed == Smooth(old(rotationSpeed), targetRotationSpeed)
        && rotation == WrapAngle(old(rotation) + rotationSpeed)
      ensures position == old(position) && radius == old(radius) && color == old(color)
      ensures old(Valid()) ==> Valid()
    {
      frameCount := frameCount + 1;
      if frameCount >= SPEED_CHANGE_INTERVAL {
        frameCount := 0;
        targetRotationSpeed := GetRandomRotationSpeed(u, negative);
      }
      var speedDiff := targetRotationSpeed - rotationSpeed;
      rotationSpeed := rotationSpeed + speedDiff * ROTATION_ACCELERATION;
      rotation := WrapAngle(rotation + rotationSpeed);
      if old(Valid()) {
        SmoothBounded(old(rotationSpeed), targetRotationSpeed, MAX_ROTATION_SPEED);
      }
    }

    /** `_get_random_rotation_speed`: a speed between the limits in the
        drawn direction. */
    method GetRandomRotationSpeed(u: real, negative: bool) returns (s: real)
      requires 0.0 <= u <= 1.0
      ensures MIN_ROTATION_SPEED <= Abs(s) <= MAX_ROTATION_SPEED
      ensures negative <==> s < 0.0
      ensures s == RandomRotationSpeed(u, negative)
    {
      var speed := MIN_ROTATION_SPEED + (MAX_ROTATION_SPEED - MIN_ROTATION_SPEED) * u;
      var direction := if negative then -1.0 else 1.0;
      s := speed * direction;
    }

    /** `get_points`: the six corners at the current angle, on the circle
        of radius `HEX_RADIUS` about `HEX_CENTER`; the hexagon's own
        `position` and `radius` are not used. */
    method GetPoints(m: Numerics) returns (points: seq<Vec2>)
      ensures points == HexagonPoints(rotation, HEX_CENTER, HEX_RADIUS, m)
      ensures m.Valid() && m.OnUnitCircle() ==>
        forall i :: 0 <= i < |points| ==> Length(Sub(points[i], HEX_CENTER), m) == HEX_RADIUS
    {
      points := HexPoints(rotation, HEX_CENTER, HEX_RADIUS, m);
      if m.Valid() && m.OnUnitCircle() {
        forall i | 0 <= i < |points|
          ensures Length(Sub(points[i], HEX_CENTER), m) == HEX_RADIUS
        {
          HexVertexOnCircle(rotation, i, HEX_CENTER, HEX_RADIUS, m);
        }
      }
    }
  }
}

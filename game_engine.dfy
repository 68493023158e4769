/** The physics engine of the object-oriented program (game_engine.py): one
    frame of ball physics and the collision with the rotating hexagon. */
module GameEngine {
  import opened Vector
  import opened Geometry
  import opened Config
  import opened Collision
  import opened GameObjects

  /** The running/paused state; the engine only reads `paused`. */
  class GameState {
    var running: bool
    var paused: bool
    var frameCount: int

    constructor()
      ensures running && !paused && frameCount == 0
    {
      running := true;
      paused := false;
      frameCount := 0;
    }
  }

  /** The ball after `_handle_collision`, and its result: `true` after a
      bounce, `false` when there was none, or the exception it raised. */
  datatype Outcome = Outcome(position: Vec2, velocity: Vec2, result: Result<bool>)

  /** `_handle_collision` for a ball at `position` with `velocity` and
      `radius`, and a hexagon at angle `rotation` turning at `speed`. The
      test is made at the next position; a bounce sets the velocity and,
      when the ball is closer to the wall than its radius plus half the
      border, moves it from the next position along the wall's normal. */
  function Collide(position: Vec2, velocity: Vec2, radius: real, rotation: real, speed: real,
                   elasticity: real, m: Numerics): Outcome
  {
    var next := Add(position, velocity);
    var points := HexagonPoints(rotation, HEX_CENTER, HEX_RADIUS, m);
    match Respond(next, velocity, points, speed, HEX_CENTER, elasticity, MAX_BALL_SPEED, radius + HALF_BORDER, m)
    case Failure(f) => Outcome(position, velocity, Failure(f))
    case Success(Miss) => Outcome(position, velocity, Success(false))
    case Success(AtCenter) => Outcome(position, velocity, Success(false))
    case Success(Hit(c, v, push)) =>
      Outcome(if push > 0.0 then Add(next, Scale(c.normal, push)) else position, v, Success(true))
  }

  /** The ball is left alone unless there is a bounce, and there is none
      when the next position is inside the hexagon. */
  lemma CollideFacts(position: Vec2, velocity: Vec2, radius: real, rotation: real, speed: real,
                     elasticity: real, m: Numerics)
    requires m.Valid()
    ensures var o := Collide(position, velocity, radius, rotation, speed, elasticity, m);
      o.result != Success(true) ==> o.position == position && o.velocity == velocity
    ensures var o := Collide(position, velocity, radius, rotation, speed, elasticity, m);
      var next := Add(position, velocity);
      var points := HexagonPoints(rotation, HEX_CENTER, HEX_RADIUS, m);
      OddCrossings(points, next) ==> o.result == Success(false)
  {
    var next := Add(position, velocity);
    var points := HexagonPoints(rotation, HEX_CENTER, HEX_RADIUS, m);
    RespondInside(next, velocity, points, speed, HEX_CENTER, elasticity, MAX_BALL_SPEED, radius + HALF_BORDER, m);
  }

  /** A bounce is off the nearest wall (the first of equally near ones)
      when the next position is outside, with the velocity of the wall's
      rotation; it keeps the speed limit, and moves the ball only when it
      is within its radius plus half the border of that wall, along the
      wall's unit normal. */
  lemma CollideBounce(position: Vec2, velocity: Vec2, radius: real, rotation: real, speed: real,
                      elasticity: real, m: Numerics)
    requires m.Valid()
    ensures var o := Collide(position, velocity, radius, rotation, speed, elasticity, m);
      var next := Add(position, velocity);
      var points := HexagonPoints(rotation, HEX_CENTER, HEX_RADIUS, m);
      o.result == Success(true) ==>
        var h := Respond(next, velocity, points, speed, HEX_CENTER, elasticity, MAX_BALL_SPEED, radius + HALF_BORDER, m).value;
        var c := h.contact;
        && !OddCrossings(points, next)
        && c.edge < |points|
        && (forall j :: 0 <= j < |points| ==> c.dist <= EdgeDistance(next, points, j, m))
        && Dot(c.normal, c.normal) == 1.0
        && Dot(c.normal, Wall(points, c.edge)) == 0.0
        && speed != 0.0
        && o.velocity == ClampSpeed(BounceVelocity(velocity, Scale(Perp(Sub(c.point, HEX_CENTER)), m.Radians(speed)), c.normal, elasticity), MAX_BALL_SPEED, m)
        && Length(o.velocity, m) <= MAX_BALL_SPEED
        && (c.dist < radius + HALF_BORDER ==> o.position == Add(next, Scale(c.normal, radius + HALF_BORDER - c.dist)))
        && (c.dist >= radius + HALF_BORDER ==> o.position == position)
  {
    var next := Add(position, velocity);
    var points := HexagonPoints(rotation, HEX_CENTER, HEX_RADIUS, m);
    var r := Respond(next, velocity, points, speed, HEX_CENTER, elasticity, MAX_BALL_SPEED, radius + HALF_BORDER, m);
    if r.Success? && r.value.Hit? {
      RespondHit(next, velocity, points, speed, HEX_CENTER, elasticity, MAX_BALL_SPEED, radius + HALF_BORDER, m);
    }
  }

  /** Within the speed limit before, within it after. */
  lemma CollideKeepsSpeedLimit(position: Vec2, velocity: Vec2, radius: real, rotation: real, speed: real,
                               elasticity: real, m: Numerics)
    requires m.Valid() && Length(velocity, m) <= MAX_BALL_SPEED
    ensures Length(Collide(position, velocity, radius, rotation, speed, elasticity, m).velocity, m) <= MAX_BALL_SPEED
  {
    CollideFacts(position, velocity, radius, rotation, speed, elasticity, m);
    CollideBounce(position, velocity, radius, rotation, speed, elasticity, m);
  }

  class PhysicsEngine {
    var gravity: Vec2
    var elasticity: real
    var friction: real
    var state: GameState

    constructor(gravity: Vec2, elasticity: real, friction: real)
      ensures this.gravity == gravity && this.elasticity == elasticity && this.friction == friction
      ensures fresh(state) && !state.paused
    {
      this.gravity := gravity;
      this.elasticity := elasticity;
      this.friction := friction;
      state := new GameState();
    }

    /** `update`: no ball is a failure; while paused nothing moves; else
        the velocity is clamped, the centripetal force of the hexagon (none
        without one) and gravity accelerate the ball (`Ball.update`), the
        velocity is clamped again, and with a hexagon the result is that of
        the collision, an exception counting as `false`. Unless paused, the
        ball ends within the speed limit. */
    method Update(ball: Ball?, hexagon: Hexagon?, m: Numerics) returns (ok: bool)
      modifies ball
      ensures ball == null ==> !ok
      ensures ball != null ==> ball.radius == old(ball.radius) && ball.color == old(ball.color)
      ensures ball != null && state.paused ==>
        ok && ball.position == old(ball.position) && ball.velocity == old(ball.velocity)
      ensures ball != null && !state.paused ==>
        var force := if hexagon == null then Zero
          else CentripetalForce(old(ball.position), hexagon.rotationSpeed, HEX_CENTER, CENTRIPETAL_FACTOR, m);
        var v1 := ClampSpeed(old(ball.velocity), MAX_BALL_SPEED, m);
        var v2 := ClampSpeed(Scale(Add(v1, Add(gravity, force)), friction), MAX_BALL_SPEED, m);
        var p2 := Add(old(ball.position), v2);
        var v3 := ClampSpeed(v2, MAX_BALL_SPEED, m);
        if hexagon == null then ok && ball.position == p2 && ball.velocity == v3
        else
          var o := Collide(p2, v3, ball.radius, hexagon.rotation, hexagon.rotationSpeed, elasticity, m);
          ball.position == o.position && ball.velocity == o.velocity && (ok <==> o.result == Success(true))
      ensures ball != null && !state.paused && m.Valid() ==> Length(ball.velocity, m) <= MAX_BALL_SPEED
    {
      if ball == null {
        return false;
      }
      if !state.paused {
        if Length(ball.velocity, m) > MAX_BALL_SPEED {
          ball.velocity := Scale(Normalize(ball.velocity, m), MAX_BALL_SPEED);
        }
        var centripetalForce := Zero;
        if hexagon != null {
          centripetalForce := CentripetalForce(ball.position, hexagon.rotationSpeed, HEX_CENTER, CENTRIPETAL_FACTOR, m);
        }
        ball.Update(Add(gravity, centripetalForce), friction, m);
        if Length(ball.velocity, m) > MAX_BALL_SPEED {
          ball.velocity := Scale(Normalize(ball.velocity, m), MAX_BALL_SPEED);
        }
        if m.Valid() {
          ClampSpeedFacts(ball.velocity, MAX_BALL_SPEED, m);
        }
        if hexagon != null {
          if m.Valid() {
            CollideKeepsSpeedLimit(ball.position, ball.velocity, ball.radius, hexagon.rotation,
                                   hexagon.rotationSpeed, elasticity, m);
          }
          var r := HandleCollision(ball, hexagon, m);
          return r == Success(true);
        }
      }
      return true;
    }

    /** `_handle_collision`, as `Collide` describes it. */
    method HandleCollision(ball: Ball, hexagon: Hexagon, m: Numerics) returns (r: Result<bool>)
      modifies ball
      ensures var o := Collide(old(ball.position), old(ball.velocity), ball.radius, hexagon.rotation,
                               hexagon.rotationSpeed, elasticity, m);
        ball.position == o.position && ball.velocity == o.velocity && r == o.result
      ensures ball.radius == old(ball.radius) && ball.color == old(ball.color)
    {
      var nextPos := Add(ball.position, ball.velocity);
      var hexPoints := hexagon.GetPoints(m);
      var response := Detect(nextPos, ball.velocity, hexPoints, hexagon.rotationSpeed, HEX_CENTER,
                             elasticity, MAX_BALL_SPEED, ball.radius + HALF_BORDER, m);
      match response
      case Failure(f) =>
        return Failure(f);
      case Success(Miss) =>
        return Success(false);
      case Success(AtCenter) =>
        return Success(false);
      case Success(Hit(c, v, pushDistance)) =>
        ball.velocity := v;
        if pushDistance > 0.0 {
          ball.position := Add(nextPos, Scale(c.normal, pushDistance));
        }
        return Success(true);
    }
  }
}

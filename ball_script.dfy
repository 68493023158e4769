/** The stand-alone script ball.py: its own constants (a larger speed limit
    and push-out distance, a stronger pull than the engine's), its state
    check and collision handling, the colour change on a bounce, and one
    pass of its main loop as a step of a `World` object holding the
    script's global variables. */
module BallScript {
  import opened Vector
  import opened Geometry
  import opened Rotation
  import opened Collision
  import Config

  const WIDTH: real := 800.0
  const HEIGHT: real := 600.0
  const HEX_RADIUS: real := 200.0
  /** `Vector2(WIDTH // 2, HEIGHT // 2)`. */
  const HEX_CENTER: Vec2 := Vec2(400.0, 300.0)
  const HEX_BORDER_WIDTH: real := 4.0
  const BALL_RADIUS: real := 10.0
  const GRAVITY: Vec2 := Vec2(0.0, 0.5)
  const ELASTICITY: real := 0.8
  const FRICTION: real := 0.99
  /** `BALL_RADIUS * 2 + HEX_BORDER_WIDTH`. */
  const COLLISION_BUFFER: real := BALL_RADIUS * 2.0 + HEX_BORDER_WIDTH
  const MAX_BALL_SPEED: real := 30.0
  /** The pull factor of `calculate_centripetal_force`. */
  const CENTRIPETAL_FACTOR: real := 0.2

  /** The ball's position and velocity. */
  datatype BallState = BallState(position: Vec2, velocity: Vec2)

  /** `reset_ball`: at rest, 50 pixels above the hexagon's center. */
  function ResetBall(): (r: BallState)
    ensures InBounds(r.position) && r.velocity == Zero
  {
    BallState(Vec2(HEX_CENTER.x, HEX_CENTER.y - 50.0), Zero)
  }

  /** The box `check_ball_state` accepts: at most half the window's width
      and height from the center. */
  predicate InBounds(p: Vec2) {
    Abs(p.x - HEX_CENTER.x) <= WIDTH / 2.0 && Abs(p.y - HEX_CENTER.y) <= HEIGHT / 2.0
  }

  /** `check_ball_state`: a ball outside the box, or whose position is not
      a number (`nan`), is reset; otherwise the velocity is clamped to the
      speed limit. The result is always inside the box. */
  function CheckBallState(b: BallState, nan: bool, m: Numerics): (r: BallState)
    ensures InBounds(r.position)
    ensures !nan && InBounds(b.position) ==> r.position == b.position
  {
    if !InBounds(b.position) || nan then ResetBall()
    else BallState(b.position, ClampSpeed(b.velocity, MAX_BALL_SPEED, m))
  }

  /** A ball that passes the check keeps its position and, within the
      speed limit, its velocity; any other is reset. The result is within
      the speed limit, and checking it again changes nothing. */
  lemma CheckBallStateFacts(b: BallState, nan: bool, m: Numerics)
    requires m.Valid()
    ensures var r := CheckBallState(b, nan, m);
      && Length(r.velocity, m) <= MAX_BALL_SPEED
      && (!nan && InBounds(b.position) && Length(b.velocity, m) <= MAX_BALL_SPEED ==> r == b)
      && (nan || !InBounds(b.position) ==> r == ResetBall())
      && CheckBallState(r, false, m) == r
  {
    LengthFacts(Zero, m);
    ClampSpeedFacts(b.velocity, MAX_BALL_SPEED, m);
    ClampSpeedIdempotent(b.velocity, MAX_BALL_SPEED, m);
  }

  /** What `handle_collision` returns: the ball and whether a collision
      occurred. */
  datatype Handled = Handled(ball: BallState, collision: bool)

  /** `handle_collision` for a ball `b` and the corners `points`: a ball
      that is not a number (`nan`) is reset; inside the polygon nothing
      happens; if the nearest wall point is the center the ball is reset
      and no collision is reported; otherwise the velocity becomes the
      bounce off the moving wall and the ball is pushed along the wall's
      normal by what is missing to `COLLISION_BUFFER`. The test is at the
      position given, which the main loop sets to the next position. */
  function HandleCollisionOf(b: BallState, nan: bool, points: seq<Vec2>, speed: real, m: Numerics): Result<Handled> {
    if nan then Success(Handled(ResetBall(), false))
    else
      match Respond(b.position, b.velocity, points, speed, HEX_CENTER, ELASTICITY, MAX_BALL_SPEED, COLLISION_BUFFER, m)
      case Failure(f) => Failure(f)
      case Success(Miss) => Success(Handled(b, false))
      case Success(AtCenter) => Success(Handled(ResetBall(), false))
      case Success(Hit(c, v, push)) =>
        Success(Handled(BallState(if push > 0.0 then Add(b.position, Scale(c.normal, push)) else b.position, v), true))
  }

  /** A collision is reported exactly for a hit: the ball is outside the
      polygon, bounces off the nearest wall with the velocity of the
      wall's rotation, keeps the speed limit, and is pushed along the
      wall's unit normal when nearer to it than `COLLISION_BUFFER`.
      Without a collision the ball is unchanged or reset; a ball that is
      not a number is always reset. */
  lemma HandleCollisionFacts(b: BallState, points: seq<Vec2>, speed: real, m: Numerics)
    requires m.Valid()
    ensures HandleCollisionOf(b, true, points, speed, m) == Success(Handled(ResetBall(), false))
    ensures var r := HandleCollisionOf(b, false, points, speed, m);
      r.Success? && !r.value.collision ==> r.value.ball == b || r.value.ball == ResetBall()
    ensures var r := HandleCollisionOf(b, false, points, speed, m);
      |points| > 0 && OddCrossings(points, b.position) ==> r == Success(Handled(b, false))
    ensures var r := HandleCollisionOf(b, false, points, speed, m);
      r.Success? && r.value.collision ==>
        var h := Respond(b.position, b.velocity, points, speed, HEX_CENTER, ELASTICITY, MAX_BALL_SPEED, COLLISION_BUFFER, m).value;
        var c := h.contact;
        && !OddCrossings(points, b.position)
        && (forall j :: 0 <= j < |points| ==> c.dist <= EdgeDistance(b.position, points, j, m))
        && Dot(c.normal, c.normal) == 1.0
        && Dot(c.normal, Wall(points, c.edge)) == 0.0
        && r.value.ball.velocity == ClampSpeed(BounceVelocity(b.velocity, Scale(Perp(Sub(c.point, HEX_CENTER)), m.Radians(speed)), c.normal, ELASTICITY), MAX_BALL_SPEED, m)
        && Length(r.value.ball.velocity, m) <= MAX_BALL_SPEED
        && (c.dist < COLLISION_BUFFER ==> r.value.ball.position == Add(b.position, Scale(c.normal, COLLISION_BUFFER - c.dist)))
        && (c.dist >= COLLISION_BUFFER ==> r.value.ball.position == b.position)
  {
    var r := Respond(b.position, b.velocity, points, speed, HEX_CENTER, ELASTICITY, MAX_BALL_SPEED, COLLISION_BUFFER, m);
    if |points| > 0 {
      RespondInside(b.position, b.velocity, points, speed, HEX_CENTER, ELASTICITY, MAX_BALL_SPEED, COLLISION_BUFFER, m);
    }
    if r.Success? && r.value.Hit? {
      RespondHit(b.position, b.velocity, points, speed, HEX_CENTER, ELASTICITY, MAX_BALL_SPEED, COLLISION_BUFFER, m);
    }
  }

  /** A ball within the speed limit is within it after `handle_collision`. */
  lemma HandleCollisionKeepsSpeedLimit(b: BallState, points: seq<Vec2>, speed: real, m: Numerics)
    requires m.Valid() && Length(b.velocity, m) <= MAX_BALL_SPEED
    ensures var r := HandleCollisionOf(b, false, points, speed, m);
      r.Success? ==> Length(r.value.ball.velocity, m) <= MAX_BALL_SPEED
  {
    LengthFacts(Zero, m);
    HandleCollisionFacts(b, points, speed, m);
  }

  /** `handle_collision`, as the loop of the script runs it. */
  method HandleCollision(b: BallState, nan: bool, points: seq<Vec2>, speed: real, m: Numerics)
    returns (r: Result<Handled>)
    requires |points| > 0
    ensures r == HandleCollisionOf(b, nan, points, speed, m)
  {
    if nan {
      return Success(Handled(ResetBall(), false));
    }
    var response := Detect(b.position, b.velocity, points, speed, HEX_CENTER, ELASTICITY, MAX_BALL_SPEED, COLLISION_BUFFER, m);
    match response
    case Failure(f) =>
      return Failure(f);
    case Success(Miss) =>
      return Success(Handled(b, false));
    case Success(AtCenter) =>
      return Success(Handled(ResetBall(), false));
    case Success(Hit(c, v, pushDistance)) =>
      var pos := b.position;
      if pushDistance > 0.0 {
        pos := Add(pos, Scale(c.normal, pushDistance));
      }
      return Success(Handled(BallState(pos, v), true));
  }

  /** Is some wall nearer to `p` than `COLLISION_BUFFER`? */
  predicate TooClose(p: Vec2, points: seq<Vec2>, m: Numerics) {
    exists j :: 0 <= j < |points| && EdgeDistance(p, points, j, m) < COLLISION_BUFFER
  }

  /** `is_ball_too_close_to_edge`: the walls in order, stopping at the
      first one nearer than `COLLISION_BUFFER`. */
  method IsBallTooCloseToEdge(p: Vec2, points: seq<Vec2>, m: Numerics) returns (r: bool)
    ensures r <==> TooClose(p, points, m)
  {
    var n := |points|;
    for i := 0 to n
      invariant forall j :: 0 <= j < i ==> EdgeDistance(p, points, j, m) >= COLLISION_BUFFER
    {
      var lineStart := points[i];
      var lineEnd := points[(i + 1) % n];
      var closest := ClosestPointOnLine(p, lineStart, lineEnd, m);
      var dist := Length(Sub(p, closest), m);
      assert dist == EdgeDistance(p, points, i, m);
      if dist < COLLISION_BUFFER {
        return true;
      }
    }
    return false;
  }

  /** No colour appears twice. */
  ghost predicate Distinct(colors: seq<Config.Color>) {
    forall i, j :: 0 <= i < j < |colors| ==> colors[i] != colors[j]
  }

  /** `[c for c in colors if c != current]`. */
  function Without(colors: seq<Config.Color>, current: Config.Color): (r: seq<Config.Color>)
    ensures forall c :: c in r <==> c in colors && c != current
    ensures current !in colors ==> r == colors
  {
    if |colors| == 0 then []
    else if colors[0] == current then Without(colors[1..], current)
    else [colors[0]] + Without(colors[1..], current)
  }

  /** Without repeated colours, at most one is taken out. */
  lemma {:induction false} WithoutDistinct(colors: seq<Config.Color>, current: Config.Color)
    requires Distinct(colors)
    ensures Distinct(Without(colors, current)) && |Without(colors, current)| >= |colors| - 1
  {
    if |colors| > 0 {
      var rest := colors[1..];
      assert Distinct(rest) by {
        forall i, j | 0 <= i < j < |rest| ensures rest[i] != rest[j] {
          assert rest[i] == colors[i + 1] && rest[j] == colors[j + 1];
        }
      }
      WithoutDistinct(rest, current);
      assert colors[0] !in rest by {
        forall i | 0 <= i < |rest| ensures rest[i] != colors[0] {
          assert rest[i] == colors[i + 1];
        }
      }
      if colors[0] == current {
        assert Without(rest, current) == rest;
      } else {
        var r := [colors[0]] + Without(rest, current);
        forall i, j | 0 <= i < j < |r| ensures r[i] != r[j] {
          if i == 0 {
            assert r[j] in Without(rest, current);
          } else {
            assert r[i] == Without(rest, current)[i - 1] && r[j] == Without(rest, current)[j - 1];
          }
        }
      }
    }
  }

  lemma BallColorsDistinct()
    ensures Distinct(Config.BALL_COLORS)
  {
    var cs := Config.BALL_COLORS;
    forall i, j | 0 <= i < j < |cs| ensures cs[i] != cs[j] {
      assert cs[i].r * 65536 + cs[i].g * 256 + cs[i].b != cs[j].r * 65536 + cs[j].g * 256 + cs[j].b;
    }
  }

  /** `random.choice` over the colours other than `current`, the draw
      being the index `k` taken modulo their number. */
  function ChooseOther(colors: seq<Config.Color>, current: Config.Color, k: nat): (c: Config.Color)
    requires Distinct(colors) && |colors| >= 2
    ensures c in colors && c != current
  {
    WithoutDistinct(colors, current);
    var available := Without(colors, current);
    available[k % |available|]
  }

  lemma SmallRemainder(k: nat, n: nat)
    requires k < n
    ensures k % n == k
  {
  }

  /** Every colour other than the current one can be drawn. */
  lemma ChooseOtherCovers(colors: seq<Config.Color>, current: Config.Color, c: Config.Color)
    requires Distinct(colors) && |colors| >= 2
    requires c in colors && c != current
    ensures exists k: nat :: ChooseOther(colors, current, k) == c
  {
    WithoutDistinct(colors, current);
    var available := Without(colors, current);
    var k :| 0 <= k < |available| && available[k] == c;
    SmallRemainder(k, |available|);
    assert ChooseOther(colors, current, k) == c;
  }

  /** `get_random_ball_color`: a ball colour other than the current one. */
  function RandomBallColor(current: Config.Color, k: nat): (c: Config.Color)
    ensures c in Config.BALL_COLORS && c != current
  {
    BallColorsDistinct();
    ChooseOther(Config.BALL_COLORS, current, k)
  }

  /** Any ball colour other than the current one can be drawn. */
  lemma RandomBallColorCovers(current: Config.Color, c: Config.Color)
    requires c in Config.BALL_COLORS && c != current
    ensures exists k: nat :: RandomBallColor(current, k) == c
  {
    BallColorsDistinct();
    ChooseOtherCovers(Config.BALL_COLORS, current, c);
    var k: nat :| ChooseOther(Config.BALL_COLORS, current, k) == c;
    assert RandomBallColor(current, k) == c;
  }

  /** The script's global state between two frames. */
  datatype WorldState = WorldState(
    angle: real,
    frameCount: int,
    rotationSpeed: real,
    targetRotationSpeed: real,
    ball: BallState,
    color: Config.Color)

  /** The state before the first frame. */
  function InitialWorld(): WorldState {
    WorldState(0.0, 0, INITIAL_SPEED, INITIAL_SPEED, ResetBall(), Config.BALL_COLORS[0])
  }

  /** The state after a frame, and the exception that ended the program
      during it, if any. */
  datatype FrameResult = FrameResult(state: WorldState, crash: Option<Fault>)

  /** The rotation part of a frame (lines 381-391 of ball.py). */
  function Spin(s: WorldState, u: real, negative: bool): (r: WorldState)
    requires 0.0 <= u <= 1.0
  {
    var t := NextFrame(s.frameCount);
    var target := if t.retarget then RandomRotationSpeed(u, negative) else s.targetRotationSpeed;
    var speed := Smooth(s.rotationSpeed, target);
    s.(angle := WrapAngle(s.angle + speed), frameCount := t.frameCount,
       rotationSpeed := speed, targetRotationSpeed := target)
  }

  /** The acceleration and the state check: gravity plus the centripetal
      pull at the current speed, friction, then `check_ball_state`. */
  function Accelerate(b: BallState, speed: real, m: Numerics): BallState {
    var force := CentripetalForce(b.position, speed, HEX_CENTER, CENTRIPETAL_FACTOR, m);
    CheckBallState(BallState(b.position, Scale(Add(b.velocity, Add(GRAVITY, force)), FRICTION)), false, m)
  }

  /** The colour after a `handle_collision`: a new one on a collision. */
  function Recolor(color: Config.Color, h: Handled, k: nat): Config.Color {
    if h.collision then RandomBallColor(color, k) else color
  }

  /** The collision part of a frame (lines 407-420 of ball.py) in the
      hexagon with corners `points` turning at `speed`: the collision is
      tested at the next position; then, if the ball is too close to a
      wall, once more at the ball's position. A collision changes the
      colour, with the draws `pick1` and `pick2`. */
  function Bounce(s: WorldState, points: seq<Vec2>, speed: real, pick1: nat, pick2: nat, m: Numerics): FrameResult {
    var b := s.ball;
    match HandleCollisionOf(BallState(Add(b.position, b.velocity), b.velocity), false, points, speed, m)
    case Failure(f) => FrameResult(s, Some(f))
    case Success(h1) =>
      var s1 := s.(ball := h1.ball, color := Recolor(s.color, h1, pick1));
      if !TooClose(h1.ball.position, points, m) then FrameResult(s1, None)
      else
        match HandleCollisionOf(h1.ball, false, points, speed, m)
        case Failure(f) => FrameResult(s1, Some(f))
        case Success(h2) => FrameResult(s1.(ball := h2.ball, color := Recolor(s1.color, h2, pick2)), None)
  }

  /** One pass of the main loop (lines 381-420 of ball.py), with the
      random draws as parameters: `u` and `negative` for a new target
      speed, `pick1` and `pick2` for the two possible colour changes. */
  function Frame(s: WorldState, u: real, negative: bool, pick1: nat, pick2: nat, m: Numerics): FrameResult
    requires 0.0 <= u <= 1.0
  {
    var s1 := Spin(s, u, negative);
    var points := HexagonPoints(s1.angle, HEX_CENTER, HEX_RADIUS, m);
    Bounce(s1.(ball := Accelerate(s.ball, s1.rotationSpeed, m)), points, s1.rotationSpeed, pick1, pick2, m)
  }

  /** What every frame keeps: the counter below the interval, the angle
      in [0, 360), the speed at most the maximum, a target that could have
      been drawn, and one of the ball colours. */
  ghost predicate Invariant(s: WorldState) {
    && 0 <= s.frameCount < SPEED_CHANGE_INTERVAL
    && 0.0 <= s.angle < 360.0
    && Abs(s.rotationSpeed) <= MAX_ROTATION_SPEED
    && MIN_ROTATION_SPEED <= Abs(s.targetRotationSpeed) <= MAX_ROTATION_SPEED
    && s.color in Config.BALL_COLORS
  }

  lemma InitialWorldInvariant()
    ensures Invariant(InitialWorld())
  {
    assert Config.BALL_COLORS[0] in Config.BALL_COLORS;
  }

  lemma SpinKeepsInvariant(s: WorldState, u: real, negative: bool)
    requires 0.0 <= u <= 1.0 && Invariant(s)
    ensures Invariant(Spin(s, u, negative))
  {
    var t := NextFrame(s.frameCount);
    var target := if t.retarget then RandomRotationSpeed(u, negative) else s.targetRotationSpeed;
    SmoothBounded(s.rotationSpeed, target, MAX_ROTATION_SPEED);
  }

  /** Every frame keeps the invariant, also one that crashes. */
  lemma FrameKeepsInvariant(s: WorldState, u: real, negative: bool, pick1: nat, pick2: nat, m: Numerics)
    requires 0.0 <= u <= 1.0 && Invariant(s)
    ensures Invariant(Frame(s, u, negative, pick1, pick2, m).state)
  {
    SpinKeepsInvariant(s, u, negative);
  }

  /** Every frame ends within the speed limit, whatever the velocity
      before: the state check clamps it and a collision keeps it. */
  lemma FrameKeepsSpeedLimit(s: WorldState, u: real, negative: bool, pick1: nat, pick2: nat, m: Numerics)
    requires 0.0 <= u <= 1.0 && m.Valid()
    ensures Length(Frame(s, u, negative, pick1, pick2, m).state.ball.velocity, m) <= MAX_BALL_SPEED
  {
    var s1 := Spin(s, u, negative);
    var points := HexagonPoints(s1.angle, HEX_CENTER, HEX_RADIUS, m);
    var b := Accelerate(s.ball, s1.rotationSpeed, m);
    CheckBallStateFacts(BallState(s.ball.position,
      Scale(Add(s.ball.velocity, Add(GRAVITY, CentripetalForce(s.ball.position, s1.rotationSpeed, HEX_CENTER, CENTRIPETAL_FACTOR, m))), FRICTION)),
      false, m);
    var b1 := BallState(Add(b.position, b.velocity), b.velocity);
    HandleCollisionKeepsSpeedLimit(b1, points, s1.rotationSpeed, m);
    var r1 := HandleCollisionOf(b1, false, points, s1.rotationSpeed, m);
    if r1.Success? {
      HandleCollisionKeepsSpeedLimit(r1.value.ball, points, s1.rotationSpeed, m);
    }
  }

  /** The script's global variables. */
  class World {
    var angle: real
    var frameCount: int
    var rotationSpeed: real
    var targetRotationSpeed: real
    var ballPos: Vec2
    var ballVel: Vec2
    var ballColor: Config.Color

    function State(): WorldState
      reads this
    {
      WorldState(angle, frameCount, rotationSpeed, targetRotationSpeed, BallState(ballPos, ballVel), ballColor)
    }

    ghost predicate Valid()
      reads this
    {
      Invariant(State())
    }

    /** The values the script starts with. */
    constructor()
      ensures State() == InitialWorld() && Valid()
    {
      angle := 0.0;
      frameCount := 0;
      rotationSpeed := INITIAL_SPEED;
      targetRotationSpeed := INITIAL_SPEED;
      var b := ResetBall();
      ballPos := b.position;
      ballVel := b.velocity;
      ballColor := Config.BALL_COLORS[0];
      InitialWorldInvariant();
    }

    /** One pass of the main loop, as `Frame` describes it; it returns the
        exception that ends the program, if one is raised. */
    method Step(u: real, negative: bool, pick1: nat, pick2: nat, m: Numerics) returns (crash: Option<Fault>)
      requires 0.0 <= u <= 1.0
      modifies this
      ensures State() == Frame(old(State()), u, negative, pick1, pick2, m).state
      ensures crash == Frame(old(State()), u, negative, pick1, pick2, m).crash
      ensures old(Valid()) ==> Valid()
    {
      Rotate(u, negative);
      var hexPoints := HexPoints(angle, HEX_CENTER, HEX_RADIUS, m);
      var centripetalForce := CentripetalForce(ballPos, rotationSpeed, HEX_CENTER, CENTRIPETAL_FACTOR, m);
      ballVel := Add(ballVel, Add(GRAVITY, centripetalForce));
      ballVel := Scale(ballVel, FRICTION);
      var checked := CheckBallState(BallState(ballPos, ballVel), false, m);
      ballPos, ballVel := checked.position, checked.velocity;
      crash := Collide(hexPoints, pick1, pick2, m);
      if old(Valid()) {
        FrameKeepsInvariant(old(State()), u, negative, pick1, pick2, m);
      }
    }

    /** Lines 381-391 of ball.py, as `Spin` describes them. */
    method Rotate(u: real, negative: bool)
      requires 0.0 <= u <= 1.0
      modifies this
      ensures State() == Spin(old(State()), u, negative)
    {
      frameCount := frameCount + 1;
      if frameCount >= SPEED_CHANGE_INTERVAL {
        frameCount := 0;
        targetRotationSpeed := RandomRotationSpeed(u, negative);
      }
      var speedDiff := targetRotationSpeed - rotationSpeed;
      rotationSpeed := rotationSpeed + speedDiff * ROTATION_ACCELERATION;
      angle := WrapAngle(angle + rotationSpeed);
    }

    /** Lines 407-420 of ball.py, as `Bounce` describes them. */
    method Collide(hexPoints: seq<Vec2>, pick1: nat, pick2: nat, m: Numerics) returns (crash: Option<Fault>)
      requires |hexPoints| > 0
      modifies this
      ensures var r := Bounce(old(State()), hexPoints, rotationSpeed, pick1, pick2, m);
        State() == r.state && crash == r.crash
    {
      var nextPos := Add(ballPos, ballVel);
      var handled := HandleCollision(BallState(nextPos, ballVel), false, hexPoints, rotationSpeed, m);
      if handled.Failure? {
        return Some(handled.fault);
      }
      ballPos, ballVel := handled.value.ball.position, handled.value.ball.velocity;
      if handled.value.collision {
        ballColor := RandomBallColor(ballColor, pick1);
      }
      var tooClose := IsBallTooCloseToEdge(ballPos, hexPoints, m);
      if tooClose {
        handled := HandleCollision(BallState(ballPos, ballVel), false, hexPoints, rotationSpeed, m);
        if handled.Failure? {
          return Some(handled.fault);
        }
        ballPos, ballVel := handled.value.ball.position, handled.value.ball.velocity;
        if handled.value.collision {
          ballColor := RandomBallColor(ballColor, pick2);
        }
      }
      return None;
    }
  }
}

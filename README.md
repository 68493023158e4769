# Ball in a rotating hexagon

A model of the physics of a ball bouncing inside a rotating hexagon, in the
two forms the program has: the stand-alone script `ball.py`, and the
object-oriented version (`utils.py`, `game_objects.py`, `game_engine.py`,
`config.py`).

Every frame, the hexagon counts the frame. Every `SPEED_CHANGE_INTERVAL`
frames it draws a new target rotation speed. It moves its speed a tenth of
the way towards the target and turns by that speed, modulo 360 degrees.
The ball is pulled towards the center by a centripetal force and by
gravity. Friction damps its velocity, and the velocity is clamped to a
speed limit. When the ball's next position is outside the hexagon, the
collision code finds the nearest wall, where the first of equally near
walls wins. The ball then bounces off that wall relative to the wall's own
rotational velocity, scaled by the elasticity. The speed is clamped again,
and the ball is pushed back along the wall's normal when it is closer to
the wall than a buffer. The script runs this collision step a second time
when the ball is still too close to an edge, and it changes the ball's
colour on every collision.

Modules:

- `Vector` (vector.dfy) holds the 2-D vectors over exact reals, together
  with normalisation, the speed clamp and reflection. The length, the
  degree-to-radian factor, cosine and sine are not computed. They are
  parameters (`Numerics`), and the model assumes only that the length is
  the Euclidean norm.
- `Geometry` (geometry.dfy) holds `point_in_polygon`,
  `get_closest_point_on_line` and `get_hex_points`.
- `Rotation` (rotation.dfy) holds the hexagon's rotation schedule, which
  both programs share.
- `Collision` (collision.dfy) holds the centripetal force, the nearest-wall
  loop, the wall velocity, the bounce and the whole collision check. Both
  programs share it, and their different constants are parameters.
- `Config` (config.dfy) holds the settings of the object-oriented program.
- `GameObjects` (game_objects.dfy) holds the classes `Ball` and `Hexagon`.
- `GameEngine` (game_engine.dfy) holds `PhysicsEngine.update` and
  `_handle_collision`.
- `BallScript` (ball_script.dfy) holds the script's helpers. It also holds
  one pass of its main loop, as the method `Step` of a class `World` that
  contains the script's global variables.

Exceptions become values. A `normalize()` of a zero vector and the
division `rotation_speed / abs(rotation_speed)` at speed zero become a
`Fault` in a `Result`. The engine catches them, so `update` returns
`false`. The script does not catch them, so `Step` returns the fault that
would end the program.

## Model

| member | source | states |
|---|---|---|
| Vector.NormalizeUnit | ball.py:261 | a vector of non-zero length normalises to a unit vector |
| Vector.PerpLength | ball.py:261 | `Vector2(-v.y, v.x)` has the length of `v` and is perpendicular to it |
| Vector.ClampSpeedFacts | ball.py:93-94 | after the speed clamp the length is at most the limit; over the limit it is exactly the limit, in the same direction; within the limit the vector is unchanged |
| Vector.ClampSpeedIdempotent | ball.py:93-94 | clamping twice is clamping once |
| Vector.ReflectComponents | ball.py:265 | reflection about a unit normal negates the normal component and keeps the tangential one |
| Vector.ReflectLength | ball.py:265 | reflection about a unit normal keeps the length |
| Geometry.PointInPolygon | utils.py:23-39 | the loop's result is true exactly when the point's ray crosses an odd number of edges, where edge k joins vertex k to vertex k+1 mod n (the reference count `CrossingCount`) |
| Geometry.EdgeTest | utils.py:31-37 | one pass of the loop toggles exactly when the edge is crossed (half-open height band, then the x test), and it computes `xinters` whenever it is read |
| Geometry.CountStep | utils.py:29-38 | pass 0 adds nothing and pass i adds edge i-1, so the n+1 passes count each of the n edges once |
| Geometry.HorizontalEdgeNeverCrosses | utils.py:28-36 | a horizontal edge never toggles, so the division by `p2y - p1y` never sees zero; the first pass, which pairs vertex 0 with itself, never toggles either |
| Geometry.SharedVertexCountedOnce | utils.py:31-32 | at a vertex on the ray's height, of the two edges meeting there only the one from below is in the band |
| Geometry.NoCrossingsOutsideBox | utils.py:31-33 | a point to the right of every vertex, or below or level with all of them, or above all of them, crosses no edge |
| Geometry.OutsideBoxIsOutside | utils.py:31-39 | such a point is reported outside |
| Geometry.ClampUnit | utils.py:49 | `max(0, min(1, t))` is in [0, 1] and leaves t in [0, 1] unchanged |
| Geometry.ClosestPointOnSegment | utils.py:41-50 | a zero-length segment gives its start; the result is always start + t (end - start) with t in [0, 1]; it is the start when the projection falls behind the start, the end when it falls beyond the end, and otherwise the foot of the perpendicular |
| Geometry.ProjectionFacts | utils.py:49-50 | the same for a segment of positive length, in terms of its length |
| Geometry.ClampedProjection | utils.py:49-50 | the clamped parameter picks the start, the end or the perpendicular foot, by where the dot product falls |
| Geometry.PerpendicularFoot | utils.py:49-50 | with the unclamped parameter, the vector from the returned point to the point is perpendicular to the segment |
| Geometry.HexagonPoints | utils.py:9-21 | there are always exactly six vertices |
| Geometry.HexVertexOnCircle | utils.py:16-20 | every vertex lies at distance `radius` from the center |
| Geometry.HexPoints | utils.py:9-21 | the loop appends the six vertices, vertex i at angle + 60 i degrees |
| Rotation.RandomRotationSpeed | ball.py:290-300 | the drawn speed has magnitude in [MIN, MAX] and is negative exactly when the drawn direction is -1 |
| Rotation.RandomRotationSpeedCovers | ball.py:298-300 | every speed with magnitude in [MIN, MAX], of either sign, can be drawn |
| Rotation.NextFrame | ball.py:381-384 | the counter stays in [0, 60); a new target is asked for exactly when the incremented counter reaches the interval, and then the counter is 0; otherwise it is one more |
| Rotation.RetargetEveryInterval | ball.py:381-384 | starting from 0, after k frames the counter is k mod 60, and frame k asks for a new target exactly when k is a multiple of 60 |
| Rotation.Smooth | ball.py:387-388 | the new speed lies between the old speed and the target |
| Rotation.SmoothApproaches | ball.py:387-388 | each frame closes exactly a tenth of the gap to the target, so a non-zero gap shrinks |
| Rotation.SmoothBounded | game_objects.py:71-72 | a bound on the magnitude that both the speed and the target meet is kept |
| Rotation.SmoothCanStop | ball.py:387-388 | the speed can leave [MIN, MAX] in magnitude: from 0.5 towards -4.5 it becomes exactly 0 |
| Rotation.WrapAngle | ball.py:391 | Python's float `% 360` is in [0, 360), leaves an angle in [0, 360) unchanged, and differs from its argument by a whole number of turns |
| Rotation.WrapAngleTurns | ball.py:391 | adding whole turns does not change the wrapped angle |
| Collision.CentripetalIsSpring | ball.py:179-189 | in both branches, including zero at the center, the force is `k w^2` times the vector from the ball to the center |
| Collision.CentripetalPointsInward | game_engine.py:76-83 | with a non-negative factor the force points towards the center, and its size is `k w^2` times the distance from the center |
| Collision.CentripetalSymmetric | game_engine.py:81 | the force depends only on the magnitude of the rotation speed |
| Collision.ZeroNormalIsZeroWall | ball.py:250-251 | normalising the wall's quarter turn fails exactly for a wall of zero length |
| Collision.ContactNormal | ball.py:250-251 | the recorded normal is a unit vector perpendicular to its wall |
| Collision.FirstNearest | ball.py:240-251 | the recorded index is one of the walls seen so far |
| Collision.FirstNearestIsNearest | ball.py:240-251 | the recorded wall is at minimal distance and strictly nearer than every earlier wall (first minimum); nothing is recorded only when there are no walls; the loop raises only at a wall without a normal |
| Collision.FirstNearestFailureSticks | ball.py:240-251 | once the loop has raised, later walls change nothing |
| Collision.NearestIsNearest | game_engine.py:97-109 | the same for the polygon: the record is the wall nearest to the point, the first of equally near ones, and without zero-length walls the loop does not raise |
| Collision.ConsiderWall | ball.py:241-251 | one pass of the loop keeps the record equal to that of the reference definition after one more wall, or raises exactly when the reference raises |
| Collision.NearestWall | ball.py:240-251 | the loop's result is the reference record `Nearest` |
| Collision.WallVelocity | ball.py:260-262 | the wall velocity raises the division by zero exactly when the rotation speed is 0 |
| Collision.WallVelocityIsRotation | ball.py:255-262 | away from the center and at non-zero speed, the wall velocity is the contact's radius vector turned a quarter turn and scaled by the speed in radians, that is, the velocity of a point rotating with the hexagon |
| Collision.TangentRotation | ball.py:260-262 | the same, from the facts about the lengths alone |
| Collision.WallVelocityAway | ball.py:260-262 | away from the center and at non-zero speed, the wall velocity raises nothing |
| Collision.BounceLaw | ball.py:264-266 | relative to the moving wall, the bounce reverses the normal component of the velocity and keeps the tangential one, both scaled by the elasticity |
| Collision.RespondInside | ball.py:235 | the check reports no collision exactly when the point is inside |
| Collision.RespondHitShape | ball.py:235-274 | a hit comes from a point outside, the nearest wall's record away from the center, a non-zero speed, the clamped bounce off that wall and the push `buffer - min_dist` |
| Collision.RespondHit | ball.py:235-274 | a hit is against the nearest wall (the first of equally near ones), its normal is a unit vector perpendicular to that wall, the new velocity is the clamped bounce off the wall rotating with the hexagon and within the speed limit, and the push is the buffer less the distance |
| Collision.RespondFaults | ball.py:240-262 | the check raises only the division by zero at speed 0, or the failed normalisation of a zero-length wall |
| Collision.RespondSucceeds | ball.py:240-262 | without zero-length walls and at non-zero speed, the check raises nothing |
| Collision.Detect | ball.py:235-274 | the imperative check (point test, wall loop, center test, wall velocity, bounce, clamp) equals `Respond` |
| GameObjects.Ball.constructor | game_objects.py:23-27 | the ball is at rest, with the given position, radius and colour |
| GameObjects.Ball.Update | game_objects.py:29-38 | the velocity becomes the clamp of (old velocity + force) times friction, the position moves by the new velocity, radius and colour are kept, and the speed ends within the limit |
| GameObjects.Hexagon.constructor | game_objects.py:54-61 | angle 0, speed and target both the initial speed, counter 0, and the frame invariant holds |
| GameObjects.Hexagon.Update | game_objects.py:63-75 | counter, target, smoothed speed and wrapped angle as the rotation schedule gives them; the acceleration argument is ignored; the counter range, angle range, speed bound and target bounds are kept |
| GameObjects.Hexagon.GetRandomRotationSpeed | game_objects.py:77-85 | the speed has magnitude in [MIN, MAX] and the drawn sign |
| GameObjects.Hexagon.GetPoints | game_objects.py:87-89 | the six corners at the current angle, each at distance `HEX_RADIUS` from the window's center |
| GameEngine.GameState.constructor | game_engine.py:12-16 | running, not paused, counter 0 |
| GameEngine.CollideFacts | game_engine.py:85-140 | without a bounce the ball is unchanged; when the next position is inside there is no bounce |
| GameEngine.CollideBounce | game_engine.py:92-138 | a bounce is off the nearest wall when the next position is outside, with the wall's rotational velocity; the speed stays within the limit; the ball moves to `next_pos + normal * push` exactly when `push = radius + 4 - min_dist` is positive, and otherwise stays where it was |
| GameEngine.CollideKeepsSpeedLimit | game_engine.py:125-131 | a speed within the limit stays within it |
| GameEngine.PhysicsEngine.constructor | game_engine.py:27-31 | the given gravity, elasticity and friction, with a fresh state that is not paused |
| GameEngine.PhysicsEngine.Update | game_engine.py:33-68 | no ball gives false; paused gives true with the ball unchanged; otherwise clamp, centripetal force only with a hexagon, `Ball.update`, clamp again, then the collision's result (an exception counting as false), or true without a hexagon; unpaused, the speed ends within the limit |
| GameEngine.PhysicsEngine.HandleCollision | game_engine.py:85-140 | the ball and the result are those of `Collide`, radius and colour are kept |
| BallScript.ResetBall | ball.py:63-72 | the reset ball is at rest and inside the accepted box |
| BallScript.CheckBallState | ball.py:74-96 | the result is always inside the box, and a ball inside the box that is a number keeps its position |
| BallScript.CheckBallStateFacts | ball.py:74-96 | a ball outside the box, or not a number, is reset; otherwise the velocity is clamped; the speed ends within the limit; the check is idempotent |
| BallScript.HandleCollisionFacts | ball.py:214-276 | a ball that is not a number is reset with no collision; inside the polygon nothing changes; without a collision the ball is unchanged or reset; a collision bounces off the nearest wall with the wall's rotational velocity within the speed limit, and pushes by `COLLISION_BUFFER - min_dist` along the normal exactly when that is positive |
| BallScript.HandleCollisionKeepsSpeedLimit | ball.py:268-270 | a speed within the limit stays within it |
| BallScript.HandleCollision | ball.py:214-276 | the function's ball, velocity and collision flag are those of `HandleCollisionOf` |
| BallScript.IsBallTooCloseToEdge | ball.py:191-212 | true exactly when some edge's closest point is nearer than `COLLISION_BUFFER` |
| BallScript.Without | ball.py:287 | the remaining colours are exactly those different from the current one |
| BallScript.WithoutDistinct | ball.py:287 | from distinct colours at most one is taken out, and the rest stay distinct |
| BallScript.BallColorsDistinct | ball.py:26-35 | the eight colours are distinct |
| BallScript.ChooseOther | ball.py:286-288 | the chosen colour is one of the list and not the current one |
| BallScript.ChooseOtherCovers | ball.py:286-288 | every other colour of the list can be chosen |
| BallScript.RandomBallColor | ball.py:278-288 | the new colour is a ball colour different from the current one |
| BallScript.RandomBallColorCovers | ball.py:278-288 | every ball colour other than the current one can be drawn |
| BallScript.InitialWorldInvariant | ball.py:36-54 | the initial state meets the frame invariant |
| BallScript.SpinKeepsInvariant | ball.py:381-391 | the rotation part of a frame keeps the counter range, angle range, speed bound and target bounds |
| BallScript.FrameKeepsInvariant | ball.py:381-420 | every frame, also one that raises, keeps the invariant and a ball colour |
| BallScript.FrameKeepsSpeedLimit | ball.py:397-420 | every frame ends within the speed limit, whatever the speed before |
| BallScript.World.constructor | ball.py:36-54 | the script's initial globals, which meet the invariant |
| BallScript.World.Step | ball.py:381-420 | one pass of the loop gives the state and exception of `Frame`, and keeps the invariant |
| BallScript.World.Rotate | ball.py:381-391 | the rotation part gives the state of `Spin` |
| BallScript.World.Collide | ball.py:407-420 | the collision part gives the state and exception of `Bounce`: a second check only when still too close, a new colour only on a collision |

## Left out

- Rendering, the window, the event loop, the clock, the logger and
  `GameState.handle_events` are left out. They are pygame I/O with no
  physics.
- Floating point is left out. Coordinates are exact reals, so rounding and
  infinities do not occur. A NaN position is an explicit flag (`nan`) of
  `check_ball_state` and `handle_collision`. The main loop passes `false`,
  because exact arithmetic produces no NaN.
- `Vector2.length()`, `math.radians`, `math.cos` and `math.sin` are
  parameters, not computations. The lemmas assume only that the length is
  the Euclidean norm, that the degree factor is positive and, for the
  corners' distance, that (cos t, sin t) lies on the unit circle.
  `Vector2.reflect(n)` is modelled as `v - 2 (v . n) n`, which is pygame's
  result for a unit normal.
- The random draws are parameters, and their distributions are not
  modelled:
  - `u` in [0, 1] and a direction for `random.uniform` and
    `random.choice([-1, 1])`;
  - an index taken modulo the list's length for the colour.
- `point_in_polygon` with no vertices raises `IndexError`. The model
  requires at least one vertex, and every caller passes six.
- `Hexagon.get_points` ignores the hexagon's own `position` and `radius`
  and uses the window's center and radius 200. The model does the same.
- `COLLISION_BUFFER` of config.py is not used by the code, so it is not in
  `Config`.
- The target rotation speed always has magnitude in [MIN, MAX]. The
  smoothed speed does not: it passes through small values, even 0 in exact
  arithmetic, when the target changes sign (`SmoothCanStop`). So only
  `|speed| <= MAX` is kept as an invariant. A collision at speed 0 raises
  the division by zero, which the engine catches and the script does not.
- GameEngine.PhysicsEngine.Update: the `try`/`except` is modelled only for
  the exceptions the collision code can raise. Other exceptions have no
  counterpart in the model.

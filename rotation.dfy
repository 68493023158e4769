/** The rotation schedule of the hexagon, shared by ball.py's main loop and
    `Hexagon.update`: every `SPEED_CHANGE_INTERVAL` frames a new target
    speed is drawn, the current speed moves a tenth of the way towards the
    target on every frame, and the angle advances by the current speed,
    taken modulo 360 degrees. Both programs use the same constants. */
module Rotation {
  import opened Vector

  const MIN_ROTATION_SPEED: real := 0.5
  const MAX_ROTATION_SPEED: real := 5.0
  const ROTATION_ACCELERATION: real := 0.1
  const SPEED_CHANGE_INTERVAL: int := 60
  const INITIAL_SPEED: real := 2.0

  /** `get_random_rotation_speed`: `random.uniform(MIN, MAX)` is
      `MIN + (MAX - MIN) * u` for the draw `u` in [0, 1], and
      `random.choice([-1, 1])` is the flag `negative`. The result is never
      zero, its size lies between the two limits, and its sign is the drawn
      direction. */
  function RandomRotationSpeed(u: real, negative: bool): (s: real)
    requires 0.0 <= u <= 1.0
    ensures MIN_ROTATION_SPEED <= Abs(s) <= MAX_ROTATION_SPEED
    ensures negative <==> s < 0.0
  {
    var speed := MIN_ROTATION_SPEED + (MAX_ROTATION_SPEED - MIN_ROTATION_SPEED) * u;
    if negative then speed * -1.0 else speed * 1.0
  }

  /** Every speed allowed by the limits, in either direction, can be drawn. */
  lemma RandomRotationSpeedCovers(s: real)
    requires MIN_ROTATION_SPEED <= Abs(s) <= MAX_ROTATION_SPEED
    ensures exists u, negative :: 0.0 <= u <= 1.0 && RandomRotationSpeed(u, negative) == s
  {
    var u := (Abs(s) - MIN_ROTATION_SPEED) / (MAX_ROTATION_SPEED - MIN_ROTATION_SPEED);
    assert RandomRotationSpeed(u, s < 0.0) == s;
  }

  /** The frame counter: it is incremented, and when it reaches the
      interval it goes back to 0 and a new target speed is due. */
  datatype Tick = Tick(frameCount: int, retarget: bool)

  function NextFrame(frameCount: int): (t: Tick)
    ensures 0 <= frameCount < SPEED_CHANGE_INTERVAL ==> 0 <= t.frameCount < SPEED_CHANGE_INTERVAL
    ensures t.retarget <==> frameCount + 1 >= SPEED_CHANGE_INTERVAL
    ensures t.retarget ==> t.frameCount == 0
    ensures !t.retarget ==> t.frameCount == frameCount + 1
  {
    if frameCount + 1 >= SPEED_CHANGE_INTERVAL then Tick(0, true) else Tick(frameCount + 1, false)
  }

  /** Starting from 0, the counter asks for a new target on every
      `SPEED_CHANGE_INTERVAL`-th frame and on no other. */
  lemma {:induction false} RetargetEveryInterval(k: nat)
    ensures Frames(k) == k % SPEED_CHANGE_INTERVAL
    ensures k > 0 ==> (NextFrame(Frames(k - 1)).retarget <==> k % SPEED_CHANGE_INTERVAL == 0)
  {
    if k > 0 {
      RetargetEveryInterval(k - 1);
    }
  }

  /** The counter after `k` frames. */
  function Frames(k: nat): int {
    if k == 0 then 0 else NextFrame(Frames(k - 1)).frameCount
  }

  /** One frame of smoothing: `speed + (target - speed) * ROTATION_ACCELERATION`.
      The new speed lies between the old speed and the target. */
  function Smooth(speed: real, target: real): (r: real)
    ensures speed <= target ==> speed <= r <= target
    ensures target <= speed ==> target <= r <= speed
  {
    speed + (target - speed) * ROTATION_ACCELERATION
  }

  /** Each frame closes a tenth of the gap to the target. */
  lemma SmoothApproaches(speed: real, target: real)
    ensures target - Smooth(speed, target) == (target - speed) * (1.0 - ROTATION_ACCELERATION)
    ensures speed != target ==> Abs(target - Smooth(speed, target)) < Abs(target - speed)
  {
  }

  /** Smoothing keeps a speed bound that both the speed and the target satisfy. */
  lemma SmoothBounded(speed: real, target: real, bound: real)
    requires Abs(speed) <= bound && Abs(target) <= bound
    ensures Abs(Smooth(speed, target)) <= bound
  {
  }

  /** The smoothed speed does not stay outside (-MIN, MIN): when the
      direction flips it passes through small values, and can be exactly
      zero, for instance from 0.5 towards a target of -4.5. */
  lemma SmoothCanStop()
    ensures MIN_ROTATION_SPEED <= Abs(0.5) && MIN_ROTATION_SPEED <= Abs(-4.5) <= MAX_ROTATION_SPEED
    ensures Smooth(0.5, -4.5) == 0.0
  {
  }

  /** `x % 360` for a float `x`: Python's modulo takes the sign of the
      divisor, so the result lies in [0, 360) and differs from `x` by a
      whole number of turns. */
  function WrapAngle(x: real): (r: real)
    ensures 0.0 <= r < 360.0
    ensures 0.0 <= x < 360.0 ==> r == x
    ensures ((x - r) / 360.0).Floor as real == (x - r) / 360.0
  {
    x - 360.0 * (x / 360.0).Floor as real
  }

  /** Adding whole turns does not change the wrapped angle. */
  lemma {:induction false} WrapAngleTurns(x: real, k: nat)
    ensures WrapAngle(x + 360.0 * k as real) == WrapAngle(x)
  {
    if k > 0 {
      WrapAngleTurns(x, k - 1);
      var y := x + 360.0 * (k - 1) as real;
      assert (y + 360.0) / 360.0 == y / 360.0 + 1.0;
      assert ((y + 360.0) / 360.0).Floor == (y / 360.0).Floor + 1;
    }
  }
}

/** The settings of the object-oriented program (config.py) and the colour
    type shared with ball.py. The rotation settings, identical in config.py
    and ball.py, are in module Rotation. */
module Config {
  import opened Vector

  /** An RGB colour. */
  datatype Color = Color(r: int, g: int, b: int)

  const WIDTH: int := 800
  const HEIGHT: int := 600

  /** `Vector2(WIDTH // 2, HEIGHT // 2)`, the hexagon's center. */
  const HEX_CENTER: Vec2 := Vec2((WIDTH / 2) as real, (HEIGHT / 2) as real)

  /** The radius fixed inside `get_hex_points`. */
  const HEX_RADIUS: real := 200.0

  const GRAVITY: Vec2 := Vec2(0.0, 0.5)
  const ELASTICITY: real := 0.8
  const FRICTION: real := 0.99
  const MAX_BALL_SPEED: real := 20.0

  /** The pull factor of `_calculate_centripetal_force`. */
  const CENTRIPETAL_FACTOR: real := 0.1

  /** Half the hexagon's border width, added to the ball's radius to get
      the push-out distance. */
  const HALF_BORDER: real := 4.0

  const HEXAGON_COLOR: Color := Color(200, 200, 255)

  /** The eight ball colours, in order; both programs use the same list. */
  const BALL_COLORS: seq<Color> := [
    Color(255, 0, 0), Color(0, 255, 0), Color(0, 0, 255), Color(255, 255, 0),
    Color(255, 0, 255), Color(0, 255, 255), Color(255, 128, 0), Color(255, 0, 128)
  ]
}

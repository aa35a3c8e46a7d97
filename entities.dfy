/** The four kinds of game object and the defaults their constructors set:
    the paddle (board), the ball, a brick and the lava strip. */
module Entities {
  import opened Geometry

  /** A brick is a body plus its liveness flag. */
  datatype Brick = Brick(body: Body, isAlive: bool)

  const BRICK_WIDTH := 62
  const BRICK_HEIGHT := 20
  /** Gap between neighbouring bricks, in pixels. */
  const BRICK_SPACE := 2
  /** Distance from the top of the screen to the first brick row, in pixels. */
  const TOP_SPACE := 50
  const BRICK_ROWS := 4
  const LAVA_HEIGHT := 30

  /** `Board()`: the paddle starts at rest at (512, 600). */
  function NewBoard(): (r: Body)
    ensures r.x == 512.0 && r.y == 600.0 && r.w == 120 && r.h == 10
    ensures r.vx == 0 && r.vy == 0 && r.speed == 0.5 && r.color == 0x0000FF
    ensures forall width, height :: InField(r, width, height) <==> width >= 632 && height >= 610
  {
    Body(512.0, 600.0, 120, 10, 0, 0, 0.5, 0x0000FF)
  }

  /** `Ball()`: the ball starts at (545, 510) heading up and to the right. */
  function NewBall(): (r: Body)
    ensures r.x == 545.0 && r.y == 510.0 && r.w == 10 && r.h == 10
    ensures r.vx == 1 && r.vy == -1 && r.speed == 0.3 && r.color == 0xFFFF00
    ensures Moving(r)
  {
    Body(545.0, 510.0, 10, 10, 1, -1, 0.3, 0xFFFF00)
  }

  /** `Brick()`: a live, motionless 62 x 20 brick at (20, 20). */
  function NewBrick(): (r: Brick)
    ensures r.isAlive
    ensures r.body.x == 20.0 && r.body.y == 20.0 && r.body.w == 62 && r.body.h == 20
    ensures r.body.vx == 0 && r.body.vy == 0 && r.body.speed == 0.0 && r.body.color == 0x00FF00
  {
    Brick(Body(20.0, 20.0, BRICK_WIDTH, BRICK_HEIGHT, 0, 0, 0.0, 0x00FF00), true)
  }

  /** `Lava()`: a motionless strip 30 pixels high along the bottom of the screen. */
  function NewLava(width: int, height: int): (r: Body)
    ensures r.x == 0.0 && r.y == (height - 30) as real && r.w == width && r.h == 30
    ensures r.vx == 0 && r.vy == 0 && r.speed == 0.0 && r.color == 0xFF0000
    ensures width >= 0 && height >= 30 ==> InField(r, width, height)
    ensures r.y + r.h as real == height as real
  {
    Body(0.0, (height - LAVA_HEIGHT) as real, width, LAVA_HEIGHT, 0, 0, 0.0, 0xFF0000)
  }

  /** A ball inside the playfield touches the lava exactly when its bottom
      edge is below the top of the strip. */
  lemma LavaTouchIffBelowLine(ball: Body, width: int, height: int)
    requires ball.w > 0 && ball.h > 0 && InField(ball, width, height)
    ensures CheckCollide(ball, NewLava(width, height)) != NotCollide
        <==> ball.y + ball.h as real > (height - LAVA_HEIGHT) as real
  {
  }
}

/** Geometry of the game's bodies: the game-object record, the rectangle
    collision classification, the clamped position update and the ball's
    reflection off the screen borders. Positions are exact reals standing for
    the game's floats; sizes and velocities are integers. */
module Geometry {

  /** The outcomes of a collision test, in the order the game declares them. */
  datatype CollideType = Vertical | Horizontal | NotCollide

  /** A game object: top-left corner (x, y), size (w, h), velocity (vx, vy),
      the speed that scales the velocity, and the colour it is painted with. */
  datatype Body = Body(x: real, y: real, w: int, h: int, vx: int, vy: int, speed: real, color: nat)

  function Min(a: real, b: real): real { if a <= b then a else b }

  function Max(a: real, b: real): real { if a >= b then a else b }

  /** The collision test of one body against another, branch for branch as
      the game writes it. The second branch asks for `a` to be left of `b` and
      right of `b` at once, so it fires only when the two widths sum to less
      than zero. */
  function CheckCollide(a: Body, b: Body): (r: CollideType)
    ensures r == Vertical ==> a.w + b.w < 0
    ensures a.w >= 0 && b.w >= 0 ==> r != Vertical
  {
    if a.x + a.w as real > b.x && a.x < b.x + b.w as real then
      if a.y + a.h as real > b.y && a.y < b.y + b.h as real then Horizontal else NotCollide
    else if a.y + a.h as real > b.y && a.y < b.y + b.h as real then
      if a.x + a.w as real < b.x && a.x > b.x + b.w as real then Vertical else NotCollide
    else
      NotCollide
  }

  /** The point (px, py) lies strictly inside the rectangle of `b`. */
  ghost predicate Interior(b: Body, px: real, py: real) {
    b.x < px < b.x + b.w as real && b.y < py < b.y + b.h as real
  }

  /** The two rectangles have an interior point in common. */
  ghost predicate ShareInteriorPoint(a: Body, b: Body) {
    exists px, py :: Interior(a, px, py) && Interior(b, px, py)
  }

  /** For bodies of positive size the collision test reports HORIZONTAL
      exactly when the rectangles overlap, and NOT_COLLIDE otherwise. */
  lemma HorizontalIffOverlap(a: Body, b: Body)
    requires a.w > 0 && a.h > 0 && b.w > 0 && b.h > 0
    ensures CheckCollide(a, b) == Horizontal <==> ShareInteriorPoint(a, b)
    ensures CheckCollide(a, b) == NotCollide <==> !ShareInteriorPoint(a, b)
  {
    if CheckCollide(a, b) == Horizontal {
      var px := (Max(a.x, b.x) + Min(a.x + a.w as real, b.x + b.w as real)) / 2.0;
      var py := (Max(a.y, b.y) + Min(a.y + a.h as real, b.y + b.h as real)) / 2.0;
      assert Interior(a, px, py) && Interior(b, px, py);
    }
  }

  /** The HORIZONTAL outcome does not depend on which body is tested against which. */
  lemma HorizontalIsSymmetric(a: Body, b: Body)
    ensures CheckCollide(a, b) == Horizontal <==> CheckCollide(b, a) == Horizontal
  {
  }

  /** `max(min(v, hi), 0)`: the clamp the position update applies on each axis. */
  function Clamp(v: real, hi: real): (r: real)
    ensures 0.0 <= hi ==> 0.0 <= r <= hi
    ensures hi < 0.0 ==> r == 0.0
    ensures 0.0 <= v <= hi ==> r == v
    ensures r == v || r == hi || r == 0.0
  {
    Max(Min(v, hi), 0.0)
  }

  /** The body lies inside the playfield of the given size. */
  predicate InField(b: Body, width: int, height: int) {
    0.0 <= b.x <= (width - b.w) as real && 0.0 <= b.y <= (height - b.h) as real
  }

  /** The body moves with unit speed on both axes. */
  predicate Moving(b: Body) {
    (b.vx == 1 || b.vx == -1) && (b.vy == 1 || b.vy == -1)
  }

  /** `pos_update`: move by velocity times speed, then clamp each coordinate
      into [0, screen dimension - size]. Only the position changes. */
  function PosUpdate(b: Body, width: int, height: int): (r: Body)
    ensures r == b.(x := r.x, y := r.y)
    ensures b.w <= width ==> 0.0 <= r.x <= (width - b.w) as real
    ensures b.w > width ==> r.x == 0.0
    ensures b.h <= height ==> 0.0 <= r.y <= (height - b.h) as real
    ensures b.h > height ==> r.y == 0.0
    ensures 0.0 <= b.x + b.vx as real * b.speed <= (width - b.w) as real ==> r.x == b.x + b.vx as real * b.speed
    ensures 0.0 <= b.y + b.vy as real * b.speed <= (height - b.h) as real ==> r.y == b.y + b.vy as real * b.speed
    ensures b.vx == 0 && 0.0 <= b.x <= (width - b.w) as real ==> r.x == b.x
    ensures b.vy == 0 && 0.0 <= b.y <= (height - b.h) as real ==> r.y == b.y
    ensures b.vx == 0 && b.vy == 0 && InField(b, width, height) ==> r == b
    ensures b.w <= width && b.h <= height ==> InField(r, width, height)
  {
    b.(x := Clamp(b.x + b.vx as real * b.speed, (width - b.w) as real),
       y := Clamp(b.y + b.vy as real * b.speed, (height - b.h) as real))
  }

  /** One axis of `Ball::collide_borders`: coordinate p, velocity v, extent
      size and screen dimension dim. The far edge is tested first; the
      velocity turns round and the coordinate snaps onto the edge reached. */
  function ReflectAxis(p: real, v: int, size: int, dim: int): (r: (real, int))
    ensures r.1 == v || r.1 == -v
    ensures 0.0 < p < (dim - size) as real ==> r == (p, v)
    ensures p >= (dim - size) as real ==> r == ((dim - size) as real, -v)
    ensures p < (dim - size) as real && p <= 0.0 ==> r == (0.0, -v)
    ensures size <= dim ==> 0.0 <= r.0 <= (dim - size) as real
  {
    if p >= (dim - size) as real then ((dim - size) as real, -v)
    else if p <= 0.0 then (0.0, -v)
    else (p, v)
  }

  /** `Ball::collide_borders`: the two axes are reflected independently;
      size, speed and colour are untouched. */
  function CollideBorders(b: Body, width: int, height: int): (r: Body)
    ensures r.w == b.w && r.h == b.h && r.speed == b.speed && r.color == b.color
    ensures (r.x, r.vx) == ReflectAxis(b.x, b.vx, b.w, width)
    ensures (r.y, r.vy) == ReflectAxis(b.y, b.vy, b.h, height)
    ensures b.w <= width && b.h <= height ==> InField(r, width, height)
  {
    var (x, vx) := ReflectAxis(b.x, b.vx, b.w, width);
    var (y, vy) := ReflectAxis(b.y, b.vy, b.h, height);
    b.(x := x, vx := vx, y := y, vy := vy)
  }
}

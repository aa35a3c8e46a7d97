/** The render pass: painting a body's rectangle into the frame buffer and
    drawing the whole scene. The buffer is indexed [row, column], row-major
    like the game's `buffer[y][x]`, and holds colour values. */
module Render {
  import opened Geometry
  import opened Entities
  import opened Session

  /** `static_cast<int>` of a coordinate: truncation toward zero. */
  function Trunc(r: real): (n: int)
    ensures r >= 0.0 ==> n as real <= r < n as real + 1.0
    ensures r < 0.0 ==> n as real - 1.0 < r <= n as real
  {
    if r >= 0.0 then r.Floor else -((-r).Floor)
  }

  /** The painted rectangle of `b` contains the cell (row, col). */
  predicate Covers(b: Body, row: int, col: int) {
    Trunc(b.y) <= row < Trunc(b.y) + b.h && Trunc(b.x) <= col < Trunc(b.x) + b.w
  }

  /** Every cell the painter writes for `b` lies in a buffer of the given size. */
  predicate FitsIn(b: Body, width: int, height: int) {
    b.w > 0 && b.h > 0 ==>
      0 <= Trunc(b.x) && Trunc(b.x) + b.w <= width && 0 <= Trunc(b.y) && Trunc(b.y) + b.h <= height
  }

  /** A body inside the playfield can be painted. */
  lemma InFieldFits(b: Body, width: int, height: int)
    requires InField(b, width, height)
    ensures FitsIn(b, width, height)
  {
  }

  /** Every brick of the initial grid can be painted on a screen at least
      136 pixels high, the bottom of the fourth row. */
  lemma PlacedBrickFits(i: int, j: int, width: nat, height: int)
    requires 0 <= i < BRICK_ROWS && 0 <= j < BricksPerRow(width)
    requires height >= TOP_SPACE + BRICK_ROWS * (BRICK_HEIGHT + BRICK_SPACE) - BRICK_SPACE
    ensures FitsIn(PlacedBrick(i, j).body, width, height)
  {
    assert 64 * (j + 1) <= 64 * (width / 64) <= width;
  }

  /** The bodies painted, in order: paddle, ball, lava, then the live bricks by index. */
  function PaintOrder(board: Body, ball: Body, lava: Body, bricks: seq<Brick>): seq<Body> {
    [board, ball, lava] + LiveBodies(bricks)
  }

  /** The bodies of the live bricks of `s`, in order. */
  function LiveBodies(s: seq<Brick>): seq<Body> {
    if s == [] then []
    else LiveBodies(s[..|s| - 1]) + (if s[|s| - 1].isAlive then [s[|s| - 1].body] else [])
  }

  /** The colour of cell (row, col) after clearing to 0 and painting `list` in order. */
  function ColorAt(list: seq<Body>, row: int, col: int): nat {
    if list == [] then 0
    else if Covers(list[|list| - 1], row, col) then list[|list| - 1].color
    else ColorAt(list[..|list| - 1], row, col)
  }

  /** Painting one more body changes exactly the cells it covers. */
  lemma PaintOneMore(list: seq<Body>, b: Body, row: int, col: int)
    ensures ColorAt(list + [b], row, col) == if Covers(b, row, col) then b.color else ColorAt(list, row, col)
  {
    assert (list + [b])[..|list|] == list;
  }

  /** The painter's rule: a cell has the colour of the last body that covers it. */
  lemma {:induction false} LastCoverWins(list: seq<Body>, row: int, col: int, k: int)
    requires 0 <= k < |list| && Covers(list[k], row, col)
    requires forall m :: k < m < |list| ==> !Covers(list[m], row, col)
    ensures ColorAt(list, row, col) == list[k].color
  {
    if k < |list| - 1 {
      var prefix := list[..|list| - 1];
      assert forall m :: k < m < |prefix| ==> prefix[m] == list[m];
      LastCoverWins(prefix, row, col, k);
    }
  }

  /** A cell that no body covers keeps the cleared colour 0. */
  lemma {:induction false} UncoveredIsClear(list: seq<Body>, row: int, col: int)
    requires forall m :: 0 <= m < |list| ==> !Covers(list[m], row, col)
    ensures ColorAt(list, row, col) == 0
  {
    if list != [] {
      var prefix := list[..|list| - 1];
      assert forall m :: 0 <= m < |prefix| ==> prefix[m] == list[m];
      UncoveredIsClear(prefix, row, col);
    }
  }

  /** `draw_game_object`: fill the rectangle of `b` with its colour, row by
      row; every other cell keeps its value. */
  method DrawGameObject(buffer: array2<nat>, b: Body)
    requires FitsIn(b, buffer.Length1, buffer.Length0)
    modifies buffer
    ensures forall row, col :: 0 <= row < buffer.Length0 && 0 <= col < buffer.Length1 ==>
              buffer[row, col] == if Covers(b, row, col) then b.color else old(buffer[row, col])
  {
    var beginX := Trunc(b.x);
    var endX := beginX + b.w;
    var beginY := Trunc(b.y);
    var endY := beginY + b.h;
    var y := beginY;
    while y < endY
      invariant beginY <= y && (y <= endY || y == beginY)
      invariant forall row, col :: 0 <= row < buffer.Length0 && 0 <= col < buffer.Length1 ==>
                  buffer[row, col] == if beginY <= row < y && beginX <= col < endX then b.color else old(buffer[row, col])
    {
      var x := beginX;
      while x < endX
        invariant beginX <= x && (x <= endX || x == beginX)
        invariant forall row, col :: 0 <= row < buffer.Length0 && 0 <= col < buffer.Length1 ==>
                    buffer[row, col] == if (beginY <= row < y && beginX <= col < endX) || (row == y && beginX <= col < x)
                                        then b.color else old(buffer[row, col])
      {
        buffer[y, x] := b.color;
        x := x + 1;
      }
      y := y + 1;
    }
  }

  /** One call of `draw_game_object` within `draw`: a buffer showing the
      bodies `painted` so far then shows them followed by `b`. */
  method Paint(buffer: array2<nat>, b: Body, ghost painted: seq<Body>)
    requires FitsIn(b, buffer.Length1, buffer.Length0)
    requires forall row, col :: 0 <= row < buffer.Length0 && 0 <= col < buffer.Length1 ==>
               buffer[row, col] == ColorAt(painted, row, col)
    modifies buffer
    ensures forall row, col :: 0 <= row < buffer.Length0 && 0 <= col < buffer.Length1 ==>
              buffer[row, col] == ColorAt(painted + [b], row, col)
  {
    DrawGameObject(buffer, b);
    forall row, col | 0 <= row < buffer.Length0 && 0 <= col < buffer.Length1
      ensures buffer[row, col] == ColorAt(painted + [b], row, col)
    {
      PaintOneMore(painted, b, row, col);
    }
  }

  /** `draw`: clear the buffer, then paint the paddle, the ball, the lava and
      every live brick in index order. */
  method Draw(world: World, buffer: array2<nat>)
    requires buffer.Length0 == world.height && buffer.Length1 == world.width
    requires FitsIn(world.board, world.width, world.height)
    requires FitsIn(world.ball, world.width, world.height)
    requires FitsIn(world.lava, world.width, world.height)
    requires forall k :: 0 <= k < world.bricks.Length && world.bricks[k].isAlive ==>
               FitsIn(world.bricks[k].body, world.width, world.height)
    modifies buffer
    ensures forall row, col :: 0 <= row < buffer.Length0 && 0 <= col < buffer.Length1 ==>
              buffer[row, col] == ColorAt(PaintOrder(world.board, world.ball, world.lava, world.bricks[..]), row, col)
  {
    forall row, col | 0 <= row < buffer.Length0 && 0 <= col < buffer.Length1 {
      buffer[row, col] := 0;
    }
    ghost var painted: seq<Body> := [];
    Paint(buffer, world.board, painted);
    painted := painted + [world.board];
    Paint(buffer, world.ball, painted);
    painted := painted + [world.ball];
    Paint(buffer, world.lava, painted);
    painted := painted + [world.lava];
    assert painted == [world.board, world.ball, world.lava];
    for i := 0 to world.bricks.Length
      invariant painted == PaintOrder(world.board, world.ball, world.lava, world.bricks[..i])
      invariant forall row, col :: 0 <= row < buffer.Length0 && 0 <= col < buffer.Length1 ==>
                  buffer[row, col] == ColorAt(painted, row, col)
    {
      assert world.bricks[..i + 1][..i] == world.bricks[..i];
      var brick := world.bricks[i];
      if brick.isAlive {
        Paint(buffer, brick.body, painted);
        painted := painted + [brick.body];
      }
    }
    assert world.bricks[..world.bricks.Length] == world.bricks[..];
  }
}

/** The game session: the paddle, the ball, the lava and the brick array,
    the grid construction at start-up and the per-frame step. */
module Session {
  import opened Geometry
  import opened Entities

  /** The brick after one pass of the collision loop: a live brick the ball
      collides with is dead, every other brick is as it was. */
  function HitBrick(ball: Body, br: Brick): (r: Brick)
    ensures r.body == br.body
    ensures !br.isAlive ==> !r.isAlive
    ensures br.isAlive ==> (!r.isAlive <==> CheckCollide(ball, br.body) != NotCollide)
  {
    if br.isAlive && CheckCollide(ball, br.body) != NotCollide then br.(isAlive := false) else br
  }

  /** The number of live bricks in `s` whose collision with the ball is classified as `kind`. */
  function Hits(ball: Body, s: seq<Brick>, kind: CollideType): (n: nat)
    ensures kind != NotCollide ==> n <= Kills(ball, s)
  {
    if s == [] then 0
    else
      var last := s[|s| - 1];
      Hits(ball, s[..|s| - 1], kind) + (if last.isAlive && CheckCollide(ball, last.body) == kind then 1 else 0)
  }

  /** The number of bricks in `s` that the collision loop kills. */
  function Kills(ball: Body, s: seq<Brick>): nat
  {
    if s == [] then 0
    else
      var last := s[|s| - 1];
      Kills(ball, s[..|s| - 1]) + (if last.isAlive && !HitBrick(ball, last).isAlive then 1 else 0)
  }

  /** `v` negated `n` times. */
  function Flip(v: int, n: nat): (r: int)
    ensures r == v || r == -v
    ensures n % 2 == 0 ==> r == v
  {
    if n % 2 == 0 then v else -v
  }

  /** The ball after the collision loop over `s`: its horizontal velocity is
      negated once per VERTICAL hit and its vertical velocity once per
      HORIZONTAL hit; its position does not change. */
  function AfterBricks(ball: Body, s: seq<Brick>): Body {
    ball.(vx := Flip(ball.vx, Hits(ball, s, Vertical)), vy := Flip(ball.vy, Hits(ball, s, Horizontal)))
  }

  /** Every kill is a HORIZONTAL or a VERTICAL hit. */
  lemma {:induction false} HitsMakeKills(ball: Body, s: seq<Brick>)
    ensures Hits(ball, s, Horizontal) + Hits(ball, s, Vertical) == Kills(ball, s)
  {
    if s != [] {
      HitsMakeKills(ball, s[..|s| - 1]);
    }
  }

  /** With sizes that are not negative no brick is ever hit VERTICAL. */
  lemma {:induction false} NoVerticalHits(ball: Body, s: seq<Brick>)
    requires ball.w >= 0
    requires forall k :: 0 <= k < |s| ==> s[k].body.w >= 0
    ensures Hits(ball, s, Vertical) == 0
  {
    if s != [] {
      NoVerticalHits(ball, s[..|s| - 1]);
    }
  }

  /** With sizes that are not negative the collision loop never touches the
      horizontal velocity, and it ends with the vertical velocity negated
      exactly when it killed an odd number of bricks. */
  lemma BricksFlipVerticalPerKill(ball: Body, s: seq<Brick>)
    requires ball.w >= 0
    requires forall k :: 0 <= k < |s| ==> s[k].body.w >= 0
    ensures AfterBricks(ball, s).vx == ball.vx
    ensures AfterBricks(ball, s).vy == Flip(ball.vy, Kills(ball, s))
    ensures AfterBricks(ball, s) == ball.(vy := AfterBricks(ball, s).vy)
  {
    NoVerticalHits(ball, s);
    HitsMakeKills(ball, s);
  }

  /** The ball after the paddle test: touching the paddle sets its vertical
      velocity to -1, and nothing else changes. */
  function PaddleBounce(ball: Body, board: Body): (r: Body)
    ensures r == ball.(vy := r.vy)
    ensures CheckCollide(ball, board) != NotCollide ==> r.vy == -1
    ensures CheckCollide(ball, board) == NotCollide ==> r == ball
  {
    if CheckCollide(ball, board) != NotCollide then ball.(vy := -1) else ball
  }

  /** The paddle's horizontal velocity after the input chain: ESC leaves it
      alone, otherwise LEFT wins over RIGHT, and no key stops the paddle. */
  function PaddleVelocity(esc: bool, left: bool, right: bool, vx: int): (r: int)
    ensures esc ==> r == vx
    ensures !esc && left ==> r == -1
    ensures !esc && !left && right ==> r == 1
    ensures !esc && !left && !right ==> r == 0
  {
    if esc then vx else if left then -1 else if right then 1 else 0
  }

  /** The number of bricks in one row of the grid. */
  function BricksPerRow(width: nat): nat {
    width / (BRICK_WIDTH + BRICK_SPACE)
  }

  /** The brick in row i and column j of the initial grid. */
  function PlacedBrick(i: int, j: int): Brick {
    var b := NewBrick();
    b.(body := b.body.(x := ((BRICK_SPACE + BRICK_WIDTH) * j) as real,
                       y := (TOP_SPACE + (BRICK_SPACE + BRICK_HEIGHT) * i) as real))
  }

  /** A grid brick is a live 62 x 20 brick at (64 j, 50 + 22 i). */
  lemma PlacedBrickShape(i: int, j: int)
    ensures PlacedBrick(i, j).isAlive
    ensures PlacedBrick(i, j).body.x == (64 * j) as real && PlacedBrick(i, j).body.y == (50 + 22 * i) as real
    ensures PlacedBrick(i, j).body.w == 62 && PlacedBrick(i, j).body.h == 20
  {
  }

  /** Two different cells of the grid hold bricks that do not collide. */
  lemma PlacedBricksApart(i1: int, j1: int, i2: int, j2: int)
    requires (i1, j1) != (i2, j2)
    ensures CheckCollide(PlacedBrick(i1, j1).body, PlacedBrick(i2, j2).body) == NotCollide
  {
    if j1 != j2 {
      assert j1 < j2 || j2 < j1;
    } else {
      assert i1 < i2 || i2 < i1;
    }
  }

  /** A positive multiple of a positive number is at least that number. */
  lemma MulAtLeast(a: int, n: int)
    requires a >= 1 && n > 0
    ensures a * n >= n
  {
    assert (a - 1) * n >= 0;
  }

  /** Cell (i, j) of a grid with n columns is stored at index i * n + j. */
  lemma GridIndex(i: int, j: int, n: int, rows: int)
    requires 0 <= i < rows && 0 <= j < n
    ensures 0 <= i * n + j < rows * n
    ensures (i * n + j) / n == i && (i * n + j) % n == j
  {
    var k := i * n + j;
    assert 0 <= i * n;
    MulAtLeast(rows - i, n);
    assert rows * n == (rows - i) * n + i * n;
    var q, r := k / n, k % n;
    assert k == q * n + r && 0 <= r < n;
    assert (q - i) * n == j - r;
    if q > i {
      MulAtLeast(q - i, n);
    } else if q < i {
      MulAtLeast(i - q, n);
    }
  }

  /** The session state the game keeps in global variables. `bricks_count`
      is the length of the brick array. */
  class World {
    const width: nat
    const height: nat
    var board: Body
    var ball: Body
    var lava: Body
    var bricks: array<Brick>

    /** The bodies' default construction; the brick array is empty until
        `Initialize` runs. */
    constructor (width: nat, height: nat)
      requires width > 0 && height > 0
      ensures this.width == width && this.height == height
      ensures board == NewBoard() && ball == NewBall() && lava == NewLava(width, height)
      ensures bricks.Length == 0
    {
      this.width := width;
      this.height := height;
      board := NewBoard();
      ball := NewBall();
      lava := NewLava(width, height);
      bricks := new Brick[0];
    }

    /** `initialize`: allocate 4 rows of bricks and place them on the grid. */
    method Initialize()
      modifies this
      ensures fresh(bricks)
      ensures bricks.Length == BRICK_ROWS * BricksPerRow(width)
      ensures forall i, j :: 0 <= i < BRICK_ROWS && 0 <= j < BricksPerRow(width) ==>
                bricks[i * BricksPerRow(width) + j] == PlacedBrick(i, j)
      ensures forall k :: 0 <= k < bricks.Length ==>
                bricks[k] == PlacedBrick(k / BricksPerRow(width), k % BricksPerRow(width))
      ensures board == old(board) && ball == old(ball) && lava == old(lava)
    {
      // BRICK_SPACE, TOP_SPACE and BRICK_ROWS stand for the locals
      // `brick_space`, `top_space` and `brick_rows` of `initialize`.
      var rowLength := width / (BRICK_WIDTH + BRICK_SPACE);
      var brickRows := BRICK_ROWS;
      var count := rowLength * brickRows;
      var a := new Brick[count](_ => NewBrick());
      var i := 0;
      while i < brickRows
        modifies a
        invariant 0 <= i <= brickRows
        invariant forall k :: 0 <= k < i * rowLength ==> a[k] == PlacedBrick(k / rowLength, k % rowLength)
        invariant forall k :: i * rowLength <= k < count ==> a[k] == NewBrick()
      {
        PlaceRow(a, i, rowLength);
        assert (i + 1) * rowLength == i * rowLength + rowLength;
        i := i + 1;
      }
      bricks := a;
      forall i, j | 0 <= i < BRICK_ROWS && 0 <= j < BricksPerRow(width)
        ensures bricks[i * BricksPerRow(width) + j] == PlacedBrick(i, j)
      {
        GridIndex(i, j, rowLength, brickRows);
      }
    }

    /** The inner loop of `initialize`: place the bricks of row i, which
        occupy indices i * n to i * n + n - 1. */
    static method PlaceRow(a: array<Brick>, i: nat, n: nat)
      requires i < BRICK_ROWS && a.Length == n * BRICK_ROWS
      requires forall k :: 0 <= k < i * n ==> a[k] == PlacedBrick(k / n, k % n)
      requires forall k :: i * n <= k < a.Length ==> a[k] == NewBrick()
      modifies a
      ensures forall k :: 0 <= k < i * n + n ==> a[k] == PlacedBrick(k / n, k % n)
      ensures forall k :: i * n + n <= k < a.Length ==> a[k] == NewBrick()
    {
      var j := 0;
      while j < n
        invariant 0 <= j <= n
        invariant forall k :: 0 <= k < i * n + j ==> a[k] == PlacedBrick(k / n, k % n)
        invariant forall k :: i * n + j <= k < a.Length ==> a[k] == NewBrick()
      {
        GridIndex(i, j, n, BRICK_ROWS);
        var k := i * n + j;
        a[k] := a[k].(body := a[k].body.(x := ((BRICK_SPACE + BRICK_WIDTH) * j) as real,
                                         y := (TOP_SPACE + (BRICK_SPACE + BRICK_HEIGHT) * i) as real));
        j := j + 1;
      }
    }

    /** The collision loop of `act` over the bricks: each live brick is killed
        on speculation and revived when the test says NOT_COLLIDE; a HORIZONTAL
        hit negates the ball's vertical velocity, a VERTICAL hit its
        horizontal one. */
    method HitBricks()
      modifies this`ball, bricks
      ensures forall k :: 0 <= k < bricks.Length ==> bricks[k] == HitBrick(old(ball), old(bricks[k]))
      ensures ball == AfterBricks(old(ball), old(bricks[..]))
    {
      ghost var ball0 := ball;
      ghost var s := bricks[..];
      for i := 0 to bricks.Length
        invariant forall k :: 0 <= k < i ==> bricks[k] == HitBrick(ball0, s[k])
        invariant forall k :: i <= k < bricks.Length ==> bricks[k] == s[k]
        invariant ball == AfterBricks(ball0, s[..i])
      {
        assert s[..i + 1][..i] == s[..i];
        if !bricks[i].isAlive {
          continue;
        }
        var collideType := CheckCollide(ball, bricks[i].body);
        bricks[i] := bricks[i].(isAlive := false);
        match collideType
        case Horizontal =>
          ball := ball.(vy := -ball.vy);
        case Vertical =>
          ball := ball.(vx := -ball.vx);
        case NotCollide =>
          bricks[i] := bricks[i].(isAlive := true);
      }
      assert s[..bricks.Length] == s;
    }

    /** `act`: one frame of the game. The key states are inputs and the
        request to quit the game is the result. */
    method Step(esc: bool, left: bool, right: bool) returns (quit: bool)
      modifies this, bricks
      ensures bricks == old(bricks) && lava == old(lava)
      ensures var b := PaddleBounce(CollideBorders(old(ball), width, height), old(board));
              && (forall k :: 0 <= k < bricks.Length ==> bricks[k] == HitBrick(b, old(bricks[k])))
              && ball == PosUpdate(AfterBricks(b, old(bricks[..])), width, height)
      ensures quit <==> CheckCollide(ball, lava) != NotCollide || esc
      ensures board == PosUpdate(old(board).(vx := PaddleVelocity(esc, left, right, old(board).vx)), width, height)
      ensures board.vy == old(board).vy
      ensures old(board).vy == 0 && InField(old(board), width, height) ==> board.y == old(board).y
      ensures old(Moving(ball)) ==> Moving(ball)
      ensures ball.w <= width && ball.h <= height ==> InField(ball, width, height)
      ensures board.w <= width && board.h <= height ==> InField(board, width, height)
    {
      ball := CollideBorders(ball, width, height);
      if CheckCollide(ball, board) != NotCollide {
        ball := ball.(vy := -1);
      }
      HitBricks();
      ball := PosUpdate(ball, width, height);

      quit := false;
      if CheckCollide(ball, lava) != NotCollide {
        quit := true;
      }

      if esc {
        quit := true;
      }
      MovePaddle(esc, left, right);
    }

    /** The end of `act`: the key chain sets the paddle's horizontal velocity,
        then the paddle moves. */
    method MovePaddle(esc: bool, left: bool, right: bool)
      modifies this`board
      ensures board == PosUpdate(old(board).(vx := PaddleVelocity(esc, left, right, old(board).vx)), width, height)
      ensures board.vy == old(board).vy
      ensures old(board).vy == 0 && InField(old(board), width, height) ==> board.y == old(board).y
      ensures board.w <= width && board.h <= height ==> InField(board, width, height)
    {
      if esc {
      } else if left {
        board := board.(vx := -1);
      } else if right {
        board := board.(vx := 1);
      } else {
        board := board.(vx := 0);
      }
      board := PosUpdate(board, width, height);
    }
  }
}

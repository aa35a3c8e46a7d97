# Breakout frame logic in Dafny

This project models the game logic of a small breakout game, all of which is
in `Game.cpp`. A paddle (the "board") deflects a ball. The ball destroys a grid
of bricks, and touching the lava strip along the bottom of the screen ends the
game. The model covers:

- the collision classification between two rectangles (`check_collide`);
- the clamped position update (`pos_update`);
- the ball's reflection off the screen borders (`collide_borders`);
- the default values the four object constructors set;
- the brick grid built by `initialize`;
- the frame step `act`;
- the render pass (`draw_game_object`, `draw`).

Modules, leaves first:

- `Geometry` (geometry.dfy): the `Body` record and the functions on one or two bodies.
- `Entities` (entities.dfy): `Brick` and the constructor defaults.
- `Session` (session.dfy): the `World` class, which holds the paddle, the ball,
  the lava and the `bricks` array, plus the specification of the brick loop.
- `Render` (render.dfy): painting into a frame buffer.

Modelling choices:

- **Bodies are values.** A game object is a plain C++ struct, held by value in
  a global and copied freely (`Brick brick = bricks[i]`). So `Body` and `Brick`
  are datatypes.
- **In-place member functions become functions.** `pos_update` and
  `collide_borders` update `*this` in place. They are modelled as functions
  from the old body to the new one. `World.Step` assigns the result back to
  its field (`ball := CollideBorders(ball, width, height)`). Nothing else
  refers to these structs, so this is the same update.
- **Globals become a class.** The globals `play_board`, `ball`, `lava` and
  `bricks` become the fields of the class `World`. `bricks_count` is the length
  of the `bricks` array.
- **Loops stay loops.** The loops in `initialize`, the brick loop of `act`,
  and the loops of `draw_game_object` and `draw` are methods with `while`/`for`
  loops. Each is proved against a specification function.
- **Screen size is a parameter.** `SCREEN_WIDTH` and `SCREEN_HEIGHT` come from
  a header that is not part of this model. They become the positive constants
  `World.width` and `World.height`.
- **Host calls become inputs and outputs.** The three key queries of `act` are
  the boolean inputs of `Step`. `schedule_quit_game()` becomes `Step`'s `quit`
  result. The frame buffer is an `array2<nat>` indexed `[row, column]`.

What is proved:

- **VERTICAL is unreachable.** The VERTICAL branch of `check_collide` asks the
  ball to be left of the other body and right of it at the same time. It can
  only fire when the two widths sum to less than zero. The model keeps the
  branch as written and proves it dead for real bodies. So the ball only ever
  bounces off bricks vertically, and the brick loop never changes the ball's
  horizontal velocity.
- **HORIZONTAL means overlap.** For bodies of positive size, HORIZONTAL is
  reported exactly when the two rectangles share an interior point
  (`HorizontalIffOverlap`).
- **The ball keeps moving.** A ball moving with unit speed on both axes still
  does so after a step.
- **The paddle's vertical velocity never changes.** A step never changes it.
  So a paddle that starts in the field with zero vertical velocity, as the
  default paddle does, keeps its height (`World.MovePaddle`).

Two behaviours of the code are easy to misread, and the model follows the code
in both:

- On a paddle hit, `act` sets the ball's vertical velocity to -1
  (Game.cpp:158). It does not reflect it, and it does not set +1.
- If the ball touches the lava while ESC is held, `act` calls
  `schedule_quit_game()` twice. The model returns one `quit` flag that is true
  in either case.

## Model

| member | source | states |
|---|---|---|
| `Geometry.CheckCollide` | Game.cpp:29-41 | The test is kept branch for branch. A VERTICAL result implies the two widths sum to less than zero, so VERTICAL never happens when both widths are non-negative. |
| `Geometry.HorizontalIffOverlap` | Game.cpp:29-41 | For bodies of positive size: HORIZONTAL exactly when the rectangles share an interior point; NOT_COLLIDE exactly when they do not. Both directions are proved. |
| `Geometry.HorizontalIsSymmetric` | Game.cpp:31-33 | Swapping the two bodies does not change whether the test says HORIZONTAL. |
| `Geometry.Clamp` | Game.cpp:44-45 | `max(min(v, hi), 0)` lies in [0, hi] when hi >= 0 and is 0 when hi < 0. It returns v unchanged when v is in range, and otherwise one of the two bounds. |
| `Geometry.PosUpdate` | Game.cpp:43-46 | Per axis, the new coordinate is in [0, dim - size] when size <= dim, and is 0 when size > dim. An in-range target `pos + v * speed` is reached exactly. With zero velocity an in-field body is unchanged. Only the position changes. |
| `Geometry.ReflectAxis` | Game.cpp:74-81 | One axis of the border reflection. The velocity is negated at most once. Strictly between the edges nothing changes. At or beyond the far edge the coordinate snaps to dim - size and the velocity turns. Otherwise, at or below 0, it snaps to 0 and the velocity turns. Afterwards the coordinate is in [0, dim - size] when size <= dim. |
| `Geometry.CollideBorders` | Game.cpp:72-92 | The two axes are reflected independently, each as `ReflectAxis` says. Size, speed and colour are unchanged. A body that fits the screen ends inside the field. |
| `Entities.NewBoard` | Game.cpp:52-58 | The paddle starts at (512, 600), 120 x 10, at rest, with speed 0.5 and colour 0x0000FF. It lies inside a field exactly when the field is at least 632 wide and 610 high. |
| `Entities.NewBall` | Game.cpp:64-70 | The ball starts at (545, 510), 10 x 10, with velocity (1, -1), speed 0.3 and colour 0xFFFF00, so it moves at unit speed on both axes. |
| `Entities.NewBrick` | Game.cpp:98-105 | A default brick is alive, sits at (20, 20), is 62 x 20, is at rest with speed 0, and has colour 0x00FF00. |
| `Entities.NewLava` | Game.cpp:109-115 | The lava sits at (0, height - 30), spans the full width, is 30 high, is at rest with speed 0, and has colour 0xFF0000. Its bottom edge is the bottom of the screen, and it lies inside any field at least 30 high. |
| `Entities.LavaTouchIffBelowLine` | Game.cpp:108-116 | A ball of positive size inside the field touches the lava exactly when its bottom edge is below the top of the strip at height - 30. |
| `Session.HitBrick` | Game.cpp:159-176 | A brick's position and size never change. A brick that starts dead stays dead. A live brick ends dead exactly when the ball's collision test with it is not NOT_COLLIDE. |
| `Session.Hits` | Game.cpp:159-175 | The number of live bricks the collision loop classifies as a given hit kind. For a hit kind, it is at most the number of bricks killed. |
| `Session.HitsMakeKills` | Game.cpp:162-175 | Every kill is a HORIZONTAL hit or a VERTICAL hit: the two counts sum to the kills. |
| `Session.NoVerticalHits` | Game.cpp:169-171 | With non-negative widths, no brick is hit VERTICAL. |
| `Session.BricksFlipVerticalPerKill` | Game.cpp:159-176 | With non-negative widths, the brick loop never changes the ball's horizontal velocity. Its vertical velocity ends negated exactly when an odd number of bricks were killed. Nothing else about the ball changes. |
| `Session.PaddleBounce` | Game.cpp:156-158 | A ball touching the paddle gets vertical velocity -1. Otherwise it is unchanged. Nothing else changes in either case. |
| `Session.PaddleVelocity` | Game.cpp:183-190 | The input priority chain. ESC leaves the paddle's horizontal velocity unchanged. Otherwise LEFT gives -1, RIGHT without LEFT gives 1, and no key gives 0. |
| `Session.PlacedBrickShape` | Game.cpp:98-105 | Grid cell (i, j) holds a live 62 x 20 brick at (64 j, 50 + 22 i). |
| `Session.PlacedBricksApart` | Game.cpp:145-149 | Bricks in two different grid cells never collide with each other. |
| `Session.GridIndex` | Game.cpp:145-147 | Cell (i, j) of a grid with n columns and `rows` rows is stored at index i * n + j. That index is inside the array, and dividing it by n (quotient and remainder) gives back (i, j). |
| `Session.World.constructor` | Game.cpp:50-122 | The session starts with the default paddle, ball and lava of the four constructors, and no bricks. |
| `Session.World.Initialize` | Game.cpp:138-151 | There are 4 * (width / 64) bricks, in a freshly allocated array. The brick at index i * cols + j is `PlacedBrick(i, j)`. Equivalently, brick k is `PlacedBrick(k / cols, k % cols)`. The other bodies are unchanged. |
| `Session.World.PlaceRow` | Game.cpp:146-149 | The inner loop of `initialize`. It places row i, at indices i * n to i * n + n - 1, and leaves later indices at the constructor default. |
| `Session.World.HitBricks` | Game.cpp:159-176 | The speculative kill-and-revive loop. Each brick ends as `HitBrick` says, for the ball as it was before the loop. The ball becomes `AfterBricks`: its horizontal velocity is negated once per VERTICAL hit and its vertical velocity once per HORIZONTAL hit. Its position is unchanged. |
| `Session.World.Step` | Game.cpp:153-192 | One frame, in the source's order: border reflection, paddle bounce, brick loop, ball move. `quit` is true exactly when the moved ball touches the lava or ESC is held. The paddle's velocity is set by the input chain before it moves, and its vertical velocity is never changed. A paddle that starts in the field with zero vertical velocity keeps its height. The lava and the brick array are the same. A ball moving at unit speed keeps moving. The ball and the paddle end inside the field when they fit the screen. |
| `Session.World.MovePaddle` | Game.cpp:183-191 | The end of `act`: the paddle's new state is `PosUpdate` of the old paddle with the horizontal velocity the key chain gives. Its vertical velocity is unchanged. If it started in the field with zero vertical velocity, its height is unchanged. It ends inside the field when it fits the screen. |
| `Render.Trunc` | Game.cpp:126-129 | `static_cast<int>` truncates toward zero: for a non-negative r the result is the integer part, and for a negative r the result is the ceiling. |
| `Render.InFieldFits` | Game.cpp:125-135 | A body inside the playfield paints only cells inside the buffer. |
| `Render.PlacedBrickFits` | Game.cpp:141-148 | Every initial grid brick paints only cells inside a buffer at least 136 pixels high. |
| `Render.PaintOneMore` | Game.cpp:130-134 | Painting one more body changes exactly the cells it covers, to its colour. |
| `Render.LastCoverWins` | Game.cpp:198-204 | In a painted scene, a cell has the colour of the last body in paint order that covers it. |
| `Render.UncoveredIsClear` | Game.cpp:197 | A cell that no body covers keeps the cleared value 0. |
| `Render.DrawGameObject` | Game.cpp:125-135 | Exactly the cells [y][x] with trunc(y) <= row < trunc(y) + h and trunc(x) <= col < trunc(x) + w get the body's colour. Every other cell keeps its value. This requires the rectangle to lie inside the buffer. |
| `Render.Paint` | Game.cpp:198-204 | One paint call inside `draw`: a buffer that showed the bodies painted so far then shows them followed by one more body. |
| `Render.Draw` | Game.cpp:194-207 | After clearing, every cell has the colour `ColorAt` gives for the paint order: paddle, ball, lava, then the live bricks by index. |

## Left out

- The host engine's functions are not part of this model: `is_key_pressed`,
  `schedule_quit_game`, `clear_buffer`, the window and cursor queries, and the
  buffer's allocation. Key states are inputs of `Step`, the quit request is its
  result, and the buffer is a parameter of `Draw`.
- IEEE float rounding is not modelled. Positions and speeds are exact reals, so
  `pos + velocity * speed` and the clamp are exact.
- The two velocity fields are 16-bit `short` in the source; the model uses
  unbounded integers, so a wrap-around on negation is not modelled. It cannot
  happen with the velocities the game uses, which stay in {-1, 0, 1}.
- The `dt` argument of `act` is unused by the source and is dropped.
- Colours are opaque values: `uint32_t` becomes `nat`.
- `finalize` (`delete[] bricks`) has no logical content. Allocation failure in
  `initialize` is not modelled.
- The `memset` byte-level clear is modelled as setting every cell to 0.
- `draw_game_object` does no bounds checking. `Draw` and `DrawGameObject`
  require every painted rectangle to lie inside the buffer. `InFieldFits` and
  `PlacedBrickFits` give that for the clamped ball and paddle and for the
  initial grid.
- Geometry.HorizontalIffOverlap: stated for bodies of positive size only. A
  zero-width or zero-height body has no interior point, yet the span test can
  still report HORIZONTAL for it.

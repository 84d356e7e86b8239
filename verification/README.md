# Snake game: a verified model of the game state

This project models the game logic of a browser snake game (`index.js`). A
snake moves on a 400 x 400 pixel canvas made of 20-pixel cells. It grows
when it eats fruit. It dies when its head leaves the canvas or lands on one
of its own cells. The model covers these pieces of the game:

- the game state, as the class `SnakeGame.Game`: the snake's cells (head
  first), one on-screen position per segment, the committed and pending
  headings, the score, the tick interval (`gameSpeed`), the food, the pause
  flag and an `ended` flag;
- the keydown handler (`Game.KeyDown`), which makes a heading pending
  unless it reverses the committed heading;
- the pause button (`Game.TogglePause`);
- the tick (`update`, as `Game.Tick`), which commits the pending heading,
  moves the head one box, ends the game on a wall or self collision, and
  otherwise either eats the food or drops the tail;
- the collision scan (`Grid.Collision`), a loop specified by `Grid.Hits`;
- food placement (`Fruit.RandomFruit`). Its two random draws are
  parameters.

`Game.Valid()` is the invariant that the constructor sets up and that
every event keeps. It says:

- the snake's cells are pairwise distinct grid cells of the board;
- the snake has one more cell than the score has points;
- there are as many on-screen positions as cells;
- the pending heading is never the reverse of the committed one;
- while the game runs, the head lies one step in the committed heading
  from the cell behind it (so a reversal would run into that cell);
- the interval is `SpeedFor(score)`, which lies in {200, 185, ..., 50};
- the food is on a grid cell.

The module `Scenarios` holds small client games. They are proved from the
contracts alone. They cover a first-tick meal, an ignored reversal, a run
into the right wall, a snake chasing its own tail, food placed under the
snake, the speed-up at five points, and a paused tick.

Points of the code the model keeps as they are:

- The keydown handler rejects a reversing key press at any snake length,
  including a one-cell snake. It never looks at the length.
- `update` checks only `isPaused`; it has no game-over check of its own.
  After a game over it is never called again, because the timer is
  cleared. The model writes this as `requires !ended` on `Tick`: once the
  game has ended, no further tick arrives.
- The speed-up test `score % 5 === 0` runs right after the score is
  incremented, so the score is always positive at that point.
- The tail counts as an obstacle in the end-of-game test although a move
  without food vacates it, and new food may land on the snake.

## Model

| member | source | states |
|---|---|---|
| `Grid.Opposite` | index.js:148-151 | the reverse of a heading is a different heading on the same axis (UP/DOWN, LEFT/RIGHT) |
| `Grid.Step` | index.js:166-171 | the new head is exactly one box (20) from the old head: along x for LEFT/RIGHT, along y for UP/DOWN, in the named sense |
| `Grid.StepThenOpposite` | index.js:166-171 | a step followed by a step in the reverse heading returns to the start cell |
| `Grid.StepKeepsAlignment` | index.js:166-176 | from a grid cell, a step that passes the wall test `InBoard` of index.js:175-176 (both coordinates in [0, 400)) lands on a grid cell, so the wall test is the only check needed |
| `Grid.HitsIsMembership` | index.js:154-159 | matching both x and y against some element is the same as membership in the body |
| `Grid.Collision` | index.js:154-159 | the scan answers true exactly when some element matches the head on x and y, that is, when the head is in the body |
| `Fruit.RandomFruit` | index.js:51-62 | new food lies on a grid cell of the board, in column `col` and row `row` |
| `Fruit.RandomFruitCoversBoard` | index.js:52-53 | every grid cell of the board can receive the food for some pair of draws |
| `Input.ArrowKey` | index.js:147-152 | exactly the four arrow keys name a heading; every other key is ignored |
| `Input.KeyName` | index.js:148-151 | each heading has an arrow key that names it (the inverse of `ArrowKey`) |
| `Input.Requested` | index.js:147-152 | the handler's chain of tests takes the named heading exactly when it is not the reverse of the committed heading; otherwise the pending heading stays |
| `Input.CoalesceNeverReverses` | index.js:147-152 | any run of key presses between two ticks never makes the pending heading the reverse of the committed one |
| `Input.CoalesceNoneHonoured` | index.js:147-152 | when no press between two ticks is honoured, the pending heading is unchanged |
| `Input.CoalesceLastWins` | index.js:147-152 | presses between ticks are not queued: if press i is honoured and no later one is, the pending heading is the heading press i names |
| `Capacity.BoardCapacity` | index.js:8-11 | a body of distinct grid cells has at most 20 x 20 = 400 cells |
| `SnakeGame.PixelAt` | index.js:187 | a new segment's on-screen position is exactly its cell: whole-numbered coordinates whose values are the cell's x and y |
| `SnakeGame.GameOver` | index.js:174-177 | the end-of-game test holds exactly when the new head has x or y outside [0, 400) or is a cell of the current body, tail included |
| `SnakeGame.Eats` | index.js:190 | the food test holds exactly when the head is the food's cell (`gx`, `gy`) |
| `SnakeGame.Advance` | index.js:186-203 | unshift then pop (or unshift only): the new element first, then the old body without its tail when not growing; the length grows by 1 exactly when growing |
| `SnakeGame.SpeedAfterMeal` | index.js:196-197 | the interval drops by 15 exactly when the new score is a multiple of 5 and the interval is above 50, and is unchanged otherwise |
| `SnakeGame.SpeedFor` | index.js:191-197 | the interval for a score, starting from 200 (index.js:18): between 50 and 200, 200 minus a multiple of 15, and 200 below five points |
| `SnakeGame.SpeedRamp` | index.js:191-197 | applying the speed-up rule at each meal from 200 gives `SpeedFor(score)`, so the interval stays in {200, 185, ..., 50} |
| `SnakeGame.AdvanceKeepsShape` | index.js:174-186 | adding an on-board head that is not in the body, with or without popping the tail, keeps the cells distinct and on the grid |
| `SnakeGame.TailCellEndsGame` | index.js:174-178 | stepping onto the current tail ends the game, although a move without food would have vacated that cell |
| `SnakeGame.ReversalWouldHitNeck` | index.js:148-151 | in a running game with a neck, a step against the committed heading lands on the neck and ends the game, which is what the handler's reversal test prevents |
| `SnakeGame.ScoreBound` | index.js:190-191 | in any valid state the score is below 400, because the snake has score + 1 distinct cells on a 400-cell board |
| `SnakeGame.Game.constructor` | index.js:13-20 | initial state: snake at (160,160), heading RIGHT for both committed and pending, score 0, interval 200, not paused, food from `randomFruit` (line 49); the invariant holds |
| `SnakeGame.Game.KeyDown` | index.js:147-152 | only the pending heading changes; it becomes `Requested(...)` and is never the reverse of the committed heading; the invariant is kept |
| `SnakeGame.Game.MoveHead` | index.js:185-204 | for a free on-grid head one step ahead: the head is added; on food the score rises by 1, the food is redrawn, the interval follows `SpeedAfterMeal` and the snake grows by one; otherwise the tail is dropped; the invariant is established |
| `SnakeGame.Game.TogglePause` | index.js:222-225 | only the pause flag changes, and it flips |
| `SnakeGame.Game.Tick` | index.js:162-205 | paused: nothing changes. Otherwise the pending heading is committed and the head moves one box. The game ends exactly when `GameOver` holds (head off the canvas or on a current cell, tail included); snake, positions, score, food and interval then stay as they were. Otherwise, with `Eats` as the food test, the score rises by 1 and the food is replaced exactly when the head is on the food, the snake and positions grow by one on a meal and keep their length otherwise, and the interval follows `SpeedAfterMeal`. The invariant is kept |

## Left out

- Drawing (`draw`, index.js:65-144): canvas calls, shadows, the squish and
  pulse animation with `Math.sin`, the eyes, the fruit picture and the
  score text. This is rendering through a foreign API.
- Smoothing of on-screen positions (`gameLoop`, index.js:207-219). This is
  floating-point animation. `snakePixelPos` is kept so that its length and
  the position of each new segment can be stated. The 0.2-per-frame slide
  toward the logical cell is not modelled.
- Timers: `setInterval`, `clearInterval`, `requestAnimationFrame` and the
  rescheduling after a speed-up (index.js:179, 198-199, 218, 232).
  `gameSpeed` is the interval the timer runs at. `ended` records that the
  timer was cleared.
- Audio playback and its swallowed errors (index.js:5-6, 180, 192), and the
  game-over `alert` (index.js:181). These are side effects with no bearing
  on the state.
- Restart (`location.reload`, index.js:227-229). It is a fresh `Game`
  constructed anew.
- Randomness: each `Math.floor(Math.random() * 20)` is a parameter in
  [0, 20). The fruit kind and its image (index.js:27-47, 54, 60) are left
  out. So are the copies `x`, `y` of the food coordinates (index.js:58-59),
  which only drawing could use.
- Food is not kept off the snake, as in the code. No contract claims that
  it is.
- JavaScript numbers are doubles. All values here are small integers, so
  they are modelled as unbounded integers with no loss.

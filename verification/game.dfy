/**
 * The game state and its three writers: the keyboard handler, the pause
 * button and the tick that the interval timer fires every `gameSpeed`
 * milliseconds.  The timer itself is not modelled: `gameSpeed` is the
 * interval it runs at, and `ended` records that the game has stopped it.
 */
module SnakeGame {
  import opened Grid
  import opened Fruit
  import opened Input
  import Capacity

  /** Interval between ticks at the start, in milliseconds. */
  const START_SPEED: int := 200

  /** The interval is shortened only while it is above this floor. */
  const SPEED_FLOOR: int := 50

  /** How much one speed-up shortens the interval. */
  const SPEED_STEP: int := 15

  /** Every this many points the game speeds up. */
  const POINTS_PER_SPEEDUP: int := 5

  /** Where the one-cell snake starts: column 8, row 8. */
  const START_CELL: Cell := Cell(8 * BOX, 8 * BOX)

  /** The on-screen position of a segment, drawn between cells while it
      slides towards its logical cell. */
  datatype Pixel = Pixel(x: real, y: real)

  /** The on-screen position exactly at a cell: whole-numbered coordinates
      equal to the cell's. */
  function PixelAt(c: Cell): (p: Pixel)
    ensures p.x.Floor == c.x && p.y.Floor == c.y
    ensures p.x == p.x.Floor as real && p.y == p.y.Floor as real
  {
    Pixel(c.x as real, c.y as real)
  }

  /** `unshift(x)` and then, unless the snake grows, `pop()`: the new element
      comes first and what follows it is the old sequence, without its last
      element when the snake does not grow. */
  function Advance<T>(s: seq<T>, x: T, grow: bool): (r: seq<T>)
    ensures |r| == if grow then |s| + 1 else |s|
    ensures grow ==> r == [x] + s
    ensures !grow && s != [] ==> r == [x] + s[..|s| - 1]
  {
    var t := [x] + s;
    if grow then t else t[..|t| - 1]
  }

  /** The end-of-game test of a tick: the new head is off the canvas, or it
      meets a cell of the body as it is before the move, tail included. */
  predicate GameOver(head: Cell, body: seq<Cell>)
    ensures GameOver(head, body) <==>
      head.x < 0 || head.x >= CANVAS_SIZE || head.y < 0 || head.y >= CANVAS_SIZE || head in body
  {
    HitsIsMembership(head, body);
    !InBoard(head) || Hits(head, body)
  }

  /** The food test of a tick: the head is where the food is. */
  predicate Eats(head: Cell, food: Food)
    ensures Eats(head, food) <==> head == FoodCell(food)
  {
    head.x == food.gx && head.y == food.gy
  }

  /** The interval after a meal that brought the score to `newScore`. */
  function SpeedAfterMeal(speed: int, newScore: int): (r: int)
    ensures r == speed || r == speed - SPEED_STEP
    ensures r < speed <==> newScore % POINTS_PER_SPEEDUP == 0 && speed > SPEED_FLOOR
  {
    if newScore % POINTS_PER_SPEEDUP == 0 && speed > SPEED_FLOOR then speed - SPEED_STEP else speed
  }

  /** The interval the game runs at once the score is `score`: one step
      faster for every five points, never below the floor. */
  function SpeedFor(score: nat): (r: int)
    ensures SPEED_FLOOR <= r <= START_SPEED
    ensures (START_SPEED - r) % SPEED_STEP == 0
    ensures score < POINTS_PER_SPEEDUP ==> r == START_SPEED
  {
    var steps := score / POINTS_PER_SPEEDUP;
    if START_SPEED - SPEED_STEP * steps <= SPEED_FLOOR then SPEED_FLOOR
    else START_SPEED - SPEED_STEP * steps
  }

  /** A meal keeps the interval equal to the one the score calls for: the
      speed-up rule of a tick, applied from the start, yields `SpeedFor`. */
  lemma SpeedRamp(score: nat)
    ensures SpeedAfterMeal(SpeedFor(score), score + 1) == SpeedFor(score + 1)
  {
  }

  /** Putting a fresh grid cell that the body does not contain in front of a
      well-formed body, and dropping the tail or not, keeps it well formed. */
  lemma AdvanceKeepsShape(body: seq<Cell>, head: Cell, grow: bool)
    requires WellFormed(body)
    requires OnGrid(head) && !Hits(head, body)
    ensures WellFormed(Advance(body, head, grow))
  {
  }

  /** The end-of-game test treats the tail as an obstacle although a move
      without food vacates it: a head that steps onto the tail ends the
      game, yet no cell of the body it would have produced besides the head
      is there. */
  lemma TailCellEndsGame(body: seq<Cell>)
    requires WellFormed(body) && |body| >= 1
    ensures GameOver(body[|body| - 1], body)
    ensures body[|body| - 1] !in Advance(body, body[|body| - 1], false)[1..]
  {
  }

  class Game {
    /** The cells of the snake, head first. */
    var snake: seq<Cell>
    /** One on-screen position per segment, kept in step with `snake`. */
    var snakePixelPos: seq<Pixel>
    /** The heading of the last tick. */
    var direction: Direction
    /** The heading the next tick will take. */
    var nextDirection: Direction
    var score: nat
    /** The interval of the tick timer, in milliseconds. */
    var gameSpeed: int
    var food: Food
    var isPaused: bool
    /** The tick timer has been stopped because the game is over. */
    var ended: bool

    /** What holds between events: the snake is a well-formed body with one
        more cell than points scored, the segments and their on-screen
        positions are as many, the pending heading never reverses the
        committed one, while the game runs the head lies one step in the
        committed heading from the cell behind it, the interval is the one the score calls for, and the
        food is on a grid cell. */
    ghost predicate Valid()
      reads this
    {
      && |snake| == score + 1
      && |snakePixelPos| == |snake|
      && WellFormed(snake)
      && nextDirection != Opposite(direction)
      && (!ended && |snake| >= 2 ==> snake[0] == Step(snake[1], direction))
      && gameSpeed == SpeedFor(score)
      && OnGrid(FoodCell(food))
    }

    /** The state when the page loads, with the food placed by the draws
        `col` and `row`. */
    constructor (col: int, row: int)
      requires IsDraw(col) && IsDraw(row)
      ensures Valid()
      ensures snake == [START_CELL] && snakePixelPos == [PixelAt(START_CELL)]
      ensures direction == Right && nextDirection == Right
      ensures score == 0 && gameSpeed == START_SPEED
      ensures food == RandomFruit(col, row)
      ensures !isPaused && !ended
    {
      snake := [START_CELL];
      snakePixelPos := [PixelAt(START_CELL)];
      direction := Right;
      nextDirection := Right;
      score := 0;
      gameSpeed := START_SPEED;
      food := RandomFruit(col, row);
      isPaused := false;
      ended := false;
    }

    /** The keydown handler: the named heading becomes pending unless it is
        the reverse of the committed heading.  The snake's length plays no
        part, so a one-cell snake cannot reverse either. */
    method KeyDown(key: string)
      requires Valid()
      modifies this`nextDirection
      ensures Valid()
      ensures nextDirection == Requested(direction, old(nextDirection), key)
      ensures nextDirection != Opposite(direction)
    {
      if key == "ArrowUp" && direction != Down {
        nextDirection := Up;
      } else if key == "ArrowDown" && direction != Up {
        nextDirection := Down;
      } else if key == "ArrowLeft" && direction != Right {
        nextDirection := Left;
      } else if key == "ArrowRight" && direction != Left {
        nextDirection := Right;
      }
    }

    /** The pause button. */
    method TogglePause()
      requires Valid()
      modifies this`isPaused
      ensures Valid()
      ensures isPaused == !old(isPaused)
    {
      isPaused := !isPaused;
    }

    /** One tick (`update`), with `col` and `row` the draws used if the food
        is eaten.  While paused nothing changes.  Otherwise the pending
        heading is committed and the head moves one box that way; the game
        ends, with snake, score, food and interval as they were, when the
        new head is off the canvas or on any current cell; else the head is
        added, and either the food is eaten (one more point, new food,
        possibly a faster interval, the snake one longer) or the tail is
        dropped. */
    method Tick(col: int, row: int)
      requires Valid() && !ended
      requires IsDraw(col) && IsDraw(row)
      modifies this
      ensures Valid()
      ensures old(isPaused) ==> unchanged(this)
      ensures !old(isPaused) ==>
        && isPaused == old(isPaused)
        && direction == old(nextDirection)
        && nextDirection == old(nextDirection)
      ensures !old(isPaused) ==>
        var head := Step(old(snake[0]), old(nextDirection));
        && ended == GameOver(head, old(snake))
        && (ended ==>
              && snake == old(snake)
              && snakePixelPos == old(snakePixelPos)
              && score == old(score)
              && food == old(food)
              && gameSpeed == old(gameSpeed))
        && (!ended ==>
              var ate := Eats(head, old(food));
              && snake == Advance(old(snake), head, ate)
              && snakePixelPos == Advance(old(snakePixelPos), PixelAt(head), ate)
              && score == old(score) + (if ate then 1 else 0)
              && food == (if ate then RandomFruit(col, row) else old(food))
              && gameSpeed == (if ate then SpeedAfterMeal(old(gameSpeed), score) else old(gameSpeed)))
    {
      if isPaused {
        return;
      }
      direction := nextDirection;
      var head := Step(snake[0], direction);
      if !InBoard(head) {
        ended := true;
        return;
      }
      var hit := Collision(head, snake);
      if hit {
        ended := true;
        return;
      }
      StepKeepsAlignment(snake[0], direction);
      MoveHead(head, col, row);
    }

    /** The rest of a tick once the new head is known to be free: the head is
        added in front, then either the food is eaten (one more point, new
        food, possibly a shorter interval, the snake one longer) or the tail
        is dropped.  Headings, pause and end flags are untouched. */
    method MoveHead(head: Cell, col: int, row: int)
      requires !ended && nextDirection == direction
      requires |snake| == score + 1 && |snakePixelPos| == |snake|
      requires WellFormed(snake) && gameSpeed == SpeedFor(score) && OnGrid(FoodCell(food))
      requires head == Step(snake[0], direction) && OnGrid(head) && !Hits(head, snake)
      requires IsDraw(col) && IsDraw(row)
      modifies this`snake, this`snakePixelPos, this`score, this`food, this`gameSpeed
      ensures Valid()
      ensures
        var ate := Eats(head, old(food));
        && snake == Advance(old(snake), head, ate)
        && snakePixelPos == Advance(old(snakePixelPos), PixelAt(head), ate)
        && score == old(score) + (if ate then 1 else 0)
        && food == (if ate then RandomFruit(col, row) else old(food))
        && gameSpeed == (if ate then SpeedAfterMeal(old(gameSpeed), score) else old(gameSpeed))
    {
      AdvanceKeepsShape(snake, head, Eats(head, food));
      SpeedRamp(score);

      snake := [head] + snake;
      snakePixelPos := [PixelAt(head)] + snakePixelPos;
      if head.x == food.gx && head.y == food.gy {
        score := score + 1;
        food := RandomFruit(col, row);
        if score % POINTS_PER_SPEEDUP == 0 && gameSpeed > SPEED_FLOOR {
          gameSpeed := gameSpeed - SPEED_STEP;
        }
      } else {
        snake := snake[..|snake| - 1];
        snakePixelPos := snakePixelPos[..|snakePixelPos| - 1];
      }
      assert |snake| >= 2 ==> snake[1] == old(snake[0]);
    }
  }

  /** Why the keydown handler refuses a reversal: once the snake has a
      neck, a step against the committed heading lands on it and ends the
      game. */
  lemma ReversalWouldHitNeck(g: Game)
    requires g.Valid() && !g.ended && |g.snake| >= 2
    ensures GameOver(Step(g.snake[0], Opposite(g.direction)), g.snake)
  {
    StepThenOpposite(g.snake[1], g.direction);
    assert g.snake[1] in g.snake;
  }

  /** The score can never pass 399: the snake has one more cell than the
      score and a well-formed snake fits in the 400 cells of the board. */
  lemma ScoreBound(g: Game)
    requires g.Valid()
    ensures g.score < CELLS_PER_SIDE * CELLS_PER_SIDE
  {
    Capacity.BoardCapacity(g.snake);
  }
}

/**
 * Small games played against the contracts of `Game`, each with the draws
 * for the food fixed in advance.
 */
module Scenarios {
  import opened Grid
  import opened Fruit
  import opened Input
  import opened SnakeGame

  /** The snake starts at (160, 160) heading right with the food at
      (180, 160): the first tick eats it, the score becomes 1 and the snake
      two cells long. */
  method EatOnFirstTick() {
    var g := new Game(9, 8);
    assert FoodCell(g.food) == Cell(180, 160);
    g.Tick(0, 0);
    assert !g.ended;
    assert g.snake == [Cell(180, 160), Cell(160, 160)];
    assert g.score == 1 && g.gameSpeed == START_SPEED;
    assert g.food == Food(0, 0);
  }

  /** A three-cell snake heading right ignores a press of the left arrow and
      keeps heading right on the next tick. */
  method ReversalIgnored() {
    var g := new Game(9, 8);
    g.Tick(10, 8);
    g.Tick(0, 0);
    assert g.snake == [Cell(200, 160), Cell(180, 160), Cell(160, 160)];
    g.KeyDown(KeyName(Opposite(g.direction)));
    assert g.nextDirection == Right;
    g.Tick(0, 0);
    assert g.direction == Right && g.snake[0] == Cell(220, 160);
  }

  /** Heading right from (160, 160), the head reaches the right wall after
      eleven moves; the twelfth tick would put it at x = 400 and ends the
      game with the snake where it was. */
  method RunIntoWall() {
    var g := new Game(0, 0);
    var moves := 0;
    while moves < 11
      invariant 0 <= moves <= 11
      invariant g.Valid() && !g.ended && !g.isPaused
      invariant g.snake == [Cell(160 + BOX * moves, 160)]
      invariant g.nextDirection == Right && g.food == Food(0, 0)
    {
      g.Tick(0, 0);
      moves := moves + 1;
    }
    assert g.snake == [Cell(380, 160)];
    g.Tick(0, 0);
    assert g.ended && g.snake == [Cell(380, 160)] && g.score == 0;
  }

  /** Three meals in a row turn the snake into an L of four cells whose
      head is below the cell right of the tail's neighbour. */
  method GrowToFour() returns (g: Game)
    ensures fresh(g) && g.Valid() && !g.ended && !g.isPaused
    ensures g.snake == [Cell(200, 180), Cell(200, 160), Cell(180, 160), Cell(160, 160)]
    ensures g.direction == Down && g.nextDirection == Down
    ensures g.score == 3 && g.food == Food(0, 0)
  {
    g := new Game(9, 8);
    g.Tick(10, 8);
    assert g.snake == [Cell(180, 160), Cell(160, 160)] && g.food == Food(200, 160);
    g.Tick(10, 9);
    assert g.snake == [Cell(200, 160), Cell(180, 160), Cell(160, 160)] && g.food == Food(200, 180);
    g.KeyDown("ArrowDown");
    g.Tick(0, 0);
  }

  /** Four cells in a square: the head steps onto the cell the tail is
      about to leave, and the game ends. */
  method ChaseOwnTail() {
    var g := GrowToFour();
    g.KeyDown("ArrowLeft");
    g.Tick(0, 0);
    assert g.snake == [Cell(180, 180), Cell(200, 180), Cell(200, 160), Cell(180, 160)];
    g.KeyDown("ArrowUp");
    assert g.snake[3].x == 180 && g.snake[3].y == 160;
    g.Tick(0, 0);
    assert g.ended && g.score == 3;
  }

  /** The food may be placed under the snake: at the start, draws 8 and 8
      put it on the head. */
  method FoodUnderSnake() {
    var g := new Game(8, 8);
    assert FoodCell(g.food) == g.snake[0];
  }

  /** Four meals in a row along row 8, each new fruit placed one cell
      ahead of the head. */
  method EatFour() returns (g: Game)
    ensures fresh(g) && g.Valid() && !g.ended && !g.isPaused
    ensures g.snake == [Cell(240, 160), Cell(220, 160), Cell(200, 160), Cell(180, 160), Cell(160, 160)]
    ensures g.nextDirection == Right
    ensures g.score == 4 && g.gameSpeed == START_SPEED && g.food == Food(260, 160)
  {
    g := new Game(9, 8);
    g.Tick(10, 8);
    assert g.score == 1 && g.food == Food(200, 160) && g.snake[0] == Cell(180, 160);
    g.Tick(11, 8);
    assert g.score == 2 && g.food == Food(220, 160) && g.snake[0] == Cell(200, 160);
    g.Tick(12, 8);
    assert g.score == 3 && g.food == Food(240, 160) && g.snake[0] == Cell(220, 160);
    g.Tick(13, 8);
  }

  /** The fifth point shortens the interval from 200 to 185. */
  method FifthPointSpeedsUp() {
    var g := EatFour();
    g.Tick(0, 0);
    assert g.score == 5 && g.gameSpeed == 185;
  }

  /** Pausing and resuming leaves the game as it was; a tick in between
      does nothing. */
  method PauseFreezes() {
    var g := new Game(0, 0);
    g.TogglePause();
    g.Tick(3, 3);
    g.TogglePause();
    assert g.snake == [START_CELL] && g.direction == Right && !g.isPaused;
  }
}

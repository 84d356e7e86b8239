/**
 * The board of the snake game: a 400 x 400 pixel canvas cut into cells of
 * 20 pixels.  A cell is named by the pixel coordinates of its top-left
 * corner, so every cell the game produces has coordinates that are
 * multiples of 20 in [0, 380].
 */
module Grid {

  /** Side of one cell in pixels (`box` in the game). */
  const BOX: int := 20

  /** Side of the square canvas in pixels (`canvasSize` in the game). */
  const CANVAS_SIZE: int := 400

  /** Number of cells along one side of the board. */
  const CELLS_PER_SIDE: int := 20

  /** A board position, compared by value. */
  datatype Cell = Cell(x: int, y: int)

  /** The four headings of the snake ('UP', 'DOWN', 'LEFT', 'RIGHT'). */
  datatype Direction = Up | Down | Left | Right

  /** The heading that points the other way. */
  function Opposite(d: Direction): (r: Direction)
    ensures r != d
    ensures (d == Up || d == Down) <==> (r == Up || r == Down)
  {
    match d
    case Up => Down
    case Down => Up
    case Left => Right
    case Right => Left
  }

  /** The cell one box away from `c` in direction `d`: LEFT and RIGHT change
      x, UP and DOWN change y (y grows downwards on the canvas). */
  function Step(c: Cell, d: Direction): (r: Cell)
    ensures (d == Left || d == Right) ==> r.y == c.y && (r.x - c.x == BOX || c.x - r.x == BOX)
    ensures (d == Up || d == Down) ==> r.x == c.x && (r.y - c.y == BOX || c.y - r.y == BOX)
    ensures (d == Right ==> r.x > c.x) && (d == Left ==> r.x < c.x)
    ensures (d == Down ==> r.y > c.y) && (d == Up ==> r.y < c.y)
  {
    match d
    case Left => Cell(c.x - BOX, c.y)
    case Right => Cell(c.x + BOX, c.y)
    case Up => Cell(c.x, c.y - BOX)
    case Down => Cell(c.x, c.y + BOX)
  }

  /** A step followed by a step in the opposite heading goes back. */
  lemma StepThenOpposite(c: Cell, d: Direction)
    ensures Step(Step(c, d), Opposite(d)) == c
  {
  }

  /** The wall test of the game: a cell is on the canvas when both
      coordinates lie in [0, 400). */
  predicate InBoard(c: Cell) {
    0 <= c.x < CANVAS_SIZE && 0 <= c.y < CANVAS_SIZE
  }

  /** A cell of the board proper: on the canvas and aligned to the grid, so
      both coordinates are among 0, 20, ..., 380. */
  predicate OnGrid(c: Cell) {
    InBoard(c) && c.x % BOX == 0 && c.y % BOX == 0
  }

  /** A step from a grid cell either leaves the canvas or lands on a grid cell. */
  lemma StepKeepsAlignment(c: Cell, d: Direction)
    requires OnGrid(c)
    ensures InBoard(Step(c, d)) <==> OnGrid(Step(c, d))
  {
  }

  /** What `collision(head, array)` answers: some element of `body` has the
      same x and the same y as `head`. */
  predicate Hits(head: Cell, body: seq<Cell>) {
    exists i :: 0 <= i < |body| && body[i].x == head.x && body[i].y == head.y
  }

  /** Matching both coordinates is value equality, so a hit is membership. */
  lemma HitsIsMembership(head: Cell, body: seq<Cell>)
    ensures Hits(head, body) <==> head in body
  {
  }

  /** The collision scan: walks `body` from the front and stops at the first
      element that matches `head` on both coordinates. */
  method Collision(head: Cell, body: seq<Cell>) returns (hit: bool)
    ensures hit <==> Hits(head, body)
    ensures hit <==> head in body
  {
    HitsIsMembership(head, body);
    var i := 0;
    while i < |body|
      invariant 0 <= i <= |body|
      invariant forall j :: 0 <= j < i ==> body[j] != head
    {
      if body[i].x == head.x && body[i].y == head.y {
        return true;
      }
      i := i + 1;
    }
    return false;
  }

  /** Every cell pairwise different. */
  predicate Distinct(s: seq<Cell>) {
    forall i, j :: 0 <= i < j < |s| ==> s[i] != s[j]
  }

  /** The shape invariant of the snake: its cells are pairwise different and
      all of them are grid cells of the board. */
  predicate WellFormed(s: seq<Cell>) {
    Distinct(s) && forall i :: 0 <= i < |s| ==> OnGrid(s[i])
  }
}

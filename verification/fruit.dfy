/**
 * Food placement.  The game draws two random column/row numbers in
 * [0, 20) and multiplies them by the box size; those two draws are the
 * parameters here.  The fruit kind (which picture to draw) is not modelled.
 */
module Fruit {
  import opened Grid

  /** The food on the board; `gx`, `gy` are the pixel coordinates the game
      compares the snake's head against. */
  datatype Food = Food(gx: int, gy: int)

  /** The cell the food occupies. */
  function FoodCell(f: Food): Cell {
    Cell(f.gx, f.gy)
  }

  /** A column or row number as `Math.floor(Math.random() * 20)` yields it. */
  predicate IsDraw(n: int) {
    0 <= n < CELLS_PER_SIDE
  }

  /** `randomFruit`: the food for the draws `col` and `row`.  It always lands
      on a grid cell of the board, and it is not kept away from the snake. */
  function RandomFruit(col: int, row: int): (f: Food)
    requires IsDraw(col) && IsDraw(row)
    ensures OnGrid(FoodCell(f))
    ensures f.gx / BOX == col && f.gy / BOX == row
  {
    Food(col * BOX, row * BOX)
  }

  /** Every grid cell of the board is a possible food position: the draws
      that produce it are its column and row numbers. */
  lemma RandomFruitCoversBoard(c: Cell)
    requires OnGrid(c)
    ensures exists col, row :: IsDraw(col) && IsDraw(row) && FoodCell(RandomFruit(col, row)) == c
  {
    var col, row := c.x / BOX, c.y / BOX;
    assert FoodCell(RandomFruit(col, row)) == c;
  }
}

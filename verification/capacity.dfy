/**
 * The board holds 20 x 20 = 400 cells, so a snake whose cells are distinct
 * grid cells has at most 400 of them.
 */
module Capacity {
  import opened Grid

  /** Row-major number of a grid cell, in [0, 400). */
  function CellIndex(c: Cell): (k: int)
    requires OnGrid(c)
    ensures 0 <= k < CELLS_PER_SIDE * CELLS_PER_SIDE
  {
    (c.y / BOX) * CELLS_PER_SIDE + c.x / BOX
  }

  /** Different grid cells have different numbers. */
  lemma CellIndexInjective(a: Cell, b: Cell)
    requires OnGrid(a) && OnGrid(b)
    requires CellIndex(a) == CellIndex(b)
    ensures a == b
  {
  }

  /** The set of elements of a sequence without repetitions has as many
      elements as the sequence. */
  lemma {:induction false} DistinctCard(s: seq<int>)
    requires forall i, j :: 0 <= i < j < |s| ==> s[i] != s[j]
    ensures |set k | k in s| == |s|
    decreases |s|
  {
    if s != [] {
      var rest := s[1..];
      DistinctCard(rest);
      assert (set k | k in s) == {s[0]} + (set k | k in rest);
      assert s[0] !in rest;
    }
  }

  /** A set of numbers in [0, n) has at most n elements. */
  lemma {:induction false} BoundedSetCard(xs: set<int>, n: nat)
    requires forall k :: k in xs ==> 0 <= k < n
    ensures |xs| <= n
    decreases n
  {
    if n > 0 {
      BoundedSetCard(xs - {n - 1}, n - 1);
    } else {
      assert forall k :: k !in xs;
    }
  }

  /** A well-formed snake fits on the board: at most 400 cells. */
  lemma BoardCapacity(s: seq<Cell>)
    requires WellFormed(s)
    ensures |s| <= CELLS_PER_SIDE * CELLS_PER_SIDE
  {
    var indices := seq(|s|, i requires 0 <= i < |s| => CellIndex(s[i]));
    forall i, j | 0 <= i < j < |s| ensures indices[i] != indices[j] {
      if indices[i] == indices[j] {
        CellIndexInjective(s[i], s[j]);
      }
    }
    DistinctCard(indices);
    BoundedSetCard((set k | k in indices), CELLS_PER_SIDE * CELLS_PER_SIDE);
  }
}

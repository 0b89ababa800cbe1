/**
 * The board: a square of `Size` units divided into cells of `Scale` units,
 * positions of segments and food, and the random cell a food jumps to.
 */
module Geometry {

  /** Side of one cell, in board units. */
  const Scale: int := 20
  /** Side of the board, in board units. */
  const Size: int := 600
  /** Cells per row and per column: `Math.floor(size / scale)`. */
  const Cells: int := Size / Scale

  /** A cell index that `Math.floor(Math.random() * cells)` can produce. */
  type CellIndex = i: int | 0 <= i < Cells

  /** The two random draws that place one food (column, then row). */
  datatype Cell = Cell(col: CellIndex, row: CellIndex)

  /** The top-left corner of a segment, food or head. */
  datatype Pos = Pos(x: int, y: int)

  /** Both coordinates are multiples of the cell size. */
  predicate OnGrid(p: Pos) {
    p.x % Scale == 0 && p.y % Scale == 0
  }

  /** The corner of the given cell: where `Food.update` puts a food. */
  function Relocate(c: Cell): (p: Pos)
    ensures OnGrid(p)
    ensures 0 <= p.x <= Size - Scale && 0 <= p.y <= Size - Scale
    ensures p.x / Scale == c.col && p.y / Scale == c.row
  {
    Pos(c.col * Scale, c.row * Scale)
  }

  /** `Head.ranIntoEdge`: some part of the cell at `p` lies outside the board. */
  predicate RanIntoEdge(p: Pos)
    ensures RanIntoEdge(p) ==> forall c: Cell :: Relocate(c) != p
  {
    p.x < 0 || p.x + Scale > Size || p.y < 0 || p.y + Scale > Size
  }

  /**
   * A grid-aligned position passes the edge test exactly when it is the
   * corner of one of the 30 x 30 cells.
   */
  lemma InBoundsIsCell(p: Pos)
    requires OnGrid(p)
    ensures !RanIntoEdge(p) <==> exists c: Cell :: Relocate(c) == p
  {
    if !RanIntoEdge(p) {
      var c := Cell(p.x / Scale, p.y / Scale);
      assert Relocate(c) == p;
    }
  }

  /** The edge test is exact: x = 580 is the last column inside, x = 600 is outside. */
  lemma EdgeIsExact(y: int)
    requires 0 <= y <= Size - Scale
    ensures !RanIntoEdge(Pos(580, y)) && RanIntoEdge(Pos(600, y))
    ensures !RanIntoEdge(Pos(y, 580)) && RanIntoEdge(Pos(y, 600))
    ensures RanIntoEdge(Pos(-Scale, y)) && RanIntoEdge(Pos(y, -Scale))
  {
  }
}

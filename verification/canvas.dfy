/**
 Geometry shared by every item of the editor scene: a square canvas of
 `Size` x `Size` cells, each `Scale` scene units wide, so the scene
 rectangle spans `Extent` units on each side.
 */
module Canvas {

  /** Number of cells along each side of the canvas. */
  const Size: int := 16

  /** Width of one cell in scene units. */
  const Scale: int := 32

  /** Half a cell, the side of one background quadrant (`scale // 2`). */
  const Half: int := Scale / 2

  /** Side of the scene rectangle, `size * scale`. */
  const Extent: int := Size * Scale

  /** Number of cells on the canvas. */
  const Cells: int := Size * Size

  /** A cell coordinate: `x` is the column, `y` the row. */
  datatype Cell = Cell(x: int, y: int)

  predicate OnGrid(c: Cell) {
    0 <= c.x < Size && 0 <= c.y < Size
  }

  /** A pointer position that lies inside the scene rectangle. */
  predicate InCanvas(px: int, py: int) {
    0 <= px < Extent && 0 <= py < Extent
  }

  /** The square of scene positions that belongs to cell `c`. */
  predicate SquareContains(c: Cell, px: int, py: int) {
    c.x * Scale <= px < c.x * Scale + Scale && c.y * Scale <= py < c.y * Scale + Scale
  }

  /**
   The cell under a pointer position: each coordinate floor-divided by the
   cell width. It is the one cell of the grid whose square holds the position.
   */
  function CellAt(px: int, py: int): (c: Cell)
    requires InCanvas(px, py)
    ensures OnGrid(c)
    ensures SquareContains(c, px, py)
    ensures forall d :: OnGrid(d) && SquareContains(d, px, py) ==> d == c
  {
    Cell(px / Scale, py / Scale)
  }

  /** Row-major position of a cell, the order in which the paint loops visit cells. */
  function Index(c: Cell): int {
    c.y * Size + c.x
  }

  /** The cell visited at row-major step `i`: column `i % size`, row `i // size`. */
  function CellOfIndex(i: int): (c: Cell)
    requires 0 <= i < Cells
    ensures OnGrid(c)
  {
    Cell(i % Size, i / Size)
  }

  lemma IndexRoundTrip(c: Cell)
    requires OnGrid(c)
    ensures 0 <= Index(c) < Cells
    ensures CellOfIndex(Index(c)) == c
  {
  }

  lemma CellOfIndexRoundTrip(i: int)
    requires 0 <= i < Cells
    ensures Index(CellOfIndex(i)) == i
  {
  }

  /** Row-major order of cells agrees with comparing their indices. */
  lemma IndexOrder(c: Cell, d: Cell)
    requires OnGrid(c) && OnGrid(d)
    ensures Index(c) < Index(d) <==> c.y < d.y || (c.y == d.y && c.x < d.x)
  {
  }

  /** Example of the pointer mapping: (50, 70) lies in column 1, row 2. */
  lemma PointerExample()
    ensures CellAt(50, 70) == Cell(1, 2)
  {
  }
}

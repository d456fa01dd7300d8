/**
 The drawable item's paint: one half-transparent red square over every set
 cell, emitted while walking the grid row by row.
 */
module Overlay {
  import opened Canvas
  import opened Draw
  import opened Pixels

  /** `QColor(255, 0, 0, 128)`. */
  const Highlight: Colour := RGBA(255, 0, 0, 128)

  /** The square painted over cell `c`. */
  function CellFill(c: Cell): Fill {
    Fill(Box(c.x * Scale, c.y * Scale, Scale, Scale), Highlight)
  }

  /** The cell a square painted at `f` belongs to. */
  function CellOfFill(f: Fill): Cell {
    Cell(f.box.x / Scale, f.box.y / Scale)
  }

  /** Row-major order of two fills' origins: an earlier row, or the same row further left. */
  predicate Before(a: Fill, b: Fill) {
    a.box.y < b.box.y || (a.box.y == b.box.y && a.box.x < b.box.x)
  }

  /** Reference: the squares for the set cells among the first `n` in row-major order. */
  function OverlayUpTo(g: Grid, n: int): seq<Fill>
    requires Valid(g) && 0 <= n <= Cells
    decreases n
  {
    if n == 0 then []
    else
      var c := CellOfIndex(n - 1);
      OverlayUpTo(g, n - 1) + (if Get(g, c) then [CellFill(c)] else [])
  }

  /** Every square of a prefix overlay sits on a set cell visited before step `n`. */
  lemma {:induction false} OverlayUpToSound(g: Grid, n: int)
    requires Valid(g) && 0 <= n <= Cells
    ensures forall k :: 0 <= k < |OverlayUpTo(g, n)| ==>
      var c := CellOfFill(OverlayUpTo(g, n)[k]);
      && OnGrid(c) && Index(c) < n && Get(g, c)
      && OverlayUpTo(g, n)[k] == CellFill(c)
    decreases n
  {
    if n > 0 {
      OverlayUpToSound(g, n - 1);
      var c := CellOfIndex(n - 1);
      CellOfIndexRoundTrip(n - 1);
      assert CellOfFill(CellFill(c)) == c;
    }
  }

  /** A set cell visited before step `n` has its square in the prefix overlay, and only then. */
  lemma {:induction false} OverlayUpToComplete(g: Grid, n: int, c: Cell)
    requires Valid(g) && 0 <= n <= Cells && OnGrid(c)
    ensures CellFill(c) in OverlayUpTo(g, n) <==> Index(c) < n && Get(g, c)
    decreases n
  {
    if n > 0 {
      OverlayUpToComplete(g, n - 1, c);
      var d := CellOfIndex(n - 1);
      CellOfIndexRoundTrip(n - 1);
      IndexRoundTrip(c);
      assert CellFill(c) == CellFill(d) <==> c == d;
    }
  }

  /** The prefix overlay is strictly increasing in row-major order. */
  lemma {:induction false} OverlayUpToOrdered(g: Grid, n: int)
    requires Valid(g) && 0 <= n <= Cells
    ensures forall i, j :: 0 <= i < j < |OverlayUpTo(g, n)| ==>
      Before(OverlayUpTo(g, n)[i], OverlayUpTo(g, n)[j])
    decreases n
  {
    if n > 0 {
      OverlayUpToOrdered(g, n - 1);
      OverlayUpToSound(g, n - 1);
      var prefix := OverlayUpTo(g, n - 1);
      var d := CellOfIndex(n - 1);
      CellOfIndexRoundTrip(n - 1);
      forall i | 0 <= i < |prefix|
        ensures Before(prefix[i], CellFill(d))
      {
        IndexOrder(CellOfFill(prefix[i]), d);
      }
    }
  }

  /** The whole overlay of a grid: the set cells' squares, in row-major order. */
  lemma OverlayCharacterised(g: Grid)
    requires Valid(g)
    ensures forall c :: OnGrid(c) ==> (CellFill(c) in OverlayUpTo(g, Cells) <==> Get(g, c))
    ensures forall k :: 0 <= k < |OverlayUpTo(g, Cells)| ==>
      var f := OverlayUpTo(g, Cells)[k];
      OnGrid(CellOfFill(f)) && Get(g, CellOfFill(f)) && f == CellFill(CellOfFill(f))
    ensures forall i, j :: 0 <= i < j < |OverlayUpTo(g, Cells)| ==>
      Before(OverlayUpTo(g, Cells)[i], OverlayUpTo(g, Cells)[j])
  {
    OverlayUpToSound(g, Cells);
    OverlayUpToOrdered(g, Cells);
    forall c | OnGrid(c)
      ensures CellFill(c) in OverlayUpTo(g, Cells) <==> Get(g, c)
    {
      OverlayUpToComplete(g, Cells, c);
      IndexRoundTrip(c);
    }
  }

  /** Visiting cell (x, y) extends the prefix overlay by that cell's square when it is set. */
  lemma OverlayStep(g: Grid, x: int, y: int)
    requires Valid(g) && OnGrid(Cell(x, y))
    ensures Index(Cell(x, y)) + 1 <= Cells
    ensures OverlayUpTo(g, Index(Cell(x, y)) + 1)
         == OverlayUpTo(g, Index(Cell(x, y))) + (if Get(g, Cell(x, y)) then [CellFill(Cell(x, y))] else [])
  {
    IndexRoundTrip(Cell(x, y));
  }

  /**
   The paint loop over rows and columns. Its output is exactly the squares
   of the set cells, each a red cell-sized square, in row-major order.
   */
  method PaintOverlay(g: Grid) returns (fills: seq<Fill>)
    requires Valid(g)
    ensures fills == OverlayUpTo(g, Cells)
    ensures forall c :: OnGrid(c) ==> (CellFill(c) in fills <==> Get(g, c))
    ensures forall k :: 0 <= k < |fills| ==>
      && OnGrid(CellOfFill(fills[k])) && Get(g, CellOfFill(fills[k]))
      && fills[k] == CellFill(CellOfFill(fills[k]))
    ensures forall i, j :: 0 <= i < j < |fills| ==> Before(fills[i], fills[j])
  {
    fills := [];
    var y := 0;
    while y < Size
      invariant 0 <= y <= Size
      invariant fills == OverlayUpTo(g, Index(Cell(0, y)))
    {
      var x := 0;
      while x < Size
        invariant 0 <= x <= Size
        invariant fills == OverlayUpTo(g, Index(Cell(x, y)))
      {
        OverlayStep(g, x, y);
        if Get(g, Cell(x, y)) {
          fills := fills + [CellFill(Cell(x, y))];
        }
        x := x + 1;
      }
      assert Index(Cell(Size, y)) == Index(Cell(0, y + 1));
      y := y + 1;
    }
    assert Index(Cell(0, Size)) == Cells;
    OverlayCharacterised(g);
  }

  /** Every square of the overlay lies inside the scene rectangle. */
  lemma OverlayInScene(c: Cell)
    requires OnGrid(c)
    ensures Within(CellFill(c).box, SceneBox)
  {
  }

  /** A blank grid paints no square at all. */
  lemma {:induction false} BlankOverlayEmpty(n: int)
    requires 0 <= n <= Cells
    ensures OverlayUpTo(Blank(), n) == []
    decreases n
  {
    if n > 0 {
      BlankOverlayEmpty(n - 1);
    }
  }

  /**
   After an event the overlay paints the same squares as before except, at
   most, the square of the cell under the pointer.
   */
  lemma HandleRepaintsOneSquare(g: Grid, e: MouseEvent, d: Cell)
    requires Valid(g) && InCanvas(e.px, e.py) && OnGrid(d)
    requires d != CellAt(e.px, e.py)
    ensures CellFill(d) in OverlayUpTo(Handle(g, e), Cells) <==> CellFill(d) in OverlayUpTo(g, Cells)
  {
    OverlayCharacterised(g);
    OverlayCharacterised(Handle(g, e));
    HandleTouchesOneCell(g, e, d);
  }
}

/**
 The grid item's paint: `size + 1` horizontal lines across the canvas, one
 on every cell boundary, followed by `size + 1` vertical ones.
 */
module GridLines {
  import opened Canvas
  import opened Draw

  /** Number of segments drawn: both families of boundary lines. */
  const LineCount: int := 2 * (Size + 1)

  /** The horizontal boundary at `y`, across the whole canvas. */
  function Horizontal(y: int): Line {
    Line(0, y, Extent, y)
  }

  /** The vertical boundary at `x`, down the whole canvas. */
  function Vertical(x: int): Line {
    Line(x, 0, x, Extent)
  }

  /** The line list as the paint loops build it: horizontals first, then verticals. */
  function Lines(): seq<Line> {
    seq(Size + 1, k => Horizontal(k * Scale)) + seq(Size + 1, k => Vertical(k * Scale))
  }

  /** Whether a segment runs along the full canvas on a cell boundary. */
  predicate OnBoundary(l: Line) {
    || (l.y1 == l.y2 && l.x1 == 0 && l.x2 == Extent && l.y1 % Scale == 0)
    || (l.x1 == l.x2 && l.y1 == 0 && l.y2 == Extent && l.x1 % Scale == 0)
  }

  /**
   The list holds 34 segments: 17 horizontals at y = k * 32, then 17
   verticals at x = k * 32, every one a full-length cell boundary inside
   the scene and none drawn twice.
   */
  lemma LinesShape()
    ensures |Lines()| == LineCount
    ensures forall k :: 0 <= k <= Size ==> Lines()[k] == Horizontal(k * Scale)
    ensures forall k :: 0 <= k <= Size ==> Lines()[Size + 1 + k] == Vertical(k * Scale)
    ensures forall k :: 0 <= k < LineCount ==> OnBoundary(Lines()[k]) && LineInScene(Lines()[k])
    ensures forall i, j :: 0 <= i < j < LineCount ==> Lines()[i] != Lines()[j]
  {
  }

  /** The four sides of every cell lie on segments of the list. */
  lemma EveryCellOutlined(c: Cell)
    requires OnGrid(c)
    ensures Horizontal(c.y * Scale) in Lines() && Horizontal((c.y + 1) * Scale) in Lines()
    ensures Vertical(c.x * Scale) in Lines() && Vertical((c.x + 1) * Scale) in Lines()
  {
    assert Lines()[c.y] == Horizontal(c.y * Scale);
    assert Lines()[c.y + 1] == Horizontal((c.y + 1) * Scale);
    assert Lines()[Size + 1 + c.x] == Vertical(c.x * Scale);
    assert Lines()[Size + 1 + c.x + 1] == Vertical((c.x + 1) * Scale);
  }

  /**
   The two paint loops: 34 segments, the horizontals at every row boundary
   first, then the verticals at every column boundary, each spanning the
   whole canvas and none drawn twice.
   */
  method PaintGrid() returns (lines: seq<Line>)
    ensures lines == Lines()
    ensures |lines| == LineCount
    ensures forall k :: 0 <= k <= Size ==> lines[k] == Horizontal(k * Scale)
    ensures forall k :: 0 <= k <= Size ==> lines[Size + 1 + k] == Vertical(k * Scale)
    ensures forall k :: 0 <= k < LineCount ==> OnBoundary(lines[k]) && LineInScene(lines[k])
    ensures forall i, j :: 0 <= i < j < LineCount ==> lines[i] != lines[j]
  {
    lines := [];
    var y := 0;
    while y < Size + 1
      invariant 0 <= y <= Size + 1
      invariant lines == seq(y, k => Horizontal(k * Scale))
    {
      lines := lines + [Horizontal(y * Scale)];
      y := y + 1;
    }
    var x := 0;
    while x < Size + 1
      invariant 0 <= x <= Size + 1
      invariant lines == seq(Size + 1, k => Horizontal(k * Scale)) + seq(x, k => Vertical(k * Scale))
    {
      lines := lines + [Vertical(x * Scale)];
      x := x + 1;
    }
    LinesShape();
  }
}

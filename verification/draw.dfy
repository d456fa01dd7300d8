/**
 Draw commands the scene items hand to the painter: filled rectangles and
 line segments with integer coordinates, and colours as RGBA quadruples.
 */
module Draw {
  import opened Canvas

  datatype Colour = RGBA(r: int, g: int, b: int, a: int)

  /** An axis-aligned rectangle: origin, width and height. */
  datatype Box = Box(x: int, y: int, w: int, h: int)

  /** A `fillRect` call: a rectangle painted in one colour. */
  datatype Fill = Fill(box: Box, colour: Colour)

  /** One segment of a `drawLines` call, from (x1, y1) to (x2, y2). */
  datatype Line = Line(x1: int, y1: int, x2: int, y2: int)

  /** The scene rectangle `(0, 0, size*scale, size*scale)`. */
  const SceneBox: Box := Box(0, 0, Extent, Extent)

  /** Whether the box paints the scene position (px, py). */
  predicate Covers(b: Box, px: int, py: int) {
    b.x <= px < b.x + b.w && b.y <= py < b.y + b.h
  }

  /** Whether `inner` is a non-empty box lying inside `outer`. */
  predicate Within(inner: Box, outer: Box) {
    && 0 < inner.w && 0 < inner.h
    && outer.x <= inner.x && inner.x + inner.w <= outer.x + outer.w
    && outer.y <= inner.y && inner.y + inner.h <= outer.y + outer.h
  }

  /** Whether both end points of a segment lie in the closed scene rectangle. */
  predicate LineInScene(l: Line) {
    && 0 <= l.x1 <= Extent && 0 <= l.y1 <= Extent
    && 0 <= l.x2 <= Extent && 0 <= l.y2 <= Extent
  }

  /**
   The scene rectangle holds exactly the positions whose floor-divided
   coordinates name a cell of the grid.
   */
  lemma SceneIsCanvas(px: int, py: int)
    ensures Covers(SceneBox, px, py) <==> OnGrid(Cell(px / Scale, py / Scale))
  {
  }
}

/**
 The background item's paint: every cell is split into four half-cell
 quadrants, the top-left and bottom-right in the first palette colour and the
 other two in the second. The parity of the cell does not enter the fill, so
 the result is a checkerboard of half-cell squares over the whole canvas.
 */
module Background {
  import opened Canvas
  import opened Draw

  /** `colors`: `QColor(196, 196, 196, 255)` and `QColor(232, 232, 232, 255)`. */
  const Palette: seq<Colour> := [RGBA(196, 196, 196, 255), RGBA(232, 232, 232, 255)]

  /** Number of fills the background paints: four per cell. */
  const Quadrants: int := 4 * Cells

  /** A cell boundary and the midpoint after it, counted in half-cell units. */
  lemma HalfUnits(n: int)
    ensures (n * Scale) / Half == 2 * n
    ensures (n * Scale + Half) / Half == 2 * n + 1
  {
  }

  /**
   Quadrant `q` of cell `c`, in the order the paint loop fills them:
   top-left, bottom-right, top-right, bottom-left.
   */
  function Quadrant(c: Cell, q: int): (f: Fill)
    requires 0 <= q < 4
    ensures f.box.w == Half && f.box.h == Half
    ensures f.colour == Palette[(f.box.x / Half + f.box.y / Half) % 2]
  {
    HalfUnits(c.x);
    HalfUnits(c.y);
    var ox := c.x * Scale;
    var oy := c.y * Scale;
    if q == 0 then Fill(Box(ox, oy, Half, Half), Palette[0])
    else if q == 1 then Fill(Box(ox + Half, oy + Half, Half, Half), Palette[0])
    else if q == 2 then Fill(Box(ox + Half, oy, Half, Half), Palette[1])
    else Fill(Box(ox, oy + Half, Half, Half), Palette[1])
  }

  /** The background as the paint loop emits it: step `k` is quadrant `k % 4` of cell `k // 4`. */
  function Tiles(): seq<Fill> {
    seq(Quadrants, k requires 0 <= k < Quadrants => Quadrant(CellOfIndex(k / 4), k % 4))
  }

  /**
   Inverse of the layout: which fill of `Tiles` starts at a half-cell corner
   (hx, hy), counted in half-cell units.
   */
  function TileAt(hx: int, hy: int): (k: int)
    requires 0 <= hx < 2 * Size && 0 <= hy < 2 * Size
    ensures 0 <= k < Quadrants
  {
    var qx := hx % 2;
    var qy := hy % 2;
    var q := if qx == qy then qx else 2 + qy;
    4 * Index(Cell(hx / 2, hy / 2)) + q
  }

  /** The fill at step `k` starts at a half-cell corner from which `TileAt` recovers `k`. */
  lemma TileOrigin(k: int)
    requires 0 <= k < Quadrants
    ensures Tiles()[k].box.x % Half == 0 && Tiles()[k].box.y % Half == 0
    ensures 0 <= Tiles()[k].box.x < Extent && 0 <= Tiles()[k].box.y < Extent
    ensures TileAt(Tiles()[k].box.x / Half, Tiles()[k].box.y / Half) == k
  {
    var c := CellOfIndex(k / 4);
    CellOfIndexRoundTrip(k / 4);
    var f := Quadrant(c, k % 4);
    assert Tiles()[k] == f;
    assert f.box.x / Half / 2 == c.x && f.box.y / Half / 2 == c.y;
  }

  /** Every fill of the background is a half-cell square inside the scene rectangle. */
  lemma TilesInScene()
    ensures |Tiles()| == Quadrants
    ensures forall k :: 0 <= k < Quadrants ==>
      Tiles()[k].box.w == Half && Tiles()[k].box.h == Half && Within(Tiles()[k].box, SceneBox)
  {
    forall k | 0 <= k < Quadrants
      ensures Within(Tiles()[k].box, SceneBox)
    {
      TileOrigin(k);
    }
  }

  /** `TileAt` names the fill whose corner is the given half-cell corner. */
  lemma TileAtOrigin(hx: int, hy: int)
    requires 0 <= hx < 2 * Size && 0 <= hy < 2 * Size
    ensures Tiles()[TileAt(hx, hy)].box.x == hx * Half
    ensures Tiles()[TileAt(hx, hy)].box.y == hy * Half
  {
    var k := TileAt(hx, hy);
    var c := Cell(hx / 2, hy / 2);
    IndexRoundTrip(c);
    assert k / 4 == Index(c) && k % 4 == (if hx % 2 == hy % 2 then hx % 2 else 2 + hy % 2);
    assert Tiles()[k] == Quadrant(c, k % 4);
  }

  /** A half-cell interval starting on a multiple of `Half` is the one holding `p`. */
  lemma HalfCorner(x: int, p: int)
    requires x % Half == 0 && x <= p < x + Half
    ensures x / Half == p / Half
  {
  }

  /** The fill `TileAt` names for a position paints that position. */
  lemma TileAtCovers(px: int, py: int)
    requires InCanvas(px, py)
    ensures 0 <= px / Half < 2 * Size && 0 <= py / Half < 2 * Size
    ensures Covers(Tiles()[TileAt(px / Half, py / Half)].box, px, py)
  {
    TileAtOrigin(px / Half, py / Half);
    TileOrigin(TileAt(px / Half, py / Half));
  }

  /** A fill that covers a position is the one `TileAt` names, and has the checkerboard colour. */
  lemma CoveringTile(k: int, px: int, py: int)
    requires InCanvas(px, py) && 0 <= k < Quadrants
    requires Covers(Tiles()[k].box, px, py)
    ensures k == TileAt(px / Half, py / Half)
    ensures Tiles()[k].colour == Palette[(px / Half + py / Half) % 2]
  {
    TileOrigin(k);
    var b := Tiles()[k].box;
    HalfCorner(b.x, px);
    HalfCorner(b.y, py);
    assert Tiles()[k] == Quadrant(CellOfIndex(k / 4), k % 4);
  }

  /**
   The background tiles the canvas: every scene position is painted by exactly
   one fill, in the first palette colour when the position's half-cell column
   and row have an even sum and in the second when the sum is odd.
   */
  lemma TilesPartitionCanvas(px: int, py: int)
    requires InCanvas(px, py)
    ensures exists k :: 0 <= k < Quadrants && Covers(Tiles()[k].box, px, py)
    ensures forall k :: 0 <= k < Quadrants && Covers(Tiles()[k].box, px, py) ==>
      && k == TileAt(px / Half, py / Half)
      && Tiles()[k].colour == Palette[(px / Half + py / Half) % 2]
  {
    TileAtCovers(px, py);
    forall k | 0 <= k < Quadrants && Covers(Tiles()[k].box, px, py)
      ensures k == TileAt(px / Half, py / Half)
      ensures Tiles()[k].colour == Palette[(px / Half + py / Half) % 2]
    {
      CoveringTile(k, px, py);
    }
  }

  /** The colour of each quadrant depends on its position in the cell only, never on the cell. */
  lemma QuadrantColourIgnoresCell(c: Cell, d: Cell, q: int)
    requires 0 <= q < 4
    ensures Quadrant(c, q).colour == Quadrant(d, q).colour
    ensures Quadrant(c, q).colour == (if q < 2 then Palette[0] else Palette[1])
  {
  }

  /** Every fill of the background is coloured by the parity of its half-cell corner. */
  lemma TilesCheckerboard()
    ensures forall k :: 0 <= k < |Tiles()| ==>
      Tiles()[k].colour == Palette[(Tiles()[k].box.x / Half + Tiles()[k].box.y / Half) % 2]
  {
    forall k | 0 <= k < |Tiles()|
      ensures Tiles()[k].colour == Palette[(Tiles()[k].box.x / Half + Tiles()[k].box.y / Half) % 2]
    {
      assert Tiles()[k] == Quadrant(CellOfIndex(k / 4), k % 4);
    }
  }

  /** Steps `4i` to `4i + 3` of the background are the four quadrants of the cell at row-major step `i`. */
  lemma TilesStep(i: int)
    requires 0 <= i < Cells
    ensures 4 * i + 3 < |Tiles()|
    ensures forall q :: 0 <= q < 4 ==> Tiles()[4 * i + q] == Quadrant(CellOfIndex(i), q)
  {
    forall q | 0 <= q < 4
      ensures Tiles()[4 * i + q] == Quadrant(CellOfIndex(i), q)
    {
      assert (4 * i + q) / 4 == i && (4 * i + q) % 4 == q;
    }
  }

  /**
   The paint loop: for each cell in row-major order, its four quadrants;
   1024 half-cell squares inside the scene, coloured as a checkerboard.
   */
  method PaintBackground() returns (fills: seq<Fill>)
    ensures fills == Tiles()
    ensures |fills| == 4 * Size * Size
    ensures forall k :: 0 <= k < |fills| ==>
      && fills[k].box.w == Half && fills[k].box.h == Half
      && Within(fills[k].box, SceneBox)
      && fills[k].colour == Palette[(fills[k].box.x / Half + fills[k].box.y / Half) % 2]
  {
    fills := [];
    var i := 0;
    while i < Cells
      invariant 0 <= i <= Cells
      invariant |fills| == 4 * i
      invariant forall k :: 0 <= k < 4 * i ==> fills[k] == Tiles()[k]
    {
      var c := CellOfIndex(i);
      TilesStep(i);
      fills := fills + [Quadrant(c, 0), Quadrant(c, 1), Quadrant(c, 2), Quadrant(c, 3)];
      i := i + 1;
    }
    TilesInScene();
    TilesCheckerboard();
  }
}

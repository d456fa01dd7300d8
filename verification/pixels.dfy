/**
 The drawable item's pixel grid and the edit rule its mouse handlers apply.
 The grid is an immutable value: every handler returns the grid after the
 event instead of writing into a numpy array.
 */
module Pixels {
  import opened Canvas

  /** `pixels[y][x]`: true where the numpy array holds 1, false where it holds 0. */
  type Grid = seq<seq<bool>>

  /** Qt's mouse-button bitmask as reported by `event.buttons()`. */
  type Buttons = bv32

  const LeftButton: Buttons := 0x1
  const RightButton: Buttons := 0x2

  predicate Valid(g: Grid) {
    |g| == Size && forall y :: 0 <= y < Size ==> |g[y]| == Size
  }

  function Get(g: Grid, c: Cell): bool
    requires Valid(g) && OnGrid(c)
  {
    g[c.y][c.x]
  }

  predicate Holds(b: Buttons, button: Buttons) {
    (b & button) != 0
  }

  /** A freshly constructed item: a `size`x`size` grid of zeros. */
  function Blank(): (g: Grid)
    ensures Valid(g)
    ensures forall c :: OnGrid(c) ==> !Get(g, c)
  {
    seq(Size, _ => seq(Size, _ => false))
  }

  /** `pixels[y][x] = v`: one cell takes the value, no other cell changes. */
  function Store(g: Grid, c: Cell, v: bool): (r: Grid)
    requires Valid(g) && OnGrid(c)
    ensures Valid(r)
    ensures Get(r, c) == v
    ensures forall d :: OnGrid(d) && d != c ==> Get(r, d) == Get(g, d)
  {
    g[c.y := g[c.y][c.x := v]]
  }

  /**
   The edit both mouse handlers apply to the cell under the pointer: the left
   button sets it, then the right button clears it, so right wins when both
   are held; with neither held the grid is unchanged.
   */
  function Edit(g: Grid, c: Cell, b: Buttons): (r: Grid)
    requires Valid(g) && OnGrid(c)
    ensures Valid(r)
    ensures Holds(b, RightButton) ==> !Get(r, c)
    ensures Holds(b, LeftButton) && !Holds(b, RightButton) ==> Get(r, c)
    ensures !Holds(b, LeftButton) && !Holds(b, RightButton) ==> r == g
    ensures forall d :: OnGrid(d) && d != c ==> Get(r, d) == Get(g, d)
  {
    var afterLeft := if Holds(b, LeftButton) then Store(g, c, true) else g;
    if Holds(b, RightButton) then Store(afterLeft, c, false) else afterLeft
  }

  /** Repeating an edit with the same buttons on the same cell changes nothing more. */
  lemma EditIdempotent(g: Grid, c: Cell, b: Buttons)
    requires Valid(g) && OnGrid(c)
    ensures Edit(Edit(g, c, b), c, b) == Edit(g, c, b)
  {
    var once := Edit(g, c, b);
    var twice := Edit(once, c, b);
    forall y | 0 <= y < Size
      ensures twice[y] == once[y]
    {
      forall x | 0 <= x < Size
        ensures twice[y][x] == once[y][x]
      {
        assert Get(twice, Cell(x, y)) == Get(once, Cell(x, y));
      }
    }
  }

  datatype Kind = Press | Move | Release | DoubleClick

  /** A mouse event at an integer scene position with the buttons then held. */
  datatype MouseEvent = MouseEvent(kind: Kind, px: int, py: int, buttons: Buttons)

  /**
   Whether the event writes the pixel array: a press or move with the left or
   right bit held. Only such an event indexes the grid with the pointer cell.
   */
  predicate Writes(e: MouseEvent) {
    (e.kind.Press? || e.kind.Move?) && (Holds(e.buttons, LeftButton) || Holds(e.buttons, RightButton))
  }

  /**
   An event the model accepts: one that writes must point into the canvas;
   every other event is accepted wherever the pointer is.
   */
  predicate Admissible(e: MouseEvent) {
    !Writes(e) || InCanvas(e.px, e.py)
  }

  /**
   What an event does to one cell: `Write(v)` when it leaves `v` there, `Keep`
   when it leaves the cell alone. This is the closed form of the handlers.
   */
  datatype Effect = Keep | Write(v: bool)

  function EffectOn(e: MouseEvent, c: Cell): Effect
    requires Admissible(e)
  {
    if !Writes(e) || CellAt(e.px, e.py) != c then Keep
    else if Holds(e.buttons, RightButton) then Write(false)
    else Write(true)
  }

  function ApplyEffect(f: Effect, v: bool): bool {
    match f
    case Keep => v
    case Write(w) => w
  }

  /**
   The drawable item's handler for one event: press and move run the edit rule
   on the cell under the pointer, release and double-click do nothing. The
   edit rule only reaches the array when the left or right bit is held.
   */
  function Handle(g: Grid, e: MouseEvent): (r: Grid)
    requires Valid(g) && Admissible(e)
    ensures Valid(r)
    ensures forall c :: OnGrid(c) ==> Get(r, c) == ApplyEffect(EffectOn(e, c), Get(g, c))
  {
    if !Writes(e) then g
    else
      match e.kind
      case Press => Edit(g, CellAt(e.px, e.py), e.buttons)
      case Move => Edit(g, CellAt(e.px, e.py), e.buttons)
  }

  /** Press and move apply the identical rule to the grid. */
  lemma PressMoveAgree(g: Grid, e: MouseEvent)
    requires Valid(g) && Admissible(e.(kind := Press))
    ensures Handle(g, e.(kind := Press)) == Handle(g, e.(kind := Move))
  {
  }

  /** Release and double-click leave the grid unchanged, wherever the pointer is. */
  lemma ReleaseDoubleClickKeep(g: Grid, px: int, py: int, b: Buttons)
    requires Valid(g)
    ensures Handle(g, MouseEvent(Release, px, py, b)) == g
    ensures Handle(g, MouseEvent(DoubleClick, px, py, b)) == g
  {
  }

  /**
   A press or move with neither the left nor the right bit held, a hover or
   a middle-button drag, leaves the grid unchanged wherever the pointer is.
   */
  lemma NoEditButtonKeeps(g: Grid, e: MouseEvent)
    requires Valid(g)
    requires !Holds(e.buttons, LeftButton) && !Holds(e.buttons, RightButton)
    ensures Admissible(e)
    ensures Handle(g, e) == g
  {
  }

  /** An event changes at most the one cell under the pointer. */
  lemma HandleTouchesOneCell(g: Grid, e: MouseEvent, d: Cell)
    requires Valid(g) && InCanvas(e.px, e.py) && OnGrid(d)
    requires d != CellAt(e.px, e.py)
    ensures Get(Handle(g, e), d) == Get(g, d)
  {
  }

  /** The grid after a sequence of events, starting from `g`. */
  function Replay(g: Grid, es: seq<MouseEvent>): (r: Grid)
    requires Valid(g)
    requires forall i :: 0 <= i < |es| ==> Admissible(es[i])
    ensures Valid(r)
    decreases |es|
  {
    if es == [] then g else Handle(Replay(g, es[..|es| - 1]), es[|es| - 1])
  }

  /**
   Reference value of one cell after a sequence of events: the value the last
   event that writes the cell stores, or the initial value when none does.
   */
  function LastWrite(es: seq<MouseEvent>, c: Cell, initial: bool): bool
    requires forall i :: 0 <= i < |es| ==> Admissible(es[i])
  {
    if |es| == 0 then initial
    else
      match EffectOn(es[0], c)
      case Write(v) => LastWrite(es[1..], c, v)
      case Keep => LastWrite(es[1..], c, initial)
  }

  /** Replaying events leaves every cell at its last written value. */
  lemma {:induction false} ReplayIsLastWrite(g: Grid, es: seq<MouseEvent>, c: Cell)
    requires Valid(g) && OnGrid(c)
    requires forall i :: 0 <= i < |es| ==> Admissible(es[i])
    ensures Get(Replay(g, es), c) == LastWrite(es, c, Get(g, c))
    decreases |es|
  {
    if es != [] {
      var n := |es| - 1;
      ReplayIsLastWrite(g, es[..n], c);
      LastWriteSnoc(es[..n], es[n], c, Get(g, c));
      assert es[..n] + [es[n]] == es;
    }
  }

  /** Appending one event to the history updates the last written value by its effect. */
  lemma {:induction false} LastWriteSnoc(es: seq<MouseEvent>, e: MouseEvent, c: Cell, initial: bool)
    requires forall i :: 0 <= i < |es| ==> Admissible(es[i])
    requires Admissible(e)
    ensures LastWrite(es + [e], c, initial) == ApplyEffect(EffectOn(e, c), LastWrite(es, c, initial))
    decreases |es|
  {
    if es == [] {
      assert [e][1..] == [];
    } else {
      assert (es + [e])[1..] == es[1..] + [e];
      match EffectOn(es[0], c)
      case Write(v) => LastWriteSnoc(es[1..], e, c, v);
      case Keep => LastWriteSnoc(es[1..], e, c, initial);
    }
  }

  /**
   Example: a left press at (50, 70) sets row 2, column 1 of a blank
   grid, and a right press at the same place clears it again.
   */
  lemma LeftThenRightExample()
    ensures var left := Handle(Blank(), MouseEvent(Press, 50, 70, LeftButton));
            && Get(left, Cell(1, 2))
            && (forall d :: OnGrid(d) && d != Cell(1, 2) ==> !Get(left, d))
            && !Get(Handle(left, MouseEvent(Press, 50, 70, RightButton)), Cell(1, 2))
  {
  }
}

# Pixel-grid editor: a Dafny model

This project models the logic of a small dot-drawing demo. The demo shows a
16×16 canvas of 32-unit cells. Dragging with the left mouse button sets
cells and dragging with the right button clears them. Three scene items are
painted:

- a background of half-cell squares in two greys;
- a half-transparent red square over every set cell;
- grid lines on every cell boundary.

The model is functional. The pixel array is an immutable `seq<seq<bool>>`.
Each mouse handler is a function from the grid before an event to the grid
after it. Each `paint` method is a sequence of draw commands. Each paint loop
is also written as a Dafny method and proved equal to a reference function.

Modules:

- `Canvas` (`canvas.dfy`) holds the constants `size = 16`, `scale = 32` and
  the scene extent `size*scale = 512`. It also holds the pointer-to-cell
  mapping and the row-major cell index the paint loops walk.
- `Draw` (`draw.dfy`) defines colours as RGBA integers, `fillRect` boxes,
  `drawLines` segments and the scene rectangle.
- `Pixels` (`pixels.dfy`) models `DrawableItem`: the zero grid, the edit
  rule shared by press and move, the four mouse handlers, and the replay of
  a whole event history.
- `Overlay` (`overlay.dfy`) models `DrawableItem.paint`.
- `Background` (`background.dfy`) models `BackgroundItem.paint`.
- `GridLines` (`gridlines.dfy`) models `GridItem.paint`.

Two facts about the code shape the model:

- The code keeps no idle/dragging state. A move event edits the cell whenever
  the left or right bit is held, and does nothing otherwise (src/main.py:81-91).
- The mouse handlers have no bounds guard. The model requires a press or move
  with the left or right bit held to lie on the canvas; "## Left out" says why.
  Other events are accepted at any position.

## Model

| member | source | states |
|---|---|---|
| Canvas.CellAt | src/main.py:82-84 | the pointer maps to the one on-grid cell whose 32×32 square contains the position |
| Canvas.PointerExample | src/main.py:94-96 | position (50, 70) maps to column 1, row 2 |
| Canvas.IndexRoundTrip | src/main.py:118-120 | every cell is visited at exactly one row-major step `i`, with `x = i % size` and `y = i // size` |
| Canvas.CellOfIndexRoundTrip | src/main.py:118-120 | step `i` of the row-major walk maps to a cell whose index is `i` again |
| Canvas.IndexOrder | src/main.py:76-77 | the nested row/column loops visit cells in increasing index order: earlier row, or same row further left |
| Draw.SceneIsCanvas | src/main.py:40 | the scene rectangle `(0, 0, size*scale, size*scale)` holds a position exactly when `(px // 32, py // 32)` is a cell of the grid |
| Pixels.Blank | src/main.py:70-72 | a new item's grid is 16×16 with every cell clear |
| Pixels.Store | src/main.py:87 | writing `pixels[y][x]` sets that cell to the value and changes no other cell |
| Pixels.Edit | src/main.py:86-91 | right button held: the cell ends clear, even with left held too; left only: the cell ends set; neither: the grid is unchanged; other cells never change |
| Pixels.EditIdempotent | src/main.py:99-104 | repeating the same edit at the same cell gives the same grid as doing it once |
| Pixels.Handle | src/main.py:81-109 | after any event, each cell holds its old value or the value the event writes there; only press and move at the pointer's cell write |
| Pixels.PressMoveAgree | src/main.py:81-104 | press and move produce identical grids for the same event |
| Pixels.NoEditButtonKeeps | src/main.py:86-91 | a press or move with neither the left nor the right bit held leaves the grid unchanged at any position |
| Pixels.ReleaseDoubleClickKeep | src/main.py:106-109 | release and double-click leave the grid unchanged at any pointer position and with any buttons |
| Pixels.HandleTouchesOneCell | src/main.py:93-104 | an event leaves every cell other than the one under the pointer unchanged |
| Pixels.Replay | src/main.py:81-109 | a history of admissible events keeps the grid 16×16 |
| Pixels.ReplayIsLastWrite | src/main.py:81-109 | after a history of events, each cell holds the value stored by the last event that wrote it, or its initial value if none did |
| Pixels.LeftThenRightExample | src/main.py:93-104 | a left press at (50, 70) sets exactly row 2, column 1 of a blank grid; a right press there clears it again |
| Overlay.OverlayUpToSound | src/main.py:76-79 | every square emitted for the first `n` cells is the 32×32 red square of a set cell among them |
| Overlay.OverlayUpToComplete | src/main.py:76-79 | a cell's square is emitted for the first `n` cells if and only if the cell is among them and set |
| Overlay.OverlayUpToOrdered | src/main.py:76-79 | the emitted squares are strictly increasing in row-major order |
| Overlay.OverlayCharacterised | src/main.py:76-79 | the full overlay holds exactly the squares of the set cells, each once, in row-major order |
| Overlay.OverlayStep | src/main.py:78-79 | visiting cell (x, y) appends that cell's square exactly when `pixels[y][x]` is set |
| Overlay.PaintOverlay | src/main.py:74-79 | the nested paint loop emits one `(x*32, y*32, 32, 32)` red square per set cell and none for clear cells, in row-major order |
| Overlay.OverlayInScene | src/main.py:79 | every overlay square lies inside the scene rectangle |
| Overlay.BlankOverlayEmpty | src/main.py:72-79 | a freshly constructed grid paints no square |
| Overlay.HandleRepaintsOneSquare | src/main.py:76-104 | after an event, the overlay differs at most in the square of the cell under the pointer |
| Background.Quadrant | src/main.py:122-125 | each quadrant is a half-cell square, coloured `colors[0]` when its half-cell column plus row is even and `colors[1]` when it is odd |
| Background.TileOrigin | src/main.py:118-125 | every background fill starts on a half-cell corner inside the canvas, and the corner identifies the fill |
| Background.TilesInScene | src/main.py:118-125 | the background has 1024 fills, each 16×16 and inside [0,512)² |
| Background.TileAtOrigin | src/main.py:118-125 | each half-cell corner of the canvas is the corner of the fill `TileAt` names |
| Background.TileAtCovers | src/main.py:118-125 | every canvas position is painted by the fill `TileAt` names |
| Background.CoveringTile | src/main.py:118-125 | a fill painting a position is the one `TileAt` names, coloured `colors[(px // 16 + py // 16) % 2]` |
| Background.TilesPartitionCanvas | src/main.py:118-125 | every canvas position is painted by exactly one background fill, in `colors[0]` when its half-cell column plus row is even and `colors[1]` when it is odd |
| Background.QuadrantColourIgnoresCell | src/main.py:121-125 | quadrant colours depend only on the quadrant: top-left and bottom-right get `colors[0]`, the other two `colors[1]`, whatever the cell's parity |
| Background.PaintBackground | src/main.py:117-125 | the paint loop emits four quadrants per cell in row-major order: 1024 half-cell squares inside the scene, each in `colors[0]` when its half-cell column plus row is even and `colors[1]` when it is odd |
| GridLines.LinesShape | src/main.py:134-138 | 34 distinct segments: 17 horizontals at y = k·32 spanning x from 0 to 512, then 17 verticals at x = k·32 spanning y from 0 to 512 |
| GridLines.EveryCellOutlined | src/main.py:134-138 | all four sides of every cell lie on drawn segments |
| GridLines.PaintGrid | src/main.py:132-139 | the two paint loops build 34 distinct full-length boundary segments inside the scene: 17 horizontals at y = k·32, then 17 verticals at x = k·32 |

## Left out

- Qt widget classes and wiring are not modelled (src/main.py:6-64). This covers the window, the view, the scroll area, the layout, the scene's event forwarding, z-values and `scene().update()`. They are toolkit plumbing.
- Painter calls are not modelled. Paint functions return draw commands instead of calling `fillRect` and `drawLines`.
- The transparent fill of `widget.rect()` at src/main.py:75 and src/main.py:133 is left out. It depends on the host widget's size.
- The debug `print` calls in the mouse handlers are left out.
- Floating-point pointer positions are modelled as integers. For non-negative positions, `pos // 32` then `int()` agrees with Dafny's `/`.
- Canvas.CellAt: the pointer position must lie on the canvas; see the next line.
- Pixels.Handle: a press or move with the left or right bit held must lie on the canvas. Only such an event indexes the numpy array, with `px // 32` and `py // 32` unchecked (src/main.py:86-91, 99-104). An index from -1 to -16 (a position in [-512, 0)) wraps to a row or column counted from the end. An index of 16 or more, or below -16, raises `IndexError`. That behaviour sits outside the visible code.
- The parity-dependent `color` at src/main.py:121 is never used for any fill. It has no effect, so it is not modelled. `QuadrantColourIgnoresCell` states that the fills do not depend on it.
- `GridItem` and `BackgroundItem` receive forwarded mouse events, but use the toolkit's default handlers. Those handlers do not touch the grid.
- Application start-up and the event loop (src/main.py:141-144) are left out.

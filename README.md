# Tile-grid movement engine of the stealth game (early version)

This project models the logic of `island-files/game.js`, an early version of a top-down stealth game.
It has three parts:

- **Level construction** (module `Grid`, class `Grid.Level`). The game starts from a grid that is all
  wall (tile 1). It carves the central corridor and four rooms out of that grid with `carveRect`, which
  never writes a perimeter cell. Then it opens six fixed door cells (tile 0 is floor). The grid is an
  `array2<int>` that the methods write in place, in the same loop order as the game.
- **Point collision** (`Grid.Level.CanMoveTo`). A pixel position is mapped to its tile by floor
  division by the 60-pixel tile size. The query rejects positions outside the grid and accepts only
  floor tiles.
- **Per-tick player update** (module `Movement`, class `Movement.Player`). The held keys become a
  direction. The X step is applied first and, if blocked, undone. Then the Y step is tried from the
  resulting X, which lets the player slide along walls. The player faces horizontally only when the
  horizontal input is strictly larger. A three-frame walk cycle advances every 120 ms, and standing
  still shows the middle frame.

`Movement.Player.Update` is proved equal to the pure specification `Movement.Step`. The main safety
property is that a player on a floor tile is on a floor tile after every tick
(`Movement.Step`, `Movement.Run`). Combined with the spawn point being floor, this gives
`Movement.NeverInsideWall`: a player who starts at the spawn point never ends a tick inside a wall,
whatever keys are held and however long the game runs.

The grid size comes from the canvas size in the game (`ROWS`, `COLS`). Here it is a constructor
parameter. The shipped 960×540 canvas gives 9 rows and 16 columns. The door assignment at row 6
needs at least 7 rows, because with fewer rows the assignment throws. So the constructor requires
`rows >= 7`. A door whose column is past the end of a row is skipped. In the game such a write
grows that row, but no query ever reads the extra cell. The perimeter stays wall exactly when no
door lands on it. That always holds on canvases of at least 8 rows and 14 columns
(`Grid.Level.PerimeterIsWall`). With 7 rows the door at (6, 7) opens a cell of the bottom wall
(`Grid.Level.SevenRowsBreachPerimeter`).

Positions, `dt` and the animation timer are exact reals. One input holds the keys plus two numbers:
the per-axis step length `stride` and the elapsed time `dt`. The game computes the stride as
`speed * dt / hypot(dx, dy)` in floating point, and the model takes it as given. Each axis step is
the direction integer (-1, 0 or 1) times the stride. The model computes it as `AxisStep`, which
`Movement.AxisStepIsProduct` proves equal to that product. The facing is computed from the raw
direction integers. `Movement.FacingScaleInvariant` proves that the normalisation cannot change the
facing.

Later versions of the game add drones, vision cones, a keycard, a gate and props. This file has none
of them, so the model has none either.

## Model

| member | source | states |
|---|---|---|
| `Grid.Level.FillWalls` | island-files/game.js:26-33 | after the start-up loop every cell of the rows × cols grid is wall |
| `Grid.Level.CarveRect` | island-files/game.js:35-44 | exactly the interior cells inside the inclusive rectangle become floor; every other cell, the perimeter included, keeps its old value |
| `Grid.Level.CarveRooms` | island-files/game.js:46-56 | after the five carves a cell is floor exactly when it is interior and lies in the corridor or one of the four rooms; other cells are unchanged |
| `Grid.Level.OpenDoor` | island-files/game.js:62 | one door assignment sets that cell to floor and changes nothing else; it needs the row to exist |
| `Grid.Level.OpenDoors` | island-files/game.js:58-78 | after the six door assignments the door cells are floor and every other cell is unchanged |
| `Grid.Level.constructor` | island-files/game.js:24-78 | the finished map is rows × cols and equals the layout `LevelTile`: doors and the carved interior are floor, everything else is wall |
| `Grid.Level.DoorsAreFloor` | island-files/game.js:58-78 | in the built level every door cell inside the grid is floor |
| `Grid.Level.PerimeterWallOrDoor` | island-files/game.js:35-78 | in the built level every perimeter cell that is not a door is wall |
| `Grid.Level.PerimeterIsWall` | island-files/game.js:35-78 | with at least 8 rows and 14 columns (the shipped canvas has 9 × 16) the whole perimeter of the built level is wall |
| `Grid.Level.SevenRowsBreachPerimeter` | island-files/game.js:64-65 | with 7 rows the door at row 6, column 7 turns a bottom-wall cell into floor |
| `Grid.TileIndexUnique` | island-files/game.js:140-141 | floor division by the tile size names the one tile whose pixel span contains the coordinate |
| `Grid.Level.CanMoveTo` | island-files/game.js:138-148 | false whenever the floored tile is outside the grid, so the map is never indexed out of range; for an in-grid tile, true exactly when that tile is floor |
| `Grid.Level.CanMoveToMeansFloorTile` | island-files/game.js:138-148 | a point is passable exactly when some floor tile of the grid covers it |
| `Movement.Intent` | island-files/game.js:151-157 | each axis of the direction is -1, 0 or 1; it is +1 or -1 exactly when only one of its two opposite keys (arrow or letter) is held |
| `Movement.AxisStepIsProduct` | island-files/game.js:166-167 | for a direction integer the axis step is that integer times the stride |
| `Movement.Facing` | island-files/game.js:185-190 | horizontal facing exactly when the horizontal component is strictly larger in magnitude; right or left by its sign, otherwise down when dy is positive and up otherwise |
| `Movement.FacingScaleInvariant` | island-files/game.js:162-164 | scaling the direction by a positive factor (the hypot normalisation) does not change the facing |
| `Movement.DiagonalFacesVertically` | island-files/game.js:186-190 | an equal-magnitude diagonal faces down or up |
| `Movement.Animate` | island-files/game.js:192-197 | the frame stays in [0, 3); once the accumulated time reaches 120 ms the timer restarts at 0 and the frame advances by one modulo 3, otherwise only the time accumulates; with non-negative dt the timer stays in [0, 120) |
| `Movement.Resolve` | island-files/game.js:169-183 | each coordinate stays or advances by exactly its step; a passable start stays passable; X advances exactly when its step is free; Y advances exactly when its step is free from the resolved X |
| `Movement.WallSlide` | island-files/game.js:169-180 | a blocked X step does not stop the Y step |
| `Movement.CorridorWallSlide` | island-files/game.js:169-180 | in the built level, moving diagonally from the corridor into the wall beside it keeps X and still moves down |
| `Movement.Step` | island-files/game.js:150-206 | one tick keeps a passable player passable; with no input it keeps position and facing, sets the idle frame 1 and resets the timer; when moving it faces by `Facing`; each coordinate stays or advances by its step; frame and timer stay in range |
| `Movement.Run` | island-files/game.js:127-136 | any sequence of ticks keeps a passable player passable and keeps the animation in range |
| `Movement.SpawnIsPassable` | island-files/game.js:81-89 | the spawn point (7.5, 6.5 tiles) is on a floor tile of the built level |
| `Movement.NeverInsideWall` | island-files/game.js:127-136 | starting from the spawn point, the player is on a floor tile after any number of ticks |
| `Movement.Player.constructor` | island-files/game.js:81-89 | the new player is at the spawn point, facing up, standing, frame 1, timer 0 |
| `Movement.Player.Update` | island-files/game.js:150-206 | one update leaves the player's fields equal to `Step` of their old values |

## Left out

- Drawing the map and the sprite, loading the sprite sheet and computing its frame size
  (island-files/game.js:91-103, 208-268). These are rendering and asset I/O.
- The keyboard listeners (island-files/game.js:105-122). The keys held during a tick are part of the input.
- The `requestAnimationFrame` loop and its timestamp subtraction (island-files/game.js:124-136, 270).
  `dt` is an input, and `Run` stands for calling `update` once per input.
- The `Math.hypot` normalisation and the player's `speed` (island-files/game.js:84, 162-167). The step
  length per axis (`stride`) is an input. The model does not bound or check it.
- Floating-point rounding. Positions and times are exact reals.
- `idleTime` and the `Math.sin` breathing offset (island-files/game.js:125, 199, 204, 238). They only
  affect drawing.
- Grids with fewer than 7 rows. There the game's door assignment at row 6 throws before the game starts.
- Movement.Player.Update: computes each axis step as `AxisStep`, not as the source's multiplication
  `dx * speed * dt`. `Movement.AxisStepIsProduct` proves the two equal for every direction integer.

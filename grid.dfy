/** The tile map of the stealth game: an all-wall grid out of which a corridor
    and four rooms are carved, with a few door cells opened afterwards, and the
    point collision query the player's movement uses. Tile codes are 0 (floor)
    and 1 (wall). */
module Grid {

  /** Side of one square tile, in pixels. */
  const TILE_SIZE: int := 60

  const FLOOR: int := 0
  const WALL: int := 1

  /** An inclusive rectangle of tiles, columns x1..x2 and rows y1..y2, in the
      argument order of carveRect. */
  datatype Rect = Rect(x1: int, y1: int, x2: int, y2: int) {
    predicate Contains(r: int, c: int) {
      y1 <= r <= y2 && x1 <= c <= x2
    }
  }

  /** The central corridor, two tiles wide, from row 1 to the row above the bottom wall. */
  function Corridor(rows: int): Rect { Rect(7, 1, 8, rows - 2) }
  const TopLeft: Rect := Rect(1, 1, 6, 3)
  const TopRight: Rect := Rect(9, 1, 14, 3)
  const BottomLeft: Rect := Rect(1, 5, 6, 7)
  const BottomRight: Rect := Rect(9, 5, 14, 7)

  /** The door cells, as (row, column), in the order the level opens them. */
  const Doors: seq<(int, int)> := [(2, 7), (6, 7), (2, 8), (6, 8), (4, 3), (4, 12)]

  predicate InGrid(rows: int, cols: int, r: int, c: int) {
    0 <= r < rows && 0 <= c < cols
  }

  predicate OnPerimeter(rows: int, cols: int, r: int, c: int) {
    InGrid(rows, cols, r, c) && (r == 0 || r == rows - 1 || c == 0 || c == cols - 1)
  }

  /** The cells carveRect may write: those strictly inside the perimeter. */
  predicate Interior(rows: int, cols: int, r: int, c: int) {
    0 < r < rows - 1 && 0 < c < cols - 1
  }

  predicate InSomeRoom(rows: int, r: int, c: int) {
    Corridor(rows).Contains(r, c) || TopLeft.Contains(r, c) || TopRight.Contains(r, c)
    || BottomLeft.Contains(r, c) || BottomRight.Contains(r, c)
  }

  predicate IsDoor(r: int, c: int) {
    (r, c) in Doors
  }

  /** The tile the finished level holds at (r, c): a door is floor, an interior
      cell of a carved room is floor, everything else is wall. */
  function LevelTile(rows: int, cols: int, r: int, c: int): int {
    if IsDoor(r, c) then FLOOR
    else if Interior(rows, cols, r, c) && InSomeRoom(rows, r, c) then FLOOR
    else WALL
  }

  /** The tile index a pixel coordinate falls in: floor division by TILE_SIZE. */
  function TileIndex(p: real): int {
    (p / TILE_SIZE as real).Floor
  }

  /** The pixel square covered by tile (r, c), half-open on the high side. */
  predicate InTile(x: real, y: real, r: int, c: int) {
    (c * TILE_SIZE) as real <= x < ((c + 1) * TILE_SIZE) as real
    && (r * TILE_SIZE) as real <= y < ((r + 1) * TILE_SIZE) as real
  }

  /** A pixel coordinate lies in exactly one tile, the one TileIndex names. */
  lemma TileIndexUnique(p: real, k: int)
    ensures (k * TILE_SIZE) as real <= p < ((k + 1) * TILE_SIZE) as real <==> TileIndex(p) == k
  {
    var q := p / 60.0;
    assert p == q * 60.0;
    assert (k * TILE_SIZE) as real == k as real * 60.0;
    assert ((k + 1) * TILE_SIZE) as real == (k as real + 1.0) * 60.0;
    assert (k * TILE_SIZE) as real <= p <==> k as real <= q;
    assert p < ((k + 1) * TILE_SIZE) as real <==> q < k as real + 1.0;
  }

  class Level {
    const rows: int
    const cols: int
    /** tiles[r, c], map[r][c] in the game, is the tile in row r, column c. */
    const tiles: array2<int>

    ghost predicate Valid() {
      tiles.Length0 == rows && tiles.Length1 == cols && rows >= 3 && cols >= 3
    }

    /** The map is exactly the finished level layout. */
    ghost predicate Built()
      reads tiles
    {
      Valid() && rows >= 7
      && forall r, c | 0 <= r < rows && 0 <= c < cols :: tiles[r, c] == LevelTile(rows, cols, r, c)
    }

    /** Builds the level: all walls, then the corridor and the four rooms,
        then the doors. */
    constructor (rows: int, cols: int)
      requires rows >= 7 && cols >= 3
      ensures this.rows == rows && this.cols == cols && fresh(tiles)
      ensures Built()
    {
      this.rows := rows;
      this.cols := cols;
      tiles := new int[rows, cols];
      new;
      FillWalls();
      CarveRooms();
      OpenDoors();
    }

    /** Carves the corridor, then the top-left, top-right, bottom-left and
        bottom-right rooms. */
    method CarveRooms()
      requires Valid()
      modifies tiles
      ensures forall r, c | 0 <= r < rows && 0 <= c < cols ::
        tiles[r, c] == if Interior(rows, cols, r, c) && InSomeRoom(rows, r, c) then FLOOR else old(tiles[r, c])
    {
      CarveRect(7, 1, 8, rows - 2);
      CarveRect(1, 1, 6, 3);
      CarveRect(9, 1, 14, 3);
      CarveRect(1, 5, 6, 7);
      CarveRect(9, 5, 14, 7);
    }

    /** Opens the six door cells, one assignment each. */
    method OpenDoors()
      requires Valid() && rows >= 7
      modifies tiles
      ensures forall r, c | 0 <= r < rows && 0 <= c < cols ::
        tiles[r, c] == if IsDoor(r, c) then FLOOR else old(tiles[r, c])
    {
      OpenDoor(2, 7);
      OpenDoor(6, 7);
      OpenDoor(2, 8);
      OpenDoor(6, 8);
      OpenDoor(4, 3);
      OpenDoor(4, 12);
    }

    /** The start-up loop: every cell becomes a wall. */
    method FillWalls()
      requires Valid()
      modifies tiles
      ensures forall r, c | 0 <= r < rows && 0 <= c < cols :: tiles[r, c] == WALL
    {
      var y := 0;
      while y < rows
        invariant 0 <= y <= rows
        invariant forall r, c | 0 <= r < y && 0 <= c < cols :: tiles[r, c] == WALL
      {
        var x := 0;
        while x < cols
          invariant 0 <= x <= cols
          invariant forall r, c | 0 <= r < y && 0 <= c < cols :: tiles[r, c] == WALL
          invariant forall c | 0 <= c < x :: tiles[y, c] == WALL
        {
          tiles[y, x] := WALL;
          x := x + 1;
        }
        y := y + 1;
      }
    }

    /** carveRect: turns to floor every interior cell of the inclusive
        rectangle and leaves every other cell, the perimeter included, as it was. */
    method CarveRect(x1: int, y1: int, x2: int, y2: int)
      requires Valid()
      modifies tiles
      ensures forall r, c | 0 <= r < rows && 0 <= c < cols ::
        tiles[r, c] == if Interior(rows, cols, r, c) && Rect(x1, y1, x2, y2).Contains(r, c)
                     then FLOOR else old(tiles[r, c])
      ensures forall r, c | OnPerimeter(rows, cols, r, c) :: tiles[r, c] == old(tiles[r, c])
    {
      var y := y1;
      while y <= y2
        invariant y1 <= y && (y <= y2 + 1 || y == y1)
        invariant forall r, c | 0 <= r < rows && 0 <= c < cols ::
          tiles[r, c] == if Interior(rows, cols, r, c) && y1 <= r < y && x1 <= c <= x2
                       then FLOOR else old(tiles[r, c])
      {
        var x := x1;
        while x <= x2
          invariant x1 <= x && (x <= x2 + 1 || x == x1)
          invariant forall r, c | 0 <= r < rows && 0 <= c < cols ::
            tiles[r, c] == if Interior(rows, cols, r, c) && ((y1 <= r < y && x1 <= c <= x2) || (r == y && x1 <= c < x))
                         then FLOOR else old(tiles[r, c])
        {
          if y > 0 && y < rows - 1 && x > 0 && x < cols - 1 {
            tiles[y, x] := FLOOR;
          }
          x := x + 1;
        }
        y := y + 1;
      }
    }

    /** One door assignment map[r][c] = 0. The row must exist (otherwise the
        assignment throws); a column past the end of the row writes a cell that
        no query ever reads, so it changes nothing here. */
    method OpenDoor(r: int, c: int)
      requires Valid() && 0 <= r < rows && 0 <= c
      modifies tiles
      ensures forall i, j | 0 <= i < rows && 0 <= j < cols ::
        tiles[i, j] == if i == r && j == c then FLOOR else old(tiles[i, j])
    {
      if c < cols {
        tiles[r, c] := FLOOR;
      }
    }

    /** canMoveTo: a pixel point is passable when its tile is in the grid and is floor. */
    function CanMoveTo(nx: real, ny: real): (ok: bool)
      reads tiles
      requires Valid()
      ensures ok ==> InGrid(rows, cols, TileIndex(ny), TileIndex(nx))
      ensures InGrid(rows, cols, TileIndex(ny), TileIndex(nx)) ==>
        (ok <==> tiles[TileIndex(ny), TileIndex(nx)] == FLOOR)
    {
      var col := TileIndex(nx);
      var row := TileIndex(ny);
      if row < 0 || row >= rows || col < 0 || col >= cols then false
      else tiles[row, col] == FLOOR
    }

    /** canMoveTo agrees with the geometric reading of the grid: a point is
        passable exactly when some floor tile of the grid covers it. */
    lemma CanMoveToMeansFloorTile(x: real, y: real)
      requires Valid()
      ensures CanMoveTo(x, y) <==>
        exists r, c :: InGrid(rows, cols, r, c) && InTile(x, y, r, c) && tiles[r, c] == FLOOR
    {
      var row, col := TileIndex(y), TileIndex(x);
      TileIndexUnique(y, row);
      TileIndexUnique(x, col);
      if CanMoveTo(x, y) {
        assert InGrid(rows, cols, row, col) && InTile(x, y, row, col) && tiles[row, col] == FLOOR;
      }
      forall r, c | InGrid(rows, cols, r, c) && InTile(x, y, r, c) && tiles[r, c] == FLOOR
        ensures CanMoveTo(x, y)
      {
        TileIndexUnique(y, r);
        TileIndexUnique(x, c);
      }
    }

    /** After construction every door cell inside the grid is floor. */
    lemma DoorsAreFloor()
      requires Built()
      ensures forall i | 0 <= i < |Doors| && Doors[i].1 < cols :: tiles[Doors[i].0, Doors[i].1] == FLOOR
    {
      forall i | 0 <= i < |Doors| && Doors[i].1 < cols
        ensures tiles[Doors[i].0, Doors[i].1] == FLOOR
      {
        assert IsDoor(Doors[i].0, Doors[i].1);
      }
    }

    /** After construction every perimeter cell is wall, unless a door was opened on it. */
    lemma PerimeterWallOrDoor()
      requires Built()
      ensures forall r, c | OnPerimeter(rows, cols, r, c) && !IsDoor(r, c) :: tiles[r, c] == WALL
    {
    }

    /** On a canvas of at least 8 rows and 14 columns (the shipped one is 9 by 16)
        no door lies on the perimeter, so the whole perimeter stays wall. */
    lemma PerimeterIsWall()
      requires Built() && rows >= 8 && cols >= 14
      ensures forall r, c | OnPerimeter(rows, cols, r, c) :: tiles[r, c] == WALL
    {
      forall r, c | OnPerimeter(rows, cols, r, c)
        ensures tiles[r, c] == WALL
      {
        assert !IsDoor(r, c);
      }
    }

    /** With only 7 rows the door at row 6 opens a cell of the bottom wall. */
    lemma SevenRowsBreachPerimeter()
      requires Built() && rows == 7 && cols >= 8
      ensures OnPerimeter(rows, cols, 6, 7) && tiles[6, 7] == FLOOR
    {
      assert IsDoor(6, 7);
    }
  }
}

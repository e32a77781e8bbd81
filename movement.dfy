/** The per-tick player update: key state to a direction, axis-separated
    collision resolution (X first, then Y), the facing choice and the
    three-frame walk animation. */
module Movement {
  import opened Grid

  /** Milliseconds per walk-animation frame. */
  const ANIM_SPEED: real := 120.0
  /** Columns of the sprite sheet: the walk cycle has this many frames. */
  const SPRITE_COLS: nat := 3
  /** The frame shown while standing still. */
  const IDLE_FRAME: nat := 1

  datatype Dir = Up | Down | Left | Right

  /** The eight keys the game listens to. */
  datatype Keys = Keys(arrowUp: bool, arrowDown: bool, arrowLeft: bool, arrowRight: bool,
                       w: bool, a: bool, s: bool, d: bool)
  {
    predicate Up() { arrowUp || w }
    predicate Down() { arrowDown || s }
    predicate Left() { arrowLeft || a }
    predicate Right() { arrowRight || d }
  }

  /** What one tick receives: the keys held, the per-axis step length
      speed * dt / hypot(dx, dy) (a floating-point quantity the model takes as
      given), and the elapsed time dt in milliseconds. */
  datatype Input = Input(keys: Keys, stride: real, dt: real)

  /** The player fields update reads and writes. */
  datatype PlayerState = PlayerState(x: real, y: real, dir: Dir, moving: bool, frame: nat, frameTime: real)

  /** Where the game starts the player: the centre of tile (6, 7), in the corridor. */
  const Spawn: PlayerState :=
    PlayerState(7.5 * TILE_SIZE as real, 6.5 * TILE_SIZE as real, Up, false, IDLE_FRAME, 0.0)

  /** The direction integers: each axis is -1, 0 or 1, and is 0 exactly when
      both or neither of its opposite keys are held. */
  function Intent(k: Keys): (d: (int, int))
    ensures -1 <= d.0 <= 1 && -1 <= d.1 <= 1
    ensures d.0 == 1 <==> k.Right() && !k.Left()
    ensures d.0 == -1 <==> k.Left() && !k.Right()
    ensures d.1 == 1 <==> k.Down() && !k.Up()
    ensures d.1 == -1 <==> k.Up() && !k.Down()
  {
    var dy := (if k.Up() then -1 else 0) + (if k.Down() then 1 else 0);
    var dx := (if k.Left() then -1 else 0) + (if k.Right() then 1 else 0);
    (dx, dy)
  }

  /** The step along one axis: the direction integer times the stride. */
  function AxisStep(d: int, stride: real): (step: real)
  {
    if d > 0 then stride else if d < 0 then -stride else 0.0
  }

  /** For a direction integer the step is the product the game computes. */
  lemma AxisStepIsProduct(d: int, stride: real)
    requires -1 <= d <= 1
    ensures AxisStep(d, stride) == d as real * stride
  {
  }

  function Abs(v: real): real { if v < 0.0 then -v else v }

  /** The facing choice: horizontal only when the horizontal component is
      strictly larger, so an equal diagonal faces up or down. */
  function Facing(dx: real, dy: real): (f: Dir)
    ensures (f == Left || f == Right) <==> Abs(dx) > Abs(dy)
    ensures f == Right ==> dx > 0.0
    ensures f == Left ==> dx < 0.0
    ensures f == Down ==> dy > 0.0
    ensures f == Up ==> dy <= 0.0
  {
    if Abs(dx) > Abs(dy) then (if dx > 0.0 then Right else Left)
    else (if dy > 0.0 then Down else Up)
  }

  /** Scaling the direction vector by a positive factor, as the hypot
      normalisation does, does not change the facing; so the facing of the raw
      direction integers is the facing of the normalised vector. */
  lemma FacingScaleInvariant(dx: real, dy: real, k: real)
    requires k > 0.0
    ensures Facing(dx * k, dy * k) == Facing(dx, dy)
  {
    SignScale(dx, k);
    SignScale(dy, k);
    ScalePreservesOrder(Abs(dx), Abs(dy), k);
  }

  /** A positive factor keeps the sign and scales the magnitude. */
  lemma SignScale(v: real, k: real)
    requires k > 0.0
    ensures v * k > 0.0 <==> v > 0.0
    ensures v * k < 0.0 <==> v < 0.0
    ensures Abs(v * k) == Abs(v) * k
  {
    if v > 0.0 {
      assert v * k > 0.0;
    } else if v < 0.0 {
      assert (-v) * k > 0.0;
      assert v * k == -((-v) * k);
    } else {
      assert v * k == 0.0;
    }
  }

  lemma ScalePreservesOrder(a: real, b: real, k: real)
    requires k > 0.0
    ensures a * k > b * k <==> a > b
  {
    assert a * k - b * k == (a - b) * k;
    SignScale(a - b, k);
  }

  /** Equal-magnitude diagonals face vertically. */
  lemma DiagonalFacesVertically(dx: real, dy: real)
    requires Abs(dx) == Abs(dy) && dy != 0.0
    ensures Facing(dx, dy) == (if dy > 0.0 then Down else Up)
  {
  }

  /** One walk-animation step while moving: time accumulates, and once it
      reaches ANIM_SPEED the frame advances cyclically and the time restarts
      from zero (the excess is dropped). */
  function Animate(frame: nat, frameTime: real, dt: real): (r: (nat, real))
    ensures frame < SPRITE_COLS ==> r.0 < SPRITE_COLS
    ensures frameTime + dt >= ANIM_SPEED ==> r.1 == 0.0 && r.0 == (frame + 1) % SPRITE_COLS
    ensures frameTime + dt < ANIM_SPEED ==> r == (frame, frameTime + dt)
    ensures 0.0 <= frameTime && 0.0 <= dt ==> 0.0 <= r.1 < ANIM_SPEED
  {
    var t := frameTime + dt;
    if t >= ANIM_SPEED then ((frame + 1) % SPRITE_COLS, 0.0) else (frame, t)
  }

  /** Collision resolution: try the X step, undo it if blocked, then try the
      Y step from the resulting X, undo it if blocked. */
  function Resolve(level: Level, x: real, y: real, stepX: real, stepY: real): (p: (real, real))
    reads level.tiles
    requires level.Valid()
    ensures p.0 == x || p.0 == x + stepX
    ensures p.1 == y || p.1 == y + stepY
    ensures level.CanMoveTo(x, y) ==> level.CanMoveTo(p.0, p.1)
    ensures (p.0 == x + stepX) <==> (stepX == 0.0 || level.CanMoveTo(x + stepX, y))
    ensures (p.1 == y + stepY) <==> (stepY == 0.0 || level.CanMoveTo(p.0, y + stepY))
  {
    var nx := if level.CanMoveTo(x + stepX, y) then x + stepX else x;
    var ny := if level.CanMoveTo(nx, y + stepY) then y + stepY else y;
    (nx, ny)
  }

  /** Wall sliding: a blocked X step does not stop the Y step. */
  lemma WallSlide(level: Level, x: real, y: real, stepX: real, stepY: real)
    requires level.Valid()
    requires !level.CanMoveTo(x + stepX, y) && level.CanMoveTo(x, y + stepY)
    ensures Resolve(level, x, y, stepX, stepY) == (x, y + stepY)
  {
  }

  predicate Passable(level: Level, s: PlayerState)
    reads level.tiles
    requires level.Valid()
  {
    level.CanMoveTo(s.x, s.y)
  }

  /** The walk frame and its timer are in range. */
  predicate AnimationInRange(s: PlayerState) {
    s.frame < SPRITE_COLS && 0.0 <= s.frameTime < ANIM_SPEED
  }

  /** One call of update: the whole new player state. */
  function Step(level: Level, s: PlayerState, input: Input): (t: PlayerState)
    reads level.tiles
    requires level.Valid()
    ensures Passable(level, s) ==> Passable(level, t)
    ensures t.moving <==> Intent(input.keys) != (0, 0)
    ensures !t.moving ==> t == s.(moving := false, frame := IDLE_FRAME, frameTime := 0.0)
    ensures t.moving ==> t.dir == Facing(Intent(input.keys).0 as real, Intent(input.keys).1 as real)
    ensures t.x == s.x || t.x == s.x + AxisStep(Intent(input.keys).0, input.stride)
    ensures t.y == s.y || t.y == s.y + AxisStep(Intent(input.keys).1, input.stride)
    ensures s.frame < SPRITE_COLS ==> t.frame < SPRITE_COLS
    ensures AnimationInRange(s) && input.dt >= 0.0 ==> AnimationInRange(t)
  {
    var d := Intent(input.keys);
    if d.0 != 0 || d.1 != 0 then
      var p := Resolve(level, s.x, s.y, AxisStep(d.0, input.stride), AxisStep(d.1, input.stride));
      var a := Animate(s.frame, s.frameTime, input.dt);
      PlayerState(p.0, p.1, Facing(d.0 as real, d.1 as real), true, a.0, a.1)
    else
      s.(moving := false, frame := IDLE_FRAME, frameTime := 0.0)
  }

  /** The game loop: update called once per input, in order. */
  function Run(level: Level, s: PlayerState, inputs: seq<Input>): (t: PlayerState)
    reads level.tiles
    requires level.Valid()
    ensures Passable(level, s) ==> Passable(level, t)
    ensures s.frame < SPRITE_COLS ==> t.frame < SPRITE_COLS
    ensures AnimationInRange(s) && (forall i | 0 <= i < |inputs| :: inputs[i].dt >= 0.0) ==> AnimationInRange(t)
    decreases |inputs|
  {
    if inputs == [] then s
    else Run(level, Step(level, s, inputs[0]), inputs[1..])
  }

  /** The spawn point is on a floor tile of the built level. */
  lemma SpawnIsPassable(level: Level)
    requires level.Built() && level.cols >= 8
    ensures Passable(level, Spawn)
  {
    assert TileIndex(Spawn.x) == 7 by { TileIndexUnique(Spawn.x, 7); }
    assert TileIndex(Spawn.y) == 6 by { TileIndexUnique(Spawn.y, 6); }
    assert IsDoor(6, 7);
  }

  /** However long the game runs and whatever keys are held, a player who
      starts at the spawn point is on a floor tile after every tick. */
  lemma NeverInsideWall(level: Level, inputs: seq<Input>)
    requires level.Built() && level.cols >= 8
    ensures Passable(level, Run(level, Spawn, inputs))
  {
    SpawnIsPassable(level);
  }

  /** In the built level, moving right and down from the corridor's right
      half at row 4 is blocked on X by the wall beside it but still moves down. */
  lemma CorridorWallSlide(level: Level)
    requires level.Built() && level.cols >= 10
    ensures Resolve(level, 530.0, 250.0, 20.0, 20.0) == (530.0, 270.0)
  {
    assert TileIndex(550.0) == 9 by { TileIndexUnique(550.0, 9); }
    assert TileIndex(530.0) == 8 by { TileIndexUnique(530.0, 8); }
    assert TileIndex(250.0) == 4 by { TileIndexUnique(250.0, 4); }
    assert TileIndex(270.0) == 4 by { TileIndexUnique(270.0, 4); }
    assert !IsDoor(4, 9);
    assert !level.CanMoveTo(550.0, 250.0);
    assert level.CanMoveTo(530.0, 270.0);
  }

  /** The player object: the fields of the game's player record that update changes. */
  class Player {
    var x: real
    var y: real
    var dir: Dir
    var moving: bool
    var frame: nat
    var frameTime: real

    function State(): PlayerState
      reads this
    {
      PlayerState(x, y, dir, moving, frame, frameTime)
    }

    constructor ()
      ensures State() == Spawn
    {
      x := 7.5 * TILE_SIZE as real;
      y := 6.5 * TILE_SIZE as real;
      dir := Up;
      moving := false;
      frame := IDLE_FRAME;
      frameTime := 0.0;
    }

    /** update(dt): one tick of movement, facing and animation. */
    method Update(level: Level, input: Input)
      requires level.Valid()
      modifies this
      ensures State() == old(Step(level, State(), input))
    {
      ghost var s0 := State();
      var dx, dy := Intent(input.keys).0, Intent(input.keys).1;
      ghost var p := Resolve(level, x, y, AxisStep(dx, input.stride), AxisStep(dy, input.stride));
      ghost var a := Animate(frame, frameTime, input.dt);
      moving := dx != 0 || dy != 0;

      if moving {
        var stepX := AxisStep(dx, input.stride);
        var stepY := AxisStep(dy, input.stride);

        var newX := x + stepX;
        var newY := y;
        if !level.CanMoveTo(newX, newY) {
          newX := x;
        }
        newY := y + stepY;
        if !level.CanMoveTo(newX, newY) {
          newY := y;
        }
        assert (newX, newY) == p;
        x := newX;
        y := newY;

        dir := Facing(dx as real, dy as real);

        frameTime := frameTime + input.dt;
        if frameTime >= ANIM_SPEED {
          frameTime := 0.0;
          frame := (frame + 1) % SPRITE_COLS;
        }
        assert (frame, frameTime) == a;
        assert State() == PlayerState(p.0, p.1, Facing(dx as real, dy as real), true, a.0, a.1);
      } else {
        frame := IDLE_FRAME;
        frameTime := 0.0;
      }
    }
  }
}

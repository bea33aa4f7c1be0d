/** The per-frame world update of the crab game: the tuning constants, the
    entity records the two systems touch, the update rule each system applies
    to one entity, and what those rules guarantee over any number of frames.

    Coordinates are world units with the origin at the centre of the window,
    y growing upwards. `f32` is modelled as `real`. */
module CrabGame {

  // ---------------------------------------------------------------------
  // Constants of the game (window size, physics, obstacle geometry)
  // ---------------------------------------------------------------------

  const WIN_WIDTH: real := 800.0
  const WIN_HEIGHT: real := 500.0

  const GRAVITY: real := 10.0
  const JUMP_ACCEL: real := -500.0

  const BLOCK_WIDTH: real := 70.0
  const BLOCK_SPEED: real := 256.0
  const BLOCK_GAP: real := 140.0

  /** The crab is held between these two heights. */
  const TOP_BOUND: real := WIN_HEIGHT / 2.0
  const BOTTOM_BOUND: real := -WIN_HEIGHT / 2.0

  /** A block whose x falls below this has scrolled off the left edge ... */
  const RECYCLE_X: real := (-WIN_WIDTH / 2.0) - (BLOCK_WIDTH / 2.0)
  /** ... and is put back here, just beyond the right edge. */
  const RESPAWN_X: real := (WIN_WIDTH / 2.0) + (BLOCK_WIDTH / 2.0)

  // ---------------------------------------------------------------------
  // Entity records
  // ---------------------------------------------------------------------

  /** The Velocity component: one scalar speed. For the crab a positive
      speed moves it down; for a block a positive speed moves it left. */
  datatype Velocity = Velocity(speed: real)

  /** What the two systems see of an entity: the x and y of its
      translation and its Velocity component. */
  datatype Entity = Entity(x: real, y: real, vel: Velocity)

  /** What the engine hands the systems in one frame: the elapsed seconds
      and whether the space key went down during that frame. */
  datatype Frame = Frame(dt: real, jump: bool)

  predicate InBounds(y: real) {
    BOTTOM_BOUND <= y <= TOP_BOUND
  }

  // ---------------------------------------------------------------------
  // Initial world (add_sprites)
  // ---------------------------------------------------------------------

  /** The crab: 100 units in from the left edge, mid-height, at rest. */
  function SpawnedCrab(): (e: Entity)
    ensures e.x == -300.0 && e.y == 0.0 && e.vel.speed == 0.0
    ensures InBounds(e.y)
  {
    Entity(-(WIN_WIDTH / 2.0) + 100.0, 0.0, Velocity(0.0))
  }

  /** The upper block, centred on the right edge, raised so that its
      bottom edge sits half a gap above the centre line. */
  function SpawnedUpperBlock(): (e: Entity)
    ensures e.x == 400.0 && e.y == 320.0 && e.vel.speed == 0.0
    ensures e.y - WIN_HEIGHT / 2.0 == BLOCK_GAP / 2.0
  {
    Entity(WIN_WIDTH / 2.0, (WIN_HEIGHT / 2.0) + (BLOCK_GAP / 2.0), Velocity(0.0))
  }

  /** The lower block, the mirror image of the upper one. */
  function SpawnedLowerBlock(): (e: Entity)
    ensures e.x == 400.0 && e.y == -320.0 && e.vel.speed == 0.0
    ensures e.y + WIN_HEIGHT / 2.0 == -BLOCK_GAP / 2.0
  {
    Entity(WIN_WIDTH / 2.0, -WIN_HEIGHT / 2.0 - BLOCK_GAP / 2.0, Velocity(0.0))
  }

  /** Distance between the bottom edge of `upper` and the top edge of
      `lower`, both being blocks WIN_HEIGHT tall. */
  function Gap(upper: Entity, lower: Entity): real {
    (upper.y - WIN_HEIGHT / 2.0) - (lower.y + WIN_HEIGHT / 2.0)
  }

  lemma SpawnedBlocksLeaveGap()
    ensures Gap(SpawnedUpperBlock(), SpawnedLowerBlock()) == BLOCK_GAP
    ensures SpawnedUpperBlock().x == SpawnedLowerBlock().x
  {
  }

  // ---------------------------------------------------------------------
  // One frame of start_gravity for one crab
  // ---------------------------------------------------------------------

  /** Gravity is added once per frame, not scaled by dt; a jump press then
      overwrites the speed; y moves by speed * dt and is finally pushed back
      first below the top bound and then above the bottom bound. The speed
      is left as it is by the clamp. */
  function CrabStep(e: Entity, dt: real, jump: bool): (r: Entity)
    ensures !jump ==> r.vel.speed == e.vel.speed + 10.0
    ensures jump ==> r.vel.speed == -500.0
    ensures -250.0 <= r.y <= 250.0
    ensures InBounds(e.y - r.vel.speed * dt) ==> r.y == e.y - r.vel.speed * dt
    ensures e.y - r.vel.speed * dt > 250.0 ==> r.y == 250.0
    ensures e.y - r.vel.speed * dt < -250.0 ==> r.y == -250.0
    ensures r.x == e.x
  {
    var speed := if jump then JUMP_ACCEL else e.vel.speed + GRAVITY;
    var moved := e.y - speed * dt;
    var belowTop := if moved > TOP_BOUND then TOP_BOUND else moved;
    var clamped := if belowTop < BOTTOM_BOUND then BOTTOM_BOUND else belowTop;
    Entity(e.x, clamped, Velocity(speed))
  }

  /** Without a jump, a crab that ends up moving downwards (positive speed)
      over a positive dt never ends the frame higher than it started, as
      long as it started within the window. */
  lemma FallingNeverRises(e: Entity, dt: real)
    requires InBounds(e.y) && dt > 0.0
    requires e.vel.speed + GRAVITY > 0.0
    ensures CrabStep(e, dt, false).y <= e.y
    ensures CrabStep(e, dt, false).y < e.y || e.y == BOTTOM_BOUND
  {
    var s := e.vel.speed + GRAVITY;
    assert s * dt > 0.0;
  }

  // ---------------------------------------------------------------------
  // One frame of start_block_move for one block
  // ---------------------------------------------------------------------

  /** The speed is set to BLOCK_SPEED, x moves left by speed * dt, and a
      block that went past the left threshold is put back at the right. */
  function BlockStep(e: Entity, dt: real): (r: Entity)
    ensures r.vel.speed == 256.0
    ensures e.x - 256.0 * dt < -435.0 ==> r.x == 435.0
    ensures e.x - 256.0 * dt >= -435.0 ==> r.x == e.x - 256.0 * dt
    ensures r.x >= -435.0
    ensures r.y == e.y
  {
    var speed := BLOCK_SPEED;
    var moved := e.x - speed * dt;
    var x := if moved < RECYCLE_X then RESPAWN_X else moved;
    Entity(x, e.y, Velocity(speed))
  }

  // ---------------------------------------------------------------------
  // Many frames
  // ---------------------------------------------------------------------

  /** The crab after the frames `fs`, first frame first. */
  function RunCrab(e: Entity, fs: seq<Frame>): Entity
    decreases |fs|
  {
    if fs == [] then e else RunCrab(CrabStep(e, fs[0].dt, fs[0].jump), fs[1..])
  }

  /** A block after the frames `fs`; blocks ignore the jump key. */
  function RunBlock(e: Entity, fs: seq<Frame>): Entity
    decreases |fs|
  {
    if fs == [] then e else RunBlock(BlockStep(e, fs[0].dt), fs[1..])
  }

  predicate NoJumps(fs: seq<Frame>) {
    forall i :: 0 <= i < |fs| ==> !fs[i].jump
  }

  predicate TimeMovesForward(fs: seq<Frame>) {
    forall i :: 0 <= i < |fs| ==> fs[i].dt >= 0.0
  }

  /** Running two stretches of frames is running their concatenation. */
  lemma {:induction false} RunCrabAppend(e: Entity, fs: seq<Frame>, gs: seq<Frame>)
    ensures RunCrab(e, fs + gs) == RunCrab(RunCrab(e, fs), gs)
    decreases |fs|
  {
    if fs == [] {
      assert fs + gs == gs;
    } else {
      assert (fs + gs)[0] == fs[0];
      assert (fs + gs)[1..] == fs[1..] + gs;
      RunCrabAppend(CrabStep(e, fs[0].dt, fs[0].jump), fs[1..], gs);
    }
  }

  /** The crab only ever moves vertically. */
  lemma {:induction false} CrabRunKeepsX(e: Entity, fs: seq<Frame>)
    ensures RunCrab(e, fs).x == e.x
    decreases |fs|
  {
    if fs != [] {
      CrabRunKeepsX(CrabStep(e, fs[0].dt, fs[0].jump), fs[1..]);
    }
  }

  /** Whatever the frames and inputs, the crab is within the window after
      them, provided it started there or at least one frame ran. */
  lemma {:induction false} CrabRunInBounds(e: Entity, fs: seq<Frame>)
    requires InBounds(e.y) || |fs| > 0
    ensures InBounds(RunCrab(e, fs).y)
    decreases |fs|
  {
    if fs != [] {
      CrabRunInBounds(CrabStep(e, fs[0].dt, fs[0].jump), fs[1..]);
    }
  }

  /** Without jumps the speed grows by GRAVITY per frame, whatever the dts
      and even while the crab rests on a bound. */
  lemma {:induction false} FreeFall(e: Entity, fs: seq<Frame>)
    requires NoJumps(fs)
    ensures RunCrab(e, fs).vel.speed == e.vel.speed + (|fs| as real) * GRAVITY
    decreases |fs|
  {
    if fs != [] {
      assert !fs[0].jump;
      assert NoJumps(fs[1..]) by {
        forall i | 0 <= i < |fs[1..]| ensures !fs[1..][i].jump {
          assert fs[1..][i] == fs[i + 1];
        }
      }
      FreeFall(CrabStep(e, fs[0].dt, fs[0].jump), fs[1..]);
    }
  }

  /** The speed depends only on the frames since the last jump press: it is
      JUMP_ACCEL plus GRAVITY for every frame after that press. */
  lemma SpeedSinceLastJump(e: Entity, fs: seq<Frame>, j: nat)
    requires j < |fs| && fs[j].jump
    requires NoJumps(fs[j + 1..])
    ensures RunCrab(e, fs).vel.speed == JUMP_ACCEL + ((|fs| - 1 - j) as real) * GRAVITY
  {
    var before, press, after := fs[..j], [fs[j]], fs[j + 1..];
    assert fs == before + press + after;
    RunCrabAppend(e, before + press, after);
    RunCrabAppend(e, before, press);
    var pressed := RunCrab(RunCrab(e, before), press);
    assert pressed == CrabStep(RunCrab(e, before), fs[j].dt, true);
    FreeFall(pressed, after);
  }

  /** Blocks never move vertically. */
  lemma {:induction false} BlockRunKeepsY(e: Entity, fs: seq<Frame>)
    ensures RunBlock(e, fs).y == e.y
    decreases |fs|
  {
    if fs != [] {
      BlockRunKeepsY(BlockStep(e, fs[0].dt), fs[1..]);
    }
  }

  /** After at least one frame a block moves at BLOCK_SPEED, whatever speed
      it had. */
  lemma {:induction false} BlockRunSpeed(e: Entity, fs: seq<Frame>)
    requires |fs| > 0
    ensures RunBlock(e, fs).vel.speed == BLOCK_SPEED
    decreases |fs|
  {
    if |fs| > 1 {
      BlockRunSpeed(BlockStep(e, fs[0].dt), fs[1..]);
    }
  }

  /** Two blocks that start at the same x stay at the same x (lockstep),
      whatever their heights and speeds. */
  lemma {:induction false} BlockRunLockstep(a: Entity, b: Entity, fs: seq<Frame>)
    requires a.x == b.x
    ensures RunBlock(a, fs).x == RunBlock(b, fs).x
    decreases |fs|
  {
    if fs != [] {
      BlockRunLockstep(BlockStep(a, fs[0].dt), BlockStep(b, fs[0].dt), fs[1..]);
    }
  }

  /** With non-negative dts a block between the recycle threshold and the
      respawn point stays between them. */
  lemma {:induction false} BlockRunInRange(e: Entity, fs: seq<Frame>)
    requires TimeMovesForward(fs)
    requires RECYCLE_X <= e.x <= RESPAWN_X
    ensures RECYCLE_X <= RunBlock(e, fs).x <= RESPAWN_X
    decreases |fs|
  {
    if fs != [] {
      assert fs[0].dt >= 0.0;
      assert TimeMovesForward(fs[1..]) by {
        forall i | 0 <= i < |fs[1..]| ensures fs[1..][i].dt >= 0.0 {
          assert fs[1..][i] == fs[i + 1];
        }
      }
      BlockRunInRange(BlockStep(e, fs[0].dt), fs[1..]);
    }
  }

  /** From the initial world, over any frames: the crab keeps its column and
      stays within the window, the two blocks share one x and keep exactly
      BLOCK_GAP between them, and (time moving forward) the blocks stay
      between the recycle threshold and the respawn point. */
  lemma InitialWorldInvariants(fs: seq<Frame>)
    ensures RunCrab(SpawnedCrab(), fs).x == -300.0
    ensures InBounds(RunCrab(SpawnedCrab(), fs).y)
    ensures RunBlock(SpawnedUpperBlock(), fs).x == RunBlock(SpawnedLowerBlock(), fs).x
    ensures Gap(RunBlock(SpawnedUpperBlock(), fs), RunBlock(SpawnedLowerBlock(), fs)) == BLOCK_GAP
    ensures TimeMovesForward(fs) ==> -435.0 <= RunBlock(SpawnedUpperBlock(), fs).x <= 435.0
  {
    CrabRunKeepsX(SpawnedCrab(), fs);
    CrabRunInBounds(SpawnedCrab(), fs);
    BlockRunLockstep(SpawnedUpperBlock(), SpawnedLowerBlock(), fs);
    BlockRunKeepsY(SpawnedUpperBlock(), fs);
    BlockRunKeepsY(SpawnedLowerBlock(), fs);
    if TimeMovesForward(fs) {
      BlockRunInRange(SpawnedUpperBlock(), fs);
    }
  }

  // ---------------------------------------------------------------------
  // Worked frames
  // ---------------------------------------------------------------------

  /** The first frame after spawn at 60 frames per second: speed 10, and the
      crab drops by a sixth of a unit. */
  lemma FirstFrameFromRest()
    ensures CrabStep(SpawnedCrab(), 1.0 / 60.0, false) == Entity(-300.0, -1.0 / 6.0, Velocity(10.0))
  {
  }

  /** The recycle test is strict: a block landing exactly on the threshold
      stays there, one landing a little beyond it is put back at 435. */
  lemma RecycleIsStrict()
    ensures BlockStep(Entity(-435.0, 320.0, Velocity(0.0)), 0.0).x == -435.0
    ensures BlockStep(Entity(-430.0, 320.0, Velocity(0.0)), 1.0 / 32.0).x == 435.0
  {
  }
}

# Crab game: per-frame world update

A model of the simulation core of a small Flappy-Bird-style game written in
Rust on the Bevy engine. The game has one crab (the player) and two red
blocks (the obstacles). Each frame, two systems update the world:

- `start_gravity` moves every crab. Gravity is added to a crab's speed once
  per frame. It is not scaled by the frame time. A press of the space key
  replaces the speed with the jump value. The crab then moves down by
  `speed * dt`, and its height is clamped to the window. The clamp leaves the
  speed alone.
- `start_block_move` moves every block. Its speed is set to the scroll speed,
  and it moves left by `speed * dt`. A block that has moved past the left
  threshold is put back just beyond the right edge. Its height never changes.

`add_sprites` builds the initial world: the crab at rest at (-300, 0), and two
blocks at x = 400. The blocks are 70 wide and as tall as the window. They sit
at y = 320 and y = -320, which leaves a gap of 140 between them.

The model has two modules:

- `CrabGame` (crabgame.dfy) holds the constants, the entity records
  (`Velocity`, `Entity`) and the input of one frame (`Frame`: `dt` and
  whether space was just pressed). It also holds the update rule for one
  entity (`CrabStep`, `BlockStep`, with full contracts), the runs over many
  frames (`RunCrab`, `RunBlock`), and the lemmas about those runs.
- `Systems` (world.dfy) holds a class `World`. Its crab entities and its
  block entities are two arrays of records. The constructor `AddSprites`
  spawns the initial world. `StepCrabs` and `StepBlocks` are the two systems,
  written as loops that update each entity of their array in place. Each
  method is proved to leave every entity exactly as `CrabStep` or `BlockStep`
  says, and to leave the other array untouched.

Engine inputs become parameters: `time.delta_seconds()` is `dt: real` and
`keys.just_pressed(KeyCode::Space)` is `jump: bool`. `f32` values are `real`.

Where the design description and the code differ, the model follows the code:

- The description says obstacles spawn at the right edge offset by half their
  width (x = 435). The code spawns them at x = 400 (src/main.rs:61, 81) and
  uses 435 only as the recycle target.
- The description says that, without a jump, `y` decreases each frame until
  clamped. In the code this holds only while the new speed is positive. Right
  after a jump the speed is still negative, so the crab rises.
  `FallingNeverRises` states the conditional form.
- The description's recycle scenario puts the block at x = -470. The code's
  threshold is -435, and the model uses that.
- Collision detection and the Menu/Play/Over state machine appear in the
  description but not in this code (`GameStatus` is commented out at
  src/main.rs:92-98). They are not modelled.

## Model

| member | source | states |
|---|---|---|
| CrabGame.SpawnedCrab | src/main.rs:43-50 | the crab spawns at (-300, 0) with speed 0, inside the window's vertical bounds |
| CrabGame.SpawnedUpperBlock | src/main.rs:53-69 | the upper block spawns at (400, 320) with speed 0; its bottom edge is half a gap above the centre line |
| CrabGame.SpawnedLowerBlock | src/main.rs:73-89 | the lower block spawns at (400, -320) with speed 0; its top edge is half a gap below the centre line |
| CrabGame.SpawnedBlocksLeaveGap | src/main.rs:57-83 | the upper block's bottom edge minus the lower block's top edge is exactly BLOCK_GAP (140), and both blocks share one x |
| CrabGame.CrabStep | src/main.rs:105-119 | without a jump the speed rises by exactly 10, whatever dt is; with a jump it is exactly -500, whatever it was; the new y is in [-250, 250]; it equals y - speed*dt when that is in bounds, and otherwise the bound that was crossed; x is unchanged |
| CrabGame.FallingNeverRises | src/main.rs:106-119 | without a jump, when the new speed is positive and dt > 0, a crab in the window ends lower than it started, or stays on the bottom bound |
| CrabGame.BlockStep | src/main.rs:127-133 | the speed becomes 256 whatever it was; if x - 256*dt is below -435 the new x is exactly 435, otherwise it is x - 256*dt; the new x is never below -435; y is unchanged |
| CrabGame.RunCrabAppend | src/main.rs:100-121 | running the crab system over two stretches of frames in turn is the same as running it over their concatenation |
| CrabGame.CrabRunKeepsX | src/main.rs:105-119 | over any frames the crab's x never changes |
| CrabGame.CrabRunInBounds | src/main.rs:114-119 | over any frames and inputs, the crab ends within [-250, 250] if it started there or at least one frame ran |
| CrabGame.FreeFall | src/main.rs:106 | over n frames without a jump the speed grows by exactly n * GRAVITY, whatever the dts, even while the clamp holds the crab on a bound |
| CrabGame.SpeedSinceLastJump | src/main.rs:106-109 | the speed after a run is JUMP_ACCEL plus GRAVITY for each frame after the last jump press; earlier history does not matter |
| CrabGame.BlockRunKeepsY | src/main.rs:127-133 | over any frames a block's y never changes |
| CrabGame.BlockRunSpeed | src/main.rs:128 | after at least one frame a block's speed is BLOCK_SPEED, whatever it was before |
| CrabGame.BlockRunLockstep | src/main.rs:127-133 | two blocks with equal x have equal x after any frames, whatever their heights and speeds |
| CrabGame.BlockRunInRange | src/main.rs:129-133 | with non-negative dts, a block whose x is in [-435, 435] keeps it there over any frames |
| CrabGame.InitialWorldInvariants | src/main.rs:39-135 | from the spawned world, over any frames: the crab stays at x = -300 and within the window; the blocks share one x and keep exactly BLOCK_GAP between them; with dt >= 0 their x stays in [-435, 435] |
| CrabGame.FirstFrameFromRest | src/main.rs:105-110 | from spawn, one frame of 1/60 s without a jump gives speed 10 and y = -1/6 |
| CrabGame.RecycleIsStrict | src/main.rs:131-133 | a block landing exactly on -435 is not recycled; one landing at -438 is put back at 435 |
| Systems.World.AddSprites | src/main.rs:39-90 | the world starts with exactly one crab, the spawned crab, and exactly two blocks, upper then lower, in fresh and distinct arrays |
| Systems.World.StepCrabs | src/main.rs:100-121 | every crab becomes CrabStep of its old value for the given dt and jump input; the blocks are unchanged |
| Systems.World.StepBlocks | src/main.rs:123-135 | every block becomes BlockStep of its old value for the given dt; the crabs are unchanged |
| Systems.FirstFrame | src/main.rs:39-135 | after spawning and running both systems once: one crab, in bounds and at x = -300; two blocks at one shared x (400 - 256*dt for dt up to 1 s), still BLOCK_GAP apart |

## Left out

- Engine bootstrap: `main`, the `App` builder, `WindowDescriptor`, `DefaultPlugins` and system registration (src/main.rs:13-26). `RunCrab`/`RunBlock` stand in for the engine's frame loop.
- Bevy runs the two systems in no fixed order. `FirstFrame` runs crabs first, then blocks. The two systems touch disjoint arrays, so the order does not change the result.
- Rendering and assets: the camera, the `crab.png` texture, sprite colour and size (src/main.rs:40, 46, 55-57, 75-77). The blocks' size is used only in the `Gap` computation through the constants.
- The `Crab` and `Block` tag components are not separate values. An entity's tag is which of the two arrays it lives in.
- Transform z, rotation and scale never change and are not modelled. Only the x and y of the translation are.
- `f32` rounding is not modelled; all arithmetic is exact over `real`, so effects near a threshold caused by float rounding are not captured.
- Collision detection, the Menu/Play/Over state machine and loss at a bound do not exist in this code: `GameStatus` is commented out (src/main.rs:92-98) and the loss rule is only a comment (src/main.rs:111-113).
- Randomised block heights are planned in the design but not implemented in the code, so they are not modelled.

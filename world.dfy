/** The entity store the two per-frame systems work on: the crab entities
    and the block entities, each an array of records that the systems
    update in place, one entity per loop iteration. */
module Systems {
  import opened CrabGame

  class World {
    /** Entities tagged Crab (the player). */
    var crabs: array<Entity>
    /** Entities tagged Block (the obstacles). */
    var blocks: array<Entity>

    /** No entity is both a crab and a block. */
    ghost predicate Valid()
      reads this
    {
      crabs != blocks
    }

    /** add_sprites: spawn one crab, then the upper block, then the lower
        block. */
    constructor AddSprites()
      ensures Valid() && fresh(crabs) && fresh(blocks)
      ensures crabs[..] == [SpawnedCrab()]
      ensures blocks[..] == [SpawnedUpperBlock(), SpawnedLowerBlock()]
    {
      var spawnedCrabs := new Entity[1];
      spawnedCrabs[0] := Entity(-(WIN_WIDTH / 2.0) + 100.0, 0.0, Velocity(0.0));
      var spawnedBlocks := new Entity[2];
      spawnedBlocks[0] := Entity(WIN_WIDTH / 2.0, (WIN_HEIGHT / 2.0) + (BLOCK_GAP / 2.0), Velocity(0.0));
      spawnedBlocks[1] := Entity(WIN_WIDTH / 2.0, -WIN_HEIGHT / 2.0 - BLOCK_GAP / 2.0, Velocity(0.0));
      crabs, blocks := spawnedCrabs, spawnedBlocks;
    }

    /** start_gravity: for every crab, add gravity to its speed, let a jump
        press overwrite it, move it by speed * dt and clamp its height to the
        window. Every crab ends up as CrabStep describes; blocks are not
        touched. */
    method StepCrabs(dt: real, jump: bool)
      requires Valid()
      modifies crabs
      ensures Valid()
      ensures forall k :: 0 <= k < crabs.Length ==> crabs[k] == CrabStep(old(crabs[k]), dt, jump)
      ensures blocks[..] == old(blocks[..])
    {
      var i := 0;
      while i < crabs.Length
        invariant 0 <= i <= crabs.Length
        invariant forall k :: 0 <= k < i ==> crabs[k] == CrabStep(old(crabs[k]), dt, jump)
        invariant forall k :: i <= k < crabs.Length ==> crabs[k] == old(crabs[k])
        invariant blocks[..] == old(blocks[..])
      {
        // the components of one entity, updated as the system does, then stored back
        var crab := crabs[i];
        crab := crab.(vel := Velocity(crab.vel.speed + GRAVITY));
        if jump {
          crab := crab.(vel := Velocity(JUMP_ACCEL));
        }
        crab := crab.(y := crab.y - crab.vel.speed * dt);
        if crab.y > WIN_HEIGHT / 2.0 {
          crab := crab.(y := WIN_HEIGHT / 2.0);
        }
        if crab.y < -WIN_HEIGHT / 2.0 {
          crab := crab.(y := -WIN_HEIGHT / 2.0);
        }
        crabs[i] := crab;
        i := i + 1;
      }
    }

    /** start_block_move: for every block, set its speed to BLOCK_SPEED, move
        it left by speed * dt and, once it has passed the left threshold, put
        it back at the respawn point. Every block ends up as BlockStep
        describes; crabs are not touched. */
    method StepBlocks(dt: real)
      requires Valid()
      modifies blocks
      ensures Valid()
      ensures forall k :: 0 <= k < blocks.Length ==> blocks[k] == BlockStep(old(blocks[k]), dt)
      ensures crabs[..] == old(crabs[..])
    {
      var i := 0;
      while i < blocks.Length
        invariant 0 <= i <= blocks.Length
        invariant forall k :: 0 <= k < i ==> blocks[k] == BlockStep(old(blocks[k]), dt)
        invariant forall k :: i <= k < blocks.Length ==> blocks[k] == old(blocks[k])
        invariant crabs[..] == old(crabs[..])
      {
        // the components of one entity, updated as the system does, then stored back
        var block := blocks[i];
        block := block.(vel := Velocity(BLOCK_SPEED));
        block := block.(x := block.x - block.vel.speed * dt);
        if block.x < (-WIN_WIDTH / 2.0) - (BLOCK_WIDTH / 2.0) {
          block := block.(x := (WIN_WIDTH / 2.0) + (BLOCK_WIDTH / 2.0));
        }
        blocks[i] := block;
        i := i + 1;
      }
    }
  }

  /** One frame of the game as a client of the two systems sees it, from the
      freshly spawned world: the crab has taken one step, both blocks have
      moved left together (by 256 * dt, for any dt up to a second) and still
      leave BLOCK_GAP between them. */
  method FirstFrame(dt: real, jump: bool) returns (w: World)
    ensures w.Valid() && w.crabs.Length == 1 && w.blocks.Length == 2
    ensures w.crabs[0] == CrabStep(SpawnedCrab(), dt, jump)
    ensures InBounds(w.crabs[0].y) && w.crabs[0].x == -300.0
    ensures w.blocks[0].x == w.blocks[1].x
    ensures dt <= 1.0 ==> w.blocks[0].x == 400.0 - 256.0 * dt
    ensures Gap(w.blocks[0], w.blocks[1]) == BLOCK_GAP
  {
    w := new World.AddSprites();
    w.StepCrabs(dt, jump);
    w.StepBlocks(dt);
  }
}

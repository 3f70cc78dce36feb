/** The superflat generator: a whole-section fast path over a per-block definition. */
module Generators {
  import opened Powers
  import opened BitStorages
  import opened Palettes
  import opened Blocks
  import opened Chunks

  datatype FlatGenerator = FlatGenerator(surfaceY: int, dirtDepth: int) {

    /** `surface_y - dirt_depth` on `i32`, which wraps. */
    function DirtFloor(): int {
      (surfaceY - dirtDepth + 0x8000_0000) % 0x1_0000_0000 - 0x8000_0000
    }

    /** The fields are `i32`. */
    predicate IsI32() {
      -0x8000_0000 <= surfaceY <= 0x7FFF_FFFF && -0x8000_0000 <= dirtDepth <= 0x7FFF_FFFF
    }

    /** The lowest dirt: the given depth under the surface, or 2^32 away when that is no `i32`. */
    function FloorOfDirt(): int {
      var floor := surfaceY - dirtDepth;
      if floor < -0x8000_0000 then floor + 0x1_0000_0000
      else if floor > 0x7FFF_FFFF then floor - 0x1_0000_0000
      else floor
    }

    lemma DirtFloorWraps()
      requires IsI32()
      ensures DirtFloor() == FloorOfDirt()
    {
    }

    /** The ground layer by layer: bedrock at the very bottom, grass at the surface, dirt below it down to
        its floor, stone between, and air above. */
    lemma LayerLaw(y: int, limits: HeightLimits, states: BlockStates)
      requires IsI32() && limits.minY <= y
      ensures var block := BlockAt(y, limits, states);
        && (y == limits.minY ==> block == states.bedrock)
        && (y == surfaceY > limits.minY ==> block == states.grassBlock)
        && (limits.minY < y < surfaceY && y >= FloorOfDirt() ==> block == states.dirt)
        && (limits.minY < y < surfaceY && y < FloorOfDirt() ==> block == states.stone)
        && (limits.minY < y && surfaceY < y ==> block == states.air)
    {
      DirtFloorWraps();
    }

    /** What the ground is made of at `y`. */
    function BlockAt(y: int, limits: HeightLimits, states: BlockStates): nat {
      if y == limits.minY then states.bedrock
      else if y == surfaceY then states.grassBlock
      else if y < surfaceY && y >= DirtFloor() then states.dirt
      else if y < surfaceY then states.stone
      else states.air
    }

    lemma BlockAtFits(y: int, limits: HeightLimits, states: BlockStates)
      requires states.Registered()
      ensures 1 <= states.DirectBits() <= 32 && BlockAt(y, limits, states) < Pow2(states.DirectBits())
    {
      states.DirectWidthCovers(BlockAt(y, limits, states));
    }

    /** Section `index`, laid down row by row. */
    function Layers(index: nat, limits: HeightLimits, states: BlockStates): seq<nat> {
      seq(4096, k requires 0 <= k => BlockAt(limits.minY + 16 * index + k / 256, limits, states))
    }

    method IsUniform(baseY: int, limits: HeightLimits, states: BlockStates) returns (uniform: bool)
      ensures uniform <==> forall y :: baseY <= y < baseY + 16 ==>
        BlockAt(y, limits, states) == BlockAt(baseY, limits, states)
    {
      var first := BlockAt(baseY, limits, states);
      var y := baseY;
      while y <= baseY + 15
        invariant baseY <= y <= baseY + 16
        invariant forall r :: baseY <= r < y ==> BlockAt(r, limits, states) == first
      {
        if BlockAt(y, limits, states) != first {
          return false;
        }
        y := y + 1;
      }
      return true;
    }

    /** Column `c` of the chunk holds, at every height, the block that belongs there. */
    ghost predicate Laid(blocks: seq<seq<nat>>, limits: HeightLimits, states: BlockStates, c: nat)
      requires Stacked(blocks) && c < COLUMNS && limits.height == 16 * |blocks|
    {
      forall y :: 0 <= y < limits.height ==> At(blocks, c, y) == BlockAt(limits.minY + y, limits, states)
    }

    lemma LayersAreLaid(blocks: seq<seq<nat>>, limits: HeightLimits, states: BlockStates, c: nat)
      requires Stacked(blocks) && c < COLUMNS && limits.height == 16 * |blocks|
      requires forall i :: 0 <= i < |blocks| ==> blocks[i] == Layers(i, limits, states)
      ensures Laid(blocks, limits, states, c)
    {
      hide BlockAt;
      forall y | 0 <= y < limits.height ensures At(blocks, c, y) == BlockAt(limits.minY + y, limits, states) {
        var i, k := y / 16, y % 16 * 256 + c;
        assert blocks[i][k] == Layers(i, limits, states)[k];
        assert k / 256 == y % 16;
      }
    }

    /** The height every column has when the ground is not air: the surface, held within the world. */
    function SurfaceHeight(limits: HeightLimits): int {
      if surfaceY < limits.minY then 1
      else if surfaceY >= limits.minY + limits.height then limits.height
      else surfaceY - limits.minY + 1
    }

    predicate GroundIsSolid(states: BlockStates) {
      states.air !in {states.bedrock, states.stone, states.dirt, states.grassBlock}
    }

    /** Every position holds the block of its height, the heightmaps are those of a naive scan, and
        over solid ground that is the surface. */
    method Generate(limits: HeightLimits, states: BlockStates) returns (chunk: Chunk)
      requires limits.Ok() && states.Registered() && IsI32()
      ensures fresh(chunk) && fresh(chunk.Repr) && chunk.Valid()
      ensures chunk.limits == limits && chunk.states == states
      ensures forall x, y, z :: 0 <= x < 16 && 0 <= z < 16 && limits.minY <= y < limits.minY + limits.height ==>
        && (y == limits.minY ==> chunk.Block(x, y, z) == states.bedrock)
        && (y == surfaceY > limits.minY ==> chunk.Block(x, y, z) == states.grassBlock)
        && (limits.minY < y < surfaceY && y >= FloorOfDirt() ==> chunk.Block(x, y, z) == states.dirt)
        && (limits.minY < y < surfaceY && y < FloorOfDirt() ==> chunk.Block(x, y, z) == states.stone)
        && (limits.minY < y && surfaceY < y ==> chunk.Block(x, y, z) == states.air)
      ensures forall c :: 0 <= c < COLUMNS ==>
        chunk.heightmaps.motionBlocking.Entries()[c] == chunk.heightmaps.worldSurface.Entries()[c]
        == Scan(chunk.blocks, states.air, c, limits.height)
      ensures limits.height > 0 && GroundIsSolid(states) ==> forall c :: 0 <= c < COLUMNS ==>
        chunk.heightmaps.motionBlocking.Entries()[c] == SurfaceHeight(limits)
    {
      hide BitStorage.Valid, BitStorage.Entries, Chunk.SectionOk, Chunk.Apart;
      hide FlatGenerator.BlockAt, Scan, BlockStates.Registered, Layers, SurfaceHeight, At, Laid;
      chunk := new Chunk(limits, states);
      LaySections(chunk);
      chunk.RecomputeHeightmaps();
      forall c | 0 <= c < COLUMNS
        ensures Laid(chunk.blocks, limits, states, c)
        ensures limits.height > 0 && GroundIsSolid(states) ==>
          Scan(chunk.blocks, states.air, c, limits.height) == SurfaceHeight(limits)
      {
        LayersAreLaid(chunk.blocks, limits, states, c);
        if limits.height > 0 && GroundIsSolid(states) { FlatHeight(limits, states, chunk.blocks, c); }
      }
      BlocksAreLaid(chunk);
      forall y | limits.minY <= y < limits.minY + limits.height { LayerLaw(y, limits, states); }
    }

    lemma BlocksAreLaid(chunk: Chunk)
      requires chunk.Valid()
      requires forall c :: 0 <= c < COLUMNS ==> Laid(chunk.blocks, chunk.limits, chunk.states, c)
      ensures forall x, y, z ::
        0 <= x < 16 && 0 <= z < 16
        && chunk.limits.minY <= y < chunk.limits.minY + chunk.limits.height ==>
        chunk.Block(x, y, z) == BlockAt(y, chunk.limits, chunk.states)
    {
      hide BitStorage.Valid, Chunk.SectionOk, Chunk.Apart, Chunk.HeightmapOk, BlockAt, At;
      forall x, y, z | 0 <= x < 16 && 0 <= z < 16 && chunk.limits.minY <= y < chunk.limits.minY + chunk.limits.height
        ensures chunk.Block(x, y, z) == BlockAt(y, chunk.limits, chunk.states)
      {
        assert Laid(chunk.blocks, chunk.limits, chunk.states, z * 16 + x);
      }
    }

    method LaySections(chunk: Chunk)
      requires chunk.Valid()
      requires chunk.blocks == seq(chunk.limits.SectionCount(), _ => Uniform(chunk.states.air))
      modifies chunk.Repr, chunk`Repr, chunk`blocks
      ensures chunk.Valid() && fresh(chunk.Repr - old(chunk.Repr))
      ensures forall i :: 0 <= i < |chunk.blocks| ==> chunk.blocks[i] == Layers(i, chunk.limits, chunk.states)
    {
      hide BitStorage.Valid, BitStorage.Entries, Chunk.SectionOk, Chunk.Apart, Chunk.HeightmapOk;
      hide FlatGenerator.BlockAt, BlockStates.Registered, BlockStates.DirectBits, Pow2;
      var limits, states := chunk.limits, chunk.states;
      for index := 0 to limits.SectionCount()
        invariant chunk.Valid() && fresh(chunk.Repr - old(chunk.Repr))
        invariant forall i :: 0 <= i < limits.SectionCount() ==>
          chunk.blocks[i] == if i < index then Layers(i, limits, states) else Uniform(states.air)
      {
        var baseY := limits.minY + index * SECTION_SIZE;
        BlockAtFits(baseY, limits, states);
        Pow2Mono(states.DirectBits(), ID_BITS);
        var uniform := IsUniform(baseY, limits, states);
        if uniform {
          chunk.FillSection(index, BlockAt(baseY, limits, states));
          assert Uniform(BlockAt(baseY, limits, states)) == Layers(index, limits, states);
        } else {
          FillLayers(chunk, index);
        }
      }
    }

    /** The slow path for a section of air: one row at a time, air rows skipped. */
    method FillLayers(chunk: Chunk, index: nat)
      requires chunk.Valid() && index < |chunk.sections| && chunk.blocks[index] == Uniform(chunk.states.air)
      modifies chunk.Repr, chunk`Repr, chunk`blocks
      ensures chunk.Valid() && fresh(chunk.Repr - old(chunk.Repr))
      ensures chunk.blocks == old(chunk.blocks)[index := Layers(index, chunk.limits, chunk.states)]
    {
      hide BitStorage.Valid, BitStorage.Entries, Chunk.SectionOk, Chunk.HeightmapOk, Chunk.Apart;
      hide FlatGenerator.BlockAt, BlockStates.Registered;
      ghost var was, layers := chunk.blocks, Layers(index, chunk.limits, chunk.states);
      var air := chunk.states.air;
      for localY := 0 to SECTION_SIZE
        invariant chunk.Valid() && fresh(chunk.Repr - old(chunk.Repr))
        invariant |chunk.blocks| == |was| && chunk.blocks == was[index := chunk.blocks[index]]
        invariant forall k :: 0 <= k < 4096 ==> chunk.blocks[index][k] == if k < 256 * localY then layers[k] else air
      {
        var state := BlockAt(chunk.limits.minY + index * SECTION_SIZE + localY, chunk.limits, chunk.states);
        if !chunk.states.IsAir(state) {
          LayersFit(chunk, index);
          BlockAtFits(chunk.limits.minY + index * SECTION_SIZE + localY, chunk.limits, chunk.states);
          FillRow(chunk, index, localY, state);
        }
      }
      assert chunk.blocks[index] == layers;
    }

    /** A section holding only what belongs in it, and air, holds ids of the direct width. */
    lemma LayersFit(chunk: Chunk, index: nat)
      requires chunk.Valid() && index < |chunk.blocks|
      requires forall k :: 0 <= k < 4096 ==>
        chunk.blocks[index][k] in {Layers(index, chunk.limits, chunk.states)[k], chunk.states.air}
      ensures Fits(chunk.blocks[index], chunk.states.DirectBits())
    {
      hide BlockAt, Chunk.SectionOk, Chunk.Apart, Chunk.HeightmapOk, BlockStates.DirectBits;
      chunk.states.DirectWidthCovers(chunk.states.air);
      forall k | 0 <= k < 4096 ensures chunk.blocks[index][k] < Pow2(chunk.states.DirectBits()) {
        BlockAtFits(chunk.limits.minY + 16 * index + k / 256, chunk.limits, chunk.states);
      }
    }

    method FillRow(chunk: Chunk, index: nat, localY: nat, state: nat)
      requires chunk.Valid() && index < |chunk.sections| && localY < 16
      requires state < Pow2(chunk.states.DirectBits()) && Fits(chunk.blocks[index], chunk.states.DirectBits())
      modifies chunk.Repr, chunk`Repr, chunk`blocks
      ensures chunk.Valid() && fresh(chunk.Repr - old(chunk.Repr))
      ensures |chunk.blocks| == |old(chunk.blocks)| && |chunk.blocks[index]| == 4096
      ensures chunk.blocks == old(chunk.blocks)[index := chunk.blocks[index]]
      ensures forall k :: 0 <= k < 4096 ==>
        chunk.blocks[index][k] == if k / 256 == localY then state else old(chunk.blocks)[index][k]
    {
      hide BitStorage.Valid, BitStorage.Entries, Chunk.SectionOk, Chunk.HeightmapOk, Chunk.Apart;
      hide BlockStates.Registered;
      ghost var was := chunk.blocks;
      for z := 0 to SECTION_SIZE
        invariant chunk.Valid() && fresh(chunk.Repr - old(chunk.Repr))
        invariant |chunk.blocks| == |was| && chunk.blocks == was[index := chunk.blocks[index]]
        invariant forall k :: 0 <= k < 4096 ==>
          chunk.blocks[index][k] == if 256 * localY <= k < 256 * localY + 16 * z then state else was[index][k]
      {
        for x := 0 to SECTION_SIZE
          invariant chunk.Valid() && fresh(chunk.Repr - old(chunk.Repr))
          invariant |chunk.blocks| == |was| && chunk.blocks == was[index := chunk.blocks[index]]
          invariant forall k :: 0 <= k < 4096 ==>
            chunk.blocks[index][k] == if 256 * localY <= k < 256 * localY + 16 * z + x then state else was[index][k]
        {
          assert Fits(chunk.blocks[index], chunk.states.DirectBits());
          SectionIndexBijection(x, localY, z, 0);
          chunk.FittingIsTaken(index, SectionIndex(x, localY, z), state);
          var _ := chunk.SetInSection(index, x, localY, z, state);
        }
      }
    }

    lemma FlatHeight(limits: HeightLimits, states: BlockStates, blocks: seq<seq<nat>>, c: nat)
      requires Stacked(blocks) && c < COLUMNS && 0 < limits.height == 16 * |blocks|
      requires Laid(blocks, limits, states, c) && GroundIsSolid(states)
      ensures Scan(blocks, states.air, c, limits.height) == SurfaceHeight(limits)
    {
      ScanIsHighest(blocks, states.air, c, limits.height);
      var top := SurfaceHeight(limits) - 1;
      assert At(blocks, c, top) != states.air;
      assert forall y :: top < y < limits.height ==> At(blocks, c, y) == states.air;
    }
  }
}

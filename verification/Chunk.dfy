/**
  Chunk columns: sections one above the other over the world's height, and the heightmaps.
  A column of blocks is addressed by its heightmap index `c == z * 16 + x`, and by the row
  `y - min_y` counted from the bottom of the world.
 */
module Chunks {
  import opened Powers
  import opened BitStorages
  import opened Palettes
  import opened Blocks
  import opened Wrappers

  const SECTION_SIZE: nat := 16
  const COLUMNS: nat := 256
  const BIOME_BITS: nat := 6

  datatype HeightLimits = HeightLimits(minY: int, height: nat) {
    /** Whole sections, and a height that is an `i32`. */
    ghost predicate Ok() {
      height % 16 == 0 && height <= 0x7FFF_FFFF
    }

    function SectionCount(): nat {
      height / 16
    }

    function MaxY(): int {
      minY + height - 1
    }

    predicate Contains(y: int) {
      minY <= y <= MaxY()
    }

    function HeightmapBits(): nat {
      BitsFor(height + 1)
    }

    /** The heightmap width is the least that tells `height + 1` values apart, and never zero. */
    lemma HeightWidthIsLeast(bits: nat)
      requires bits >= 1
      ensures 1 <= HeightmapBits() && (HeightmapBits() <= bits <==> height + 1 <= Pow2(bits))
    {
      BitsForIsLeast(height + 1, bits);
    }

    /** The heightmap width holds every height, and `BitStorage` accepts it. */
    lemma HeightFits(h: nat)
      requires height <= 0x7FFF_FFFF && h <= height
      ensures 1 <= HeightmapBits() <= MAX_BITS && h < Pow2(HeightmapBits())
    {
      Pow2Of32();
      BitsForIsLeast(height + 1, 32);
      BitsForIsLeast(height + 1, HeightmapBits());
    }
  }

  /** Y-Z-X order; the operands of the program's `|` have no bit in common. */
  function SectionIndex(x: nat, y: nat, z: nat): nat {
    y * 256 + z * 16 + x
  }

  /** Section indices are a bijection with the positions of a section. */
  lemma SectionIndexBijection(x: nat, y: nat, z: nat, i: nat)
    requires x < 16 && y < 16 && z < 16 && i < 4096
    ensures SectionIndex(x, y, z) < 4096
    ensures SectionIndex(x, y, z) == i <==> x == i % 16 && z == i / 16 % 16 && y == i / 256
  {
    assert i / 256 == i / 16 / 16;
    assert SectionIndex(x, y, z) / 16 == y * 16 + z;
  }

  function WithBlock(blocks: seq<seq<nat>>, index: nat, k: nat, id: nat): seq<seq<nat>>
    requires index < |blocks| && k < |blocks[index]|
  {
    var section: seq<nat> := blocks[index][k := id];
    blocks[index := section]
  }

  function WithRow(blocks: seq<seq<nat>>, c: nat, y: nat, id: nat): seq<seq<nat>>
    requires Stacked(blocks) && y / 16 < |blocks| && c < COLUMNS
  {
    WithBlock(blocks, y / 16, y % 16 * 256 + c, id)
  }

  /** A write shows at its own position and nowhere else. */
  lemma WithRowReads(blocks: seq<seq<nat>>, c: nat, y: nat, id: nat, column: nat, row: nat)
    requires Stacked(blocks) && y / 16 < |blocks| && row / 16 < |blocks| && c < COLUMNS && column < COLUMNS
    ensures Stacked(WithRow(blocks, c, y, id))
    ensures At(WithRow(blocks, c, y, id), column, row)
         == if row == y && column == c then id else At(blocks, column, row)
  {
  }

  function Uniform(id: nat): seq<nat> {
    seq(4096, _ => id)
  }

  // ------------------------------------------------------------------ columns as values

  /** The block of column `c` at row `y`, given the contents of each section. */
  function At(blocks: seq<seq<nat>>, c: nat, y: nat): nat
    requires y / 16 < |blocks| && |blocks[y / 16]| == 4096 && c < COLUMNS
  {
    blocks[y / 16][y % 16 * 256 + c]
  }

  ghost predicate Stacked(blocks: seq<seq<nat>>) {
    forall i :: 0 <= i < |blocks| ==> |blocks[i]| == 4096
  }

  /** Naive scan from row `n` down: one above the first block found, 0 for an empty column. */
  function Scan(blocks: seq<seq<nat>>, air: nat, c: nat, n: nat): nat
    requires Stacked(blocks) && c < COLUMNS && n <= 16 * |blocks|
  {
    if n == 0 then 0
    else if At(blocks, c, n - 1) != air then n
    else Scan(blocks, air, c, n - 1)
  }

  /** The scan finds the highest block that is not air. */
  lemma {:induction false} ScanIsHighest(blocks: seq<seq<nat>>, air: nat, c: nat, n: nat)
    requires Stacked(blocks) && c < COLUMNS && n <= 16 * |blocks|
    ensures var h := Scan(blocks, air, c, n);
      h <= n && (h > 0 ==> At(blocks, c, h - 1) != air)
      && forall y :: h <= y < n ==> At(blocks, c, y) == air
  {
    if n > 0 && At(blocks, c, n - 1) == air {
      ScanIsHighest(blocks, air, c, n - 1);
    }
  }

  /** What the downward walk knows of a column once rows from `lo` up are done; 0 means unresolved. */
  function Above(blocks: seq<seq<nat>>, air: nat, c: nat, lo: nat): nat
    requires Stacked(blocks) && c < COLUMNS
  {
    var h := Scan(blocks, air, c, 16 * |blocks|);
    if h > lo then h else 0
  }

  lemma RowStep(blocks: seq<seq<nat>>, air: nat, c: nat, y: nat)
    requires Stacked(blocks) && c < COLUMNS && y < 16 * |blocks|
    ensures Above(blocks, air, c, y)
         == if Above(blocks, air, c, y + 1) != 0 then Above(blocks, air, c, y + 1)
            else if At(blocks, c, y) != air then y + 1 else 0
  {
    ScanIsHighest(blocks, air, c, 16 * |blocks|);
  }

  lemma EmptySectionStep(blocks: seq<seq<nat>>, air: nat, i: nat, c: nat)
    requires Stacked(blocks) && c < COLUMNS && i < |blocks|
    requires forall k :: 0 <= k < 4096 ==> blocks[i][k] == air
    ensures Above(blocks, air, c, 16 * i) == Above(blocks, air, c, 16 * i + 16)
  {
    ScanIsHighest(blocks, air, c, 16 * |blocks|);
    forall y | 16 * i <= y < 16 * i + 16 ensures At(blocks, c, y) == air {
      assert y / 16 == i;
    }
  }

  /** Columns still at the zero sentinel. */
  function Zeros(heights: seq<nat>): nat {
    if |heights| == 0 then 0
    else Zeros(heights[..|heights| - 1]) + if heights[|heights| - 1] == 0 then 1 else 0
  }

  lemma {:induction false} ZerosAfterResolving(heights: seq<nat>, c: nat, h: nat)
    requires c < |heights| && heights[c] == 0 && h != 0
    ensures Zeros(heights[c := h]) == Zeros(heights) - 1
  {
    var n := |heights| - 1;
    if c == n {
      assert heights[c := h][..n] == heights[..n];
    } else {
      ZerosAfterResolving(heights[..n], c, h);
      assert heights[c := h][..n] == heights[..n][c := h];
    }
  }

  lemma {:induction false} NoZeros(heights: seq<nat>)
    ensures Zeros(heights) == 0 <==> forall c :: 0 <= c < |heights| ==> heights[c] != 0
  {
    if |heights| == 0 {
    } else {
      NoZeros(heights[..|heights| - 1]);
      assert forall c :: 0 <= c < |heights| - 1 ==> heights[..|heights| - 1][c] == heights[c];
    }
  }

  lemma {:induction false} AllZeros(heights: seq<nat>)
    requires forall c :: 0 <= c < |heights| ==> heights[c] == 0
    ensures Zeros(heights) == |heights|
  {
    if |heights| == 0 {
    } else {
      AllZeros(heights[..|heights| - 1]);
    }
  }

  lemma {:induction false} CountNone(s: seq<nat>, p: nat -> bool)
    ensures CountIf(s, p) <= |s|
    ensures CountIf(s, p) == 0 <==> forall i :: 0 <= i < |s| ==> !p(s[i])
  {
    if |s| == 0 {
    } else {
      CountNone(s[..|s| - 1], p);
      assert forall i :: 0 <= i < |s| - 1 ==> s[..|s| - 1][i] == s[i];
    }
  }

  function NonAir(states: BlockStates): nat -> bool {
    (id: nat) => !states.IsAir(id)
  }

  // ------------------------------------------------------------------ sections

  /** Two containers, mutated in place. */
  datatype ChunkSection = ChunkSection(blockStates: PalettedContainer, biomes: PalettedContainer) {
    ghost function Footprint(): set<object>
      reads blockStates, biomes
    {
      blockStates.Footprint() + biomes.Footprint()
    }

    ghost predicate Valid(directBits: nat)
      reads blockStates, biomes, Footprint()
    {
      && blockStates.Valid() && blockStates.kind == Blocks && blockStates.directBits == directBits
      && biomes.Valid() && biomes.kind == Biomes && biomes.directBits == BIOME_BITS
      && blockStates.Footprint() !! biomes.Footprint()
    }

    function Block(x: nat, y: nat, z: nat): nat
      reads blockStates, biomes, Footprint()
      requires Valid(blockStates.directBits) && x < 16 && y < 16 && z < 16
    {
      blockStates.Get(SectionIndex(x, y, z))
    }

    /** Non-air blocks, as the `u16` the wire carries. */
    method NonAirCount(states: BlockStates) returns (count: nat)
      requires Valid(blockStates.directBits)
      ensures count == CountIf(blockStates.contents, NonAir(states)) <= 4096
    {
      hide PalettedContainer.Valid, BitStorage.Valid, CountIf, Coherent;
      blockStates.HoldsVolume();
      var total := blockStates.Count(NonAir(states));
      CountNone(blockStates.contents, NonAir(states));
      count := total % 0x1_0000;
    }

    method IsEmpty(states: BlockStates) returns (empty: bool)
      requires Valid(blockStates.directBits)
      ensures empty <==> forall k :: 0 <= k < 4096 ==> blockStates.contents[k] == states.air
    {
      assert |blockStates.contents| == 4096;
      hide Coherent, Pow2, BitStorage.Valid;
      var count := NonAirCount(states);
      CountNone(blockStates.contents, NonAir(states));
      empty := count == 0;
    }
  }

  lemma UnitPower()
    ensures Pow2(0) == 1
  {
  }

  method AirSections(count: nat, states: BlockStates) returns (built: seq<ChunkSection>, ghost owned: set<object>)
    requires states.air < Pow2(ID_BITS)
    ensures fresh(owned) && |built| == count
    ensures forall k :: 0 <= k < count ==>
      && built[k].blockStates in owned && built[k].biomes in owned && built[k].Footprint() <= owned
      && built[k].Valid(states.DirectBits())
      && built[k].blockStates.contents == Uniform(states.air) && built[k].biomes.contents == seq(64, _ => 0)
    ensures forall j, k :: 0 <= j < k < count ==> built[j].Footprint() !! built[k].Footprint()
  {
    hide BitStorage.Valid, PalettedContainer.Valid, BlockStates.DirectBits, BitsFor, Coherent, Pow2, Render, Width;
    hide ContainerKind.MinIndirectBits, ContainerKind.MaxIndirectBits;
    Pow2Mono(0, ID_BITS);
    assert Pow2(0) == 1 by { UnitPower(); }
    built, owned := [], {};
    for i := 0 to count
      invariant |built| == i && fresh(owned)
      invariant forall k :: 0 <= k < i ==>
        && built[k].blockStates in owned && built[k].biomes in owned && built[k].Footprint() <= owned
        && built[k].Valid(states.DirectBits())
        && built[k].blockStates.contents == Uniform(states.air) && built[k].biomes.contents == seq(64, _ => 0)
      invariant forall j, k :: 0 <= j < k < i ==> built[j].Footprint() !! built[k].Footprint()
    {
      var blocks := new PalettedContainer(Blocks, states.DirectBits(), states.air);
      var biomes := new PalettedContainer(Biomes, BIOME_BITS, 0);
      built := built + [ChunkSection(blocks, biomes)];
      owned := owned + blocks.Footprint() + biomes.Footprint();
    }
  }

  datatype Heightmaps = Heightmaps(motionBlocking: BitStorage, worldSurface: BitStorage)

  // ------------------------------------------------------------------ the column

  class Chunk {
    const limits: HeightLimits
    const states: BlockStates
    const sections: seq<ChunkSection>
    const heightmaps: Heightmaps
    ghost var blocks: seq<seq<nat>>
    ghost var Repr: set<object>

    ghost predicate Valid()
      reads this, Repr
    {
      && this !in Repr
      && limits.Ok() && states.Registered()
      && |sections| == limits.SectionCount() == |blocks| && Stacked(blocks)
      && HeightmapOk(heightmaps.motionBlocking) && HeightmapOk(heightmaps.worldSurface)
      && heightmaps.motionBlocking != heightmaps.worldSurface
      && (forall i :: 0 <= i < |sections| ==> SectionOk(i))
      && (forall i, j :: 0 <= i < j < |sections| ==> Apart(i, j))
    }

    /** What the two heightmaps hold. */
    ghost function Heights(): (seq<nat>, seq<nat>)
      reads this, Repr
      requires Valid()
    {
      (heightmaps.motionBlocking.Entries(), heightmaps.worldSurface.Entries())
    }

    ghost predicate HeightmapOk(m: BitStorage)
      reads this, Repr
    {
      m in Repr && m.Valid() && m.len == COLUMNS && m.bits == limits.HeightmapBits()
    }

    ghost predicate SectionOk(i: nat)
      reads this, Repr
      requires i < |sections| == |blocks|
    {
      var s := sections[i];
      && s.blockStates in Repr && s.biomes in Repr && s.Footprint() <= Repr
      && s.Valid(states.DirectBits()) && s.blockStates.contents == blocks[i]
      && heightmaps.motionBlocking !in s.Footprint() && heightmaps.worldSurface !in s.Footprint()
    }

    ghost predicate Apart(i: nat, j: nat)
      reads this, Repr
      requires i < |sections| && j < |sections|
    {
      && sections[i].blockStates in Repr && sections[i].biomes in Repr
      && sections[j].blockStates in Repr && sections[j].biomes in Repr
      && sections[i].Footprint() !! sections[j].Footprint()
    }

    /** An air-filled column. */
    constructor (limits: HeightLimits, states: BlockStates)
      requires limits.Ok() && states.Registered()
      ensures Valid() && fresh(Repr) && this.limits == limits && this.states == states
      ensures |sections| == limits.height / 16 && blocks == seq(limits.height / 16, _ => Uniform(states.air))
      ensures forall i :: 0 <= i < |sections| ==>
        sections[i].biomes.contents == seq(64, _ => 0) && sections[i].biomes.directBits == 6
      ensures Heights() == (seq(256, _ => 0), seq(256, _ => 0))
    {
      hide BitStorage.Valid, PalettedContainer.Valid, BlockStates.DirectBits, BitsFor, Coherent, Pow2, Render, Width;
      hide BitStorage.Entries, BitStorage.IsClean, LayoutOf, Unpack, Clean;
      this.limits := limits;
      this.states := states;
      states.DirectWidthCovers(states.air);
      Pow2Mono(states.DirectBits(), ID_BITS);
      limits.HeightFits(0);
      var motion := new BitStorage(COLUMNS, limits.HeightmapBits());
      var surface := new BitStorage(COLUMNS, limits.HeightmapBits());
      var built, owned := AirSections(limits.SectionCount(), states);
      this.sections := built;
      this.heightmaps := Heightmaps(motion, surface);
      this.Repr := owned + {motion, surface};
      this.blocks := seq(limits.SectionCount(), _ => Uniform(states.air));
    }

    /** Between two states at most one section has changed, keeping to what it had and what is new;
        the heightmaps are free. */
    twostate predicate Confined(index: int)
      reads this, Repr
    {
      && |blocks| == |old(blocks)| && old(Repr) <= Repr
      && (forall j :: 0 <= j < |sections| && j != index && j < |blocks| ==> blocks[j] == old(blocks)[j])
      && (forall o ::
            (o in old(Repr) && o != heightmaps.motionBlocking && o != heightmaps.worldSurface
             && !(0 <= index < |sections| && o in old(sections[index].Footprint())))
            ==> unchanged(o))
      && (0 <= index < |sections| ==>
            && sections[index].blockStates in Repr && sections[index].biomes in Repr
            && sections[index].Footprint() <= Repr
            && fresh(sections[index].Footprint() - old(sections[index].Footprint())))
    }

    /** What a confined change leaves of the others, and that all stay apart. */
    twostate lemma OthersStay(index: int)
      requires old(Valid()) && Confined(index)
      ensures forall j :: 0 <= j < |sections| && j != index ==> SectionOk(j)
      ensures forall i, j :: 0 <= i < j < |sections| ==> Apart(i, j)
    {
      hide BitStorage.Valid, PalettedContainer.Valid, HeightmapOk;
      forall j | 0 <= j < |sections| && j != index
        ensures SectionOk(j) && sections[j].Footprint() == old(sections[j].Footprint())
      {
        assert old(SectionOk(j));
        if 0 <= index < |sections| {
          assert old(SectionOk(index));
          assert old(if j < index then Apart(j, index) else Apart(index, j));
        }
      }
      forall i, j | 0 <= i < j < |sections| ensures Apart(i, j) {
        hide ChunkSection.Footprint, ChunkSection.Valid, SectionOk;
        assert old(Apart(i, j));
      }
    }

    /** Whether writing `state` at position `i` of a section is within what its container takes: any
        id, unless it stores ids inline or would have to. */
    ghost predicate Takes(index: nat, i: nat, state: nat)
      reads this, Repr
      requires Valid() && index < |sections|
    {
      assert SectionOk(index);
      var c := sections[index].blockStates;
      Legal(Blocks, states.DirectBits(), c.Abstract(), SetOp(i, state))
    }

    /** A section of ids of the direct width takes any other such id. */
    lemma FittingIsTaken(index: nat, i: nat, state: nat)
      requires Valid() && index < |sections| && i < 4096
      requires Fits(blocks[index], states.DirectBits()) && state < Pow2(states.DirectBits())
      ensures Takes(index, i, state)
    {
      assert SectionOk(index);
      states.DirectWidthCovers(states.air);
      FittingIsLegal(Blocks, states.DirectBits(), sections[index].blockStates.Abstract(), i, state);
    }

    /** Index of the section that `y` falls in. */
    function SectionOf(y: int): Option<nat> {
      if !limits.Contains(y) then None else Some((y - limits.minY) / 16)
    }

    /** There is nothing but air below the world and above it. */
    function Block(x: nat, y: int, z: nat): (id: nat)
      reads this, Repr
      requires Valid() && x < 16 && z < 16
      ensures limits.minY <= y < limits.minY + limits.height ==> id == At(blocks, z * 16 + x, y - limits.minY)
      ensures !(limits.minY <= y < limits.minY + limits.height) ==> id == states.air
    {
      match SectionOf(y)
      case Some(index) =>
        var localY := (y - limits.minY) % 16;
        assert SectionOk(index);
        sections[index].Block(x, localY, z)
      case None => states.air
    }

    /** Writes one block of a section. */
    method SetInSection(index: nat, x: nat, y: nat, z: nat, state: nat) returns (previous: nat)
      requires Valid() && index < |sections| && x < 16 && y < 16 && z < 16
      requires Takes(index, SectionIndex(x, y, z), state)
      modifies Repr, `Repr, `blocks
      ensures Valid() && fresh(Repr - old(Repr))
      ensures Heights() == old(Heights())
      ensures forall j :: 0 <= j < |sections| ==> sections[j].biomes.contents == old(sections[j].biomes.contents)
      ensures previous == old(blocks)[index][SectionIndex(x, y, z)]
      ensures blocks == WithBlock(old(blocks), index, SectionIndex(x, y, z), state)
    {
      hide BitStorage.Valid, BitStorage.Entries, PalettedContainer.Valid, BlockStates.DirectBits, BitsFor;
      hide HeightLimits.Ok, HeightLimits.HeightmapBits, BlockStates.Registered;
      assert SectionOk(index);
      SeparateSections(index);
      previous := SetBlockState(index, SectionIndex(x, y, z), state);
    }

    method SetBlockState(index: nat, i: nat, state: nat) returns (previous: nat)
      requires Valid() && index < |sections| && Takes(index, i, state)
      modifies sections[index].blockStates.Footprint(), `Repr, `blocks
      ensures Valid() && fresh(Repr - old(Repr))
      ensures previous == old(blocks)[index][i] && blocks == WithBlock(old(blocks), index, i, state)
    {
      hide BitStorage.Valid, BitStorage.Entries, PalettedContainer.Valid, BlockStates.DirectBits, BitsFor;
      hide HeightLimits.Ok, HeightLimits.HeightmapBits, BlockStates.Registered, Pow2;
      hide ContainerKind.MinIndirectBits, ContainerKind.MaxIndirectBits, Render, Width, Note, Firsts, Filled, Coherent;
      assert SectionOk(index);
      SeparateSections(index);
      var container := sections[index].blockStates;
      previous := container.Set(i, state);
      blocks := blocks[index := container.contents];
      Repr := Repr + container.Footprint();
      OthersStay(index);
    }

    /** `fill_blocks` on a section: one step whatever it held. */
    method FillSection(index: nat, state: nat)
      requires Valid() && index < |sections| && state < Pow2(ID_BITS)
      modifies Repr, `Repr, `blocks
      ensures Valid() && fresh(Repr - old(Repr))
      ensures Heights() == old(Heights())
      ensures forall j :: 0 <= j < |sections| ==> sections[j].biomes.contents == old(sections[j].biomes.contents)
      ensures blocks == old(blocks)[index := Uniform(state)]
    {
      hide BitStorage.Valid, BitStorage.Entries, PalettedContainer.Valid, BlockStates.DirectBits, BitsFor;
      hide HeightLimits.Ok, HeightLimits.HeightmapBits, BlockStates.Registered;
      assert SectionOk(index);
      SeparateSections(index);
      FillBlockStates(index, state);
    }

    method FillBlockStates(index: nat, state: nat)
      requires Valid() && index < |sections| && state < Pow2(ID_BITS)
      modifies sections[index].blockStates.Footprint(), `blocks
      ensures Valid() && blocks == old(blocks)[index := Uniform(state)]
    {
      hide BitStorage.Valid, BitStorage.Entries, PalettedContainer.Valid, BlockStates.DirectBits, BitsFor;
      hide HeightLimits.Ok, HeightLimits.HeightmapBits, BlockStates.Registered, Pow2;
      hide ContainerKind.MinIndirectBits, ContainerKind.MaxIndirectBits, Render, Width;
      assert SectionOk(index);
      var container := sections[index].blockStates;
      SeparateSections(index);
      container.Fill(state);
      blocks := blocks[index := container.contents];
      OthersStay(index);
    }

    /** Rebuilds every section at its narrowest; no block changes. */
    method Shrink()
      requires Valid()
      modifies Repr, `Repr
      ensures Valid() && fresh(Repr - old(Repr))
      ensures Heights() == old(Heights())
      ensures forall j :: 0 <= j < |sections| ==> sections[j].biomes.contents == old(sections[j].biomes.contents)
      ensures forall i :: 0 <= i < |sections| ==>
        sections[i].blockStates.seen == Firsts(blocks[i])
        && sections[i].biomes.seen == Firsts(sections[i].biomes.contents)
    {
      hide BitStorage.Valid, PalettedContainer.Valid, BlockStates.DirectBits, BitsFor, SectionOk, Apart, HeightmapOk;
      for i := 0 to |sections|
        invariant Valid() && fresh(Repr - old(Repr))
        invariant forall j :: 0 <= j < i ==>
          sections[j].blockStates.seen == Firsts(blocks[j])
          && sections[j].biomes.seen == Firsts(sections[j].biomes.contents)
        invariant Heights() == old(Heights())
        invariant forall j :: 0 <= j < |sections| ==> sections[j].biomes.contents == old(sections[j].biomes.contents)
      {
        ShrinkSection(i);
      }
    }

    method ShrinkSection(index: nat)
      requires Valid() && index < |sections|
      modifies Repr, `Repr
      ensures Valid() && fresh(Repr - old(Repr))
      ensures Heights() == old(Heights())
      ensures forall j :: 0 <= j < |sections| ==> sections[j].biomes.contents == old(sections[j].biomes.contents)
      ensures sections[index].blockStates.seen == Firsts(blocks[index])
      ensures sections[index].biomes.seen == Firsts(sections[index].biomes.contents)
      ensures forall j :: 0 <= j < |sections| && j != index ==>
        sections[j].blockStates.seen == old(sections[j].blockStates.seen)
        && sections[j].biomes.seen == old(sections[j].biomes.seen)
    {
      hide BitStorage.Valid, PalettedContainer.Valid, BlockStates.DirectBits, BitsFor;
      hide HeightLimits.Ok, HeightLimits.HeightmapBits, BlockStates.Registered, BitStorage.Entries;
      assert SectionOk(index);
      SeparateSections(index);
      var container := sections[index].blockStates;
      container.Shrink();
      Repr := Repr + container.Footprint();
      OthersStay(index);
      ShrinkBiomes(index);
    }

    method ShrinkBiomes(index: nat)
      requires Valid() && index < |sections|
      modifies sections[index].biomes.Footprint(), `Repr
      ensures Valid() && fresh(Repr - old(Repr)) && old(Repr) <= Repr
      ensures Heights() == old(Heights())
      ensures forall j :: 0 <= j < |sections| ==> sections[j].biomes.contents == old(sections[j].biomes.contents)
      ensures sections[index].biomes.seen == Firsts(sections[index].biomes.contents)
      ensures forall j :: 0 <= j < |sections| ==>
        sections[j].blockStates.seen == old(sections[j].blockStates.seen)
        && (j != index ==> sections[j].biomes.seen == old(sections[j].biomes.seen))
    {
      hide BitStorage.Valid, PalettedContainer.Valid, BlockStates.DirectBits, BitsFor;
      hide HeightLimits.Ok, HeightLimits.HeightmapBits, BlockStates.Registered, BitStorage.Entries;
      assert SectionOk(index);
      SeparateSections(index);
      SeparateBiomes(index);
      var container := sections[index].biomes;
      container.Shrink();
      Repr := Repr + container.Footprint();
      OthersStay(index);
    }

    lemma SeparateBiomes(index: nat)
      requires Valid() && index < |sections|
      ensures forall j :: 0 <= j < |sections| && j != index ==>
        sections[j].blockStates in Repr && sections[j].biomes in Repr
        && sections[index].biomes.Footprint() !! sections[j].Footprint()
    {
      forall j | 0 <= j < |sections| && j != index
        ensures sections[j].blockStates in Repr && sections[j].biomes in Repr
          && sections[index].biomes.Footprint() !! sections[j].Footprint()
      {
        assert SectionOk(j);
        assert if j < index then Apart(j, index) else Apart(index, j);
      }
      assert SectionOk(index);
    }

    /** Nothing else of the chunk lives in the footprint of one section's blocks. */
    lemma SeparateSections(index: nat)
      requires Valid() && index < |sections|
      ensures sections[index].blockStates.Footprint() !! sections[index].biomes.Footprint()
      ensures forall j :: 0 <= j < |sections| && j != index ==>
        sections[j].blockStates in Repr && sections[j].biomes in Repr
        && sections[index].blockStates.Footprint() !! sections[j].Footprint()
    {
      forall j | 0 <= j < |sections| && j != index
        ensures sections[j].blockStates in Repr && sections[j].biomes in Repr
          && sections[index].blockStates.Footprint() !! sections[j].Footprint()
      {
        assert SectionOk(j);
        assert if j < index then Apart(j, index) else Apart(index, j);
      }
      assert SectionOk(index);
    }

    /** Within the world one block changes and the one it replaces is returned; elsewhere nothing happens. */
    method SetBlock(x: nat, y: int, z: nat, state: nat) returns (previous: nat)
      requires Valid() && x < 16 && z < 16
      requires SectionOf(y).Some? ==>
        Takes(SectionOf(y).value, SectionIndex(x, (y - limits.minY) % 16, z), state)
      modifies Repr, `Repr, `blocks
      ensures Valid() && fresh(Repr - old(Repr))
      ensures Heights() == old(Heights())
      ensures forall j :: 0 <= j < |sections| ==> sections[j].biomes.contents == old(sections[j].biomes.contents)
      ensures previous == old(Block(x, y, z))
      ensures limits.minY <= y < limits.minY + limits.height ==>
        blocks == WithRow(old(blocks), z * 16 + x, y - limits.minY, state)
      ensures !(limits.minY <= y < limits.minY + limits.height) ==> blocks == old(blocks)
    {
      hide BitStorage.Valid, PalettedContainer.Valid, HeightmapOk, SectionOk, Apart, BlockStates.Registered;
      match SectionOf(y) {
        case Some(index) =>
          previous := SetInSection(index, x, (y - limits.minY) % 16, z, state);
        case None =>
          previous := states.air;
      }
    }

    /** Both heightmaps become, column by column, what a naive top-down scan finds. */
    method RecomputeHeightmaps()
      requires Valid()
      modifies heightmaps.motionBlocking, heightmaps.worldSurface
      ensures Valid()
      ensures forall c :: 0 <= c < COLUMNS ==>
        heightmaps.motionBlocking.Entries()[c] == heightmaps.worldSurface.Entries()[c]
        == Scan(blocks, states.air, c, limits.height)
      ensures old(heightmaps.motionBlocking.IsClean()) ==> heightmaps.motionBlocking.IsClean()
      ensures old(heightmaps.worldSurface.IsClean()) ==> heightmaps.worldSurface.IsClean()
    {
      hide BitStorage.Valid, BitStorage.Entries, PalettedContainer.Valid, BlockStates.DirectBits, BitsFor, Scan, Above;
      var heights := ScanSections();
      var motion, surface := heightmaps.motionBlocking, heightmaps.worldSurface;
      for c := 0 to COLUMNS
        modifies motion, surface
        invariant Valid()
        invariant forall k :: 0 <= k < c ==>
          motion.Entries()[k] == surface.Entries()[k] == Scan(blocks, states.air, k, limits.height)
        invariant old(motion.IsClean()) ==> motion.IsClean()
        invariant old(surface.IsClean()) ==> surface.IsClean()
      {
        ScanIsHighest(blocks, states.air, c, limits.height);
        Record(c, heights[c]);
      }
    }

    method Record(c: nat, height: nat)
      requires Valid() && c < COLUMNS && height <= limits.height
      modifies heightmaps.motionBlocking, heightmaps.worldSurface
      ensures Valid()
      ensures heightmaps.motionBlocking.Entries() == old(heightmaps.motionBlocking.Entries())[c := height]
      ensures heightmaps.worldSurface.Entries() == old(heightmaps.worldSurface.Entries())[c := height]
      ensures old(heightmaps.motionBlocking.IsClean()) ==> heightmaps.motionBlocking.IsClean()
      ensures old(heightmaps.worldSurface.IsClean()) ==> heightmaps.worldSurface.IsClean()
    {
      hide BitStorage.Valid, BitStorage.Entries, PalettedContainer.Valid, BlockStates.DirectBits, BitsFor;
      limits.HeightFits(height);
      var _ := heightmaps.motionBlocking.Set(c, height);
      var _ := heightmaps.worldSurface.Set(c, height);
      OthersStay(-1);
    }

    /** From the topmost section to the lowest, skipping empty ones and stopping once every column is resolved. */
    method ScanSections() returns (heights: array<nat>)
      requires Valid()
      ensures fresh(heights) && heights.Length == COLUMNS
      ensures forall c :: 0 <= c < COLUMNS ==> heights[c] == Scan(blocks, states.air, c, limits.height)
    {
      hide BitStorage.Valid, BitStorage.Entries, PalettedContainer.Valid, BlockStates.DirectBits, BitsFor, Scan;
      heights := new nat[COLUMNS](_ => 0);
      AllZeros(heights[..]);
      var unresolved := COLUMNS;
      var index := |sections|;
      forall c | 0 <= c < COLUMNS ensures Above(blocks, states.air, c, limits.height) == 0 {
        ScanIsHighest(blocks, states.air, c, limits.height);
      }
      while index > 0
        invariant 0 <= index <= |sections| && unresolved == Zeros(heights[..])
        invariant forall c :: 0 <= c < COLUMNS ==> heights[c] == Above(blocks, states.air, c, 16 * index)
      {
        if unresolved == 0 {
          break;
        }
        index := index - 1;
        assert SectionOk(index);
        var empty := sections[index].IsEmpty(states);
        if empty {
          forall c | 0 <= c < COLUMNS
            ensures Above(blocks, states.air, c, 16 * index) == Above(blocks, states.air, c, 16 * index + 16)
          {
            EmptySectionStep(blocks, states.air, index, c);
          }
        } else {
          unresolved := ScanRows(heights, unresolved, index);
        }
      }
      Resolved(heights[..], blocks, states.air, 16 * index);
    }

    /** The rows of one section, top down; stops at once when no column is left unresolved. */
    method ScanRows(heights: array<nat>, before: nat, index: nat) returns (unresolved: nat)
      requires Valid() && index < |sections| && heights.Length == COLUMNS && before == Zeros(heights[..])
      requires forall c :: 0 <= c < COLUMNS ==> heights[c] == Above(blocks, states.air, c, 16 * index + 16)
      requires heights !in Repr
      modifies heights
      ensures unresolved == Zeros(heights[..])
      ensures forall c :: 0 <= c < COLUMNS ==> heights[c] == Above(blocks, states.air, c, 16 * index)
    {
      hide BitStorage.Valid, BitStorage.Entries, PalettedContainer.Valid, BlockStates.DirectBits, BitsFor, Scan, Above;
      unresolved := before;
      var localY := SECTION_SIZE;
      while localY > 0
        invariant 0 <= localY <= SECTION_SIZE && unresolved == Zeros(heights[..])
        invariant forall c :: 0 <= c < COLUMNS ==> heights[c] == Above(blocks, states.air, c, 16 * index + localY)
      {
        if unresolved == 0 {
          ResolvedStays(heights[..], blocks, states.air, 16 * index + localY, 16 * index);
          break;
        }
        localY := localY - 1;
        unresolved := ScanRow(heights, unresolved, index, localY);
      }
    }

    /** One row: columns that already have their height are passed over. */
    method ScanRow(heights: array<nat>, before: nat, index: nat, localY: nat) returns (unresolved: nat)
      requires Valid() && index < |sections| && localY < SECTION_SIZE
      requires heights.Length == COLUMNS && before == Zeros(heights[..]) && heights !in Repr
      requires forall c :: 0 <= c < COLUMNS ==> heights[c] == Above(blocks, states.air, c, 16 * index + localY + 1)
      modifies heights
      ensures unresolved == Zeros(heights[..])
      ensures forall c :: 0 <= c < COLUMNS ==> heights[c] == Above(blocks, states.air, c, 16 * index + localY)
    {
      hide BitStorage.Valid, BitStorage.Entries, PalettedContainer.Valid, BlockStates.DirectBits, BitsFor;
      hide Scan, Above, Zeros;
      unresolved := before;
      ghost var air, all, y := states.air, blocks, 16 * index + localY;
      for z := 0 to SECTION_SIZE
        invariant unresolved == Zeros(heights[..]) && RowDone(heights[..], all, air, y, z * 16)
      {
        for x := 0 to SECTION_SIZE
          invariant unresolved == Zeros(heights[..]) && RowDone(heights[..], all, air, y, z * 16 + x)
        {
          var column := z * SECTION_SIZE + x;
          RowStep(all, air, column, y);
          assert SectionOk(index);
          if heights[column] == 0 && !states.IsAir(sections[index].Block(x, localY, z)) {
            var height: nat := index * SECTION_SIZE + localY + 1;
            ghost var was: seq<nat> := heights[..];
            ZerosAfterResolving(was, column, height);
            heights[column] := height;
            assert heights[..] == was[column := height];
            unresolved := unresolved - 1;
          }
        }
      }
    }
  }

  /** Columns below `done` know row `y`; the others know the rows above it. */
  ghost predicate RowDone(heights: seq<nat>, blocks: seq<seq<nat>>, air: nat, y: nat, done: nat)
    requires Stacked(blocks) && |heights| == COLUMNS
  {
    forall c :: 0 <= c < COLUMNS ==> heights[c] == Above(blocks, air, c, if c < done then y else y + 1)
  }

  lemma ResolvedStays(heights: seq<nat>, blocks: seq<seq<nat>>, air: nat, lo: nat, lower: nat)
    requires Stacked(blocks) && |heights| == COLUMNS && lower <= lo && Zeros(heights) == 0
    requires forall c :: 0 <= c < COLUMNS ==> heights[c] == Above(blocks, air, c, lo)
    ensures forall c :: 0 <= c < COLUMNS ==> heights[c] == Above(blocks, air, c, lower)
  {
    NoZeros(heights);
  }

  /** Once nothing is unresolved, or nothing is left to scan, the walk agrees with the naive scan. */
  lemma Resolved(heights: seq<nat>, blocks: seq<seq<nat>>, air: nat, lo: nat)
    requires Stacked(blocks) && |heights| == COLUMNS && (lo == 0 || Zeros(heights) == 0)
    requires forall c :: 0 <= c < COLUMNS ==> heights[c] == Above(blocks, air, c, lo)
    ensures forall c :: 0 <= c < COLUMNS ==> heights[c] == Scan(blocks, air, c, 16 * |blocks|)
  {
    NoZeros(heights);
  }
}

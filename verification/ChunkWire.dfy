/**
  The chunk-data wire form. `WriteShape` is what a container writes; `ReadShape` is a reader put
  together from the protocol's own primitives, and shows that nothing is lost.
 */
module ChunkWires {
  import opened Arithmetic
  import opened Powers
  import opened Bytes
  import opened Varints
  import opened Words
  import opened BitStorages
  import opened Palettes
  import opened Blocks
  import opened Chunks
  import opened Wrappers

  // ------------------------------------------------------------------ written form

  function IdsBytes(ids: seq<nat>): seq<byte> {
    if |ids| == 0 then [] else VarintOf(ids[0]) + IdsBytes(ids[1..])
  }

  function CellsBytes(cells: seq<Word>): seq<byte> {
    if |cells| == 0 then [] else BigEndian(ToNat(cells[0]), 8) + CellsBytes(cells[1..])
  }

  function WriteShape(shape: Shape): seq<byte>
    requires shape.SingleShape? || shape.bits < 256
  {
    match shape
    case SingleShape(v) => [0] + VarintOf(v) + VarintOf(0)
    case IndirectShape(palette, bits, cells) =>
      [bits] + VarintOf(|palette|) + IdsBytes(palette) + VarintOf(|cells|) + CellsBytes(cells)
    case DirectShape(bits, cells) => [bits] + VarintOf(|cells|) + CellsBytes(cells)
  }

  /** Each cell takes eight bytes, its most significant first. */
  lemma {:induction false} CellBytes(cells: seq<Word>, j: nat, k: nat)
    requires j < |cells| && k < 8
    ensures |CellsBytes(cells)| == 8 * |cells|
    ensures CellsBytes(cells)[8 * j + k] == Rem(Quot(ToNat(cells[j]), Pow2(8 * (7 - k))), 256)
    decreases |cells|
  {
    hide ToNat, BigEndian, Quot, Rem, Pow2;
    CellsLength(cells);
    if j == 0 {
      BigEndianDigit(ToNat(cells[0]), 8, k);
    } else {
      CellBytes(cells[1..], j - 1, k);
    }
  }

  /** A container of each form, byte by byte; the id 300 takes two bytes. */
  lemma KnownBytes(w: Word, u: Word)
    ensures WriteShape(SingleShape(300)) == [0, 0xAC, 0x02, 0]
    ensures WriteShape(IndirectShape([300, 7], 1, [w]))
      == [1, 2, 0xAC, 0x02, 7, 1] + BigEndian(ToNat(w), 8)
    ensures WriteShape(DirectShape(6, [w, u])) == [6, 2] + BigEndian(ToNat(w), 8) + BigEndian(ToNat(u), 8)
  {
    hide BigEndian, ToNat, VarintOf, IdsBytes, CellsBytes;
    SmallVarints();
    OneByOne(300, 7, w, u);
  }

  lemma OneByOne(m: nat, n: nat, w: Word, u: Word)
    ensures IdsBytes([m, n]) == VarintOf(m) + VarintOf(n)
    ensures CellsBytes([w]) == BigEndian(ToNat(w), 8)
    ensures CellsBytes([w, u]) == BigEndian(ToNat(w), 8) + BigEndian(ToNat(u), 8)
  {
    hide BigEndian, ToNat, VarintOf;
    assert [n][1..] == [] && [m, n][1..] == [n];
    assert IdsBytes([n]) == VarintOf(n) + IdsBytes([]) == VarintOf(n);
    assert [u][1..] == [] && [w][1..] == [] && [w, u][1..] == [u];
  }

  lemma SmallVarints()
    ensures VarintOf(0) == [0] && VarintOf(1) == [1] && VarintOf(2) == [2] && VarintOf(7) == [7]
    ensures VarintOf(300) == [0xAC, 0x02]
  {
    Pow2Of32();
    assert Pow2(32) == 2 * Pow2(31);
    forall n: nat | n <= 300 ensures AsUnsigned(AsSigned(n, 32), 32) == n { UnsignedRoundTrip(n, 32); }
    assert VarBytes(300) == [0xAC] + VarBytes(2);
  }

  // ------------------------------------------------------------------ a reader

  /** A VarInt taken as the `u32` it was cast from. */
  function ReadId(bytes: seq<byte>): (r: Option<(nat, seq<byte>)>)
    ensures r.Some? ==> |r.value.1| < |bytes|
  {
    match ReadVarint(bytes)
    case Success((v, used)) => Some((AsUnsigned(v, 32), bytes[used..]))
    case Failure(_) => None
  }

  function ReadIds(n: nat, bytes: seq<byte>): Option<(seq<nat>, seq<byte>)> {
    if n == 0 then Some(([], bytes))
    else match ReadId(bytes)
      case None => None
      case Some((id, rest)) =>
        match ReadIds(n - 1, rest)
        case None => None
        case Some((ids, tail)) => Some(([id] + ids, tail))
  }

  function ReadPalette(bytes: seq<byte>): Option<(seq<nat>, seq<byte>)> {
    match ReadId(bytes)
    case None => None
    case Some((n, rest)) => ReadIds(n, rest)
  }

  function ReadCells(n: nat, bytes: seq<byte>): Option<(seq<Word>, seq<byte>)> {
    if n == 0 then Some(([], bytes))
    else if |bytes| < 8 then None
    else match ReadCells(n - 1, bytes[8..])
      case None => None
      case Some((cells, tail)) => Some(([FromNat(FromBigEndian(bytes[..8]), WORD_BITS)] + cells, tail))
  }

  /** The cell array of a storage, refused like `from_data` unless it has the right length. */
  function ReadStorage(kind: ContainerKind, bits: nat, bytes: seq<byte>): Option<(seq<Word>, seq<byte>)> {
    match ReadId(bytes)
    case None => None
    case Some((n, rest)) =>
      if bits == 0 || bits > MAX_BITS || n != CellsRequired(kind.Volume(), bits) then None
      else ReadCells(n, rest)
  }

  function ReadShape(kind: ContainerKind, bytes: seq<byte>): Option<(Shape, seq<byte>)> {
    if |bytes| == 0 then None
    else
      var bits, rest := bytes[0], bytes[1..];
      if bits == 0 then
        match ReadId(rest)
        case None => None
        case Some((v, more)) =>
          match ReadId(more)
          case None => None
          case Some((n, tail)) => if n != 0 then None else Some((SingleShape(v), tail))
      else if bits <= kind.MaxIndirectBits() then
        match ReadPalette(rest)
        case None => None
        case Some((palette, last)) =>
          match ReadStorage(kind, bits, last)
          case None => None
          case Some((cells, tail)) => Some((IndirectShape(palette, bits, cells), tail))
      else
        match ReadStorage(kind, bits, rest)
        case None => None
        case Some((cells, tail)) => Some((DirectShape(bits, cells), tail))
  }

  // ------------------------------------------------------------------ round trips

  lemma ReadIdWritten(n: nat, rest: seq<byte>)
    requires n < Pow2(32)
    ensures ReadId(VarintOf(n) + rest) == Some((n, rest))
  {
    ReadVarintOf(n, rest);
    UnsignedRoundTrip(n, 32);
    assert (VarintOf(n) + rest)[|VarintOf(n)|..] == rest;
  }

  lemma {:induction false} ReadIdsWritten(ids: seq<nat>, rest: seq<byte>)
    requires Fits(ids, 32)
    ensures ReadIds(|ids|, IdsBytes(ids) + rest) == Some((ids, rest))
    decreases |ids|
  {
    hide VarintOf, ReadId;
    if |ids| > 0 {
      assert IdsBytes(ids) + rest == VarintOf(ids[0]) + (IdsBytes(ids[1..]) + rest);
      ReadIdWritten(ids[0], IdsBytes(ids[1..]) + rest);
      ReadIdsWritten(ids[1..], rest);
      assert [ids[0]] + ids[1..] == ids;
    } else {
      assert IdsBytes(ids) + rest == rest;
    }
  }

  lemma {:induction false} ReadCellsWritten(cells: seq<Word>, rest: seq<byte>)
    ensures ReadCells(|cells|, CellsBytes(cells) + rest) == Some((cells, rest))
    decreases |cells|
  {
    hide ToNat, FromNat, BigEndian, FromBigEndian, Pow2;
    if |cells| > 0 {
      var bytes, tail := CellsBytes(cells) + rest, CellsBytes(cells[1..]) + rest;
      FromNatToNat(cells[0]);
      BigEndianRoundTrip(ToNat(cells[0]), 8);
      assert bytes[..8] == BigEndian(ToNat(cells[0]), 8) && bytes[8..] == tail;
      ReadCellsWritten(cells[1..], rest);
      assert [cells[0]] + cells[1..] == cells;
    } else {
      assert CellsBytes(cells) + rest == rest;
    }
  }

  lemma ReadStorageWritten(kind: ContainerKind, bits: nat, cells: seq<Word>, rest: seq<byte>)
    requires 1 <= bits <= MAX_BITS && |cells| == CellsRequired(kind.Volume(), bits)
    ensures ReadStorage(kind, bits, VarintOf(|cells|) + CellsBytes(cells) + rest) == Some((cells, rest))
  {
    hide VarintOf, ReadId, CellsRequired;
    CellCountSmall(kind, bits);
    assert VarintOf(|cells|) + CellsBytes(cells) + rest == VarintOf(|cells|) + (CellsBytes(cells) + rest);
    ReadIdWritten(|cells|, CellsBytes(cells) + rest);
    ReadCellsWritten(cells, rest);
  }

  lemma CellCountSmall(kind: ContainerKind, bits: nat)
    requires 1 <= bits <= MAX_BITS
    ensures CellsRequired(kind.Volume(), bits) < Pow2(32)
  {
    hide DivCeil;
    Pow2Of32();
    DivCeilBounds(kind.Volume(), LayoutOf(bits).perLong);
    var n, v := CellsRequired(kind.Volume(), bits), LayoutOf(bits).perLong;
    if n > 5000 { MulMono(5000, n, v); }
  }

  lemma SingleRoundTrip(kind: ContainerKind, v: nat, rest: seq<byte>)
    requires v < Pow2(32)
    ensures ReadShape(kind, WriteShape(SingleShape(v)) + rest) == Some((SingleShape(v), rest))
  {
    hide VarintOf, ReadId;
    assert (WriteShape(SingleShape(v)) + rest)[1..] == VarintOf(v) + (VarintOf(0) + rest);
    ReadIdWritten(v, VarintOf(0) + rest);
    ReadIdWritten(0, rest);
  }

  lemma ReadPaletteWritten(palette: seq<nat>, rest: seq<byte>)
    requires Fits(palette, 32) && |palette| < Pow2(32)
    ensures ReadPalette(VarintOf(|palette|) + IdsBytes(palette) + rest) == Some((palette, rest))
  {
    hide VarintOf, ReadId, ReadIds, IdsBytes;
    assert VarintOf(|palette|) + IdsBytes(palette) + rest == VarintOf(|palette|) + (IdsBytes(palette) + rest);
    ReadIdWritten(|palette|, IdsBytes(palette) + rest);
    ReadIdsWritten(palette, rest);
  }

  lemma IndirectRoundTrip(kind: ContainerKind, palette: seq<nat>, bits: nat, cells: seq<Word>, rest: seq<byte>)
    requires 1 <= bits <= kind.MaxIndirectBits() && |cells| == CellsRequired(kind.Volume(), bits)
    requires Fits(palette, 32) && |palette| < Pow2(32)
    ensures var shape := IndirectShape(palette, bits, cells);
      ReadShape(kind, WriteShape(shape) + rest) == Some((shape, rest))
  {
    hide VarintOf, IdsBytes, CellsBytes, ReadPalette, ReadStorage, CellsRequired, Fits, Pow2;
    var shape, storage := IndirectShape(palette, bits, cells), VarintOf(|cells|) + CellsBytes(cells) + rest;
    assert (WriteShape(shape) + rest)[1..] == VarintOf(|palette|) + IdsBytes(palette) + storage;
    ReadPaletteWritten(palette, storage);
    ReadStorageWritten(kind, bits, cells, rest);
  }

  lemma DirectRoundTrip(kind: ContainerKind, bits: nat, cells: seq<Word>, rest: seq<byte>)
    requires kind.MaxIndirectBits() < bits <= MAX_BITS && |cells| == CellsRequired(kind.Volume(), bits)
    ensures var shape := DirectShape(bits, cells);
      ReadShape(kind, WriteShape(shape) + rest) == Some((shape, rest))
  {
    hide VarintOf, ReadStorage, CellsRequired;
    var shape := DirectShape(bits, cells);
    assert (WriteShape(shape) + rest)[1..] == VarintOf(|cells|) + CellsBytes(cells) + rest;
    ReadStorageWritten(kind, bits, cells, rest);
  }

  /** Inline storage carries no mark of its own on the wire, only a width no palette has. */
  predicate Readable(kind: ContainerKind, directBits: nat, seen: seq<nat>) {
    Inline(kind, seen) ==> kind.MaxIndirectBits() < directBits
  }

  /** Ids of the direct width are enough: too many for a palette, they force a width above every slot's. */
  lemma FittingIsReadable(kind: ContainerKind, directBits: nat, seen: seq<nat>)
    requires Distinct(seen) && Fits(seen, directBits)
    ensures Readable(kind, directBits, seen)
  {
    IdsBounded(seen, directBits);
    if directBits <= kind.MaxIndirectBits() { Pow2Mono(directBits, kind.MaxIndirectBits()); }
  }

  /** A container any history can reach is read back from its bytes, whatever follows them, exactly
      when it is readable. */
  lemma ShapeRoundTrip(kind: ContainerKind, directBits: nat, contents: seq<nat>, seen: seq<nat>, rest: seq<byte>)
    requires Coherent(kind, directBits, contents, seen)
    ensures var shape := Render(kind, directBits, contents, seen);
      && (shape.SingleShape? || 1 <= shape.bits <= MAX_BITS)
      && Read(kind, shape) == contents
      && (ReadShape(kind, WriteShape(shape) + rest) == Some((shape, rest)) <==> Readable(kind, directBits, seen))
  {
    hide WriteShape, ReadShape, Read, Pack, Slots, CellsRequired, Width;
    RenderReads(kind, directBits, contents, seen);
    WidthBounds(kind, |seen|);
    match Render(kind, directBits, contents, seen)
    case SingleShape(v) =>
      SingleRoundTrip(kind, v, rest);
      FullWidth(kind);
    case IndirectShape(palette, bits, cells) =>
      PackedCells(kind, bits, Slots(contents, seen));
      Pow2Mono(kind.MaxIndirectBits(), 31);
      assert Pow2(32) == 2 * Pow2(31);
      IndirectRoundTrip(kind, palette, bits, cells, rest);
    case DirectShape(bits, cells) =>
      PackedCells(kind, bits, contents);
      if kind.MaxIndirectBits() < bits {
        DirectRoundTrip(kind, bits, cells, rest);
      } else {
        FirstByte(bits, cells, rest);
        NarrowIsNotRead(kind, WriteShape(DirectShape(bits, cells)) + rest);
      }
  }

  /** A width that a palette can have is never read as inline ids. */
  lemma NarrowIsNotRead(kind: ContainerKind, bytes: seq<byte>)
    requires |bytes| > 0 && bytes[0] <= kind.MaxIndirectBits()
    ensures ReadShape(kind, bytes).Some? ==> !ReadShape(kind, bytes).value.0.DirectShape?
  {
    hide ReadId, ReadPalette, ReadStorage;
  }

  lemma FirstByte(bits: nat, cells: seq<Word>, rest: seq<byte>)
    requires bits < 256
    ensures var bytes := WriteShape(DirectShape(bits, cells)) + rest; |bytes| > 0 && bytes[0] == bits
  {
  }

  /** Writing the ids 2, 3, ... in turn at the first position. */
  function Climb(n: nat): seq<Op> {
    seq(n, i requires 0 <= i => SetOp(0, i + 2))
  }

  /** What the climb leaves: the last id at the first position, and all of them noticed. */
  function Climbed(n: nat): State {
    State(if n == 0 then seq(64, _ => 0) else seq(64, _ => 0)[0 := n + 1], [0] + seq(n, i requires 0 <= i => i + 2))
  }

  lemma ClimbStep(n: nat)
    requires n < 7
    ensures Legal(Biomes, 1, Climbed(n), SetOp(0, n + 2))
    ensures Apply(Biomes, Climbed(n), SetOp(0, n + 2)) == Climbed(n + 1)
  {
    SmallPowers();
    hide Pow2;
    var s := Climbed(n);
    assert n + 2 !in s.seen;
    assert s.seen + [n + 2] == Climbed(n + 1).seen;
    assert s.contents[0 := n + 2] == Climbed(n + 1).contents;
  }

  lemma {:induction false} ClimbRuns(n: nat)
    requires n <= 7
    ensures Pow2(ID_BITS) > 0 && Run(Biomes, 1, 0, Climb(n)) == Some(Climbed(n))
  {
    hide Legal, Apply;
    SmallPowers();
    if n == 0 {
      assert Climbed(0) == Filled(Biomes, 0);
    } else {
      ClimbRuns(n - 1);
      assert Climb(n) == Climb(n - 1) + [SetOp(0, n + 1)];
      ClimbStep(n - 1);
      RunOn(Biomes, 1, 0, Climb(n - 1), SetOp(0, n + 1));
    }
  }

  lemma SmallPowers()
    ensures Pow2(1) == 2 && Pow2(3) == 8 && Pow2(32) > 8
  {
    assert Pow2(3) == 2 * Pow2(2);
    Pow2Mono(4, 32);
    assert Pow2(4) == 2 * Pow2(3);
  }

  /** A history that is not read back: biomes with a direct width of 1 that have noticed nine ids, seven
      of them too wide and since overwritten. */
  lemma UnreadableHistory()
    ensures var ops := Climb(7) + [SetOp(0, 0)] + [SetOp(0, 1)];
      Run(Biomes, 1, 0, ops).Some? && !Readable(Biomes, 1, Run(Biomes, 1, 0, ops).value.seen)
  {
    hide Climb, Run, Legal, Apply, Climbed;
    ClimbRuns(7);
    TopOfTheClimb();
    RunOn(Biomes, 1, 0, Climb(7), SetOp(0, 0));
    RunOn(Biomes, 1, 0, Climb(7) + [SetOp(0, 0)], SetOp(0, 1));
  }

  lemma TopOfTheClimb()
    ensures Legal(Biomes, 1, Climbed(7), SetOp(0, 0))
    ensures var s := Apply(Biomes, Climbed(7), SetOp(0, 0));
      Legal(Biomes, 1, s, SetOp(0, 1)) && !Readable(Biomes, 1, Apply(Biomes, s, SetOp(0, 1)).seen)
  {
    SmallPowers();
    hide Pow2;
    var s := Climbed(7);
    assert s.seen[0] == 0 && s.contents[0 := 0] == seq(64, _ => 0);
    assert 1 !in s.seen;
  }

  /** After `shrink` the ids are those present, and inline ones fit: every shrunk container reads back. */
  lemma ShrunkIsReadable(kind: ContainerKind, directBits: nat, s: State)
    requires Coherent(kind, directBits, s.contents, s.seen)
    ensures Readable(kind, directBits, Apply(kind, s, ShrinkOp).seen)
  {
    var ids := Firsts(s.contents);
    FirstsAreTheIds(s.contents);
    ApplyKeepsCoherent(kind, directBits, s, ShrinkOp);
    if Inline(kind, ids) {
      forall i | 0 <= i < |ids| ensures ids[i] < Pow2(directBits) {
        assert ids[i] in s.contents;
      }
      FittingIsReadable(kind, directBits, ids);
    }
  }

  /** Shrunk containers write the same bytes exactly when they hold the same array, whatever their
      two histories were. */
  lemma ShrunkBytesAgree(
    kind: ContainerKind, directBits: nat, start1: nat, ops1: seq<Op>, start2: nat, ops2: seq<Op>)
    requires start1 < Pow2(ID_BITS) && start2 < Pow2(ID_BITS)
    requires Run(kind, directBits, start1, ops1).Some? && Run(kind, directBits, start2, ops2).Some?
    ensures var r1, r2 := Run(kind, directBits, start1, ops1).value, Run(kind, directBits, start2, ops2).value;
      var s1, s2 := Apply(kind, r1, ShrinkOp), Apply(kind, r2, ShrinkOp);
      && Coherent(kind, directBits, s1.contents, s1.seen) && Coherent(kind, directBits, s2.contents, s2.seen)
      && (StateBytes(kind, directBits, s1) == StateBytes(kind, directBits, s2) <==> r1.contents == r2.contents)
  {
    hide WriteShape, ReadShape, Render, Read, Apply;
    var r1, r2 := Run(kind, directBits, start1, ops1).value, Run(kind, directBits, start2, ops2).value;
    var s1, s2 := Apply(kind, r1, ShrinkOp), Apply(kind, r2, ShrinkOp);
    ShrunkIsCanonical(kind, directBits, start1, ops1, start2, ops2);
    ShrunkIsReadable(kind, directBits, r1);
    ShrunkIsReadable(kind, directBits, r2);
    ShapeRoundTrip(kind, directBits, s1.contents, s1.seen, []);
    ShapeRoundTrip(kind, directBits, s2.contents, s2.seen, []);
  }

  /** The wire form of a container in a given state. */
  function StateBytes(kind: ContainerKind, directBits: nat, s: State): seq<byte>
    requires Coherent(kind, directBits, s.contents, s.seen)
  {
    RenderReads(kind, directBits, s.contents, s.seen);
    WriteShape(Render(kind, directBits, s.contents, s.seen))
  }

  lemma PackedCells(kind: ContainerKind, bits: nat, entries: seq<nat>)
    requires 1 <= bits <= MAX_BITS && |entries| == kind.Volume()
    ensures |Pack(entries, LayoutOf(bits))| == CellsRequired(kind.Volume(), bits)
  {
  }

  // ------------------------------------------------------------------ lengths

  function SumVarLen(ids: seq<nat>): nat {
    if |ids| == 0 then 0 else VarLen(AsUnsigned(AsSigned(ids[0], 32), 32)) + SumVarLen(ids[1..])
  }

  /** The program's length formula, which writes nothing. */
  function WireLen(shape: Shape): nat {
    match shape
    case SingleShape(v) => 1 + VarLen(AsUnsigned(AsSigned(v, 32), 32)) + 1
    case IndirectShape(palette, _, cells) =>
      1 + VarLen(AsUnsigned(AsSigned(|palette|, 32), 32)) + SumVarLen(palette)
      + VarLen(AsUnsigned(AsSigned(|cells|, 32), 32)) + |cells| * 8
    case DirectShape(_, cells) => 1 + VarLen(AsUnsigned(AsSigned(|cells|, 32), 32)) + |cells| * 8
  }

  lemma {:induction false} IdsLength(ids: seq<nat>)
    ensures |IdsBytes(ids)| == SumVarLen(ids)
  {
    if |ids| == 0 {
    } else {
      VarLenIsLength(AsUnsigned(AsSigned(ids[0], 32), 32));
      IdsLength(ids[1..]);
    }
  }

  lemma {:induction false} CellsLength(cells: seq<Word>)
    ensures |CellsBytes(cells)| == |cells| * 8
  {
    if |cells| == 0 {
    } else {
      CellsLength(cells[1..]);
    }
  }

  /** The formula is the number of bytes written, in every representation. */
  lemma WireLenIsLength(shape: Shape)
    requires shape.SingleShape? || shape.bits < 256
    ensures WireLen(shape) == |WriteShape(shape)|
  {
    match shape
    case SingleShape(v) =>
      VarLenIsLength(AsUnsigned(AsSigned(v, 32), 32));
      VarLenIsLength(AsUnsigned(AsSigned(0, 32), 32));
      assert VarLen(0) == 1;
    case IndirectShape(palette, _, cells) =>
      VarLenIsLength(AsUnsigned(AsSigned(|palette|, 32), 32));
      VarLenIsLength(AsUnsigned(AsSigned(|cells|, 32), 32));
      IdsLength(palette);
      CellsLength(cells);
    case DirectShape(_, cells) =>
      VarLenIsLength(AsUnsigned(AsSigned(|cells|, 32), 32));
      CellsLength(cells);
  }

  // ------------------------------------------------------------------ the section list

  /** A section as specification states of its two containers. */
  datatype SectionState = SectionState(blocks: State, biomes: State) {
    ghost predicate Sound(directBits: nat) {
      && Coherent(Blocks, directBits, blocks.contents, blocks.seen)
      && Coherent(Biomes, BIOME_BITS, biomes.contents, biomes.seen)
    }

    /** Biome ids are always wider than a biome palette's slots, so only the blocks matter. */
    predicate ReadsBack(directBits: nat) {
      Readable(Blocks, directBits, blocks.seen)
    }
  }

  /** What the wire tells about a section. */
  datatype SectionView = SectionView(nonAir: nat, blocks: seq<nat>, biomes: seq<nat>)

  function ViewOf(states: BlockStates, s: SectionState): SectionView {
    SectionView(CountIf(s.blocks.contents, NonAir(states)), s.blocks.contents, s.biomes.contents)
  }

  function Views(states: BlockStates, sections: seq<SectionState>): seq<SectionView> {
    if |sections| == 0 then [] else [ViewOf(states, sections[0])] + Views(states, sections[1..])
  }

  function WriteSection(states: BlockStates, s: SectionState): seq<byte>
    requires s.Sound(states.DirectBits())
  {
    BigEndian(CountIf(s.blocks.contents, NonAir(states)), 2)
    + StateBytes(Blocks, states.DirectBits(), s.blocks) + StateBytes(Biomes, BIOME_BITS, s.biomes)
  }

  /** A section begins with its count in two bytes; the containers follow, blocks first. */
  lemma SectionBytes(states: BlockStates, s: SectionState)
    requires s.Sound(states.DirectBits())
    ensures var bytes, count := WriteSection(states, s), CountIf(s.blocks.contents, NonAir(states));
      var blocks, biomes := Render(Blocks, states.DirectBits(), s.blocks.contents, s.blocks.seen),
                            Render(Biomes, 6, s.biomes.contents, s.biomes.seen);
      && count <= 4096
      && |bytes| >= 2 && bytes[0] == count / 256 && bytes[1] == count % 256
      && (blocks.SingleShape? || blocks.bits < 256) && (biomes.SingleShape? || biomes.bits < 256)
      && bytes[2..] == WriteShape(blocks) + WriteShape(biomes)
  {
    hide CountIf, Render, WriteShape, Read, Distinct, Fits, BlockStates.DirectBits, BlockStates.IsAir;
    var count := CountIf(s.blocks.contents, NonAir(states));
    CountNone(s.blocks.contents, NonAir(states));
    RenderReads(Blocks, states.DirectBits(), s.blocks.contents, s.blocks.seen);
    RenderReads(Biomes, 6, s.biomes.contents, s.biomes.seen);
    assert BigEndian(count, 2) == [count / 256, count % 256];
  }

  ghost predicate AllSound(states: BlockStates, sections: seq<SectionState>) {
    forall i :: 0 <= i < |sections| ==> sections[i].Sound(states.DirectBits())
  }

  function WriteSections(states: BlockStates, sections: seq<SectionState>): seq<byte>
    requires AllSound(states, sections)
  {
    if |sections| == 0 then []
    else WriteSection(states, sections[0]) + WriteSections(states, sections[1..])
  }

  /** A shape a reader accepted can be asked for its entries. */
  function ReadContainer(kind: ContainerKind, bytes: seq<byte>): Option<(seq<nat>, seq<byte>)> {
    match ReadShape(kind, bytes)
    case None => None
    case Some((shape, rest)) =>
      if shape.SingleShape? || 1 <= shape.bits <= MAX_BITS then Some((Read(kind, shape), rest)) else None
  }

  function ReadSection(bytes: seq<byte>): Option<(SectionView, seq<byte>)> {
    if |bytes| < 2 then None
    else match ReadContainer(Blocks, bytes[2..])
      case None => None
      case Some((blocks, more)) =>
        match ReadContainer(Biomes, more)
        case None => None
        case Some((biomes, rest)) => Some((SectionView(FromBigEndian(bytes[..2]), blocks, biomes), rest))
  }

  function ReadSections(n: nat, bytes: seq<byte>): Option<(seq<SectionView>, seq<byte>)> {
    if n == 0 then Some(([], bytes))
    else match ReadSection(bytes)
      case None => None
      case Some((view, more)) =>
        match ReadSections(n - 1, more)
        case None => None
        case Some((views, rest)) => Some(([view] + views, rest))
  }

  /** Both containers of a section come back one after the other. */
  lemma ContainerRoundTrip(kind: ContainerKind, directBits: nat, s: State, rest: seq<byte>)
    requires Coherent(kind, directBits, s.contents, s.seen) && Readable(kind, directBits, s.seen)
    ensures ReadContainer(kind, StateBytes(kind, directBits, s) + rest) == Some((s.contents, rest))
  {
    hide ReadShape, WriteShape, Render, Read;
    ShapeRoundTrip(kind, directBits, s.contents, s.seen, rest);
  }

  lemma CountRoundTrip(states: BlockStates, contents: seq<nat>)
    requires |contents| <= 4096
    ensures FromBigEndian(BigEndian(CountIf(contents, NonAir(states)), 2)) == CountIf(contents, NonAir(states))
  {
    hide CountIf;
    CountNone(contents, NonAir(states));
    Pow2Of16();
    BigEndianRoundTrip(CountIf(contents, NonAir(states)), 2);
  }

  lemma SectionRoundTrip(states: BlockStates, s: SectionState, rest: seq<byte>)
    requires s.Sound(states.DirectBits()) && s.ReadsBack(states.DirectBits())
    ensures ReadSection(WriteSection(states, s) + rest) == Some((ViewOf(states, s), rest))
  {
    hide ReadContainer, StateBytes, BigEndian, FromBigEndian, CountIf, BlockStates.DirectBits;
    var count := CountIf(s.blocks.contents, NonAir(states));
    CountRoundTrip(states, s.blocks.contents);
    var biomes := StateBytes(Biomes, BIOME_BITS, s.biomes);
    var bytes := WriteSection(states, s) + rest;
    assert bytes[..2] == BigEndian(count, 2);
    assert bytes[2..] == StateBytes(Blocks, states.DirectBits(), s.blocks) + (biomes + rest);
    ContainerRoundTrip(Blocks, states.DirectBits(), s.blocks, biomes + rest);
    ContainerRoundTrip(Biomes, BIOME_BITS, s.biomes, rest);
  }

  /** The section list of a chunk is uniquely decodable: counts, blocks and biomes all come back. */
  lemma {:induction false} SectionsRoundTrip(states: BlockStates, sections: seq<SectionState>, rest: seq<byte>)
    requires AllSound(states, sections)
    requires forall i :: 0 <= i < |sections| ==> sections[i].ReadsBack(states.DirectBits())
    ensures ReadSections(|sections|, WriteSections(states, sections) + rest) == Some((Views(states, sections), rest))
    decreases |sections|
  {
    hide ReadSection, WriteSection, ViewOf;
    var bytes := WriteSections(states, sections) + rest;
    if |sections| == 0 {
      assert bytes == rest;
    } else {
      var tail := WriteSections(states, sections[1..]) + rest;
      assert bytes == WriteSection(states, sections[0]) + tail;
      SectionRoundTrip(states, sections[0], tail);
      SectionsRoundTrip(states, sections[1..], rest);
    }
  }

  /** After `shrink` the list always reads back, however narrow inline ids are. */
  lemma ShrunkSectionsRoundTrip(states: BlockStates, sections: seq<SectionState>, rest: seq<byte>)
    requires AllSound(states, sections)
    requires forall i :: 0 <= i < |sections| ==> sections[i].blocks.seen == Firsts(sections[i].blocks.contents)
    ensures ReadSections(|sections|, WriteSections(states, sections) + rest) == Some((Views(states, sections), rest))
  {
    hide WriteSections, ReadSections, Views, Coherent, Firsts;
    forall i | 0 <= i < |sections| ensures sections[i].ReadsBack(states.DirectBits()) {
      assert sections[i].Sound(states.DirectBits());
      ShrunkIsReadable(Blocks, states.DirectBits(), sections[i].blocks);
    }
    SectionsRoundTrip(states, sections, rest);
  }

  function StateLen(kind: ContainerKind, directBits: nat, s: State): nat
    requires Coherent(kind, directBits, s.contents, s.seen)
  {
    WireLen(Render(kind, directBits, s.contents, s.seen))
  }

  lemma StateLenIsLength(kind: ContainerKind, directBits: nat, s: State)
    requires Coherent(kind, directBits, s.contents, s.seen)
    ensures StateLen(kind, directBits, s) == |StateBytes(kind, directBits, s)|
  {
    hide WriteShape, WireLen, Render;
    RenderReads(kind, directBits, s.contents, s.seen);
    WireLenIsLength(Render(kind, directBits, s.contents, s.seen));
  }

  function SectionsWireLen(states: BlockStates, sections: seq<SectionState>): nat
    requires AllSound(states, sections)
  {
    if |sections| == 0 then 0
    else
      var s := sections[0];
      2 + StateLen(Blocks, states.DirectBits(), s.blocks) + StateLen(Biomes, BIOME_BITS, s.biomes)
      + SectionsWireLen(states, sections[1..])
  }

  /** `sections_wire_len` is the number of bytes `write_sections` produces. */
  lemma {:induction false} SectionsLength(states: BlockStates, sections: seq<SectionState>)
    requires AllSound(states, sections)
    ensures SectionsWireLen(states, sections) == |WriteSections(states, sections)|
  {
    hide StateBytes, StateLen, BlockStates.DirectBits, CountIf;
    if |sections| == 0 {
    } else {
      var s := sections[0];
      StateLenIsLength(Blocks, states.DirectBits(), s.blocks);
      StateLenIsLength(Biomes, BIOME_BITS, s.biomes);
      SectionsLength(states, sections[1..]);
    }
  }

  lemma {:induction false} WriteSectionsAppend(states: BlockStates, front: seq<SectionState>, last: SectionState)
    requires AllSound(states, front) && last.Sound(states.DirectBits())
    ensures AllSound(states, front + [last])
    ensures WriteSections(states, front + [last]) == WriteSections(states, front) + WriteSection(states, last)
    decreases |front|
  {
    hide WriteSection;
    if |front| == 0 {
      assert [] + [last] == [last] && [last][1..] == [];
    } else {
      WriteSectionsAppend(states, front[1..], last);
      assert (front + [last])[1..] == front[1..] + [last];
    }
  }

  // ------------------------------------------------------------------ the writers

  lemma {:induction false} IdsBytesAppend(front: seq<nat>, last: nat)
    ensures IdsBytes(front + [last]) == IdsBytes(front) + VarintOf(last)
  {
    hide VarintOf;
    if |front| == 0 {
      assert [] + [last] == [last] && [last][1..] == [];
    } else {
      IdsBytesAppend(front[1..], last);
      assert (front + [last])[1..] == front[1..] + [last];
    }
  }

  lemma {:induction false} CellsBytesAppend(front: seq<Word>, last: Word)
    ensures CellsBytes(front + [last]) == CellsBytes(front) + BigEndian(ToNat(last), 8)
  {
    hide BigEndian, ToNat;
    if |front| == 0 {
      assert [] + [last] == [last] && [last][1..] == [];
    } else {
      CellsBytesAppend(front[1..], last);
      assert (front + [last])[1..] == front[1..] + [last];
    }
  }

  method WriteCells(storage: BitStorage, out: Buffer)
    requires storage.Valid() && storage as object != out
    modifies out
    ensures out.bytes == old(out.bytes) + VarintOf(|storage.data|) + CellsBytes(storage.data)
  {
    hide BitStorage.Valid, VarintOf, BigEndian, ToNat;
    Varints.WriteCast(out, |storage.data|);
    ghost var before := out.bytes;
    for i := 0 to |storage.data|
      invariant out.bytes == before + CellsBytes(storage.data[..i])
    {
      CellsBytesAppend(storage.data[..i], storage.data[i]);
      assert storage.data[..i] + [storage.data[i]] == storage.data[..i + 1];
      out.bytes := out.bytes + BigEndian(ToNat(storage.data[i]), 8);
    }
    assert storage.data[..|storage.data|] == storage.data;
  }

  /** A container writes the form of the representation it is in. */
  method WriteContainer(c: PalettedContainer, out: Buffer)
    requires c.Valid() && out !in c.Footprint()
    modifies out
    ensures c.Shape().SingleShape? || c.Shape().bits < 256
    ensures out.bytes == old(out.bytes) + WriteShape(c.Shape())
  {
    WidthBounds(c.kind, |c.seen|);
    hide BitStorage.Valid, BitStorage.Entries, BitStorage.IsClean, VarintOf, IdsBytes, CellsBytes;
    hide Coherent, Slots, Width, Pow2, WriteShape;
    match c.repr
    case Single(value) =>
      WriteSingle(value, out);
    case Indirect(palette, storage) =>
      WriteIndirect(palette, storage, out);
    case Direct(storage) =>
      WriteDirect(storage, out);
  }

  method WriteSingle(value: nat, out: Buffer)
    modifies out
    ensures out.bytes == old(out.bytes) + WriteShape(SingleShape(value))
  {
    hide VarintOf;
    out.bytes := out.bytes + [0];
    Varints.WriteCast(out, value);
    Varints.WriteCast(out, 0);
  }

  method WriteIndirect(palette: seq<nat>, storage: BitStorage, out: Buffer)
    requires storage.Valid() && storage.bits < 256 && storage as object != out
    modifies out
    ensures out.bytes == old(out.bytes) + WriteShape(IndirectShape(palette, storage.bits, storage.data))
  {
    hide BitStorage.Valid, VarintOf, IdsBytes, CellsBytes;
    out.bytes := out.bytes + [storage.bits];
    Varints.WriteCast(out, |palette|);
    WriteIds(palette, out);
    WriteCells(storage, out);
  }

  method WriteDirect(storage: BitStorage, out: Buffer)
    requires storage.Valid() && storage.bits < 256 && storage as object != out
    modifies out
    ensures out.bytes == old(out.bytes) + WriteShape(DirectShape(storage.bits, storage.data))
  {
    hide BitStorage.Valid, VarintOf, CellsBytes;
    out.bytes := out.bytes + [storage.bits];
    WriteCells(storage, out);
  }

  method WriteIds(palette: seq<nat>, out: Buffer)
    modifies out
    ensures out.bytes == old(out.bytes) + IdsBytes(palette)
  {
    hide VarintOf;
    for i := 0 to |palette|
      invariant out.bytes == old(out.bytes) + IdsBytes(palette[..i])
    {
      IdsBytesAppend(palette[..i], palette[i]);
      assert palette[..i] + [palette[i]] == palette[..i + 1];
      Varints.WriteCast(out, palette[i]);
    }
    assert palette[..|palette|] == palette;
  }

  ghost function StateOf(chunk: Chunk, i: nat): SectionState
    reads chunk, chunk.Repr
    requires chunk.Valid() && i < |chunk.sections|
  {
    assert chunk.SectionOk(i);
    SectionState(chunk.sections[i].blockStates.Abstract(), chunk.sections[i].biomes.Abstract())
  }

  lemma StateIsSound(chunk: Chunk, i: nat)
    requires chunk.Valid() && i < |chunk.sections|
    ensures StateOf(chunk, i).Sound(chunk.states.DirectBits())
    ensures StateOf(chunk, i).blocks.contents == chunk.blocks[i]
    ensures StateOf(chunk, i).blocks.seen == chunk.sections[i].blockStates.seen
  {
    hide BitStorage.Valid, Chunk.Apart, Chunk.HeightmapOk, Coherent;
    assert chunk.SectionOk(i);
  }

  /** The states of the first `n` sections of a chunk. */
  ghost function StatesOf(chunk: Chunk, n: nat): (sections: seq<SectionState>)
    reads chunk, chunk.Repr
    requires chunk.Valid() && n <= |chunk.sections|
    ensures |sections| == n && AllSound(chunk.states, sections)
    ensures forall i :: 0 <= i < n ==>
      sections[i].blocks.contents == chunk.blocks[i] && sections[i].blocks.seen == chunk.sections[i].blockStates.seen
  {
    hide Chunk.Valid, SectionState.Sound;
    if n == 0 then []
    else
      StateIsSound(chunk, n - 1);
      StatesOf(chunk, n - 1) + [StateOf(chunk, n - 1)]
  }

  /** A chunk as `Shrink` leaves it is read back from what `WriteChunk` writes. */
  lemma ShrunkChunkRoundTrip(chunk: Chunk, rest: seq<byte>)
    requires chunk.Valid()
    requires forall i :: 0 <= i < |chunk.sections| ==> chunk.sections[i].blockStates.seen == Firsts(chunk.blocks[i])
    ensures var n := |chunk.sections|;
      var states := StatesOf(chunk, n);
      ReadSections(n, WriteSections(chunk.states, states) + rest) == Some((Views(chunk.states, states), rest))
  {
    hide Chunk.Valid, Firsts, WriteSections, ReadSections, Views, AllSound;
    ShrunkSectionsRoundTrip(chunk.states, StatesOf(chunk, |chunk.sections|), rest);
  }

  /** `write_sections` emits the count, the blocks and the biomes of every section in order. */
  method WriteChunk(chunk: Chunk, out: Buffer)
    requires chunk.Valid() && out !in chunk.Repr && chunk as object != out
    modifies out
    ensures out.bytes
         == old(out.bytes) + WriteSections(chunk.states, StatesOf(chunk, |chunk.sections|))
  {
    hide WriteSection, WriteSections, StatesOf, SectionState.Sound, Chunk.Apart, Chunk.HeightmapOk, Chunk.SectionOk;
    NoSections(chunk);
    for i := 0 to |chunk.sections|
      invariant chunk.Valid()
      invariant out.bytes == old(out.bytes) + WriteSections(chunk.states, StatesOf(chunk, i))
    {
      WriteOne(chunk, i, out);
      ghost var all := StatesOf(chunk, i + 1);
      WriteSectionsAppend(chunk.states, StatesOf(chunk, i), all[i]);
      OneMoreState(chunk, i);
    }
  }

  lemma NoSections(chunk: Chunk)
    requires chunk.Valid()
    ensures WriteSections(chunk.states, StatesOf(chunk, 0)) == []
  {
  }

  lemma OneMoreState(chunk: Chunk, i: nat)
    requires chunk.Valid() && i < |chunk.sections|
    ensures StatesOf(chunk, i + 1) == StatesOf(chunk, i) + [StatesOf(chunk, i + 1)[i]]
  {
    hide Chunk.Valid, StateOf;
  }

  method WriteOne(chunk: Chunk, i: nat, out: Buffer)
    requires chunk.Valid() && i < |chunk.sections| && out !in chunk.Repr && chunk as object != out
    modifies out
    ensures out.bytes
         == old(out.bytes) + WriteSection(chunk.states, StatesOf(chunk, i + 1)[i])
  {
    hide PalettedContainer.Valid, BigEndian, CountIf, StateBytes, Coherent, Chunk.HeightmapOk, Chunk.Apart;
    assert chunk.SectionOk(i);
    var s := chunk.sections[i];
    var count := s.NonAirCount(chunk.states);
    out.bytes := out.bytes + BigEndian(count, 2);
    WriteState(s.blockStates, out);
    WriteState(s.biomes, out);
  }

  /** A container writes the form of the state it is in. */
  method WriteState(c: PalettedContainer, out: Buffer)
    requires c.Valid() && out !in c.Footprint()
    modifies out
    ensures Coherent(c.kind, c.directBits, c.contents, c.seen)
    ensures out.bytes == old(out.bytes) + StateBytes(c.kind, c.directBits, c.Abstract())
  {
    hide BitStorage.Valid, WriteShape, Render, Coherent;
    c.ShapeIsRendered();
    WriteContainer(c, out);
  }
}

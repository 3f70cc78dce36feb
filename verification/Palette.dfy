/**
  Paletted containers. The specification state of a container is a flat array, `contents`, and
  the ids in the order they were first seen, `seen`; `Render` says which of the three
  representations, down to the packed cells, that state is stored in.
 */
module Palettes {
  import opened Powers
  import opened Words
  import opened BitStorages
  import opened Wrappers

  datatype ContainerKind = Blocks | Biomes {
    function Volume(): nat {
      match this
      case Blocks => 16 * 16 * 16
      case Biomes => 4 * 4 * 4
    }

    function MinIndirectBits(): nat {
      match this
      case Blocks => 4
      case Biomes => 1
    }

    function MaxIndirectBits(): nat {
      match this
      case Blocks => 8
      case Biomes => 3
    }
  }

  /** Ids are `u32`. */
  const ID_BITS: nat := 32

  // ------------------------------------------------------------------ palettes

  ghost predicate Distinct(s: seq<nat>) {
    forall i, j :: 0 <= i < j < |s| ==> s[i] != s[j]
  }

  /** First position of `id`, as `iter().position` finds it. */
  function Position(s: seq<nat>, id: nat): (p: Option<nat>)
    ensures p.None? <==> id !in s
    ensures p.Some? ==> p.value < |s| && s[p.value] == id && id !in s[..p.value]
  {
    if |s| == 0 then None
    else if s[0] == id then Some(0)
    else match Position(s[1..], id)
      case None => None
      case Some(k) => assert s[..k + 1] == [s[0]] + s[1..][..k]; Some(k + 1)
  }

  /** The slot naming `id`; only meaningful when the palette has it. */
  function SlotFor(palette: seq<nat>, id: nat): nat {
    match Position(palette, id)
    case Some(p) => p
    case None => 0
  }

  lemma {:induction false} SlotForExtended(palette: seq<nat>, id: nat, extra: nat)
    requires id in palette
    ensures SlotFor(palette + [extra], id) == SlotFor(palette, id)
  {
    if palette[0] != id {
      SlotForExtended(palette[1..], id, extra);
      assert (palette + [extra])[1..] == palette[1..] + [extra];
    }
  }

  function Slots(contents: seq<nat>, palette: seq<nat>): (slots: seq<nat>)
    ensures |slots| == |contents|
  {
    seq(|contents|, i requires 0 <= i < |contents| => SlotFor(palette, contents[i]))
  }

  /** The distinct ids of `s` in order of first occurrence. */
  function Firsts(s: seq<nat>): seq<nat> {
    if |s| == 0 then []
    else
      var f := Firsts(s[..|s| - 1]);
      if s[|s| - 1] in f then f else f + [s[|s| - 1]]
  }

  lemma {:induction false} FirstsAreTheIds(s: seq<nat>)
    ensures Distinct(Firsts(s))
    ensures forall id :: id in Firsts(s) <==> id in s
    ensures |s| > 0 ==> |Firsts(s)| > 0
  {
    if |s| == 0 {
    } else {
      FirstsAreTheIds(s[..|s| - 1]);
      assert s == s[..|s| - 1] + [s[|s| - 1]];
    }
  }

  /** And lists them in the order in which each first occurs. */
  lemma {:induction false} FirstsInOrder(s: seq<nat>, i: nat, j: nat)
    requires i < j < |Firsts(s)|
    ensures Position(s, Firsts(s)[i]).Some? && Position(s, Firsts(s)[j]).Some?
    ensures Position(s, Firsts(s)[i]).value < Position(s, Firsts(s)[j]).value
  {
    if |s| == 0 {
    } else {
      var front, last := s[..|s| - 1], s[|s| - 1];
      FirstsAreTheIds(front);
      FirstsAreTheIds(s);
      var a, b := Firsts(s)[i], Firsts(s)[j];
      assert a == Firsts(front)[i] && a in front;
      PositionInFront(s, a);
      if b in front {
        assert j < |Firsts(front)| && b == Firsts(front)[j];
        FirstsInOrder(front, i, j);
        PositionInFront(s, b);
      } else {
        assert b in s;
      }
    }
  }

  lemma PositionInFront(s: seq<nat>, id: nat)
    requires |s| > 0 && id in s[..|s| - 1]
    ensures id in s && Position(s, id) == Position(s[..|s| - 1], id)
  {
    var front := s[..|s| - 1];
    var p := Position(front, id).value;
    assert s[p] == id && s[..p] == front[..p];
  }

  function Ids(s: seq<nat>): set<nat> {
    set i | 0 <= i < |s| :: s[i]
  }

  lemma {:induction false} IdsSize(s: seq<nat>)
    ensures |Ids(s)| <= |s|
    ensures Distinct(s) ==> |Ids(s)| == |s|
  {
    if |s| == 0 {
    } else {
      var front, last := s[..|s| - 1], s[|s| - 1];
      IdsSize(front);
      assert forall i :: 0 <= i < |front| ==> front[i] == s[i];
      assert Ids(s) == Ids(front) + {last};
      if Distinct(s) { assert last !in Ids(front); }
    }
  }

  lemma DistinctWithin(a: seq<nat>, b: seq<nat>)
    requires Distinct(a) && forall id :: id in a ==> id in b
    ensures |a| <= |b|
  {
    IdsSize(a);
    IdsSize(b);
    assert Ids(a) <= Ids(b) by {
      forall i | 0 <= i < |a| ensures a[i] in Ids(b) { assert a[i] in b; }
    }
    SubsetSize(Ids(a), Ids(b));
  }

  lemma {:induction false} SubsetSize(a: set<nat>, b: set<nat>)
    requires a <= b
    ensures |a| <= |b|
  {
    if a != {} {
      var x :| x in a;
      SubsetSize(a - {x}, b - {x});
    }
  }

  // ------------------------------------------------------------------ representations as values

  /** A representation with its cells spelled out: everything `write` and `==` can see. */
  datatype Shape =
    | SingleShape(value: nat)
    | IndirectShape(palette: seq<nat>, bits: nat, cells: seq<Word>)
    | DirectShape(bits: nat, cells: seq<Word>)

  /** Indirect width for `n` distinct ids. */
  function Width(kind: ContainerKind, n: nat): nat {
    var needed := BitsFor(n);
    if needed < kind.MinIndirectBits() then kind.MinIndirectBits() else needed
  }

  /** The width is the least one that is permitted and has room for `n` ids. */
  lemma WidthIsLeast(kind: ContainerKind, n: nat, bits: nat)
    requires bits >= 1
    ensures Width(kind, n) >= 1
    ensures Width(kind, n) <= bits <==> kind.MinIndirectBits() <= bits && n <= Pow2(bits)
  {
    BitsForIsLeast(n, bits);
  }

  lemma WidthBounds(kind: ContainerKind, n: nat)
    ensures 1 <= Width(kind, n) && n <= Pow2(Width(kind, n))
    ensures n <= Pow2(kind.MaxIndirectBits()) <==> Width(kind, n) <= kind.MaxIndirectBits()
  {
    BitsForIsLeast(n, 1);
    WidthIsLeast(kind, n, Width(kind, n));
    WidthIsLeast(kind, n, kind.MaxIndirectBits());
  }

  /** What every reachable pair of contents and first-seen ids satisfies. Ids are `u32`; only inline
      ids have to fit the direct width. */
  ghost predicate Coherent(kind: ContainerKind, directBits: nat, contents: seq<nat>, seen: seq<nat>) {
    && |contents| == kind.Volume()
    && |seen| >= 1 && Distinct(seen) && Fits(seen, ID_BITS)
    && (forall i :: 0 <= i < |contents| ==> contents[i] in seen)
    && (Inline(kind, seen) ==> 1 <= directBits <= MAX_BITS && Fits(contents, directBits))
  }

  /** Too many ids for a palette. */
  predicate Inline(kind: ContainerKind, seen: seq<nat>) {
    |seen| > Pow2(kind.MaxIndirectBits())
  }

  function Render(kind: ContainerKind, directBits: nat, contents: seq<nat>, seen: seq<nat>): Shape
    requires |seen| >= 1 && (Inline(kind, seen) ==> 1 <= directBits <= MAX_BITS)
  {
    WidthBounds(kind, |seen|);
    if |seen| == 1 then SingleShape(seen[0])
    else if !Inline(kind, seen) then
      var bits := Width(kind, |seen|);
      IndirectShape(seen, bits, Pack(Slots(contents, seen), LayoutOf(bits)))
    else DirectShape(directBits, Pack(contents, LayoutOf(directBits)))
  }

  /** The entries a representation stands for. */
  function Read(kind: ContainerKind, shape: Shape): seq<nat>
    requires shape.SingleShape? || 1 <= shape.bits <= MAX_BITS
  {
    match shape
    case SingleShape(v) => seq(kind.Volume(), _ => v)
    case IndirectShape(palette, bits, cells) =>
      var slots := Unpack(cells, kind.Volume(), LayoutOf(bits));
      seq(kind.Volume(), i requires 0 <= i < kind.Volume() =>
        if slots[i] < |palette| then palette[slots[i]] else 0)
    case DirectShape(bits, cells) => Unpack(cells, kind.Volume(), LayoutOf(bits))
  }

  lemma SlotsFit(kind: ContainerKind, contents: seq<nat>, seen: seq<nat>)
    requires |seen| >= 1 && forall i :: 0 <= i < |contents| ==> contents[i] in seen
    ensures Fits(Slots(contents, seen), Width(kind, |seen|))
  {
    WidthBounds(kind, |seen|);
  }

  /** Rendering loses nothing: the flat array is read back from every representation. */
  lemma RenderReads(kind: ContainerKind, directBits: nat, contents: seq<nat>, seen: seq<nat>)
    requires Coherent(kind, directBits, contents, seen)
    ensures var shape := Render(kind, directBits, contents, seen);
      (shape.SingleShape? || 1 <= shape.bits <= MAX_BITS) && Read(kind, shape) == contents
  {
    WidthBounds(kind, |seen|);
    if |seen| > 1 && !Inline(kind, seen) {
      SlotsFit(kind, contents, seen);
      UnpackPack(Slots(contents, seen), LayoutOf(Width(kind, |seen|)));
    } else if |seen| > 1 {
      UnpackPack(contents, LayoutOf(directBits));
    }
  }

  /** The representation of a block container in numbers: one id alone, up to 256 in a palette with slots of
      4 to 8 bits, as few as can number them, and beyond that every id by itself. */
  lemma BlocksInNumbers(directBits: nat, s: seq<nat>, seen: seq<nat>)
    requires Coherent(Blocks, directBits, s, seen)
    ensures |s| == 4096
    ensures var n, shape := |seen|, Render(Blocks, directBits, s, seen);
      var width := if n <= 16 then 4 else if n <= 32 then 5 else if n <= 64 then 6 else if n <= 128 then 7 else 8;
      && (n == 1 ==> shape == SingleShape(seen[0]))
      && (2 <= n <= 256 ==>
            shape.IndirectShape? && shape.palette == seen && shape.bits == width
            && |shape.cells| == (4096 + 64 / width - 1) / (64 / width))
      && (n > 256 ==>
            1 <= directBits <= 32 && 64 / directBits > 0 && shape.DirectShape? && shape.bits == directBits
            && |shape.cells| == (4096 + 64 / directBits - 1) / (64 / directBits))
  {
    hide LayoutOf, CellsRequired, Slots, BitsFor;
    SmallPowersOfTwo();
    if |seen| >= 2 { SlotWidth(Blocks, |seen|); }
    RenderedCells(Blocks, directBits, s, seen);
  }

  /** Biomes: up to 8 in a palette, with slots of 1 to 3 bits. */
  lemma BiomesInNumbers(directBits: nat, s: seq<nat>, seen: seq<nat>)
    requires Coherent(Biomes, directBits, s, seen)
    ensures |s| == 64
    ensures var n, shape := |seen|, Render(Biomes, directBits, s, seen);
      var width := if n <= 2 then 1 else if n <= 4 then 2 else 3;
      && (n == 1 ==> shape == SingleShape(seen[0]))
      && (2 <= n <= 8 ==>
            shape.IndirectShape? && shape.palette == seen && shape.bits == width
            && |shape.cells| == (64 + 64 / width - 1) / (64 / width))
      && (n > 8 ==>
            1 <= directBits <= 32 && 64 / directBits > 0 && shape.DirectShape? && shape.bits == directBits
            && |shape.cells| == (64 + 64 / directBits - 1) / (64 / directBits))
  {
    hide LayoutOf, CellsRequired, Slots, BitsFor;
    SmallPowersOfTwo();
    if |seen| >= 2 { SlotWidth(Biomes, |seen|); }
    RenderedCells(Biomes, directBits, s, seen);
  }

  lemma SmallPowersOfTwo()
    ensures Pow2(1) == 2 && Pow2(2) == 4 && Pow2(3) == 8 && Pow2(4) == 16 && Pow2(5) == 32
    ensures Pow2(6) == 64 && Pow2(7) == 128 && Pow2(8) == 256
  {
    assert Pow2(2) == 2 * Pow2(1);
    assert Pow2(4) == 2 * Pow2(3) && Pow2(3) == 2 * Pow2(2);
    assert Pow2(6) == 2 * Pow2(5) && Pow2(5) == 2 * Pow2(4);
    assert Pow2(8) == 2 * Pow2(7) && Pow2(7) == 2 * Pow2(6);
  }

  lemma SlotWidth(kind: ContainerKind, n: nat)
    requires n >= 2
    ensures kind.Biomes? && n <= 8 ==> Width(kind, n) == if n <= 2 then 1 else if n <= 4 then 2 else 3
    ensures kind.Blocks? && n <= 256 ==>
      Width(kind, n) == if n <= 16 then 4 else if n <= 32 then 5 else if n <= 64 then 6 else if n <= 128 then 7 else 8
  {
    hide BitsFor;
    SmallPowersOfTwo();
    WidthIsLeast(kind, n, 1);
    WidthIsLeast(kind, n, 2);
    WidthIsLeast(kind, n, 3);
    WidthIsLeast(kind, n, 4);
    WidthIsLeast(kind, n, 5);
    WidthIsLeast(kind, n, 6);
    WidthIsLeast(kind, n, 7);
    WidthIsLeast(kind, n, 8);
  }

  lemma RenderedCells(kind: ContainerKind, directBits: nat, s: seq<nat>, seen: seq<nat>)
    requires Coherent(kind, directBits, s, seen)
    ensures var shape := Render(kind, directBits, s, seen);
      shape.SingleShape? ||
        (1 <= shape.bits <= 32 && 64 / shape.bits >= 2
         && |shape.cells| == (kind.Volume() + 64 / shape.bits - 1) / (64 / shape.bits))
  {
    hide LayoutOf, Slots, BitsFor, Width, CellsRequired;
    WidthBounds(kind, |seen|);
    var shape := Render(kind, directBits, s, seen);
    if !shape.SingleShape? {
      PackSize(Slots(s, seen), shape.bits);
      PackSize(s, shape.bits);
    }
  }

  lemma PackSize(values: seq<nat>, bits: nat)
    requires 1 <= bits <= 32
    ensures 64 / bits >= 2 && |Pack(values, LayoutOf(bits))| == (|values| + 64 / bits - 1) / (64 / bits)
  {
    hide Slots;
    CellsInNumbers(|values|, bits);
  }

  // ------------------------------------------------------------------ histories

  datatype Op = SetOp(index: nat, value: nat) | FillOp(value: nat) | ShrinkOp

  /** Specification state: the flat array and the ids seen since the last fill or shrink. */
  datatype State = State(contents: seq<nat>, seen: seq<nat>)

  function Note(seen: seq<nat>, value: nat): seq<nat> {
    if value in seen then seen else seen + [value]
  }

  function Filled(kind: ContainerKind, value: nat): State {
    State(seq(kind.Volume(), _ => value), [value])
  }

  function Apply(kind: ContainerKind, s: State, op: Op): State
    requires op.SetOp? ==> op.index < |s.contents|
  {
    match op
    case SetOp(i, v) => State(s.contents[i := v], Note(s.seen, v))
    case FillOp(v) => Filled(kind, v)
    case ShrinkOp => State(s.contents, Firsts(s.contents))
  }

  /** The operations that do not panic: those on `u32` ids within the container, except that inline
      storage takes ids of the direct width only, and so does the step to inline storage. */
  ghost predicate Legal(kind: ContainerKind, directBits: nat, s: State, op: Op) {
    match op
    case SetOp(i, v) =>
      && i < kind.Volume() && v < Pow2(ID_BITS)
      && (Inline(kind, Note(s.seen, v)) ==>
            1 <= directBits <= MAX_BITS && Fits(s.contents, directBits) && v < Pow2(directBits))
    case FillOp(v) => v < Pow2(ID_BITS)
    case ShrinkOp => true
  }

  lemma FilledIsCoherent(kind: ContainerKind, directBits: nat, value: nat)
    requires value < Pow2(ID_BITS)
    ensures Coherent(kind, directBits, Filled(kind, value).contents, [value])
  {
    Pow2Mono(0, kind.MaxIndirectBits());
  }

  /** Ids of the direct width never make a container panic. */
  lemma FittingIsLegal(kind: ContainerKind, directBits: nat, s: State, index: nat, value: nat)
    requires 1 <= directBits <= MAX_BITS && index < kind.Volume()
    requires Fits(s.contents, directBits) && value < Pow2(directBits)
    ensures Legal(kind, directBits, s, SetOp(index, value)) && Legal(kind, directBits, s, FillOp(value))
  {
    Pow2Mono(directBits, ID_BITS);
  }

  lemma ApplyKeepsCoherent(kind: ContainerKind, directBits: nat, s: State, op: Op)
    requires Coherent(kind, directBits, s.contents, s.seen) && Legal(kind, directBits, s, op)
    ensures Coherent(kind, directBits, Apply(kind, s, op).contents, Apply(kind, s, op).seen)
  {
    FirstsAreTheIds(s.contents);
    match op
    case SetOp(_, _) =>
    case FillOp(v) => FilledIsCoherent(kind, directBits, v);
    case ShrinkOp =>
      forall i | 0 <= i < |Firsts(s.contents)| ensures Firsts(s.contents)[i] in s.seen {
        assert Firsts(s.contents)[i] in s.contents;
      }
      DistinctWithin(Firsts(s.contents), s.seen);
  }

  /** The state after a whole history of writes, unless one of them panics. */
  ghost function Run(kind: ContainerKind, directBits: nat, start: nat, ops: seq<Op>): (s: Option<State>)
    requires start < Pow2(ID_BITS)
    ensures s.Some? ==> Coherent(kind, directBits, s.value.contents, s.value.seen)
  {
    if |ops| == 0 then
      FilledIsCoherent(kind, directBits, start);
      Some(Filled(kind, start))
    else
      match Run(kind, directBits, start, ops[..|ops| - 1])
      case None => None
      case Some(before) =>
        var op := ops[|ops| - 1];
        if !Legal(kind, directBits, before, op) then None
        else
          ApplyKeepsCoherent(kind, directBits, before, op);
          Some(Apply(kind, before, op))
  }

  lemma RunOn(kind: ContainerKind, directBits: nat, start: nat, ops: seq<Op>, op: Op)
    requires start < Pow2(ID_BITS) && Run(kind, directBits, start, ops).Some?
    requires Legal(kind, directBits, Run(kind, directBits, start, ops).value, op)
    ensures Run(kind, directBits, start, ops + [op]) == Some(Apply(kind, Run(kind, directBits, start, ops).value, op))
  {
    hide Legal, Apply, Coherent;
    assert (ops + [op])[..|ops|] == ops;
  }

  /** In a history of plain writes the ids are noticed in the order in which they were first written. */
  lemma {:induction false} NoticedAsWritten(kind: ContainerKind, directBits: nat, start: nat, ops: seq<Op>)
    requires start < Pow2(ID_BITS) && Run(kind, directBits, start, ops).Some?
    requires forall op :: op in ops ==> op.SetOp?
    ensures Run(kind, directBits, start, ops).value.seen == Firsts([start] + Written(ops))
    decreases |ops|
  {
    hide Coherent, Legal, Firsts;
    if |ops| == 0 {
      OneFirst(start);
      assert [start] + [] == [start];
    } else {
      var front, op := ops[..|ops| - 1], ops[|ops| - 1];
      assert op in ops && forall o :: o in front ==> o in ops;
      NoticedAsWritten(kind, directBits, start, front);
      FirstsOn([start] + Written(front), op.value);
      assert [start] + Written(ops) == [start] + Written(front) + [op.value];
    }
  }

  lemma OneFirst(id: nat)
    ensures Firsts([id]) == [id]
  {
    assert [id][..0] == [];
  }

  lemma FirstsOn(s: seq<nat>, id: nat)
    ensures Firsts(s + [id]) == Note(Firsts(s), id)
  {
    assert (s + [id])[..|s|] == s;
  }

  function Written(ops: seq<Op>): seq<nat> {
    if |ops| == 0 then []
    else Written(ops[..|ops| - 1]) + match ops[|ops| - 1]
      case SetOp(_, v) => [v]
      case FillOp(v) => [v]
      case ShrinkOp => []
  }

  /** A write panics exactly past the end, or when it would have inline storage hold what it cannot. */
  lemma WhenSetPanics(kind: ContainerKind, directBits: nat, s: State, index: nat, value: nat)
    requires Coherent(kind, directBits, s.contents, s.seen) && value <= 0xFFFF_FFFF
    ensures !Legal(kind, directBits, s, SetOp(index, value)) <==>
      || index >= (if kind.Blocks? then 4096 else 64)
      || (|s.seen| + (if value in s.seen then 0 else 1) > (if kind.Blocks? then 256 else 8)
          && (directBits == 0 || directBits > 32 || value >= Pow2(directBits)
              || exists i :: 0 <= i < |s.contents| && s.contents[i] >= Pow2(directBits)))
  {
    SmallPowersOfTwo();
    Pow2Of32();
    hide Pow2;
  }

  function BitsPerEntry(shape: Shape): nat {
    match shape
    case SingleShape(_) => 0
    case IndirectShape(_, bits, _) => bits
    case DirectShape(bits, _) => bits
  }

  /** Ids below `2^bits` are too few to overflow a palette at least that wide. */
  lemma IdsBounded(seen: seq<nat>, bits: nat)
    requires Distinct(seen) && Fits(seen, bits)
    ensures |seen| <= Pow2(bits)
  {
    var all := seq(Pow2(bits), i requires 0 <= i => i as nat);
    forall id | id in seen ensures id in all { assert all[id] == id; }
    DistinctWithin(seen, all);
  }

  lemma WidthMono(kind: ContainerKind, m: nat, n: nat)
    requires m <= n
    ensures Width(kind, m) <= Width(kind, n)
  {
    WidthBounds(kind, n);
    WidthIsLeast(kind, n, Width(kind, n));
    WidthIsLeast(kind, m, Width(kind, n));
  }

  /** A write narrows a container exactly when it takes a full palette to inline ids that are narrower
      than its slots. */
  lemma SetNarrowsOnlyPastAPalette(kind: ContainerKind, directBits: nat, s: State, index: nat, value: nat)
    requires Coherent(kind, directBits, s.contents, s.seen)
    requires Legal(kind, directBits, s, SetOp(index, value))
    ensures var after := Apply(kind, s, SetOp(index, value));
      && |after.seen| >= 1 && (Inline(kind, after.seen) ==> 1 <= directBits <= MAX_BITS)
      && (BitsPerEntry(Render(kind, directBits, s.contents, s.seen))
          > BitsPerEntry(Render(kind, directBits, after.contents, after.seen))
          <==> |s.seen| == Pow2(kind.MaxIndirectBits()) && value !in s.seen && directBits < kind.MaxIndirectBits())
  {
    var after := Apply(kind, s, SetOp(index, value));
    ApplyKeepsCoherent(kind, directBits, s, SetOp(index, value));
    WidthMono(kind, |s.seen|, |after.seen|);
    WidthBounds(kind, |s.seen|);
    FullWidth(kind);
  }

  /** The slots of a full palette have the greatest width. */
  lemma FullWidth(kind: ContainerKind)
    ensures Width(kind, Pow2(kind.MaxIndirectBits())) == kind.MaxIndirectBits() && Pow2(kind.MaxIndirectBits()) > 1
  {
    var most := Pow2(kind.MaxIndirectBits());
    Pow2Mono(1, kind.MaxIndirectBits());
    WidthIsLeast(kind, most, kind.MaxIndirectBits());
    WidthBounds(kind, most);
    if Width(kind, most) < kind.MaxIndirectBits() {
      Pow2Mono(Width(kind, most), kind.MaxIndirectBits() - 1);
    }
  }

  /** Two histories leave the same representation exactly when they leave the same array and
      noticed its ids in the same order, or noticed too many ids for a palette. */
  lemma SameShapeIff(kind: ContainerKind, directBits: nat, a: State, b: State)
    requires Coherent(kind, directBits, a.contents, a.seen)
    requires Coherent(kind, directBits, b.contents, b.seen)
    ensures Render(kind, directBits, a.contents, a.seen) == Render(kind, directBits, b.contents, b.seen)
      <==> a.contents == b.contents && (a.seen == b.seen || (Inline(kind, a.seen) && Inline(kind, b.seen)))
  {
    RenderReads(kind, directBits, a.contents, a.seen);
    RenderReads(kind, directBits, b.contents, b.seen);
    Pow2Mono(0, kind.MaxIndirectBits());
  }

  /** After `shrink` the representation is a function of the array alone, and an injective one:
      equal exactly when the arrays are, whatever the two histories were. */
  lemma ShrunkIsCanonical(
    kind: ContainerKind, directBits: nat, start1: nat, ops1: seq<Op>, start2: nat, ops2: seq<Op>)
    requires start1 < Pow2(ID_BITS) && start2 < Pow2(ID_BITS)
    requires Run(kind, directBits, start1, ops1).Some? && Run(kind, directBits, start2, ops2).Some?
    ensures var r1, r2 := Run(kind, directBits, start1, ops1).value, Run(kind, directBits, start2, ops2).value;
      var s1, s2 := Apply(kind, r1, ShrinkOp), Apply(kind, r2, ShrinkOp);
      && Coherent(kind, directBits, s1.contents, s1.seen) && Coherent(kind, directBits, s2.contents, s2.seen)
      && (Render(kind, directBits, s1.contents, s1.seen) == Render(kind, directBits, s2.contents, s2.seen)
          <==> r1.contents == r2.contents)
  {
    var r1, r2 := Run(kind, directBits, start1, ops1).value, Run(kind, directBits, start2, ops2).value;
    ApplyKeepsCoherent(kind, directBits, r1, ShrinkOp);
    ApplyKeepsCoherent(kind, directBits, r2, ShrinkOp);
    SameShapeIff(kind, directBits, Apply(kind, r1, ShrinkOp), Apply(kind, r2, ShrinkOp));
  }

  /** `shrink` leaves exactly the ids present, and never widens a container, except one with inline ids
      narrower than the narrowest slots that has more than one id left. */
  lemma ShrunkIsNarrowest(kind: ContainerKind, directBits: nat, s: State)
    requires Coherent(kind, directBits, s.contents, s.seen)
    ensures var shrunk := Apply(kind, s, ShrinkOp);
      && Coherent(kind, directBits, shrunk.contents, shrunk.seen)
      && |shrunk.seen| == |set id | id in s.contents|
      && (BitsPerEntry(Render(kind, directBits, shrunk.contents, shrunk.seen))
          > BitsPerEntry(Render(kind, directBits, s.contents, s.seen))
          <==> Inline(kind, s.seen) && |shrunk.seen| > 1 && directBits < kind.MinIndirectBits())
  {
    var shrunk := Apply(kind, s, ShrinkOp);
    ApplyKeepsCoherent(kind, directBits, s, ShrinkOp);
    FirstsAreTheIds(s.contents);
    DistinctWithin(shrunk.seen, s.seen);
    IdsSize(shrunk.seen);
    assert Ids(shrunk.seen) == set id | id in s.contents;
    RenderedBits(kind, directBits, s);
    RenderedBits(kind, directBits, shrunk);
    if Inline(kind, s.seen) {
      forall i | 0 <= i < |shrunk.seen| ensures shrunk.seen[i] < Pow2(directBits) {
        assert shrunk.seen[i] in s.contents;
      }
      IdsBounded(shrunk.seen, directBits);
    }
    hide Coherent, Render, Apply, Firsts, Distinct, Fits;
    FewerIds(kind, directBits, |shrunk.seen|, |s.seen|);
  }

  /** The width a state is stored at. */
  function BitsOf(kind: ContainerKind, directBits: nat, n: nat): nat {
    if n == 1 then 0 else if n <= Pow2(kind.MaxIndirectBits()) then Width(kind, n) else directBits
  }

  lemma RenderedBits(kind: ContainerKind, directBits: nat, s: State)
    requires Coherent(kind, directBits, s.contents, s.seen)
    ensures BitsPerEntry(Render(kind, directBits, s.contents, s.seen)) == BitsOf(kind, directBits, |s.seen|)
  {
    hide Width, Slots, Pack;
    FullWidth(kind);
  }

  lemma FewerIds(kind: ContainerKind, directBits: nat, m: nat, n: nat)
    requires 1 <= m <= n
    requires n > Pow2(kind.MaxIndirectBits()) ==> 1 <= directBits && m <= Pow2(directBits)
    ensures BitsOf(kind, directBits, m) > BitsOf(kind, directBits, n)
      <==> n > Pow2(kind.MaxIndirectBits()) && m > 1 && directBits < kind.MinIndirectBits()
  {
    hide BitsFor;
    WidthMono(kind, m, n);
    FullWidth(kind);
    if n > Pow2(kind.MaxIndirectBits()) {
      WidthIsLeast(kind, m, directBits);
      if directBits <= kind.MaxIndirectBits() { Pow2Mono(directBits, kind.MaxIndirectBits()); }
    }
  }

  // ------------------------------------------------------------------ the container object

  datatype Repr =
    | Single(value: nat)
    | Indirect(palette: seq<nat>, storage: BitStorage)
    | Direct(storage: BitStorage)

  function CountIf(s: seq<nat>, p: nat -> bool): nat {
    if |s| == 0 then 0 else CountIf(s[..|s| - 1], p) + if p(s[|s| - 1]) then 1 else 0
  }

  /** It is the number of positions that pass. */
  lemma {:induction false} CountIsCardinality(s: seq<nat>, p: nat -> bool)
    ensures CountIf(s, p) == |set i | 0 <= i < |s| && p(s[i])|
  {
    var all := set i | 0 <= i < |s| && p(s[i]);
    if |s| == 0 {
      assert all == {};
    } else {
      var n, front := |s| - 1, s[..|s| - 1];
      CountIsCardinality(front, p);
      var before := set i | 0 <= i < |front| && p(front[i]);
      forall i ensures i in all <==> i in before || (i == n && p(s[n])) {
        if 0 <= i < n { assert front[i] == s[i]; }
      }
      assert all == before + if p(s[n]) then {n} else {};
    }
  }

  class PalettedContainer {
    const kind: ContainerKind
    const directBits: nat
    var repr: Repr
    ghost var contents: seq<nat>
    ghost var seen: seq<nat>

    ghost function Footprint(): set<object>
      reads this
    {
      match repr
      case Single(_) => {this}
      case Indirect(_, storage) => {this, storage}
      case Direct(storage) => {this, storage}
    }

    ghost predicate Valid()
      reads this, Footprint()
    {
      && Coherent(kind, directBits, contents, seen)
      && match repr
         case Single(v) => seen == [v]
         case Indirect(palette, storage) =>
           && palette == seen && 2 <= |seen| && !Inline(kind, seen)
           && Holds(storage, Width(kind, |seen|), Slots(contents, seen))
         case Direct(storage) =>
           && Inline(kind, seen)
           && Holds(storage, directBits, contents)
    }

    ghost predicate Holds(storage: BitStorage, bits: nat, entries: seq<nat>)
      reads storage
    {
      && storage.Valid() && storage.len == kind.Volume() && storage.bits == bits
      && storage.Entries() == entries && storage.IsClean()
    }

    ghost function Abstract(): State
      reads this
    {
      State(contents, seen)
    }

    lemma HoldsVolume()
      requires Valid()
      ensures |contents| == kind.Volume()
    {
    }

    /** The representation, cells included, as a value. */
    ghost function Shape(): Shape
      reads this, Footprint()
    {
      match repr
      case Single(v) => SingleShape(v)
      case Indirect(palette, storage) => IndirectShape(palette, storage.bits, storage.data)
      case Direct(storage) => DirectShape(storage.bits, storage.data)
    }

    /** The stored representation is a function of the write history's contents and ids. */
    lemma ShapeIsRendered()
      requires Valid()
      ensures Shape() == Render(kind, directBits, contents, seen)
    {
      WidthBounds(kind, |seen|);
      match repr
      case Single(_) =>
      case Indirect(_, storage) =>
        PackUnpack(storage.data, storage.len, storage.Lay());
      case Direct(storage) =>
        PackUnpack(storage.data, storage.len, storage.Lay());
    }

    /** `filled`. */
    constructor (kind: ContainerKind, directBits: nat, value: nat)
      requires value < Pow2(ID_BITS)
      ensures Valid() && fresh(Footprint())
      ensures this.kind == kind && this.directBits == directBits
      ensures Abstract() == Filled(kind, value)
    {
      this.kind := kind;
      this.directBits := directBits;
      this.repr := Single(value);
      this.contents := Filled(kind, value).contents;
      this.seen := [value];
      hide Coherent;
      FilledIsCoherent(kind, directBits, value);
    }

    /** Reads agree with the flat array in every representation. */
    function Get(index: nat): (id: nat)
      reads this, Footprint()
      requires Valid() && index < kind.Volume()
      ensures id == contents[index]
    {
      match repr
      case Single(value) => assert contents[index] in seen; value
      case Indirect(palette, storage) => palette[storage.Get(index)]
      case Direct(storage) => storage.Get(index)
    }

    /** Writes through every promotion, returning what the flat array held. */
    method Set(index: nat, value: nat) returns (previous: nat)
      requires Valid() && Legal(kind, directBits, Abstract(), SetOp(index, value))
      modifies Footprint()
      ensures Valid() && fresh(Footprint() - old(Footprint()))
      ensures previous == old(contents)[index]
      ensures Abstract() == Apply(kind, old(Abstract()), SetOp(index, value))
    {
      match repr {
        case Single(existing) =>
          assert contents[index] in seen;
          if existing == value {
            contents := contents[index := value];
            return existing;
          }
          previous := PromoteSingle(existing, index, value);
        case Direct(storage) =>
          ApplyKeepsCoherent(kind, directBits, Abstract(), SetOp(index, value));
          previous := storage.Set(index, value);
          contents, seen := contents[index := value], Note(seen, value);
        case Indirect(palette, storage) =>
          previous := SetIndirect(palette, storage, index, value);
      }
    }

    method SetIndirect(palette: seq<nat>, storage: BitStorage, index: nat, value: nat) returns (previous: nat)
      requires Valid() && repr == Indirect(palette, storage) && Legal(kind, directBits, Abstract(), SetOp(index, value))
      modifies Footprint()
      ensures Valid() && fresh(Footprint() - old(Footprint()))
      ensures previous == old(contents)[index]
      ensures contents == old(contents)[index := value] && seen == Note(old(seen), value)
    {
      hide BitStorage.Valid, BitStorage.Entries, BitStorage.IsClean, BitsFor;
      WidthBounds(kind, |palette|);
      WidthBounds(kind, |palette| + 1);
      match Position(palette, value) {
        case Some(slot) =>
          SlotOverwritten(contents, seen, index, value);
          previous := WriteSlot(index, value, slot, palette);
        case None =>
          PaletteGrows(kind, contents, seen, index, value);
          if |palette| < Pow2(storage.bits) {
            previous := WriteSlot(index, value, |palette|, palette + [value]);
          } else {
            // Full palette: one bit wider, or ids inline once a palette stops paying for itself.
            var wider := storage.bits + 1;
            if wider <= kind.MaxIndirectBits() {
              previous := Widen(palette, storage, wider, index, value);
            } else {
              previous := GoDirect(palette, storage, index, value);
            }
          }
      }
    }

    /** Overwrites one slot under a palette that names `value` there and keeps its width. */
    method WriteSlot(index: nat, value: nat, slot: nat, palette: seq<nat>) returns (previous: nat)
      requires Valid() && repr.Indirect? && Legal(kind, directBits, Abstract(), SetOp(index, value))
      requires palette == Note(seen, value) && slot < |palette|
      requires |palette| <= Pow2(kind.MaxIndirectBits()) && Width(kind, |palette|) == Width(kind, |seen|)
      requires Slots(contents[index := value], palette) == Slots(contents, seen)[index := slot]
      modifies Footprint()
      ensures Valid() && Footprint() == old(Footprint())
      ensures previous == old(contents)[index]
      ensures contents == old(contents)[index := value] && seen == Note(old(seen), value)
    {
      ApplyKeepsCoherent(kind, directBits, Abstract(), SetOp(index, value));
      WidthBounds(kind, |palette|);
      assert contents[index] in seen;
      var oldSlot := repr.storage.Set(index, slot);
      previous := repr.palette[oldSlot];
      repr := Indirect(palette, repr.storage);
      contents, seen := contents[index := value], palette;
    }

    /** Second distinct value: the old one takes slot 0, so the zeroed storage is right elsewhere. */
    method PromoteSingle(existing: nat, index: nat, value: nat) returns (previous: nat)
      requires Valid() && repr == Single(existing) && Legal(kind, directBits, Abstract(), SetOp(index, value))
      requires value != existing
      modifies this
      ensures Valid() && fresh(Footprint() - old(Footprint()))
      ensures previous == old(contents)[index]
      ensures contents == old(contents)[index := value] && seen == Note(old(seen), value)
    {
      hide BitStorage.Valid, BitStorage.IsClean, BitsFor, SlotFor;
      ApplyKeepsCoherent(kind, directBits, Abstract(), SetOp(index, value));
      FirstPromotion(kind, contents, existing, index, value);
      assert contents[index] in seen;
      var storage := new BitStorage(kind.Volume(), kind.MinIndirectBits());
      var _ := storage.Set(index, 1);
      repr := Indirect([existing, value], storage);
      previous := existing;
      contents, seen := contents[index := value], [existing, value];
    }

    method Widen(palette: seq<nat>, storage: BitStorage, wider: nat, index: nat, value: nat)
      returns (previous: nat)
      requires Valid() && repr == Indirect(palette, storage) && Legal(kind, directBits, Abstract(), SetOp(index, value))
      requires value !in palette && Width(kind, |palette| + 1) == wider == storage.bits + 1
      requires wider <= kind.MaxIndirectBits() && |palette| < Pow2(wider)
      modifies this
      ensures Valid() && fresh(Footprint() - old(Footprint()))
      ensures previous == old(contents)[index]
      ensures contents == old(contents)[index := value] && seen == Note(old(seen), value)
    {
      hide BitStorage.Valid, BitStorage.Entries, BitStorage.IsClean, BitsFor, Distinct, Fits, Width;
      hide Render, LayoutOf;
      assert index < kind.Volume() && Coherent(kind, directBits, contents[index := value], seen + [value]) by {
        ApplyKeepsCoherent(kind, directBits, Abstract(), SetOp(index, value));
      }
      PaletteGrows(kind, contents, seen, index, value);
      WidthBounds(kind, |seen| + 1);
      assert contents[index] in seen;
      assert forall slot :: slot in storage.Entries() ==> slot < |palette|;
      assert palette[storage.Entries()[index]] == contents[index];
      hide Coherent, Pow2, Legal, Apply, Slots, SlotFor;
      var grown := storage.Remap(wider, (slot: nat) => slot);
      assert grown.Entries() == storage.Entries();
      var oldSlot := grown.Set(index, |palette|);
      previous := palette[oldSlot];
      repr := Indirect(palette + [value], grown);
      contents, seen := contents[index := value], seen + [value];
    }

    method GoDirect(palette: seq<nat>, storage: BitStorage, index: nat, value: nat)
      returns (previous: nat)
      requires Valid() && repr == Indirect(palette, storage) && Legal(kind, directBits, Abstract(), SetOp(index, value))
      requires value !in palette && |palette| + 1 > Pow2(kind.MaxIndirectBits())
      modifies this
      ensures Valid() && fresh(Footprint() - old(Footprint()))
      ensures previous == old(contents)[index]
      ensures contents == old(contents)[index := value] && seen == Note(old(seen), value)
    {
      hide BitStorage.Valid, BitStorage.IsClean, BitsFor;
      ApplyKeepsCoherent(kind, directBits, Abstract(), SetOp(index, value));
      var direct := storage.Remap(directBits, (slot: nat) requires slot < |palette| => palette[slot]);
      assert direct.Entries() == contents;
      previous := direct.Set(index, value);
      repr := Direct(direct);
      contents, seen := contents[index := value], seen + [value];
    }

    /** Resets every entry. */
    method Fill(value: nat)
      requires Valid() && value < Pow2(ID_BITS)
      modifies this
      ensures Valid() && Footprint() <= old(Footprint())
      ensures Abstract() == Filled(kind, value)
    {
      hide Coherent;
      FilledIsCoherent(kind, directBits, value);
      repr := Single(value);
      contents, seen := Filled(kind, value).contents, [value];
    }

    /** The ids a visitor is called with, in index order. */
    method ForEach() returns (visited: seq<nat>)
      requires Valid()
      ensures visited == contents
    {
      hide BitStorage.Valid, BitStorage.Entries, BitStorage.IsClean, BitsFor;
      match repr
      case Single(value) =>
        visited := [];
        for i := 0 to kind.Volume()
          invariant |visited| == i && forall j :: 0 <= j < i ==> visited[j] == value
        {
          visited := visited + [value];
        }
        assert forall i :: 0 <= i < |contents| ==> contents[i] in seen;
      case Indirect(palette, storage) =>
        var slots := storage.ForEach();
        visited := [];
        for i := 0 to |slots|
          invariant |visited| == i && forall j :: 0 <= j < i ==> visited[j] == contents[j]
        {
          visited := visited + [palette[slots[i]]];
        }
      case Direct(storage) =>
        visited := storage.ForEach();
    }

    /** Counting by palette entry agrees with a sweep over the flat array. */
    method Count(p: nat -> bool) returns (total: nat)
      requires Valid()
      ensures total == CountIf(contents, p)
    {
      hide BitStorage.Valid, BitStorage.IsClean;
      match repr
      case Single(value) =>
        assert forall i :: 0 <= i < |contents| ==> contents[i] in seen;
        CountUniform(contents, value, p);
        total := if p(value) then kind.Volume() else 0;
      case Indirect(palette, storage) =>
        var slots := storage.ForEach();
        total := CountSlots(palette, slots, p, contents);
      case Direct(storage) =>
        var ids := storage.ForEach();
        total := CountIds(ids, p);
    }

    /** The narrowest form of the same array; the ids are those still present. */
    method Shrink()
      requires Valid()
      modifies this
      ensures Valid() && fresh(Footprint() - old(Footprint()))
      ensures Abstract() == Apply(kind, old(Abstract()), ShrinkOp)
    {
      hide BitStorage.Valid, BitStorage.Entries, BitStorage.IsClean, Firsts;
      ApplyKeepsCoherent(kind, directBits, Abstract(), ShrinkOp);
      FirstsAreTheIds(contents);
      DistinctWithin(Firsts(contents), seen);
      if repr.Single? {
        assert Firsts(contents)[0] in contents;
        seen := Firsts(contents);
        return;
      }
      var visited := ForEach();
      var distinct := CollectDistinct(visited);
      if |distinct| == 1 {
        repr := Single(distinct[0]);
        seen := distinct;
        return;
      }
      var needed := BitsFor(|distinct|);
      var bits := if needed < kind.MinIndirectBits() then kind.MinIndirectBits() else needed;
      WidthBounds(kind, |distinct|);
      if bits > kind.MaxIndirectBits() {
        seen := distinct;
        return;
      }
      var storage := Index(visited, distinct, bits);
      repr := Indirect(distinct, storage);
      seen := distinct;
    }

    method CollectDistinct(visited: seq<nat>) returns (distinct: seq<nat>)
      ensures distinct == Firsts(visited)
    {
      distinct := [];
      for i := 0 to |visited|
        invariant distinct == Firsts(visited[..i])
      {
        assert visited[..i + 1][..i] == visited[..i];
        if visited[i] !in distinct {
          distinct := distinct + [visited[i]];
        }
      }
      assert visited[..|visited|] == visited;
    }

    /** Fresh storage holding the slot of every id. */
    method Index(visited: seq<nat>, distinct: seq<nat>, bits: nat) returns (storage: BitStorage)
      requires |visited| == kind.Volume() && 1 <= bits <= MAX_BITS && |distinct| <= Pow2(bits)
      requires forall i :: 0 <= i < |visited| ==> visited[i] in distinct
      ensures fresh(storage) && Holds(storage, bits, Slots(visited, distinct))
    {
      storage := new BitStorage(kind.Volume(), bits);
      for i := 0 to |visited|
        invariant fresh(storage) && storage.Valid() && storage.IsClean()
        invariant storage.len == kind.Volume() && storage.bits == bits
        invariant forall j :: 0 <= j < i ==> storage.Entries()[j] == SlotFor(distinct, visited[j])
      {
        var _ := storage.Set(i, Position(distinct, visited[i]).value);
      }
    }
  }

  /** Counts slots whose palette entry matches, having asked once for each palette entry. */
  method CountSlots(palette: seq<nat>, slots: seq<nat>, p: nat -> bool, ghost ids: seq<nat>) returns (total: nat)
    requires |slots| == |ids| && forall i :: 0 <= i < |ids| ==> slots[i] < |palette| && palette[slots[i]] == ids[i]
    ensures total == CountIf(ids, p)
  {
    var matching := seq(|palette|, i requires 0 <= i < |palette| => p(palette[i]));
    total := 0;
    for i := 0 to |slots|
      invariant total == CountIf(ids[..i], p)
    {
      assert ids[..i + 1][..i] == ids[..i];
      if matching[slots[i]] { total := total + 1; }
    }
    assert ids[..|ids|] == ids;
  }

  method CountIds(ids: seq<nat>, p: nat -> bool) returns (total: nat)
    ensures total == CountIf(ids, p)
  {
    total := 0;
    for i := 0 to |ids|
      invariant total == CountIf(ids[..i], p)
    {
      assert ids[..i + 1][..i] == ids[..i];
      if p(ids[i]) { total := total + 1; }
    }
    assert ids[..|ids|] == ids;
  }

  lemma SlotOverwritten(contents: seq<nat>, seen: seq<nat>, index: nat, value: nat)
    requires index < |contents| && value in seen
    ensures Slots(contents[index := value], seen) == Slots(contents, seen)[index := SlotFor(seen, value)]
  {
  }

  lemma PaletteGrows(kind: ContainerKind, contents: seq<nat>, seen: seq<nat>, index: nat, value: nat)
    requires |seen| >= 1 && value !in seen && index < |contents|
    requires forall i :: 0 <= i < |contents| ==> contents[i] in seen
    ensures Slots(contents[index := value], seen + [value]) == Slots(contents, seen)[index := |seen|]
    ensures |seen| < Pow2(Width(kind, |seen|)) ==> Width(kind, |seen| + 1) == Width(kind, |seen|)
    ensures |seen| == Pow2(Width(kind, |seen|)) ==> Width(kind, |seen| + 1) == Width(kind, |seen|) + 1
  {
    forall i | 0 <= i < |contents| && i != index
      ensures SlotFor(seen + [value], contents[i]) == SlotFor(seen, contents[i])
    {
      SlotForExtended(seen, contents[i], value);
    }
    WidthBounds(kind, |seen|);
    WidthBounds(kind, |seen| + 1);
    var w := Width(kind, |seen|);
    WidthIsLeast(kind, |seen| + 1, w);
    WidthIsLeast(kind, |seen|, Width(kind, |seen| + 1));
    WidthIsLeast(kind, |seen| + 1, w + 1);
  }

  lemma FirstPromotion(kind: ContainerKind, contents: seq<nat>, existing: nat, index: nat, value: nat)
    requires index < |contents| && value != existing
    requires forall i :: 0 <= i < |contents| ==> contents[i] in [existing]
    ensures Slots(contents[index := value], [existing, value]) == seq(|contents|, _ => 0)[index := 1]
    ensures Width(kind, 2) == kind.MinIndirectBits() && Pow2(kind.MinIndirectBits()) >= 2
    ensures 2 <= Pow2(kind.MaxIndirectBits())
  {
    WidthIsLeast(kind, 2, kind.MinIndirectBits());
    Pow2Mono(1, kind.MinIndirectBits());
    Pow2Mono(1, kind.MaxIndirectBits());
  }

  lemma {:induction false} CountUniform(s: seq<nat>, value: nat, p: nat -> bool)
    requires forall i :: 0 <= i < |s| ==> s[i] == value
    ensures CountIf(s, p) == if p(value) then |s| else 0
  {
    if |s| == 0 {
    } else {
      CountUniform(s[..|s| - 1], value, p);
    }
  }
}

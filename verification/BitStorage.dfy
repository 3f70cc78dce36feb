/**
  Packed bit storage: entries of a fixed width laid out in 64-bit cells, none of them across
  two cells. The cells are the state; `Unpack` is the plain sequence they stand for.
 */
module BitStorages {
  import opened Arithmetic
  import opened Powers
  import opened Words
  import opened Wrappers

  const MAX_BITS: nat := 32
  const MAX_LEN: nat := 0x400_0000
  const U64: nat := 0x1_0000_0000_0000_0000

  // ------------------------------------------------------------------ layout

  /** Entry width and the number of whole entries in a cell. */
  datatype Layout = Layout(bits: nat, perLong: nat) {
    ghost predicate Ok() {
      1 <= bits <= MAX_BITS && 1 <= perLong && perLong * bits <= WORD_BITS
    }

    /** First bit of a slot. */
    function Offset(slot: nat): (o: nat)
      requires Ok() && slot < perLong
      ensures o + bits <= WORD_BITS
    {
      MulMono(slot + 1, perLong, bits);
      slot * bits
    }
  }

  lemma PerLongAtLeastTwo(bits: nat)
    requires 1 <= bits <= MAX_BITS
    ensures 2 <= Quot(64, bits) <= 64
  {
    DivideBack(64, bits);
    if Quot(64, bits) <= 1 { MulMono(Quot(64, bits), 1, bits); }
    if Quot(64, bits) >= 65 { MulMono(1, bits, Quot(64, bits)); }
  }

  function LayoutOf(bits: nat): (l: Layout)
    requires 1 <= bits <= MAX_BITS
    ensures l.Ok() && 2 <= l.perLong <= 64
  {
    DivideBack(64, bits);
    PerLongAtLeastTwo(bits);
    Layout(bits, Quot(64, bits))
  }

  function CellsRequired(len: nat, bits: nat): nat
    requires bits <= MAX_BITS
  {
    if bits == 0 then 0 else DivCeil(len, LayoutOf(bits).perLong)
  }

  /** A cell holds as many whole entries as fit into 64 bits. */
  lemma LayoutInNumbers(bits: nat)
    requires 1 <= bits <= 32
    ensures LayoutOf(bits).bits == bits && LayoutOf(bits).perLong == 64 / bits
    ensures 64 / bits * bits <= 64 < (64 / bits + 1) * bits
  {
    DivideBack(64, bits);
    QuotIsDivision(64, bits);
    MulDistributes(64 / bits, 1, bits);
  }

  /** So many cells are needed, the last one perhaps in part. */
  lemma CellsInNumbers(len: nat, bits: nat)
    requires 1 <= bits <= 32
    ensures 64 / bits >= 2 && CellsRequired(len, bits) == (len + 64 / bits - 1) / (64 / bits)
  {
    LayoutInNumbers(bits);
    DivCeilIsRounding(len, 64 / bits);
  }

  /** The number held in one slot of a cell. */
  function Field(word: Word, l: Layout, slot: nat): nat
    requires l.Ok() && slot < l.perLong
  {
    var o := l.Offset(slot);
    ToNat(word[o..o + l.bits])
  }

  /** Entry `index`, counted through cells of `perLong` slots; 0 past the last cell. */
  function Entry(data: seq<Word>, l: Layout, index: nat): nat
    requires l.Ok()
  {
    if Quot(index, l.perLong) < |data| then Field(data[Quot(index, l.perLong)], l, Rem(index, l.perLong)) else 0
  }

  /** With `n` entries to a cell, entry `cell * n + slot` lies in that cell above the `slot` entries before
      it, at bits `low` to `low + bits - 1`. */
  lemma EntryInNumbers(data: seq<Word>, bits: nat, n: nat, cell: nat, slot: nat, low: nat)
    requires 1 <= bits <= 32 && n == 64 / bits && slot < n && low == slot * bits && cell < |data|
    ensures low + bits <= 64 && Entry(data, LayoutOf(bits), cell * n + slot) == ToNat(data[cell][low..low + bits])
  {
    hide ToNat;
    LayoutInNumbers(bits);
    SlotOf(n, cell, slot);
    assert LayoutOf(bits).Offset(slot) + bits <= 64;
  }

  ghost predicate Sized(data: seq<Word>, len: nat, l: Layout) {
    l.Ok() && |data| == DivCeil(len, l.perLong)
  }

  /** The plain sequence that packed cells stand for. */
  function Unpack(data: seq<Word>, len: nat, l: Layout): seq<nat>
    requires l.Ok()
  {
    seq(len, i requires 0 <= i => Entry(data, l, i))
  }

  /** The bit at position `k` of cell `c` belongs to no entry. */
  predicate IsPadding(len: nat, l: Layout, c: nat, k: nat)
    requires l.Ok()
  {
    Quot(k, l.bits) >= l.perLong || c * l.perLong + Quot(k, l.bits) >= len
  }

  /** All padding is zero, as in storage that was created rather than read. */
  ghost predicate Clean(data: seq<Word>, len: nat, l: Layout)
    requires l.Ok()
  {
    forall c: nat, k: nat :: c < |data| && k < WORD_BITS && IsPadding(len, l, c, k) ==> !data[c][k]
  }

  function PackedBit(values: seq<nat>, l: Layout, c: nat, k: nat): bool
    requires l.Ok()
  {
    !IsPadding(|values|, l, c, k)
    && FromNat(values[c * l.perLong + Quot(k, l.bits)], l.bits)[Rem(k, l.bits)]
  }

  function PackCell(values: seq<nat>, l: Layout, c: nat): Word
    requires l.Ok()
  {
    seq(WORD_BITS, k requires 0 <= k => PackedBit(values, l, c, k))
  }

  /** The cells of freshly packed values, padding zero. */
  function Pack(values: seq<nat>, l: Layout): (data: seq<Word>)
    requires l.Ok()
    ensures Sized(data, |values|, l)
  {
    seq(DivCeil(|values|, l.perLong), c requires 0 <= c => PackCell(values, l, c))
  }

  ghost predicate Fits(values: seq<nat>, bits: nat) {
    forall i :: 0 <= i < |values| ==> values[i] < Pow2(bits)
  }

  // ------------------------------------------------------------------ slots of a cell

  lemma FieldFits(word: Word, l: Layout, slot: nat)
    requires l.Ok() && slot < l.perLong
    ensures Field(word, l, slot) < Pow2(l.bits)
  {
    var o := l.Offset(slot);
    FromNatToNat(word[o..o + l.bits]);
  }

  /** The bits of a slot are the binary digits of its number. */
  lemma FieldBit(word: Word, l: Layout, slot: nat, j: nat)
    requires l.Ok() && slot < l.perLong && j < l.bits
    ensures FromNat(Field(word, l, slot), l.bits)[j] == word[l.Offset(slot) + j]
  {
    var o := l.Offset(slot);
    FromNatToNat(word[o..o + l.bits]);
  }

  lemma FieldFromBits(word: Word, l: Layout, slot: nat, value: nat)
    requires l.Ok() && slot < l.perLong && value < Pow2(l.bits)
    requires word[l.Offset(slot)..l.Offset(slot) + l.bits] == FromNat(value, l.bits)
    ensures Field(word, l, slot) == value
  {
    ToNatFromNat(value, l.bits);
  }

  /** A cell with one slot overwritten and every other bit left alone. */
  function PutField(word: Word, l: Layout, slot: nat, value: nat): Word
    requires l.Ok() && slot < l.perLong
  {
    var o := l.Offset(slot);
    word[..o] + FromNat(value, l.bits) + word[o + l.bits..]
  }

  lemma PutFieldReads(word: Word, l: Layout, slot: nat, value: nat, t: nat)
    requires l.Ok() && slot < l.perLong && value < Pow2(l.bits) && t < l.perLong
    ensures Field(PutField(word, l, slot, value), l, t) == if t == slot then value else Field(word, l, t)
  {
    var after, p := PutField(word, l, slot, value), l.Offset(t);
    if t == slot {
      FieldFromBits(after, l, slot, value);
    } else {
      if slot < t { SlotsDisjoint(l.bits, slot, t); } else { SlotsDisjoint(l.bits, t, slot); }
      assert after[p..p + l.bits] == word[p..p + l.bits];
    }
  }

  // ------------------------------------------------------------------ packing and unpacking

  lemma CellInRange(len: nat, l: Layout, index: nat)
    requires l.Ok() && index < len
    ensures Quot(index, l.perLong) < DivCeil(len, l.perLong)
  {
    DivCeilBounds(len, l.perLong);
    QuotBelow(index, l.perLong, DivCeil(len, l.perLong));
  }

  lemma EntryAt(data: seq<Word>, l: Layout, c: nat, s: nat)
    requires l.Ok() && c < |data| && s < l.perLong
    ensures Entry(data, l, c * l.perLong + s) == Field(data[c], l, s)
  {
    SlotOf(l.perLong, c, s);
  }

  lemma EntryFits(data: seq<Word>, l: Layout, index: nat)
    requires l.Ok()
    ensures Entry(data, l, index) < Pow2(l.bits)
  {
    if Quot(index, l.perLong) < |data| {
      FieldFits(data[Quot(index, l.perLong)], l, Rem(index, l.perLong));
    }
  }

  /** Every entry of a storage fits its width. */
  lemma UnpackFits(data: seq<Word>, len: nat, l: Layout)
    requires l.Ok()
    ensures Fits(Unpack(data, len, l), l.bits)
  {
    forall i | 0 <= i < len ensures Unpack(data, len, l)[i] < Pow2(l.bits) {
      EntryFits(data, l, i);
    }
  }

  /** Bit `j` of the field of a packed entry. */
  lemma PackedFieldBit(values: seq<nat>, l: Layout, c: nat, s: nat, j: nat)
    requires l.Ok() && s < l.perLong && j < l.bits && c * l.perLong + s < |values|
    ensures l.Offset(s) + j < WORD_BITS
    ensures PackCell(values, l, c)[l.Offset(s) + j] == FromNat(values[c * l.perLong + s], l.bits)[j]
  {
    hide FromNat, Pow2;
    SlotOf(l.bits, s, j);
  }

  lemma PackedField(values: seq<nat>, l: Layout, c: nat, s: nat)
    requires l.Ok() && Fits(values, l.bits) && s < l.perLong
    requires c * l.perLong + s < |values|
    ensures Field(PackCell(values, l, c), l, s) == values[c * l.perLong + s]
  {
    hide Field, FromNat, Pow2, PackCell;
    var word, o := PackCell(values, l, c), l.Offset(s);
    var digits := FromNat(values[c * l.perLong + s], l.bits);
    forall j | 0 <= j < l.bits ensures word[o..o + l.bits][j] == digits[j] {
      PackedFieldBit(values, l, c, s, j);
    }
    FieldFromBits(word, l, s, values[c * l.perLong + s]);
  }

  lemma PackedEntry(values: seq<nat>, l: Layout, i: nat)
    requires l.Ok() && Fits(values, l.bits) && i < |values|
    ensures Entry(Pack(values, l), l, i) == values[i]
  {
    var c, s := Quot(i, l.perLong), Rem(i, l.perLong);
    CellInRange(|values|, l, i);
    DivideBack(i, l.perLong);
    PackedField(values, l, c, s);
  }

  /** Packing and unpacking is the identity on values that fit. */
  lemma UnpackPack(values: seq<nat>, l: Layout)
    requires l.Ok() && Fits(values, l.bits)
    ensures Unpack(Pack(values, l), |values|, l) == values
    ensures Clean(Pack(values, l), |values|, l)
  {
    forall i: nat | i < |values| ensures Entry(Pack(values, l), l, i) == values[i] {
      PackedEntry(values, l, i);
    }
  }

  lemma FieldBitAt(word: Word, l: Layout, k: nat)
    requires l.Ok() && k < WORD_BITS && Quot(k, l.bits) < l.perLong
    ensures FromNat(Field(word, l, Quot(k, l.bits)), l.bits)[Rem(k, l.bits)] == word[k]
  {
    hide Field, FromNat;
    var s, j := Quot(k, l.bits), Rem(k, l.bits);
    FieldBit(word, l, s, j);
    DivideBack(k, l.bits);
  }

  /** Clean cells are determined by the entries they hold. */
  lemma PackUnpack(data: seq<Word>, len: nat, l: Layout)
    requires Sized(data, len, l) && Clean(data, len, l)
    ensures Pack(Unpack(data, len, l), l) == data
  {
    var values := Unpack(data, len, l);
    forall c: nat | c < |data| ensures PackCell(values, l, c) == data[c] {
      forall k: nat | k < WORD_BITS ensures PackedBit(values, l, c, k) == data[c][k] {
        if !IsPadding(len, l, c, k) {
          EntryAt(data, l, c, Quot(k, l.bits));
          FieldBitAt(data[c], l, k);
        }
      }
    }
  }

  // ------------------------------------------------------------- reciprocal division

  /** `ceil(2^32 / divisor)`. */
  function Reciprocal(divisor: nat): nat
    requires divisor > 0
  {
    DivCeil(0x1_0000_0000, divisor)
  }

  /** The cell of an entry as the program finds it: a 64-bit multiplication and a shift. */
  function CellOf(index: nat, magic: nat): nat {
    index * magic % U64 / 0x1_0000_0000
  }

  /** Multiply-and-shift is exact division, and the product never wraps. */
  lemma ReciprocalDivision(index: nat, divisor: nat)
    requires 2 <= divisor <= 64 && index < MAX_LEN
    ensures index * Reciprocal(divisor) < U64
    ensures CellOf(index, Reciprocal(divisor)) == Quot(index, divisor) == index / divisor
  {
    QuotIsDivision(index, divisor);
    var error := ReciprocalError(divisor);
    MultiplyShift(index, divisor, Reciprocal(divisor), error);
  }

  lemma ReciprocalError(divisor: nat) returns (error: nat)
    requires 2 <= divisor
    ensures Reciprocal(divisor) * divisor == 0x1_0000_0000 + error && error < divisor
    ensures Reciprocal(divisor) <= 0x8000_0000
  {
    DivCeilBounds(0x1_0000_0000, divisor);
    error := Reciprocal(divisor) * divisor - 0x1_0000_0000;
    if Reciprocal(divisor) >= 0x8000_0001 { MulMono(0x8000_0001, Reciprocal(divisor), divisor); }
  }

  lemma MultiplyShift(index: nat, divisor: nat, m: nat, error: nat)
    requires 2 <= divisor <= 64 && index < MAX_LEN && error < divisor && m <= 0x8000_0000
    requires m * divisor == 0x1_0000_0000 + error
    ensures index * m < U64 && CellOf(index, m) == Quot(index, divisor)
  {
    NoWrap(index, m);
    DivideBack(index, divisor);
    var rest := ProductSplits(index, divisor, m, Quot(index, divisor), Rem(index, divisor), error);
    ShiftedProduct(index, m, Quot(index, divisor), rest);
  }

  lemma NoWrap(index: nat, m: nat)
    requires index < MAX_LEN && m <= 0x8000_0000
    ensures index * m < U64
  {
    MulMono(index, MAX_LEN, m);
  }

  lemma ShiftedProduct(index: nat, m: nat, q: nat, rest: nat)
    requires index * m == q * 0x1_0000_0000 + rest && rest < 0x1_0000_0000 && index * m < U64
    ensures CellOf(index, m) == q
  {
  }

  lemma ProductSplits(index: nat, divisor: nat, m: nat, q: nat, r: nat, error: nat) returns (rest: nat)
    requires 2 <= divisor <= 64 && index < MAX_LEN && r < divisor && error < divisor
    requires index == q * divisor + r && m * divisor == 0x1_0000_0000 + error
    ensures index * m == q * 0x1_0000_0000 + rest && rest < 0x1_0000_0000
  {
    rest := q * error + r * m;
    ProductRest(index, divisor, m, q, r, error);
    ErrorBound(index, divisor, m, q, r, error);
  }

  lemma ProductRest(index: nat, divisor: nat, m: nat, q: nat, r: nat, error: nat)
    requires index == q * divisor + r && m * divisor == 0x1_0000_0000 + error
    ensures index * m == q * 0x1_0000_0000 + (q * error + r * m)
  {
    MulDistributes(q * divisor, r, m);
    MulAssoc(q, divisor, m);
    MulDistributes(0x1_0000_0000, error, q);
  }

  /** The error term stays under one unit of the shift, so it never reaches the quotient. */
  lemma ErrorBound(index: nat, divisor: nat, m: nat, q: nat, r: nat, error: nat)
    requires 2 <= divisor <= 64 && index < MAX_LEN && r < divisor && error < divisor
    requires index == q * divisor + r && m * divisor == 0x1_0000_0000 + error
    ensures q * error + r * m < 0x1_0000_0000
  {
    var rest := q * error + r * m;
    assert rest * divisor == error * index + r * 0x1_0000_0000 by {
      MulDistributes(q * error, r * m, divisor);
      MulAssoc(r, m, divisor);
      MulAssoc(error, q, divisor);
      MulDistributes(q * divisor, r, error);
      MulDistributes(0x1_0000_0000, error, r);
    }
    MulMono(error, 63, index);
    MulMono(r, divisor - 1, 0x1_0000_0000);
    if rest >= 0x1_0000_0000 { MulMono(0x1_0000_0000, rest, divisor); }
  }

  /** Cell and slot of an entry, by reciprocal division. */
  function CellAndSlot(index: nat, perLong: nat, magic: nat): (at: (nat, nat))
    requires 2 <= perLong <= 64 && index < MAX_LEN && magic == Reciprocal(perLong)
    ensures at == (Quot(index, perLong), Rem(index, perLong))
  {
    var cell := CellOf(index, magic);
    SlotInCell(index, perLong, magic, cell);
    (cell, index - cell * perLong)
  }

  lemma SlotInCell(index: nat, perLong: nat, magic: nat, cell: nat)
    requires 2 <= perLong <= 64 && index < MAX_LEN && magic == Reciprocal(perLong)
    requires cell == CellOf(index, magic)
    ensures cell == Quot(index, perLong) && index - cell * perLong == Rem(index, perLong)
  {
    ReciprocalDivision(index, perLong);
    DivideBack(index, perLong);
  }

  // ------------------------------------------------------------- single-entry update

  /** Cells with entry `index` overwritten and every other bit, padding included, left alone. */
  function Poke(data: seq<Word>, l: Layout, index: nat, value: nat): (updated: seq<Word>)
    requires l.Ok() && Quot(index, l.perLong) < |data|
    ensures |updated| == |data|
  {
    var c := Quot(index, l.perLong);
    data[c := PutField(data[c], l, Rem(index, l.perLong), value)]
  }

  lemma PokeEntry(data: seq<Word>, l: Layout, index: nat, value: nat, i: nat)
    requires l.Ok() && value < Pow2(l.bits) && Quot(index, l.perLong) < |data|
    ensures Entry(Poke(data, l, index, value), l, i) == if i == index then value else Entry(data, l, i)
  {
    PokeAt(data, l, Quot(index, l.perLong), Rem(index, l.perLong), value, Quot(i, l.perLong), Rem(i, l.perLong));
    if Quot(i, l.perLong) == Quot(index, l.perLong) && Rem(i, l.perLong) == Rem(index, l.perLong) {
      SameSlot(i, index, l.perLong);
    }
  }

  lemma PokeAt(data: seq<Word>, l: Layout, c: nat, s: nat, value: nat, d: nat, t: nat)
    requires l.Ok() && value < Pow2(l.bits) && c < |data| && s < l.perLong && t < l.perLong
    ensures d < |data| ==>
      Field(data[c := PutField(data[c], l, s, value)][d], l, t)
      == if d == c && t == s then value else Field(data[d], l, t)
  {
    if d == c { PutFieldReads(data[c], l, s, value, t); }
  }

  /** Overwriting one entry changes that entry of the plain sequence and nothing else. */
  lemma PokeUnpacks(data: seq<Word>, len: nat, l: Layout, index: nat, value: nat)
    requires l.Ok() && index < len && value < Pow2(l.bits) && Quot(index, l.perLong) < |data|
    ensures Unpack(Poke(data, l, index, value), len, l) == Unpack(data, len, l)[index := value]
  {
    forall i: nat | i < len
      ensures Entry(Poke(data, l, index, value), l, i) == if i == index then value else Entry(data, l, i)
    {
      PokeEntry(data, l, index, value, i);
    }
  }

  /** A bit changes only inside the entry that is overwritten, so padding never does. */
  lemma PokeKeepsPadding(data: seq<Word>, len: nat, l: Layout, index: nat, value: nat)
    requires l.Ok() && index < len && Quot(index, l.perLong) < |data|
    ensures forall c: nat, k: nat :: c < |data| && k < WORD_BITS && IsPadding(len, l, c, k) ==>
      Poke(data, l, index, value)[c][k] == data[c][k]
  {
    forall c: nat, k: nat | c < |data| && k < WORD_BITS && IsPadding(len, l, c, k)
      ensures Poke(data, l, index, value)[c][k] == data[c][k]
    {
      PokeKeepsPaddingBit(data, len, l, index, value, c, k);
    }
  }

  lemma PokeKeepsPaddingBit(data: seq<Word>, len: nat, l: Layout, index: nat, value: nat, c: nat, k: nat)
    requires l.Ok() && index < len && Quot(index, l.perLong) < |data|
    requires c < |data| && k < WORD_BITS && IsPadding(len, l, c, k)
    ensures Poke(data, l, index, value)[c][k] == data[c][k]
  {
    var s := Rem(index, l.perLong);
    var o := l.Offset(s);
    if c == Quot(index, l.perLong) && o <= k < o + l.bits {
      SlotOf(l.bits, s, k - o);
      DivideBack(index, l.perLong);
      assert false;
    }
  }

  // ------------------------------------------------------------- the storage object

  class BitStorage {
    var data: seq<Word>
    const len: nat
    const bits: nat
    const valuesPerLong: nat
    const magic: nat
    const mask: Word

    ghost predicate Valid()
      reads this
    {
      && len < MAX_LEN
      && 1 <= bits <= MAX_BITS
      && Lay() == LayoutOf(bits)
      && |data| == CellsRequired(len, bits)
      && magic == Reciprocal(valuesPerLong)
      && mask == Mask(bits)
    }

    function Lay(): Layout {
      Layout(bits, valuesPerLong)
    }

    function Entries(): (entries: seq<nat>)
      reads this
      requires Valid()
      ensures |entries| == len
    {
      Unpack(data, len, Lay())
    }

    ghost predicate IsClean()
      reads this
      requires Valid()
    {
      Clean(data, len, Lay())
    }

    /** Zero-filled storage. */
    constructor (len: nat, bits: nat)
      requires 1 <= bits <= MAX_BITS && len < MAX_LEN
      ensures Valid() && this.len == len && this.bits == bits
      ensures Entries() == seq(len, _ => 0) && IsClean()
      ensures 64 / bits >= 2 && |data| == (len + 64 / bits - 1) / (64 / bits)
    {
      CellsInNumbers(len, bits);
      QuotIsDivision(64, bits);
      this.data := seq(CellsRequired(len, bits), _ => ZERO);
      this.len := len;
      this.bits := bits;
      this.valuesPerLong := 64 / bits;
      this.magic := Reciprocal(64 / bits);
      this.mask := Mask(bits);
      new;
      ZeroCells(data, len, Lay());
    }

    /** Wraps cells read from elsewhere, whose padding may be anything. */
    constructor FromCells(len: nat, bits: nat, cells: seq<Word>)
      requires 1 <= bits <= MAX_BITS && len < MAX_LEN && |cells| == CellsRequired(len, bits)
      ensures Valid() && this.len == len && this.bits == bits && data == cells
    {
      QuotIsDivision(64, bits);
      this.data := cells;
      this.len := len;
      this.bits := bits;
      this.valuesPerLong := 64 / bits;
      this.magic := Reciprocal(64 / bits);
      this.mask := Mask(bits);
    }

    static method FromData(len: nat, bits: nat, cells: seq<Word>) returns (storage: Option<BitStorage>)
      ensures storage.Some? <==>
        1 <= bits <= 32 && len < 67_108_864 && 64 / bits > 0 && |cells| == (len + 64 / bits - 1) / (64 / bits)
      ensures storage.Some? ==>
        fresh(storage.value) && storage.value.Valid() && storage.value.data == cells
        && storage.value.len == len && storage.value.bits == bits
    {
      if bits == 0 || bits > MAX_BITS || len >= MAX_LEN {
        return None;
      }
      CellsInNumbers(len, bits);
      if |cells| != CellsRequired(len, bits) {
        return None;
      }
      var wrapped := new BitStorage.FromCells(len, bits, cells);
      return Some(wrapped);
    }

    /** The cell and the first bit of an entry. */
    function Locate(index: nat): (at: (nat, nat))
      reads this
      requires Valid() && index < len
      ensures at.0 == Quot(index, valuesPerLong) < |data|
      ensures at.1 == Lay().Offset(Rem(index, valuesPerLong))
    {
      CellInRange(len, Lay(), index);
      var (cell, slot) := CellAndSlot(index, valuesPerLong, magic);
      (cell, Lay().Offset(slot))
    }

    /** Reads an entry: reciprocal division, shift, mask. */
    function Get(index: nat): (value: nat)
      reads this
      requires Valid() && index < len
      ensures value == Entries()[index]
    {
      var (cell, offset) := Locate(index);
      ReadField(data[cell], offset, bits);
      ToNat(And(Shr(data[cell], offset), mask)[..32])
    }

    /** Writes an entry and returns the one it replaces; no padding bit changes. */
    method Set(index: nat, value: nat) returns (previous: nat)
      requires Valid() && index < len && value < Pow2(bits)
      modifies this
      ensures Valid()
      ensures previous == old(Entries()[index])
      ensures Entries() == old(Entries())[index := value]
      ensures old(IsClean()) ==> IsClean()
      ensures forall c: nat, k: nat ::
        c < |data| && k < WORD_BITS && IsPadding(len, Lay(), c, k) ==> data[c][k] == old(data)[c][k]
    {
      var (cell, offset) := Locate(index);
      ghost var before, l := data, Lay();
      var word := data[cell];
      previous := ToNat(And(Shr(word, offset), mask)[..32]);
      ReadField(word, offset, bits);
      WriteField(word, offset, bits, value);
      data := data[cell := Or(And(word, Not(Shl(mask, offset))), Shl(FromNat(value, WORD_BITS), offset))];

      assert data == Poke(before, l, index, value);
      PokeUnpacks(before, len, l, index, value);
      PokeKeepsPadding(before, len, l, index, value);
    }

    /** The values a visitor is called with, in index order. */
    method ForEach() returns (visited: seq<nat>)
      requires Valid()
      ensures visited == Entries()
    {
      visited := [];
      for c := 0 to |data|
        invariant visited <= Entries() && (|visited| == c * valuesPerLong || |visited| == len)
      {
        visited := VisitCell(c, visited);
        MulDistributes(c, 1, valuesPerLong);
      }
      CoversAll(len, Lay());
    }

    /** One cell of the visit, shifting it as it goes; stops at the last entry. */
    method VisitCell(c: nat, before: seq<nat>) returns (visited: seq<nat>)
      requires Valid() && c < |data|
      requires before <= Entries() && (|before| == c * valuesPerLong || |before| == len)
      ensures visited <= Entries() && (|visited| == c * valuesPerLong + valuesPerLong || |visited| == len)
    {
      hide Quot, Rem, DivCeil, Reciprocal, LayoutOf, Entry, ToNat, And, Mask;
      visited := before;
      ghost var l, entries, base := Lay(), Entries(), c * valuesPerLong;
      var word := data[c];
      for s := 0 to valuesPerLong
        invariant visited <= entries && (|visited| == base + s || |visited| == len)
        invariant word == Shr(data[c], s * bits)
      {
        if |visited| >= len {
          return;
        }
        VisitSlot(data, l, c, s, word, mask);
        visited := visited + [ToNat(And(word, mask)[..32])];
        word := Shr(word, bits);
      }
    }

    /** A copy at another width with every entry mapped through `f`. */
    method Remap(newBits: nat, f: nat --> nat) returns (out: BitStorage)
      requires Valid() && 1 <= newBits <= MAX_BITS
      requires forall i :: 0 <= i < len ==> f.requires(Entries()[i]) && f(Entries()[i]) < Pow2(newBits)
      ensures fresh(out) && out.Valid() && out.len == len && out.bits == newBits && out.IsClean()
      ensures forall i :: 0 <= i < len ==> out.Entries()[i] == f(Entries()[i])
    {
      out := new BitStorage(len, newBits);
      var visited := ForEach();
      for i := 0 to len
        invariant fresh(out) && out.Valid() && out.len == len && out.bits == newBits && out.IsClean()
        invariant forall j :: 0 <= j < i ==> out.Entries()[j] == f(visited[j])
      {
        var _ := out.Set(i, f(visited[i]));
      }
    }
  }

  lemma ZeroCells(data: seq<Word>, len: nat, l: Layout)
    requires l.Ok() && forall c :: 0 <= c < |data| ==> data[c] == ZERO
    ensures Unpack(data, len, l) == seq(len, _ => 0) && Clean(data, len, l)
  {
    forall i: nat | i < len ensures Entry(data, l, i) == 0 {
      if Quot(i, l.perLong) < |data| { ZeroField(l, Rem(i, l.perLong)); }
    }
  }

  lemma ZeroField(l: Layout, slot: nat)
    requires l.Ok() && slot < l.perLong
    ensures Field(ZERO, l, slot) == 0
  {
    var o := l.Offset(slot);
    ToNatPadded([], ZERO[o..o + l.bits]);
  }

  lemma ShiftedField(w: Word, offset: nat, bits: nat)
    requires bits <= 32 && offset + bits <= WORD_BITS
    ensures ToNat(And(Shr(w, offset), Mask(bits))[..32]) == ToNat(w[offset..offset + bits])
    ensures Shr(Shr(w, offset), bits) == Shr(w, offset + bits)
  {
    ReadField(w, offset, bits);
  }

  /** A word shifted past `s` slots shows slot `s` under the mask, and one more shift exposes the next. */
  lemma VisitSlot(data: seq<Word>, l: Layout, c: nat, s: nat, word: Word, mask: Word)
    requires l.Ok() && c < |data| && s < l.perLong
    requires word == Shr(data[c], s * l.bits) && mask == Mask(l.bits)
    ensures ToNat(And(word, mask)[..32]) == Entry(data, l, c * l.perLong + s)
    ensures Shr(word, l.bits) == Shr(data[c], (s + 1) * l.bits)
  {
    EntryAt(data, l, c, s);
    ShiftedField(data[c], l.Offset(s), l.bits);
    MulDistributes(s, 1, l.bits);
  }

  lemma CoversAll(len: nat, l: Layout)
    requires l.Ok()
    ensures DivCeil(len, l.perLong) * l.perLong >= len
  {
    DivCeilBounds(len, l.perLong);
  }
}

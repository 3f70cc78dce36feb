/**
  Binary NBT. A tag is a tree; floats are bit patterns. `WritePayload` and `ReadPayload` are the
  two codecs as functions of values, and the theorems say what reading a written tree gives for
  every tree, and what kind of tree reading arbitrary bytes can give.
 */
module Nbts {
  import opened Powers
  import opened Bytes
  import opened ModifiedUtf8s
  import opened Wrappers

  const MAX_DEPTH: nat := 512
  const MAX_ARRAY_LEN: nat := 0x100_0000

  datatype NbtTag =
    | ByteTag(int8: int)
    | ShortTag(int16: int)
    | IntTag(int32: int)
    | LongTag(int64: int)
    | FloatTag(bits32: nat)
    | DoubleTag(bits64: nat)
    | ByteArrayTag(int8s: seq<int>)
    | StringTag(text: string)
    | ListTag(elementType: byte, items: seq<NbtTag>)
    | CompoundTag(entries: seq<Entry>)
    | IntArrayTag(int32s: seq<int>)
    | LongArrayTag(int64s: seq<int>)

  datatype Entry = Entry(name: string, value: NbtTag)

  function TypeId(t: NbtTag): (id: byte)
    ensures 1 <= id <= 12
  {
    match t
    case ByteTag(_) => 1
    case ShortTag(_) => 2
    case IntTag(_) => 3
    case LongTag(_) => 4
    case FloatTag(_) => 5
    case DoubleTag(_) => 6
    case ByteArrayTag(_) => 7
    case StringTag(_) => 8
    case ListTag(_, _) => 9
    case CompoundTag(_) => 10
    case IntArrayTag(_) => 11
    case LongArrayTag(_) => 12
  }

  // ------------------------------------------------------------------ compounds and lists

  /** Replaces the entry of that name, or appends one. */
  function Insert(entries: seq<Entry>, name: string, value: NbtTag): seq<Entry> {
    if |entries| == 0 then [Entry(name, value)]
    else if entries[0].name == name then [Entry(name, value)] + entries[1..]
    else [entries[0]] + Insert(entries[1..], name, value)
  }

  function InsertAll(entries: seq<Entry>, more: seq<Entry>): seq<Entry>
    decreases |more|
  {
    if |more| == 0 then entries
    else InsertAll(Insert(entries, more[0].name, more[0].value), more[1..])
  }

  function Get(entries: seq<Entry>, name: string): Option<NbtTag> {
    if |entries| == 0 then None
    else if entries[0].name == name then Some(entries[0].value)
    else Get(entries[1..], name)
  }

  ghost predicate UniqueNames(entries: seq<Entry>) {
    forall i, j :: 0 <= i < j < |entries| ==> entries[i].name != entries[j].name
  }

  ghost predicate HasName(entries: seq<Entry>, name: string) {
    exists i :: 0 <= i < |entries| && entries[i].name == name
  }

  /** A list of tags that share one type; a mixed one cannot be built. */
  function NewList(items: seq<NbtTag>): Option<NbtTag> {
    if |items| == 0 then Some(ListTag(0, []))
    else if exists i :: 0 <= i < |items| && TypeId(items[i]) != TypeId(items[0]) then None
    else Some(ListTag(TypeId(items[0]), items))
  }

  /** What the program's types and constructors guarantee of a tag. A list holds fewer than 2^32. */
  ghost predicate Wf(t: NbtTag)
    decreases t
  {
    match t
    case ByteTag(v) => InSigned(v, 8)
    case ShortTag(v) => InSigned(v, 16)
    case IntTag(v) => InSigned(v, 32)
    case LongTag(v) => InSigned(v, 64)
    case FloatTag(b) => b < Pow2(32)
    case DoubleTag(b) => b < Pow2(64)
    case ByteArrayTag(v) => |v| < Pow2(32) && AllSigned(v, 8)
    case StringTag(_) => true
    case ListTag(elementType, items) => |items| < Pow2(32) && WfItems(items, elementType)
    case CompoundTag(entries) => UniqueNames(entries) && WfEntries(entries)
    case IntArrayTag(v) => |v| < Pow2(32) && AllSigned(v, 32)
    case LongArrayTag(v) => |v| < Pow2(32) && AllSigned(v, 64)
  }

  ghost predicate AllSigned(v: seq<int>, bits: nat)
    requires bits >= 1
  {
    forall i :: 0 <= i < |v| ==> InSigned(v[i], bits)
  }

  ghost predicate WfItems(items: seq<NbtTag>, elementType: byte)
    decreases items
  {
    forall i :: 0 <= i < |items| ==> TypeId(items[i]) == elementType && Wf(items[i])
  }

  ghost predicate WfEntries(entries: seq<Entry>)
    decreases entries
  {
    forall i :: 0 <= i < |entries| ==> Wf(entries[i].value)
  }

  /** The limits the reader enforces, for a tag at `depth`. */
  predicate Limits(t: NbtTag, depth: nat)
    decreases t
  {
    depth <= MAX_DEPTH
    && match t
       case ByteArrayTag(v) => |v| <= MAX_ARRAY_LEN
       case ListTag(_, items) => |items| <= MAX_ARRAY_LEN && ItemsLimits(items, depth + 1)
       case CompoundTag(entries) => EntriesLimits(entries, depth + 1)
       case IntArrayTag(v) => |v| <= MAX_ARRAY_LEN
       case LongArrayTag(v) => |v| <= MAX_ARRAY_LEN
       case _ => true
  }

  predicate ItemsLimits(items: seq<NbtTag>, depth: nat)
    decreases items
  {
    |items| == 0 || (Limits(items[0], depth) && ItemsLimits(items[1..], depth))
  }

  predicate EntriesLimits(entries: seq<Entry>, depth: nat)
    decreases entries
  {
    |entries| == 0 || (Limits(entries[0].value, depth) && EntriesLimits(entries[1..], depth))
  }

  // ------------------------------------------------------------------ writing

  function SignedBytes(v: int, n: nat): (bytes: seq<byte>)
    requires n >= 1 && InSigned(v, 8 * n)
    ensures |bytes| == n
  {
    BigEndian(AsUnsigned(v, 8 * n), n)
  }

  /** A count cast to `i32`: its low 32 bits. */
  function CountBytes(n: nat): seq<byte> {
    BigEndian(n, 4)
  }

  function WriteInts(v: seq<int>, n: nat): seq<byte>
    requires n >= 1 && AllSigned(v, 8 * n)
  {
    if |v| == 0 then [] else SignedBytes(v[0], n) + WriteInts(v[1..], n)
  }

  function WritePayload(t: NbtTag): seq<byte>
    requires Wf(t)
    decreases t
  {
    match t
    case ByteTag(v) => SignedBytes(v, 1)
    case ShortTag(v) => SignedBytes(v, 2)
    case IntTag(v) => SignedBytes(v, 4)
    case LongTag(v) => SignedBytes(v, 8)
    case FloatTag(b) => BigEndian(b, 4)
    case DoubleTag(b) => BigEndian(b, 8)
    case ByteArrayTag(v) => CountBytes(|v|) + WriteInts(v, 1)
    case StringTag(s) => WriteString(s)
    case ListTag(elementType, items) => [elementType] + CountBytes(|items|) + WriteItems(items, elementType)
    case CompoundTag(entries) => WriteEntries(entries) + [0]
    case IntArrayTag(v) => CountBytes(|v|) + WriteInts(v, 4)
    case LongArrayTag(v) => CountBytes(|v|) + WriteInts(v, 8)
  }

  function WriteItems(items: seq<NbtTag>, elementType: byte): seq<byte>
    requires WfItems(items, elementType)
    decreases items
  {
    if |items| == 0 then [] else WritePayload(items[0]) + WriteItems(items[1..], elementType)
  }

  function WriteEntries(entries: seq<Entry>): seq<byte>
    requires WfEntries(entries)
    decreases entries
  {
    if |entries| == 0 then []
    else
      var e := entries[0];
      [TypeId(e.value)] + WriteString(e.name) + WritePayload(e.value) + WriteEntries(entries[1..])
  }

  /** The root has a type but, unlike an entry, no key. */
  function WriteNetwork(t: NbtTag): seq<byte>
    requires Wf(t)
  {
    [TypeId(t)] + WritePayload(t)
  }

  // ------------------------------------------------------------------ reading

  type Parse<T> = Result<(T, seq<byte>), ProtocolError>

  function Take(bytes: seq<byte>, n: nat): (r: Parse<seq<byte>>)
    ensures r.Success? ==> |r.value.0| == n && bytes == r.value.0 + r.value.1
  {
    if |bytes| < n then Failure(UnexpectedEof(n, |bytes|)) else Success((bytes[..n], bytes[n..]))
  }

  function ReadSigned(bytes: seq<byte>, n: nat): (r: Parse<int>)
    requires n >= 1
    ensures r.Success? ==> |r.value.1| + n == |bytes| && InSigned(r.value.0, 8 * n)
  {
    var (b, rest) :- Take(bytes, n);
    Success((AsSigned(FromBigEndian(b), 8 * n), rest))
  }

  function ReadUnsigned(bytes: seq<byte>, n: nat): (r: Parse<nat>)
    ensures r.Success? ==> |r.value.1| + n == |bytes| && r.value.0 < Pow2(8 * n)
  {
    var (b, rest) :- Take(bytes, n);
    FromBigEndianBound(b);
    Success((FromBigEndian(b), rest))
  }

  function ReadLen(bytes: seq<byte>): (r: Parse<nat>)
    ensures r.Success? ==> |r.value.1| + 4 == |bytes| && r.value.0 <= MAX_ARRAY_LEN
  {
    var (v, rest) :- ReadSigned(bytes, 4);
    if v < 0 then Failure(NegativeLength(v))
    else if v > MAX_ARRAY_LEN then Failure(LengthLimitExceeded(v, MAX_ARRAY_LEN))
    else Success((v, rest))
  }

  function ReadInts(bytes: seq<byte>, count: nat, n: nat): (r: Parse<seq<int>>)
    requires n >= 1
    ensures r.Success? ==>
      |r.value.0| == count && |r.value.1| <= |bytes| && AllSigned(r.value.0, 8 * n)
    decreases count
  {
    if count == 0 then Success(([], bytes))
    else
      var (v, rest) :- ReadSigned(bytes, n);
      var (vs, tail) :- ReadInts(rest, count - 1, n);
      Success(([v] + vs, tail))
  }

  /** The bytes of a byte array as signed numbers. */
  function AsBytes(bytes: seq<byte>): seq<int> {
    seq(|bytes|, i requires 0 <= i < |bytes| => AsSigned(bytes[i], 8))
  }

  function ReadPayload(bytes: seq<byte>, typeId: byte, depth: nat): (r: Parse<NbtTag>)
    requires depth <= MAX_DEPTH + 1
    ensures r.Success? ==> |r.value.1| < |bytes|
    decreases MAX_DEPTH + 1 - depth, 0, 0
  {
    if depth > MAX_DEPTH then Failure(NbtTooDeep(MAX_DEPTH))
    else if typeId == 1 then var (v, rest) :- ReadSigned(bytes, 1); Success((ByteTag(v), rest))
    else if typeId == 2 then var (v, rest) :- ReadSigned(bytes, 2); Success((ShortTag(v), rest))
    else if typeId == 3 then var (v, rest) :- ReadSigned(bytes, 4); Success((IntTag(v), rest))
    else if typeId == 4 then var (v, rest) :- ReadSigned(bytes, 8); Success((LongTag(v), rest))
    else if typeId == 5 then var (v, rest) :- ReadUnsigned(bytes, 4); Success((FloatTag(v), rest))
    else if typeId == 6 then var (v, rest) :- ReadUnsigned(bytes, 8); Success((DoubleTag(v), rest))
    else if typeId == 7 then
      var (len, rest) :- ReadLen(bytes);
      var (b, tail) :- Take(rest, len);
      Success((ByteArrayTag(AsBytes(b)), tail))
    else if typeId == 8 then var (s, rest) :- ReadString(bytes); Success((StringTag(s), rest))
    else if typeId == 9 then
      var (elementType, more) :- Take(bytes, 1);
      var (len, rest) :- ReadLen(more);
      if elementType[0] == 0 && len > 0 then Failure(Nbt("non-empty list of TAG_End"))
      else
        var (items, tail) :- ReadItems(rest, elementType[0], len, depth + 1);
        Success((ListTag(elementType[0], items), tail))
    else if typeId == 10 then
      var (entries, tail) :- ReadEntries(bytes, depth + 1, []);
      Success((CompoundTag(entries), tail))
    else if typeId == 11 then
      var (len, rest) :- ReadLen(bytes);
      var (v, tail) :- ReadInts(rest, len, 4);
      Success((IntArrayTag(v), tail))
    else if typeId == 12 then
      var (len, rest) :- ReadLen(bytes);
      var (v, tail) :- ReadInts(rest, len, 8);
      Success((LongArrayTag(v), tail))
    else Failure(InvalidEnum(typeId))
  }

  function ReadItems(bytes: seq<byte>, elementType: byte, count: nat, depth: nat): (r: Parse<seq<NbtTag>>)
    requires depth <= MAX_DEPTH + 1
    ensures r.Success? ==> |r.value.1| <= |bytes| && |r.value.0| == count
    decreases MAX_DEPTH + 1 - depth, 1, count
  {
    if count == 0 then Success(([], bytes))
    else
      var (item, rest) :- ReadPayload(bytes, elementType, depth);
      var (items, tail) :- ReadItems(rest, elementType, count - 1, depth);
      Success(([item] + items, tail))
  }

  function ReadEntries(bytes: seq<byte>, depth: nat, sofar: seq<Entry>): (r: Parse<seq<Entry>>)
    requires depth <= MAX_DEPTH + 1
    ensures r.Success? ==> |r.value.1| < |bytes|
    decreases MAX_DEPTH + 1 - depth, 1, |bytes|
  {
    var (entryType, more) :- Take(bytes, 1);
    if entryType[0] == 0 then Success((sofar, more))
    else
      var (name, rest) :- ReadString(more);
      var (value, tail) :- ReadPayload(rest, entryType[0], depth);
      ReadEntries(tail, depth, Insert(sofar, name, value))
  }

  function ReadNetwork(bytes: seq<byte>): Parse<NbtTag> {
    var (typeId, rest) :- Take(bytes, 1);
    if typeId[0] == 0 then Failure(Nbt("root tag is TAG_End")) else ReadPayload(rest, typeId[0], 0)
  }

  // ------------------------------------------------------------------ what a written tree reads as

  /** The tree with every string cut to what fits; names that become equal collapse. */
  function Clipped(t: NbtTag): NbtTag
    decreases t
  {
    match t
    case StringTag(s) => StringTag(Truncated(s))
    case ListTag(elementType, items) => ListTag(elementType, ClippedItems(items))
    case CompoundTag(entries) => CompoundTag(InsertAll([], ClippedEntries(entries)))
    case _ => t
  }

  function ClippedItems(items: seq<NbtTag>): (r: seq<NbtTag>)
    ensures |r| == |items|
    decreases items
  {
    if |items| == 0 then [] else [Clipped(items[0])] + ClippedItems(items[1..])
  }

  function ClippedEntries(entries: seq<Entry>): (r: seq<Entry>)
    ensures |r| == |entries|
    decreases entries
  {
    if |entries| == 0 then []
    else [Entry(Truncated(entries[0].name), Clipped(entries[0].value))] + ClippedEntries(entries[1..])
  }

  lemma TakeFront(a: seq<byte>, b: seq<byte>)
    ensures Take(a + b, |a|) == Success((a, b))
  {
    assert (a + b)[..|a|] == a && (a + b)[|a|..] == b;
  }

  lemma SignedReads(v: int, n: nat, rest: seq<byte>)
    requires n >= 1 && InSigned(v, 8 * n)
    ensures ReadSigned(SignedBytes(v, n) + rest, n) == Success((v, rest))
  {
    TakeFront(SignedBytes(v, n), rest);
    BigEndianRoundTrip(AsUnsigned(v, 8 * n), n);
    SignedRoundTrip(v, 8 * n);
  }

  lemma UnsignedReads(v: nat, n: nat, rest: seq<byte>)
    requires v < Pow2(8 * n)
    ensures ReadUnsigned(BigEndian(v, n) + rest, n) == Success((v, rest))
  {
    TakeFront(BigEndian(v, n), rest);
    BigEndianRoundTrip(v, n);
  }

  /** A count comes back exactly when it is within the limit; otherwise reading fails. */
  lemma CountReads(n: nat, rest: seq<byte>)
    requires n < Pow2(32)
    ensures if n <= MAX_ARRAY_LEN then ReadLen(CountBytes(n) + rest) == Success((n, rest))
            else ReadLen(CountBytes(n) + rest).Failure?
  {
    hide BigEndian, FromBigEndian, AsSigned;
    TakeFront(CountBytes(n), rest);
    BigEndianRoundTrip(n, 4);
    UnsignedRoundTrip(n, 32);
    Pow2Of32();
    assert Pow2(32) == 2 * Pow2(31);
  }

  lemma {:induction false} IntsRead(v: seq<int>, n: nat, rest: seq<byte>)
    requires n >= 1 && AllSigned(v, 8 * n)
    ensures ReadInts(WriteInts(v, n) + rest, |v|, n) == Success((v, rest))
    decreases |v|
  {
    hide SignedBytes, ReadSigned, InSigned;
    if |v| == 0 {
      assert WriteInts(v, n) + rest == rest;
    } else {
      assert WriteInts(v, n) + rest == SignedBytes(v[0], n) + (WriteInts(v[1..], n) + rest);
      SignedReads(v[0], n, WriteInts(v[1..], n) + rest);
      IntsRead(v[1..], n, rest);
      assert [v[0]] + v[1..] == v;
    }
  }

  lemma {:induction false} BytesLength(v: seq<int>)
    requires AllSigned(v, 8)
    ensures |WriteInts(v, 1)| == |v| && AsBytes(WriteInts(v, 1)) == v
  {
    if |v| == 0 {
    } else {
      BytesLength(v[1..]);
      SignedRoundTrip(v[0], 8);
      Pow2Plus8(0);
      assert SignedBytes(v[0], 1) == [AsUnsigned(v[0], 8)];
      assert AsBytes(WriteInts(v, 1)) == [v[0]] + AsBytes(WriteInts(v[1..], 1));
    }
  }

  /** What reading a written tree gives, for every tree: within the limits, the clipped tree and
      exactly the bytes that follow it; outside them, an error. */
  lemma {:induction false} PayloadReads(t: NbtTag, depth: nat, rest: seq<byte>)
    requires Wf(t) && depth <= MAX_DEPTH + 1
    ensures var r := ReadPayload(WritePayload(t) + rest, TypeId(t), depth);
      if Limits(t, depth) then r == Success((Clipped(t), rest)) else r.Failure?
    decreases t, 1
  {
    hide ReadPayload, WritePayload, Limits, Clipped, Wf;
    if depth > MAX_DEPTH {
      TooDeep(t, WritePayload(t) + rest, depth);
    } else {
      match t
      case ByteArrayTag(v) => ByteArrayReads(v, depth, rest);
      case IntArrayTag(v) => IntArrayReads(v, depth, rest);
      case LongArrayTag(v) => LongArrayReads(v, depth, rest);
      case ListTag(_, _) => ListReads(t, depth, rest);
      case CompoundTag(_) => CompoundReads(t, depth, rest);
      case _ => ScalarReads(t, depth, rest);
    }
  }

  lemma TooDeep(t: NbtTag, bytes: seq<byte>, depth: nat)
    requires depth == MAX_DEPTH + 1
    ensures ReadPayload(bytes, TypeId(t), depth) == Failure(NbtTooDeep(MAX_DEPTH)) && !Limits(t, depth)
  {
  }

  lemma ScalarReads(t: NbtTag, depth: nat, rest: seq<byte>)
    requires Wf(t) && depth <= MAX_DEPTH && (TypeId(t) <= 6 || t.StringTag?)
    ensures ReadPayload(WritePayload(t) + rest, TypeId(t), depth) == Success((Clipped(t), rest)) && Limits(t, depth)
  {
    hide SignedBytes, ReadSigned, ReadUnsigned, BigEndian, ReadString, WriteString, InSigned, Pow2, Truncated;
    match t
    case ByteTag(v) => SignedReads(v, 1, rest);
    case ShortTag(v) => SignedReads(v, 2, rest);
    case IntTag(v) => SignedReads(v, 4, rest);
    case LongTag(v) => SignedReads(v, 8, rest);
    case FloatTag(b) => UnsignedReads(b, 4, rest);
    case DoubleTag(b) => UnsignedReads(b, 8, rest);
    case StringTag(s) => StringRoundTrip(s, rest);
  }

  lemma {:induction false} CompoundReads(t: NbtTag, depth: nat, rest: seq<byte>)
    requires t.CompoundTag? && Wf(t) && depth <= MAX_DEPTH
    ensures var r := ReadPayload(WritePayload(t) + rest, 10, depth);
      if Limits(t, depth) then r == Success((Clipped(t), rest)) else r.Failure?
    decreases t, 0
  {
    hide WriteEntries, ReadEntries, WfEntries, EntriesLimits, ClippedEntries;
    var entries := t.entries;
    assert WriteEntries(entries) + [0] + rest == WriteEntries(entries) + ([0] + rest);
    EntriesRead(entries, depth + 1, [], rest);
  }

  lemma ByteArrayReads(v: seq<int>, depth: nat, rest: seq<byte>)
    requires Wf(ByteArrayTag(v)) && depth <= MAX_DEPTH
    ensures var r := ReadPayload(WritePayload(ByteArrayTag(v)) + rest, 7, depth);
      if Limits(ByteArrayTag(v), depth) then r == Success((Clipped(ByteArrayTag(v)), rest)) else r.Failure?
  {
    hide CountBytes, ReadLen, WriteInts, AsBytes;
    var body := WriteInts(v, 1);
    BytesLength(v);
    assert CountBytes(|v|) + body + rest == CountBytes(|v|) + (body + rest);
    CountReads(|v|, body + rest);
    TakeFront(body, rest);
  }

  lemma IntArrayReads(v: seq<int>, depth: nat, rest: seq<byte>)
    requires Wf(IntArrayTag(v)) && depth <= MAX_DEPTH
    ensures var r := ReadPayload(WritePayload(IntArrayTag(v)) + rest, 11, depth);
      if Limits(IntArrayTag(v), depth) then r == Success((Clipped(IntArrayTag(v)), rest)) else r.Failure?
  {
    hide CountBytes, ReadLen, WriteInts, ReadInts;
    var body := WriteInts(v, 4);
    assert CountBytes(|v|) + body + rest == CountBytes(|v|) + (body + rest);
    CountReads(|v|, body + rest);
    IntsRead(v, 4, rest);
  }

  lemma LongArrayReads(v: seq<int>, depth: nat, rest: seq<byte>)
    requires Wf(LongArrayTag(v)) && depth <= MAX_DEPTH
    ensures var r := ReadPayload(WritePayload(LongArrayTag(v)) + rest, 12, depth);
      if Limits(LongArrayTag(v), depth) then r == Success((Clipped(LongArrayTag(v)), rest)) else r.Failure?
  {
    hide CountBytes, ReadLen, WriteInts, ReadInts;
    var body := WriteInts(v, 8);
    assert CountBytes(|v|) + body + rest == CountBytes(|v|) + (body + rest);
    CountReads(|v|, body + rest);
    IntsRead(v, 8, rest);
  }

  lemma {:induction false} ListReads(t: NbtTag, depth: nat, rest: seq<byte>)
    requires t.ListTag? && Wf(t) && depth <= MAX_DEPTH
    ensures var r := ReadPayload(WritePayload(t) + rest, 9, depth);
      if Limits(t, depth) then r == Success((Clipped(t), rest)) else r.Failure?
    decreases t, 0
  {
    hide CountBytes, ReadLen, WriteItems, ReadItems, WfItems, ItemsLimits, ClippedItems;
    var items, et := t.items, t.elementType;
    var tail := WriteItems(items, et) + rest;
    assert WritePayload(t) + rest == [et] + (CountBytes(|items|) + tail);
    TakeFront([et], CountBytes(|items|) + tail);
    CountReads(|items|, tail);
    NoEndItems(items, et);
    ItemsRead(items, et, depth + 1, rest);
  }

  lemma NoEndItems(items: seq<NbtTag>, elementType: byte)
    requires WfItems(items, elementType)
    ensures |items| > 0 ==> elementType != 0
  {
    if |items| > 0 { assert TypeId(items[0]) == elementType; }
  }

  lemma {:induction false} ItemsRead(items: seq<NbtTag>, elementType: byte, depth: nat, rest: seq<byte>)
    requires WfItems(items, elementType) && depth <= MAX_DEPTH + 1
    ensures var r := ReadItems(WriteItems(items, elementType) + rest, elementType, |items|, depth);
      if ItemsLimits(items, depth) then r == Success((ClippedItems(items), rest)) else r.Failure?
    decreases items, 0
  {
    hide WritePayload, ReadPayload, Clipped, Limits, Wf;
    if |items| == 0 {
      assert WriteItems(items, elementType) + rest == rest;
    } else {
      var tail := WriteItems(items[1..], elementType) + rest;
      assert WriteItems(items, elementType) + rest == WritePayload(items[0]) + tail;
      PayloadReads(items[0], depth, tail);
      ItemsRead(items[1..], elementType, depth, rest);
    }
  }

  lemma {:induction false} EntriesRead(entries: seq<Entry>, depth: nat, sofar: seq<Entry>, rest: seq<byte>)
    requires WfEntries(entries) && depth <= MAX_DEPTH + 1
    ensures var r := ReadEntries(WriteEntries(entries) + ([0] + rest), depth, sofar);
      if EntriesLimits(entries, depth) then r == Success((InsertAll(sofar, ClippedEntries(entries)), rest))
      else r.Failure?
    decreases entries, 0
  {
    hide WritePayload, ReadPayload, Clipped, Limits, Wf, WriteString, ReadString, Truncated, Insert;
    var bytes := WriteEntries(entries) + ([0] + rest);
    if |entries| == 0 {
      assert bytes == [0] + rest;
      TakeFront([0], rest);
    } else {
      var e := entries[0];
      var tail := WriteEntries(entries[1..]) + ([0] + rest);
      var named := WriteString(e.name) + (WritePayload(e.value) + tail);
      assert bytes == [TypeId(e.value)] + named;
      TakeFront([TypeId(e.value)], named);
      StringRoundTrip(e.name, WritePayload(e.value) + tail);
      PayloadReads(e.value, depth, tail);
      var first := Entry(Truncated(e.name), Clipped(e.value));
      EntriesRead(entries[1..], depth, Insert(sofar, first.name, first.value), rest);
      assert ClippedEntries(entries)[1..] == ClippedEntries(entries[1..]);
    }
  }

  // ------------------------------------------------------------------ when a tree survives

  predicate StringFits(s: string) {
    ModLen(s) <= MAX_STRING_BYTES
  }

  /** Every string and every name fits its length field. */
  predicate StringsFit(t: NbtTag)
    decreases t
  {
    match t
    case StringTag(s) => StringFits(s)
    case ListTag(_, items) => ItemsFit(items)
    case CompoundTag(entries) => EntriesFit(entries)
    case _ => true
  }

  predicate ItemsFit(items: seq<NbtTag>)
    decreases items
  {
    |items| == 0 || (StringsFit(items[0]) && ItemsFit(items[1..]))
  }

  predicate EntriesFit(entries: seq<Entry>)
    decreases entries
  {
    |entries| == 0
    || (StringFits(entries[0].name) && StringsFit(entries[0].value) && EntriesFit(entries[1..]))
  }

  lemma {:induction false} InsertGrows(entries: seq<Entry>, name: string, value: NbtTag)
    ensures if HasName(entries, name) then |Insert(entries, name, value)| == |entries|
            else Insert(entries, name, value) == entries + [Entry(name, value)]
  {
    if |entries| > 0 && entries[0].name != name {
      InsertGrows(entries[1..], name, value);
      if HasName(entries, name) {
        var i :| 0 <= i < |entries| && entries[i].name == name;
        assert entries[1..][i - 1].name == name;
      } else {
        assert !HasName(entries[1..], name) by {
          forall i | 0 <= i < |entries| - 1 ensures entries[1..][i].name != name {
            assert entries[i + 1].name != name;
          }
        }
        assert [entries[0]] + (entries[1..] + [Entry(name, value)]) == entries + [Entry(name, value)];
      }
    }
  }

  /** Inserting never yields more entries than were given, and as many only by appending all. */
  lemma {:induction false} InsertAllFull(entries: seq<Entry>, more: seq<Entry>)
    ensures |InsertAll(entries, more)| <= |entries| + |more|
    ensures |InsertAll(entries, more)| == |entries| + |more| ==> InsertAll(entries, more) == entries + more
    decreases |more|
  {
    hide Insert;
    if |more| == 0 {
    } else {
      var next := Insert(entries, more[0].name, more[0].value);
      InsertGrows(entries, more[0].name, more[0].value);
      InsertAllFull(next, more[1..]);
      assert entries + [more[0]] + more[1..] == entries + more;
    }
  }

  lemma {:induction false} InsertAllUnique(entries: seq<Entry>, more: seq<Entry>)
    requires UniqueNames(entries + more)
    ensures InsertAll(entries, more) == entries + more
    decreases |more|
  {
    hide Insert;
    if |more| == 0 {
    } else {
      var e := more[0];
      InsertGrows(entries, e.name, e.value);
      assert !HasName(entries, e.name) by {
        forall i | 0 <= i < |entries| ensures entries[i].name != e.name {
          assert (entries + more)[i].name != (entries + more)[|entries|].name;
        }
      }
      assert entries + [e] + more[1..] == entries + more;
      InsertAllUnique(entries + [e], more[1..]);
    }
  }

  /** Clipping leaves a tree alone exactly when all its strings fit. */
  lemma {:induction false} ClippedIsIdentity(t: NbtTag)
    requires Wf(t)
    ensures Clipped(t) == t <==> StringsFit(t)
    decreases t
  {
    hide Truncated, ModLen, InsertAll;
    match t
    case StringTag(s) => TruncatedIsLongest(s);
    case ListTag(et, items) => ClippedItemsIdentity(items, et);
    case CompoundTag(entries) =>
      ClippedEntriesIdentity(entries);
      InsertAllFull([], ClippedEntries(entries));
      assert [] + ClippedEntries(entries) == ClippedEntries(entries);
      if EntriesFit(entries) {
        assert [] + entries == entries;
        InsertAllUnique([], entries);
      }
    case _ =>
  }

  lemma {:induction false} ClippedItemsIdentity(items: seq<NbtTag>, elementType: byte)
    requires WfItems(items, elementType)
    ensures ClippedItems(items) == items <==> ItemsFit(items)
    decreases items
  {
    hide Wf, Clipped, StringsFit;
    if |items| == 0 {
    } else {
      ClippedIsIdentity(items[0]);
      ClippedItemsIdentity(items[1..], elementType);
      assert items == [items[0]] + items[1..];
      assert ClippedItems(items)[0] == Clipped(items[0]) && ClippedItems(items)[1..] == ClippedItems(items[1..]);
    }
  }

  lemma {:induction false} ClippedEntriesIdentity(entries: seq<Entry>)
    requires WfEntries(entries)
    ensures ClippedEntries(entries) == entries <==> EntriesFit(entries)
    decreases entries
  {
    hide Wf, Clipped, StringsFit, Truncated, ModLen;
    if |entries| == 0 {
    } else {
      var e := entries[0];
      TruncatedIsLongest(e.name);
      ClippedIsIdentity(e.value);
      ClippedEntriesIdentity(entries[1..]);
      assert entries == [e] + entries[1..];
      assert ClippedEntries(entries)[0] == Entry(Truncated(e.name), Clipped(e.value));
      assert ClippedEntries(entries)[1..] == ClippedEntries(entries[1..]);
    }
  }

  /** The network form gives a tree back exactly when it is within the reader's limits and its
      strings fit; key order and the type of an empty list included, trailing bytes untouched. */
  lemma NetworkRoundTrip(t: NbtTag, rest: seq<byte>)
    requires Wf(t)
    ensures ReadNetwork(WriteNetwork(t) + rest) == Success((t, rest)) <==> Limits(t, 0) && StringsFit(t)
  {
    hide WritePayload, ReadPayload, Limits, StringsFit, Clipped, Wf;
    assert WriteNetwork(t) + rest == [TypeId(t)] + (WritePayload(t) + rest);
    TakeFront([TypeId(t)], WritePayload(t) + rest);
    PayloadReads(t, 0, rest);
    ClippedIsIdentity(t);
  }

  // ------------------------------------------------------------------ what arbitrary bytes can give

  function Nodes(t: NbtTag): nat
    decreases t
  {
    match t
    case ListTag(_, items) => 1 + ItemsNodes(items)
    case CompoundTag(entries) => 1 + EntriesNodes(entries)
    case _ => 1
  }

  function ItemsNodes(items: seq<NbtTag>): nat
    decreases items
  {
    if |items| == 0 then 0 else Nodes(items[0]) + ItemsNodes(items[1..])
  }

  function EntriesNodes(entries: seq<Entry>): nat
    decreases entries
  {
    if |entries| == 0 then 0 else Nodes(entries[0].value) + EntriesNodes(entries[1..])
  }

  ghost predicate IsTail(rest: seq<byte>, bytes: seq<byte>) {
    |rest| <= |bytes| && rest == bytes[|bytes| - |rest|..]
  }

  lemma TailOfTail(a: seq<byte>, b: seq<byte>, c: seq<byte>)
    requires IsTail(a, b) && IsTail(b, c)
    ensures IsTail(a, c)
  {
  }

  /** Insertion brings in no name but its own. */
  lemma {:induction false} InsertNames(entries: seq<Entry>, name: string, value: NbtTag, i: nat)
    requires i < |Insert(entries, name, value)| && Insert(entries, name, value)[i].name != name
    ensures HasName(entries, Insert(entries, name, value)[i].name)
    decreases |entries|
  {
    if |entries| == 0 {
    } else if entries[0].name == name || i == 0 {
      assert entries[i].name == Insert(entries, name, value)[i].name;
    } else {
      InsertNames(entries[1..], name, value, i - 1);
      var n := Insert(entries, name, value)[i].name;
      var j :| 0 <= j < |entries| - 1 && entries[1..][j].name == n;
      assert entries[j + 1].name == n;
    }
  }

  lemma {:induction false} InsertStaysUnique(entries: seq<Entry>, name: string, value: NbtTag)
    requires UniqueNames(entries)
    ensures UniqueNames(Insert(entries, name, value))
    decreases |entries|
  {
    var r := Insert(entries, name, value);
    if |entries| == 0 {
    } else if entries[0].name == name {
      assert forall i :: 0 <= i < |r| ==> r[i].name == entries[i].name;
    } else {
      var tail := Insert(entries[1..], name, value);
      InsertStaysUnique(entries[1..], name, value);
      assert !HasName(entries[1..], entries[0].name) by {
        assert forall j :: 0 <= j < |entries| - 1 ==> entries[1..][j] == entries[j + 1];
      }
      forall i | 0 <= i < |tail| ensures tail[i].name != entries[0].name {
        if tail[i].name != name { InsertNames(entries[1..], name, value, i); }
      }
      assert forall i :: 0 < i < |r| ==> r[i] == tail[i - 1];
    }
  }

  lemma {:induction false} InsertStaysWithin(entries: seq<Entry>, name: string, value: NbtTag, depth: nat)
    requires WfEntries(entries) && EntriesLimits(entries, depth) && Wf(value) && Limits(value, depth)
    ensures var r := Insert(entries, name, value); WfEntries(r) && EntriesLimits(r, depth)
    decreases |entries|
  {
    hide Wf, Limits;
    var r := Insert(entries, name, value);
    if |entries| == 0 {
      assert r[1..] == [];
    } else if entries[0].name == name {
      assert r[1..] == entries[1..];
    } else {
      InsertStaysWithin(entries[1..], name, value, depth);
      assert r[1..] == Insert(entries[1..], name, value);
    }
  }

  lemma {:induction false} InsertAddsNodes(entries: seq<Entry>, name: string, value: NbtTag)
    ensures EntriesNodes(Insert(entries, name, value)) <= EntriesNodes(entries) + Nodes(value)
    decreases |entries|
  {
    hide Nodes;
    var r := Insert(entries, name, value);
    if |entries| == 0 {
      assert r[1..] == [];
    } else if entries[0].name == name {
      assert r[1..] == entries[1..];
    } else {
      InsertAddsNodes(entries[1..], name, value);
      assert r[1..] == Insert(entries[1..], name, value);
    }
  }

  /** What an insertion keeps. */
  lemma InsertKeeps(entries: seq<Entry>, name: string, value: NbtTag, depth: nat)
    requires UniqueNames(entries) && WfEntries(entries) && EntriesLimits(entries, depth)
    requires Wf(value) && Limits(value, depth)
    ensures var r := Insert(entries, name, value);
      && UniqueNames(r) && WfEntries(r) && EntriesLimits(r, depth)
      && EntriesNodes(r) <= EntriesNodes(entries) + Nodes(value)
  {
    hide UniqueNames, WfEntries, EntriesLimits, EntriesNodes, Insert, Wf, Limits, Nodes;
    InsertStaysUnique(entries, name, value);
    InsertStaysWithin(entries, name, value, depth);
    InsertAddsNodes(entries, name, value);
  }

  /** A compound answers with the value last inserted under a key, and other keys are not disturbed. */
  lemma {:induction false} InsertThenGet(entries: seq<Entry>, name: string, value: NbtTag, key: string)
    ensures Get(Insert(entries, name, value), key) == if key == name then Some(value) else Get(entries, key)
    decreases |entries|
  {
    var r := Insert(entries, name, value);
    if |entries| == 0 {
      assert r[1..] == [];
    } else if entries[0].name == name {
      assert r[1..] == entries[1..];
    } else {
      InsertThenGet(entries[1..], name, value, key);
      assert r[1..] == Insert(entries[1..], name, value);
    }
  }

  /** Whatever the bytes, a tag that is read is well formed and within the limits, has no more nodes
      than bytes were consumed, and leaves a tail of the input. */
  lemma {:induction false} PayloadIsSound(bytes: seq<byte>, typeId: byte, depth: nat)
    requires depth <= MAX_DEPTH + 1 && ReadPayload(bytes, typeId, depth).Success?
    ensures var (t, rest) := ReadPayload(bytes, typeId, depth).value;
      TypeId(t) == typeId && Wf(t) && Limits(t, depth)
      && IsTail(rest, bytes) && |rest| + Nodes(t) <= |bytes|
    decreases MAX_DEPTH + 1 - depth, 0, 1
  {
    hide ReadPayload, Wf, Limits, Nodes, ReadEntries, UniqueNames, WfEntries, EntriesLimits;
    KnownType(bytes, typeId, depth);
    if typeId == 9 {
      ListIsSound(bytes, depth);
    } else if typeId == 10 {
      CompoundIsSound(bytes, depth);
    } else if typeId == 7 || typeId >= 11 {
      ArrayIsSound(bytes, typeId, depth);
    } else {
      ScalarIsSound(bytes, typeId, depth);
    }
  }

  lemma KnownType(bytes: seq<byte>, typeId: byte, depth: nat)
    requires depth <= MAX_DEPTH + 1 && ReadPayload(bytes, typeId, depth).Success?
    ensures depth <= MAX_DEPTH && 1 <= typeId <= 12
  {
  }

  lemma ScalarIsSound(bytes: seq<byte>, typeId: byte, depth: nat)
    requires depth <= MAX_DEPTH && ReadPayload(bytes, typeId, depth).Success? && (typeId <= 6 || typeId == 8)
    ensures var (t, rest) := ReadPayload(bytes, typeId, depth).value;
      TypeId(t) == typeId && Wf(t) && Limits(t, depth)
      && IsTail(rest, bytes) && |rest| + Nodes(t) <= |bytes|
  {
    hide AsSigned, FromBigEndian, ReadString, InSigned, Pow2;
    if typeId == 8 { StringTail(bytes); }
  }

  lemma ArrayIsSound(bytes: seq<byte>, typeId: byte, depth: nat)
    requires depth <= MAX_DEPTH && ReadPayload(bytes, typeId, depth).Success? && typeId in {7, 11, 12}
    ensures var (t, rest) := ReadPayload(bytes, typeId, depth).value;
      TypeId(t) == typeId && Wf(t) && Limits(t, depth)
      && IsTail(rest, bytes) && |rest| + Nodes(t) <= |bytes|
  {
    hide AsSigned, FromBigEndian, ReadInts, InSigned, Pow2;
    MaxArrayFits();
    var (len, rest) := ReadLen(bytes).value;
    if typeId == 7 {
      forall v: byte ensures InSigned(AsSigned(v, 8), 8) {
      }
    } else {
      IntsTail(rest, len, if typeId == 11 then 4 else 8);
    }
  }

  lemma {:induction false} CompoundIsSound(bytes: seq<byte>, depth: nat)
    requires depth <= MAX_DEPTH && ReadPayload(bytes, 10, depth).Success?
    ensures var (t, rest) := ReadPayload(bytes, 10, depth).value;
      t.CompoundTag? && Wf(t) && Limits(t, depth) && IsTail(rest, bytes) && |rest| + Nodes(t) <= |bytes|
    decreases MAX_DEPTH + 1 - depth, 0, 0
  {
    hide ReadEntries, WfEntries, EntriesLimits, EntriesNodes;
    EmptyEntries(depth + 1);
    EntriesAreSound(bytes, depth + 1, []);
  }

  lemma EmptyEntries(depth: nat)
    ensures WfEntries([]) && EntriesLimits([], depth) && EntriesNodes([]) == 0
  {
  }

  lemma MaxArrayFits()
    ensures MAX_ARRAY_LEN < Pow2(32)
  {
    Pow2Of32();
  }

  lemma StringTail(bytes: seq<byte>)
    requires ReadString(bytes).Success?
    ensures IsTail(ReadString(bytes).value.1, bytes)
  {
  }

  lemma {:induction false} IntsTail(bytes: seq<byte>, count: nat, n: nat)
    requires n >= 1 && ReadInts(bytes, count, n).Success?
    ensures IsTail(ReadInts(bytes, count, n).value.1, bytes)
    decreases count
  {
    if count == 0 {
    } else {
      IntsTail(ReadSigned(bytes, n).value.1, count - 1, n);
    }
  }

  lemma {:induction false} ListIsSound(bytes: seq<byte>, depth: nat)
    requires depth <= MAX_DEPTH && ReadPayload(bytes, 9, depth).Success?
    ensures var (t, rest) := ReadPayload(bytes, 9, depth).value;
      t.ListTag? && Wf(t) && Limits(t, depth) && IsTail(rest, bytes) && |rest| + Nodes(t) <= |bytes|
    decreases MAX_DEPTH + 1 - depth, 0, 0
  {
    hide AsSigned, FromBigEndian, ReadItems, WfItems, ItemsLimits, ItemsNodes;
    var (elementType, more) := Take(bytes, 1).value;
    var (len, rest) := ReadLen(more).value;
    MaxArrayFits();
    ItemsAreSound(rest, elementType[0], len, depth + 1);
  }

  lemma {:induction false} ItemsAreSound(bytes: seq<byte>, elementType: byte, count: nat, depth: nat)
    requires depth <= MAX_DEPTH + 1 && ReadItems(bytes, elementType, count, depth).Success?
    ensures var (items, rest) := ReadItems(bytes, elementType, count, depth).value;
      WfItems(items, elementType) && ItemsLimits(items, depth)
      && IsTail(rest, bytes) && |rest| + ItemsNodes(items) <= |bytes|
    decreases MAX_DEPTH + 1 - depth, 1, count
  {
    hide ReadPayload, Wf, Limits, Nodes;
    if count == 0 {
    } else {
      var (item, rest) := ReadPayload(bytes, elementType, depth).value;
      PayloadIsSound(bytes, elementType, depth);
      ItemsAreSound(rest, elementType, count - 1, depth);
      var items := ReadItems(bytes, elementType, count, depth).value.0;
      assert items[0] == item && items[1..] == ReadItems(rest, elementType, count - 1, depth).value.0;
    }
  }

  lemma {:induction false} EntriesAreSound(bytes: seq<byte>, depth: nat, sofar: seq<Entry>)
    requires depth <= MAX_DEPTH + 1 && ReadEntries(bytes, depth, sofar).Success?
    requires UniqueNames(sofar) && WfEntries(sofar) && EntriesLimits(sofar, depth)
    ensures var (entries, rest) := ReadEntries(bytes, depth, sofar).value;
      UniqueNames(entries) && WfEntries(entries) && EntriesLimits(entries, depth)
      && IsTail(rest, bytes) && |rest| + EntriesNodes(entries) + 1 <= |bytes| + EntriesNodes(sofar)
    decreases MAX_DEPTH + 1 - depth, 1, |bytes|
  {
    hide ReadPayload, ReadString, Wf, Limits, Nodes, Insert, UniqueNames, WfEntries, EntriesLimits, EntriesNodes;
    var (entryType, more) := Take(bytes, 1).value;
    if entryType[0] != 0 {
      var (name, rest) := ReadString(more).value;
      var (value, tail) := ReadPayload(rest, entryType[0], depth).value;
      StringTail(more);
      PayloadIsSound(rest, entryType[0], depth);
      InsertKeeps(sofar, name, value, depth);
      EntriesAreSound(tail, depth, Insert(sofar, name, value));
      TailOfTail(tail, rest, more);
      TailOfTail(tail, more, bytes);
    }
  }

  /** A tree read from any bytes can be written and read again; it comes back the same provided its
      strings still fit, and they do unless raw zero bytes made one longer. */
  lemma RereadRoundTrip(bytes: seq<byte>, more: seq<byte>)
    requires ReadNetwork(bytes).Success?
    ensures var t := ReadNetwork(bytes).value.0;
      Wf(t) && (ReadNetwork(WriteNetwork(t) + more) == Success((t, more)) <==> StringsFit(t))
  {
    hide ReadPayload, WritePayload, Limits, StringsFit, Wf;
    var (typeId, rest) := Take(bytes, 1).value;
    PayloadIsSound(rest, typeId[0], 0);
    NetworkRoundTrip(ReadNetwork(bytes).value.0, more);
  }

  // ------------------------------------------------------------------ which documents survive

  /** The string at the front of `bytes` still has a two-byte length when each raw zero byte is written
      as two, as the encoder writes it. */
  predicate StringKeeps(bytes: seq<byte>) {
    |bytes| >= 2 && FromBigEndian(bytes[..2]) <= |bytes| - 2 ==>
      var len := FromBigEndian(bytes[..2]);
      len + ZeroBytes(bytes[2..2 + len]) <= MAX_STRING_BYTES
  }

  /** The same for every string and key that reading a payload meets. */
  predicate PayloadKeeps(bytes: seq<byte>, typeId: byte, depth: nat)
    requires depth <= MAX_DEPTH + 1
    decreases MAX_DEPTH + 1 - depth, 0, 0
  {
    if depth > MAX_DEPTH then true
    else if typeId == 8 then StringKeeps(bytes)
    else if typeId == 9 then
      |bytes| > 0 && ReadLen(bytes[1..]).Success? ==>
        var (len, rest) := ReadLen(bytes[1..]).value;
        ItemsKeep(rest, bytes[0], len, depth + 1)
    else typeId == 10 ==> EntriesKeep(bytes, depth + 1)
  }

  predicate ItemsKeep(bytes: seq<byte>, elementType: byte, count: nat, depth: nat)
    requires depth <= MAX_DEPTH + 1
    decreases MAX_DEPTH + 1 - depth, 1, count
  {
    count == 0
    || (PayloadKeeps(bytes, elementType, depth)
        && (ReadPayload(bytes, elementType, depth).Success? ==>
              ItemsKeep(ReadPayload(bytes, elementType, depth).value.1, elementType, count - 1, depth)))
  }

  predicate EntriesKeep(bytes: seq<byte>, depth: nat)
    requires depth <= MAX_DEPTH + 1
    decreases MAX_DEPTH + 1 - depth, 1, |bytes|
  {
    |bytes| > 0 && bytes[0] != 0 ==>
      && StringKeeps(bytes[1..])
      && (ReadString(bytes[1..]).Success? ==>
            var rest := ReadString(bytes[1..]).value.1;
            && PayloadKeeps(rest, bytes[0], depth)
            && (ReadPayload(rest, bytes[0], depth).Success? ==>
                  EntriesKeep(ReadPayload(rest, bytes[0], depth).value.1, depth)))
  }

  lemma KeptStringFits(bytes: seq<byte>)
    requires ReadString(bytes).Success? && StringKeeps(bytes)
    ensures StringFits(ReadString(bytes).value.0)
  {
    var len := FromBigEndian(bytes[..2]);
    assert bytes[2..][..len] == bytes[2..2 + len];
    DecodedLength(bytes[2..2 + len]);
  }

  lemma {:induction false} InsertFits(entries: seq<Entry>, name: string, value: NbtTag)
    requires EntriesFit(entries) && StringFits(name) && StringsFit(value)
    ensures EntriesFit(Insert(entries, name, value))
    decreases |entries|
  {
    hide StringFits, StringsFit;
    var r := Insert(entries, name, value);
    if |entries| == 0 {
      assert r[1..] == [];
    } else if entries[0].name == name {
      assert r[1..] == entries[1..];
    } else {
      InsertFits(entries[1..], name, value);
      assert r[1..] == Insert(entries[1..], name, value);
    }
  }

  lemma {:induction false} KeptPayloadFits(bytes: seq<byte>, typeId: byte, depth: nat)
    requires depth <= MAX_DEPTH + 1 && ReadPayload(bytes, typeId, depth).Success? && PayloadKeeps(bytes, typeId, depth)
    ensures StringsFit(ReadPayload(bytes, typeId, depth).value.0)
    decreases MAX_DEPTH + 1 - depth, 0, 1
  {
    KnownType(bytes, typeId, depth);
    if typeId == 9 {
      KeptListFits(bytes, depth);
    } else if typeId == 10 {
      KeptCompoundFits(bytes, depth);
    } else {
      KeptScalarFits(bytes, typeId, depth);
    }
  }

  lemma KeptScalarFits(bytes: seq<byte>, typeId: byte, depth: nat)
    requires depth <= MAX_DEPTH && ReadPayload(bytes, typeId, depth).Success? && PayloadKeeps(bytes, typeId, depth)
    requires typeId != 9 && typeId != 10
    ensures StringsFit(ReadPayload(bytes, typeId, depth).value.0)
  {
    hide ReadString, StringKeeps, StringFits, AsSigned, FromBigEndian, ReadInts, InSigned, Pow2;
    if typeId == 8 { KeptStringFits(bytes); }
  }

  lemma {:induction false} KeptListFits(bytes: seq<byte>, depth: nat)
    requires depth <= MAX_DEPTH && ReadPayload(bytes, 9, depth).Success? && PayloadKeeps(bytes, 9, depth)
    ensures StringsFit(ReadPayload(bytes, 9, depth).value.0)
    decreases MAX_DEPTH + 1 - depth, 0, 0
  {
    hide AsSigned, FromBigEndian, ReadItems, ItemsKeep, ItemsFit, InSigned, Pow2;
    var (elementType, more) := Take(bytes, 1).value;
    var (len, rest) := ReadLen(more).value;
    assert elementType[0] == bytes[0] && more == bytes[1..];
    KeptItemsFit(rest, elementType[0], len, depth + 1);
  }

  lemma {:induction false} KeptItemsFit(bytes: seq<byte>, elementType: byte, count: nat, depth: nat)
    requires depth <= MAX_DEPTH + 1 && ReadItems(bytes, elementType, count, depth).Success?
    requires ItemsKeep(bytes, elementType, count, depth)
    ensures ItemsFit(ReadItems(bytes, elementType, count, depth).value.0)
    decreases MAX_DEPTH + 1 - depth, 1, count
  {
    hide ReadPayload, PayloadKeeps, StringsFit;
    if count == 0 {
    } else {
      var (item, rest) := ReadPayload(bytes, elementType, depth).value;
      KeptPayloadFits(bytes, elementType, depth);
      KeptItemsFit(rest, elementType, count - 1, depth);
      var items := ReadItems(bytes, elementType, count, depth).value.0;
      assert items[0] == item && items[1..] == ReadItems(rest, elementType, count - 1, depth).value.0;
    }
  }

  lemma {:induction false} KeptCompoundFits(bytes: seq<byte>, depth: nat)
    requires depth <= MAX_DEPTH && ReadPayload(bytes, 10, depth).Success? && PayloadKeeps(bytes, 10, depth)
    ensures StringsFit(ReadPayload(bytes, 10, depth).value.0)
    decreases MAX_DEPTH + 1 - depth, 0, 0
  {
    hide ReadEntries, EntriesKeep;
    KeptEntriesFit(bytes, depth + 1, []);
  }

  lemma {:induction false} KeptEntriesFit(bytes: seq<byte>, depth: nat, sofar: seq<Entry>)
    requires depth <= MAX_DEPTH + 1 && ReadEntries(bytes, depth, sofar).Success?
    requires EntriesKeep(bytes, depth) && EntriesFit(sofar)
    ensures EntriesFit(ReadEntries(bytes, depth, sofar).value.0)
    decreases MAX_DEPTH + 1 - depth, 1, |bytes|
  {
    hide ReadPayload, ReadString, PayloadKeeps, StringKeeps, StringsFit, StringFits, Insert, EntriesFit;
    var (entryType, more) := Take(bytes, 1).value;
    assert entryType[0] == bytes[0] && more == bytes[1..];
    if entryType[0] == 0 {
    } else {
      var (name, rest) := ReadString(more).value;
      var (value, tail) := ReadPayload(rest, entryType[0], depth).value;
      KeptStringFits(more);
      KeptPayloadFits(rest, entryType[0], depth);
      InsertFits(sofar, name, value);
      KeptEntriesFit(tail, depth, Insert(sofar, name, value));
    }
  }

  /** Any document that is read survives being written and read again, if each of its strings and keys
      leaves room for its raw zero bytes; without any, all do. */
  lemma DocumentSurvives(bytes: seq<byte>, more: seq<byte>)
    requires ReadNetwork(bytes).Success? && PayloadKeeps(bytes[1..], bytes[0], 0)
    ensures var t := ReadNetwork(bytes).value.0;
      Wf(t) && ReadNetwork(WriteNetwork(t) + more) == Success((t, more))
  {
    hide ReadPayload, WriteNetwork, Limits, StringsFit, Wf, PayloadKeeps;
    var (typeId, rest) := Take(bytes, 1).value;
    assert typeId[0] == bytes[0] && rest == bytes[1..];
    KeptPayloadFits(rest, typeId[0], 0);
    RereadRoundTrip(bytes, more);
  }

  lemma NoZerosKeep(bytes: seq<byte>)
    requires |bytes| >= 2 && FromBigEndian(bytes[..2]) <= |bytes| - 2
    requires ZeroBytes(bytes[2..2 + FromBigEndian(bytes[..2])]) == 0
    ensures StringKeeps(bytes)
  {
    FromBigEndianBound(bytes[..2]);
    Pow2Of16();
  }

  // ------------------------------------------------------------------ the format in numbers

  /** A list can be built of tags that share a type, and is of that type; an empty one is of type 0. */
  lemma NewListLaw(items: seq<NbtTag>)
    ensures NewList(items).Some? <==> forall i, j :: 0 <= i < j < |items| ==> TypeId(items[i]) == TypeId(items[j])
    ensures NewList(items).Some? ==>
      NewList(items).value == ListTag(if items == [] then 0 else TypeId(items[0]), items)
  {
    if forall i, j :: 0 <= i < j < |items| ==> TypeId(items[i]) == TypeId(items[j]) {
      assert forall i :: 0 < i < |items| ==> TypeId(items[0]) == TypeId(items[i]);
    }
  }

  /** A document starts with the type of its root. */
  lemma FirstByteIsType(t: NbtTag)
    requires Wf(t)
    ensures WriteNetwork(t)[0] == match t
      case ByteTag(_) => 1
      case ShortTag(_) => 2
      case IntTag(_) => 3
      case LongTag(_) => 4
      case FloatTag(_) => 5
      case DoubleTag(_) => 6
      case ByteArrayTag(_) => 7
      case StringTag(_) => 8
      case ListTag(_, _) => 9
      case CompoundTag(_) => 10
      case IntArrayTag(_) => 11
      case LongArrayTag(_) => 12
  {
    hide WritePayload, Wf;
  }

  /** And is so many bytes long. */
  lemma PayloadLength(t: NbtTag)
    requires Wf(t)
    ensures match t
      case ByteTag(_) => |WritePayload(t)| == 1
      case ShortTag(_) => |WritePayload(t)| == 2
      case IntTag(_) => |WritePayload(t)| == 4
      case LongTag(_) => |WritePayload(t)| == 8
      case FloatTag(_) => |WritePayload(t)| == 4
      case DoubleTag(_) => |WritePayload(t)| == 8
      case ByteArrayTag(v) => |WritePayload(t)| == 4 + |v|
      case StringTag(s) => |WritePayload(t)| == 2 + ModLen(Truncated(s))
      case ListTag(_, items) => |WritePayload(t)| >= 5
      case CompoundTag(_) => |WritePayload(t)| >= 1 && WritePayload(t)[|WritePayload(t)| - 1] == 0
      case IntArrayTag(v) => |WritePayload(t)| == 4 + 4 * |v|
      case LongArrayTag(v) => |WritePayload(t)| == 4 + 8 * |v|
  {
    hide WriteItems, WriteEntries, WriteInts, InSigned, Pow2, ModLen, Truncated;
    match t
    case ByteArrayTag(v) => IntsLength(v, 1);
    case IntArrayTag(v) => IntsLength(v, 4);
    case LongArrayTag(v) => IntsLength(v, 8);
    case _ =>
  }

  lemma {:induction false} IntsLength(v: seq<int>, n: nat)
    requires n >= 1 && AllSigned(v, 8 * n)
    ensures |WriteInts(v, n)| == n * |v|
  {
    hide SignedBytes, InSigned;
    if |v| == 0 {
    } else {
      IntsLength(v[1..], n);
      assert n * |v| == n + n * |v[1..]|;
    }
  }

  /** Some tags and all of their bytes. */
  lemma KnownScalars()
    ensures Wf(ShortTag(258)) && WritePayload(ShortTag(258)) == [1, 2]
    ensures Wf(ByteTag(5)) && WritePayload(ByteTag(5)) == [5]
    ensures Wf(ByteTag(-1)) && WritePayload(ByteTag(-1)) == [255]
    ensures WritePayload(StringTag("hi")) == [0, 2, 104, 105]
  {
    hide Pow2, BigEndian, WriteString;
    SmallSigned();
    SmallBigEndians();
    StringBytes();
  }

  lemma KnownList()
    ensures Wf(ListTag(1, [ByteTag(5)])) && WritePayload(ListTag(1, [ByteTag(5)])) == [1, 0, 0, 0, 1, 5]
  {
    hide BigEndian, SignedBytes, InSigned;
    KnownScalars();
    SmallBigEndians();
    var b := ByteTag(5);
    OneItem(b);
    Pow2Mono(1, 32);
    assert Pow2(1) == 2;
  }

  lemma OneItem(t: NbtTag)
    requires Wf(t)
    ensures WfItems([t], TypeId(t)) && WriteItems([t], TypeId(t)) == WritePayload(t)
  {
    hide WritePayload, Wf;
    assert [t][1..] == [] && WriteItems([], TypeId(t)) == [];
    assert WriteItems([t], TypeId(t)) == WritePayload(t) + [];
  }

  lemma KnownCompound()
    ensures Wf(CompoundTag([Entry("a", ByteTag(5))]))
    ensures WritePayload(CompoundTag([Entry("a", ByteTag(5))])) == [1, 0, 1, 97, 5, 0]
  {
    hide WriteString, SignedBytes, Pow2;
    KnownScalars();
    StringBytes();
    var es := [Entry("a", ByteTag(5))];
    assert es[1..] == [] && WriteEntries([]) == [];
    assert WriteEntries(es) == [1] + WriteString("a") + WritePayload(ByteTag(5)) + [];
  }

  lemma SmallSigned()
    ensures InSigned(5, 8) && AsUnsigned(5, 8) == 5 && InSigned(-1, 8) && AsUnsigned(-1, 8) == 255
    ensures InSigned(258, 16) && AsUnsigned(258, 16) == 258
  {
    assert Pow2(4) == 16 && Pow2(7) == 128 && Pow2(8) == 256 by {
      assert Pow2(4) == 2 * Pow2(3) && Pow2(6) == 2 * Pow2(5) && Pow2(5) == 2 * Pow2(4);
      assert Pow2(3) == 2 * Pow2(2) && Pow2(8) == 2 * Pow2(7) && Pow2(7) == 2 * Pow2(6);
    }
    Pow2Mono(9, 15);
    assert Pow2(9) == 2 * Pow2(8);
  }

  lemma SmallBigEndians()
    ensures BigEndian(5, 1) == [5] && BigEndian(255, 1) == [255] && BigEndian(258, 2) == [1, 2]
    ensures BigEndian(1, 2) == [0, 1] && BigEndian(2, 2) == [0, 2] && BigEndian(1, 4) == [0, 0, 0, 1]
  {
    assert forall v: nat {:trigger BigEndian(v, 0)} :: BigEndian(v, 0) == [];
    assert BigEndian(0, 1) == [0] && BigEndian(1, 1) == [1] && BigEndian(2, 1) == [2];
    assert BigEndian(0, 2) == [0, 0];
    assert BigEndian(0, 3) == [0, 0, 0];
  }

  lemma StringBytes()
    ensures WriteString("a") == [0, 1, 97] && WriteString("hi") == [0, 2, 104, 105]
  {
    SmallBigEndians();
    assert "a"[1..] == "" && ModLen("") == 0 && Encode("") == [];
    assert "hi"[1..] == "i" && "i"[1..] == "";
    assert ModLen("i") == 1 && Encode("i") == [105] + Encode("");
    assert ModLen("hi") == 2 && Encode("hi") == [104] + Encode("i");
  }

  /** What the reader refuses, and how. */
  lemma ReadRefusals(bytes: seq<byte>, typeId: byte, depth: nat)
    requires depth <= 513
    ensures depth == 513 ==> ReadPayload(bytes, typeId, depth) == Failure(NbtTooDeep(512))
    ensures depth <= 512 && (typeId == 0 || typeId > 12) ==>
      ReadPayload(bytes, typeId, depth) == Failure(InvalidEnum(typeId))
    ensures depth <= 512 && typeId == 9 && |bytes| > 0 && bytes[0] == 0 && ReadLen(bytes[1..]).Success? ==>
      ReadLen(bytes[1..]).value.0 > 0 ==>
      ReadPayload(bytes, typeId, depth) == Failure(Nbt("non-empty list of TAG_End"))
    ensures |bytes| > 0 && bytes[0] == 0 ==> ReadNetwork(bytes) == Failure(Nbt("root tag is TAG_End"))
    ensures bytes == [] ==> ReadNetwork(bytes) == Failure(UnexpectedEof(1, 0))
  {
    hide ReadLen, ReadInts, ReadItems, ReadEntries, ReadString;
  }

  /** A length is a signed number of four bytes, and is refused below zero and above 2^24. */
  lemma LengthLaw(bytes: seq<byte>)
    ensures |bytes| < 4 ==> ReadLen(bytes) == Failure(UnexpectedEof(4, |bytes|))
    ensures |bytes| >= 4 ==>
      var v := AsSigned(FromBigEndian(bytes[..4]), 32);
      && (v < 0 ==> ReadLen(bytes) == Failure(NegativeLength(v)))
      && (v > 16_777_216 ==> ReadLen(bytes) == Failure(LengthLimitExceeded(v, 16_777_216)))
      && (0 <= v <= 16_777_216 ==> ReadLen(bytes) == Success((v, bytes[4..])))
  {
    hide AsSigned, FromBigEndian;
  }

  /** Lists within lists. */
  function Nest(n: nat): NbtTag {
    if n == 0 then ListTag(0, []) else ListTag(9, [Nest(n - 1)])
  }

  /** 512 levels below the root are accepted and no more. */
  lemma {:induction false} NestLimits(n: nat, depth: nat)
    ensures Limits(Nest(n), depth) <==> n + depth <= 512
    decreases n
  {
    if n == 0 {
    } else {
      NestLimits(n - 1, depth + 1);
      var items := Nest(n).items;
      assert items == [Nest(n - 1)] && items[1..] == [];
      assert ItemsLimits(items, depth + 1) <==> Limits(Nest(n - 1), depth + 1);
    }
  }

  /** Arrays and lists of up to 2^24 elements are accepted and no more. */
  lemma ArrayLimits(v: seq<int>, items: seq<NbtTag>)
    ensures Limits(ByteArrayTag(v), 0) <==> |v| <= 16_777_216
    ensures Limits(IntArrayTag(v), 0) <==> |v| <= 16_777_216
    ensures Limits(LongArrayTag(v), 0) <==> |v| <= 16_777_216
    ensures Limits(ListTag(1, items), 0) ==> |items| <= 16_777_216
    ensures |items| <= 16_777_216 && (forall i :: 0 <= i < |items| ==> items[i].ByteTag?) ==>
      Limits(ListTag(1, items), 0)
  {
    if forall i :: 0 <= i < |items| ==> items[i].ByteTag? { BytesWithin(items, 1); }
  }

  lemma {:induction false} BytesWithin(items: seq<NbtTag>, depth: nat)
    requires depth <= 512 && forall i :: 0 <= i < |items| ==> items[i].ByteTag?
    ensures ItemsLimits(items, depth)
    decreases |items|
  {
    if |items| == 0 {
    } else {
      BytesWithin(items[1..], depth);
    }
  }
}

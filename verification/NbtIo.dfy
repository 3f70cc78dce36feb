/**
  The NBT codecs as they run: a writer that appends to a buffer, and a reader that advances a
  cursor, both recursive with loops, and both equal to the functions of `Nbts`.
 */
module NbtIos {
  import opened Bytes
  import opened ModifiedUtf8s
  import opened Nbts
  import opened Wrappers

  // ------------------------------------------------------------------ writing

  lemma {:induction false} WriteItemsAppend(front: seq<NbtTag>, last: NbtTag, elementType: byte)
    requires WfItems(front + [last], elementType)
    ensures WfItems(front, elementType) && Wf(last)
    ensures WriteItems(front + [last], elementType) == WriteItems(front, elementType) + WritePayload(last)
    decreases |front|
  {
    hide Wf, WritePayload, TypeId;
    var all := front + [last];
    assert forall i :: 0 <= i < |front| ==> front[i] == all[i];
    assert last == all[|front|];
    if |front| == 0 {
      assert all == [last] && [last][1..] == [];
    } else {
      assert all[1..] == front[1..] + [last];
      assert WfItems(all[1..], elementType);
      WriteItemsAppend(front[1..], last, elementType);
    }
  }

  function WriteEntry(e: Entry): seq<byte>
    requires Wf(e.value)
  {
    [TypeId(e.value)] + WriteString(e.name) + WritePayload(e.value)
  }

  lemma {:induction false} WriteEntriesAppend(front: seq<Entry>, last: Entry)
    requires WfEntries(front + [last])
    ensures WfEntries(front) && Wf(last.value)
    ensures WriteEntries(front + [last]) == WriteEntries(front) + WriteEntry(last)
    decreases |front|
  {
    hide Wf, WritePayload, WriteString;
    var all := front + [last];
    assert forall i :: 0 <= i < |front| ==> front[i] == all[i];
    assert last == all[|front|];
    if |front| == 0 {
      assert all == [last] && [last][1..] == [];
    } else {
      assert all[1..] == front[1..] + [last];
      assert WfEntries(all[1..]);
      WriteEntriesAppend(front[1..], last);
    }
  }

  lemma {:induction false} WriteIntsAppend(front: seq<int>, last: int, n: nat)
    requires n >= 1 && AllSigned(front + [last], 8 * n)
    ensures AllSigned(front, 8 * n) && InSigned(last, 8 * n)
    ensures WriteInts(front + [last], n) == WriteInts(front, n) + SignedBytes(last, n)
    decreases |front|
  {
    hide SignedBytes, InSigned;
    var all := front + [last];
    assert forall i :: 0 <= i < |front| ==> front[i] == all[i];
    assert last == all[|front|];
    if |front| == 0 {
      assert all == [last] && [last][1..] == [];
    } else {
      assert all[1..] == front[1..] + [last];
      assert AllSigned(all[1..], 8 * n);
      WriteIntsAppend(front[1..], last, n);
    }
  }

  method PutInts(v: seq<int>, n: nat, out: Buffer)
    requires n >= 1 && AllSigned(v, 8 * n)
    modifies out
    ensures out.bytes == old(out.bytes) + CountBytes(|v|) + WriteInts(v, n)
  {
    hide SignedBytes, CountBytes, InSigned;
    out.bytes := out.bytes + CountBytes(|v|);
    ghost var before := out.bytes;
    for i := 0 to |v|
      invariant AllSigned(v[..i], 8 * n) && out.bytes == before + WriteInts(v[..i], n)
    {
      assert v[..i] + [v[i]] == v[..i + 1];
      WriteIntsAppend(v[..i], v[i], n);
      out.bytes := out.bytes + SignedBytes(v[i], n);
    }
    assert v[..|v|] == v;
  }

  method PutPayload(t: NbtTag, out: Buffer)
    requires Wf(t)
    modifies out
    ensures out.bytes == old(out.bytes) + WritePayload(t)
    decreases t, 1
  {
    hide SignedBytes, BigEndian, CountBytes, WriteInts, WriteString, InSigned, WriteItems, WriteEntries;
    hide WfItems, WfEntries, UniqueNames, TypeId;
    match t
    case ByteTag(v) => out.bytes := out.bytes + SignedBytes(v, 1);
    case ShortTag(v) => out.bytes := out.bytes + SignedBytes(v, 2);
    case IntTag(v) => out.bytes := out.bytes + SignedBytes(v, 4);
    case LongTag(v) => out.bytes := out.bytes + SignedBytes(v, 8);
    case FloatTag(b) => out.bytes := out.bytes + BigEndian(b, 4);
    case DoubleTag(b) => out.bytes := out.bytes + BigEndian(b, 8);
    case ByteArrayTag(v) => PutInts(v, 1, out);
    case StringTag(s) => WriteModifiedUtf8(s, out);
    case ListTag(_, _) => PutList(t, out);
    case CompoundTag(_) => PutCompound(t, out);
    case IntArrayTag(v) => PutInts(v, 4, out);
    case LongArrayTag(v) => PutInts(v, 8, out);
  }

  method PutList(t: NbtTag, out: Buffer)
    requires t.ListTag? && Wf(t)
    modifies out
    ensures out.bytes == old(out.bytes) + WritePayload(t)
    decreases t, 0
  {
    hide CountBytes, TypeId, WriteItems;
    out.bytes := out.bytes + [t.elementType];
    out.bytes := out.bytes + CountBytes(|t.items|);
    PutItems(t.items, t.elementType, out);
  }

  method PutItems(items: seq<NbtTag>, elementType: byte, out: Buffer)
    requires WfItems(items, elementType)
    modifies out
    ensures out.bytes == old(out.bytes) + WriteItems(items, elementType)
    decreases items, 0
  {
    hide WritePayload, Wf, TypeId;
    for i := 0 to |items|
      invariant WfItems(items[..i], elementType)
      invariant out.bytes == old(out.bytes) + WriteItems(items[..i], elementType)
    {
      assert items[..i] + [items[i]] == items[..i + 1];
      assert WfItems(items[..i + 1], elementType);
      WriteItemsAppend(items[..i], items[i], elementType);
      PutPayload(items[i], out);
    }
    assert items[..|items|] == items;
  }

  method PutCompound(t: NbtTag, out: Buffer)
    requires t.CompoundTag? && Wf(t)
    modifies out
    ensures out.bytes == old(out.bytes) + WritePayload(t)
    decreases t, 0
  {
    hide WriteString, UniqueNames, WriteEntries, WritePayload, Wf, WfEntries;
    CompoundForm(t);
    var entries := t.entries;
    ghost var before := out.bytes;
    NoEntries();
    for i := 0 to |entries|
      invariant WfEntries(entries[..i]) && out.bytes == before + WriteEntries(entries[..i])
    {
      assert entries[..i] + [entries[i]] == entries[..i + 1];
      FrontIsWf(entries, i + 1);
      WriteEntriesAppend(entries[..i], entries[i]);
      out.bytes := out.bytes + [TypeId(entries[i].value)];
      WriteModifiedUtf8(entries[i].name, out);
      PutPayload(entries[i].value, out);
    }
    assert entries[..|entries|] == entries;
    out.bytes := out.bytes + [0];
  }

  lemma CompoundForm(t: NbtTag)
    requires t.CompoundTag? && Wf(t)
    ensures WfEntries(t.entries) && WritePayload(t) == WriteEntries(t.entries) + [0]
  {
  }

  lemma NoEntries()
    ensures WfEntries([]) && WriteEntries([]) == []
  {
  }

  lemma FrontIsWf(entries: seq<Entry>, n: nat)
    requires WfEntries(entries) && n <= |entries|
    ensures WfEntries(entries[..n])
  {
    hide Wf;
  }

  /** `write_network`. */
  method PutNetwork(t: NbtTag, out: Buffer)
    requires Wf(t)
    modifies out
    ensures out.bytes == old(out.bytes) + WriteNetwork(t)
  {
    hide WritePayload, Wf;
    out.bytes := out.bytes + [TypeId(t)];
    PutPayload(t, out);
  }

  // ------------------------------------------------------------------ reading

  /** A parse continued after some elements have been collected. */
  function After<T>(collected: seq<T>, p: Parse<seq<T>>): Parse<seq<T>> {
    match p
    case Success((more, rest)) => Success((collected + more, rest))
    case Failure(e) => Failure(e)
  }

  lemma AfterNothing<T>(p: Parse<seq<T>>)
    ensures After([], p) == p
  {
    if p.Success? { assert [] + p.value.0 == p.value.0; }
  }

  lemma AfterOne<T>(collected: seq<T>, one: T, p: Parse<seq<T>>)
    ensures After(collected + [one], p) == After(collected, After([one], p))
  {
    if p.Success? { assert collected + [one] + p.value.0 == collected + ([one] + p.value.0); }
  }

  /** A cursor over a packet body. */
  class PacketReader {
    const buf: seq<byte>
    var pos: nat

    ghost predicate Valid()
      reads this
    {
      pos <= |buf|
    }

    ghost function Rest(): seq<byte>
      reads this
      requires Valid()
    {
      buf[pos..]
    }

    /** The outcome of a read is what a parse of the bytes at the cursor gives. */
    ghost predicate Yields<T>(r: Result<T, ProtocolError>, parse: Parse<T>)
      reads this
      requires Valid()
    {
      match parse
      case Success((v, rest)) => r == Success(v) && Rest() == rest
      case Failure(e) => r == Failure(e)
    }

    constructor (buf: seq<byte>)
      ensures Valid() && Rest() == buf
    {
      this.buf := buf;
      this.pos := 0;
    }

    /** `take`, which moves the cursor only when it succeeds. */
    method TakeBytes(n: nat) returns (r: Result<seq<byte>, ProtocolError>)
      requires Valid()
      modifies this
      ensures Valid() && Yields(r, Take(old(Rest()), n)) && (r.Failure? ==> pos == old(pos))
    {
      var end := pos + n;
      if end > |buf| {
        return Failure(UnexpectedEof(n, |buf| - pos));
      }
      var slice := buf[pos..end];
      assert slice == buf[pos..][..n] && buf[end..] == buf[pos..][n..];
      pos := end;
      return Success(slice);
    }

    method GetSigned(n: nat) returns (r: Result<int, ProtocolError>)
      requires Valid() && n >= 1
      modifies this
      ensures Valid() && Yields(r, ReadSigned(old(Rest()), n))
    {
      var b := TakeBytes(n);
      if b.Failure? { return Failure(b.error); }
      return Success(AsSigned(FromBigEndian(b.value), 8 * n));
    }

    method GetUnsigned(n: nat) returns (r: Result<nat, ProtocolError>)
      requires Valid()
      modifies this
      ensures Valid() && Yields(r, ReadUnsigned(old(Rest()), n))
    {
      var b := TakeBytes(n);
      if b.Failure? { return Failure(b.error); }
      return Success(FromBigEndian(b.value));
    }

    method GetLen() returns (r: Result<nat, ProtocolError>)
      requires Valid()
      modifies this
      ensures Valid() && Yields(r, ReadLen(old(Rest())))
    {
      hide ReadSigned, InSigned;
      var len := GetSigned(4);
      if len.Failure? { return Failure(len.error); }
      if len.value < 0 { return Failure(NegativeLength(len.value)); }
      if len.value > MAX_ARRAY_LEN { return Failure(LengthLimitExceeded(len.value, MAX_ARRAY_LEN)); }
      return Success(len.value);
    }

    method GetString() returns (r: Result<string, ProtocolError>)
      requires Valid()
      modifies this
      ensures Valid() && Yields(r, ReadString(old(Rest())))
    {
      hide Decode, FromBigEndian, InSigned;
      ghost var start := Rest();
      var head := TakeBytes(2);
      if head.Failure? { return Failure(head.error); }
      assert head.value == start[..2] && Rest() == start[2..];
      var len := FromBigEndian(head.value);
      var body := TakeBytes(len);
      if body.Failure? { return Failure(body.error); }
      r := DecodeModifiedUtf8(body.value);
    }

    method GetInts(count: nat, n: nat) returns (r: Result<seq<int>, ProtocolError>)
      requires Valid() && n >= 1
      modifies this
      ensures Valid() && Yields(r, ReadInts(old(Rest()), count, n))
    {
      hide ReadSigned, InSigned;
      var values: seq<int> := [];
      AfterNothing(ReadInts(Rest(), count, n));
      for i := 0 to count
        invariant Valid()
        invariant ReadInts(old(Rest()), count, n) == After(values, ReadInts(Rest(), count - i, n))
      {
        ghost var here := Rest();
        var v := GetSigned(n);
        if v.Failure? { return Failure(v.error); }
        AfterOne(values, v.value, ReadInts(Rest(), count - i - 1, n));
        values := values + [v.value];
      }
      assert values + [] == values;
      return Success(values);
    }

    /** `read_payload`: recursion cut at the depth limit. */
    method GetPayload(typeId: byte, depth: nat) returns (r: Result<NbtTag, ProtocolError>)
      requires Valid() && depth <= MAX_DEPTH + 1
      modifies this
      ensures Valid() && Yields(r, ReadPayload(old(Rest()), typeId, depth))
      decreases MAX_DEPTH + 1 - depth, 1
    {
      hide ReadSigned, ReadUnsigned, ReadLen, ReadInts, ReadString, InSigned, ReadItems, ReadEntries;
      if depth > MAX_DEPTH {
        return Failure(NbtTooDeep(MAX_DEPTH));
      }
      if 1 <= typeId <= 4 {
        r := GetInteger(typeId, depth);
      } else if typeId == 5 {
        var v := GetUnsigned(4);
        if v.Failure? { return Failure(v.error); }
        return Success(FloatTag(v.value));
      } else if typeId == 6 {
        var v := GetUnsigned(8);
        if v.Failure? { return Failure(v.error); }
        return Success(DoubleTag(v.value));
      } else if typeId == 8 {
        var v := GetString();
        if v.Failure? { return Failure(v.error); }
        return Success(StringTag(v.value));
      } else if typeId == 9 {
        r := GetList(depth);
      } else if typeId == 10 {
        r := GetCompound(depth);
      } else if typeId in {7, 11, 12} {
        r := GetArray(typeId, depth);
      } else {
        return Failure(InvalidEnum(typeId));
      }
    }

    method GetInteger(typeId: byte, depth: nat) returns (r: Result<NbtTag, ProtocolError>)
      requires Valid() && depth <= MAX_DEPTH && 1 <= typeId <= 4
      modifies this
      ensures Valid() && Yields(r, ReadPayload(old(Rest()), typeId, depth))
    {
      hide ReadSigned, InSigned;
      var v := GetSigned(if typeId == 1 then 1 else if typeId == 2 then 2 else if typeId == 3 then 4 else 8);
      if v.Failure? { return Failure(v.error); }
      return Success(
        if typeId == 1 then ByteTag(v.value) else if typeId == 2 then ShortTag(v.value)
        else if typeId == 3 then IntTag(v.value) else LongTag(v.value));
    }

    method GetArray(typeId: byte, depth: nat) returns (r: Result<NbtTag, ProtocolError>)
      requires Valid() && depth <= MAX_DEPTH && typeId in {7, 11, 12}
      modifies this
      ensures Valid() && Yields(r, ReadPayload(old(Rest()), typeId, depth))
    {
      hide ReadLen, ReadInts, InSigned;
      var len := GetLen();
      if len.Failure? { return Failure(len.error); }
      if typeId == 7 {
        var b := TakeBytes(len.value);
        if b.Failure? { return Failure(b.error); }
        return Success(ByteArrayTag(AsBytes(b.value)));
      }
      var v := GetInts(len.value, if typeId == 11 then 4 else 8);
      if v.Failure? { return Failure(v.error); }
      return Success(if typeId == 11 then IntArrayTag(v.value) else LongArrayTag(v.value));
    }

    method GetList(depth: nat) returns (r: Result<NbtTag, ProtocolError>)
      requires Valid() && depth <= MAX_DEPTH
      modifies this
      ensures Valid() && Yields(r, ReadPayload(old(Rest()), 9, depth))
      decreases MAX_DEPTH + 1 - depth, 0
    {
      hide ReadLen, ReadItems, InSigned;
      var elementType := TakeBytes(1);
      if elementType.Failure? { return Failure(elementType.error); }
      var len := GetLen();
      if len.Failure? { return Failure(len.error); }
      if elementType.value[0] == 0 && len.value > 0 {
        return Failure(Nbt("non-empty list of TAG_End"));
      }
      var items := GetItems(elementType.value[0], len.value, depth + 1);
      if items.Failure? { return Failure(items.error); }
      return Success(ListTag(elementType.value[0], items.value));
    }

    method GetItems(elementType: byte, len: nat, depth: nat) returns (r: Result<seq<NbtTag>, ProtocolError>)
      requires Valid() && depth <= MAX_DEPTH + 1
      modifies this
      ensures Valid() && Yields(r, ReadItems(old(Rest()), elementType, len, depth))
      decreases MAX_DEPTH + 1 - depth, 2
    {
      hide ReadPayload;
      var items: seq<NbtTag> := [];
      AfterNothing(ReadItems(Rest(), elementType, len, depth));
      for i := 0 to len
        invariant Valid()
        invariant ReadItems(old(Rest()), elementType, len, depth)
               == After(items, ReadItems(Rest(), elementType, len - i, depth))
      {
        var item := GetPayload(elementType, depth);
        if item.Failure? { return Failure(item.error); }
        AfterOne(items, item.value, ReadItems(Rest(), elementType, len - i - 1, depth));
        items := items + [item.value];
      }
      assert items + [] == items;
      return Success(items);
    }

    method GetCompound(depth: nat) returns (r: Result<NbtTag, ProtocolError>)
      requires Valid() && depth <= MAX_DEPTH
      modifies this
      ensures Valid() && Yields(r, ReadPayload(old(Rest()), 10, depth))
      decreases MAX_DEPTH + 1 - depth, 0
    {
      hide ReadString, Insert;
      var entries: seq<Entry> := [];
      ghost var all := ReadEntries(Rest(), depth + 1, []);
      while true
        invariant Valid()
        invariant all == ReadEntries(Rest(), depth + 1, entries)
        decreases |buf| - pos
      {
        ghost var here := Rest();
        var entryType := TakeBytes(1);
        if entryType.Failure? { return Failure(entryType.error); }
        if entryType.value[0] == 0 {
          return Success(CompoundTag(entries));
        }
        var name := GetString();
        if name.Failure? { return Failure(name.error); }
        var value := GetPayload(entryType.value[0], depth + 1);
        if value.Failure? { return Failure(value.error); }
        assert |Rest()| < |here|;
        entries := Insert(entries, name.value, value.value);
      }
    }

    /** `read_network`. */
    method GetNetwork() returns (r: Result<NbtTag, ProtocolError>)
      requires Valid()
      modifies this
      ensures Valid() && Yields(r, ReadNetwork(old(Rest())))
    {
      hide ReadPayload;
      var typeId := TakeBytes(1);
      if typeId.Failure? { return Failure(typeId.error); }
      if typeId.value[0] == 0 { return Failure(Nbt("root tag is TAG_End")); }
      r := GetPayload(typeId.value[0], 0);
    }
  }
}

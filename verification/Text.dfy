/** Chat components, and their embedding in NBT. */
module Texts {
  import opened Powers
  import opened Bytes
  import opened ModifiedUtf8s
  import opened Nbts
  import opened Wrappers

  datatype Component = Component(
    text: Option<string>, translate: Option<string>, color: Option<string>,
    bold: Option<bool>, italic: Option<bool>, underlined: Option<bool>,
    strikethrough: Option<bool>, obfuscated: Option<bool>,
    extra: seq<Component>)

  /** A key of the compound and the value stored there, if any. */
  datatype Slot = Slot(key: string, value: Option<NbtTag>)

  function StringValue(s: Option<string>): Option<NbtTag> {
    match s case Some(v) => Some(StringTag(v)) case None => None
  }

  function BoolValue(b: Option<bool>): Option<NbtTag> {
    match b case Some(v) => Some(ByteTag(if v then 1 else 0)) case None => None
  }

  function Slots(c: Component): (slots: seq<Slot>)
    ensures |slots| == 9
    decreases c, 0
  {
    [ Slot("text", StringValue(c.text)),
      Slot("translate", StringValue(c.translate)),
      Slot("color", StringValue(c.color)),
      Slot("bold", BoolValue(c.bold)),
      Slot("italic", BoolValue(c.italic)),
      Slot("underlined", BoolValue(c.underlined)),
      Slot("strikethrough", BoolValue(c.strikethrough)),
      Slot("obfuscated", BoolValue(c.obfuscated)),
      Slot("extra", if |c.extra| == 0 then None else NewList(Children(c.extra))) ]
  }

  /** The compound is built by inserting what is set, in a fixed order. */
  function ToNbt(c: Component): (t: NbtTag)
    ensures t.CompoundTag?
    decreases c, 1
  {
    CompoundTag(InsertPresent([], Slots(c)))
  }

  function Children(extra: seq<Component>): (tags: seq<NbtTag>)
    ensures |tags| == |extra|
    ensures forall i :: 0 <= i < |tags| ==> tags[i].CompoundTag?
    decreases extra, 0
  {
    if |extra| == 0 then [] else [ToNbt(extra[0])] + Children(extra[1..])
  }

  function InsertPresent(entries: seq<Entry>, slots: seq<Slot>): seq<Entry>
    decreases |slots|
  {
    if |slots| == 0 then entries
    else match slots[0].value
      case None => InsertPresent(entries, slots[1..])
      case Some(v) => InsertPresent(Insert(entries, slots[0].key, v), slots[1..])
  }

  // ------------------------------------------------------------------ what the compound holds

  function Present(slots: seq<Slot>): seq<Entry> {
    if |slots| == 0 then []
    else match slots[0].value
      case None => Present(slots[1..])
      case Some(v) => [Entry(slots[0].key, v)] + Present(slots[1..])
  }

  ghost predicate DistinctKeys(slots: seq<Slot>) {
    forall i, j :: 0 <= i < j < |slots| ==> slots[i].key != slots[j].key
  }

  /** The keys in the order they are inserted. */
  function Keys(): seq<string> {
    ["text", "translate", "color", "bold", "italic", "underlined", "strikethrough", "obfuscated", "extra"]
  }

  /** The first two letters tell the keys apart. */
  function Heads(): seq<(char, char)> {
    [('t', 'e'), ('t', 'r'), ('c', 'o'), ('b', 'o'), ('i', 't'), ('u', 'n'), ('s', 't'), ('o', 'b'), ('e', 'x')]
  }

  lemma KeysHaveHeads()
    ensures forall i :: 0 <= i < 9 ==> |Keys()[i]| in {4, 5, 6, 9, 10, 13} && (Keys()[i][0], Keys()[i][1]) == Heads()[i]
  {
    var k := Keys();
    assert k[0] == "text" && k[1] == "translate" && k[2] == "color" && k[3] == "bold" && k[4] == "italic";
    assert k[5] == "underlined" && k[6] == "strikethrough" && k[7] == "obfuscated" && k[8] == "extra";
  }

  lemma HeadsDiffer()
    ensures forall i, j :: 0 <= i < j < 9 ==> Heads()[i] != Heads()[j]
  {
  }

  lemma SlotKeys(c: Component)
    ensures forall i :: 0 <= i < 9 ==> Slots(c)[i].key == Keys()[i]
  {
    hide StringValue, BoolValue, NewList, Children;
  }

  lemma KeysAreDistinct(c: Component)
    ensures DistinctKeys(Slots(c))
  {
    hide Slots, Keys, Heads;
    SlotKeys(c);
    KeysHaveHeads();
    HeadsDiffer();
  }

  lemma {:induction false} PresentNames(slots: seq<Slot>, name: string)
    requires HasName(Present(slots), name)
    ensures exists i :: 0 <= i < |slots| && slots[i].key == name
    decreases |slots|
  {
    var p := Present(slots);
    var k :| 0 <= k < |p| && p[k].name == name;
    if slots[0].key != name {
      var tail := Present(slots[1..]);
      assert HasName(tail, name) by {
        assert tail[if slots[0].value.Some? then k - 1 else k].name == name;
      }
      PresentNames(slots[1..], name);
      var i :| 0 <= i < |slots| - 1 && slots[1..][i].key == name;
      assert slots[i + 1].key == name;
    }
  }

  /** With distinct keys every insertion appends. */
  lemma {:induction false} InsertPresentAppends(entries: seq<Entry>, slots: seq<Slot>)
    requires DistinctKeys(slots) && forall i :: 0 <= i < |slots| ==> !HasName(entries, slots[i].key)
    ensures InsertPresent(entries, slots) == entries + Present(slots)
    decreases |slots|
  {
    hide Insert;
    if |slots| == 0 {
    } else if slots[0].value.None? {
      InsertPresentAppends(entries, slots[1..]);
    } else {
      var e := Entry(slots[0].key, slots[0].value.value);
      InsertGrows(entries, e.name, e.value);
      forall i | 0 <= i < |slots| - 1 ensures !HasName(entries + [e], slots[1..][i].key) {
        assert slots[1..][i] == slots[i + 1];
        forall k | 0 <= k < |entries + [e]| ensures (entries + [e])[k].name != slots[i + 1].key {
          if k < |entries| { assert entries[k].name != slots[i + 1].key; }
        }
      }
      InsertPresentAppends(entries + [e], slots[1..]);
      assert entries + [e] + Present(slots[1..]) == entries + ([e] + Present(slots[1..]));
    }
  }

  /** The entries of a component are exactly its set fields, in order. */
  lemma EntriesArePresent(c: Component)
    ensures ToNbt(c) == CompoundTag(Present(Slots(c)))
  {
    hide Slots, InsertPresent, Present;
    KeysAreDistinct(c);
    InsertPresentAppends([], Slots(c));
    assert [] + Present(Slots(c)) == Present(Slots(c));
  }

  /** All children share one type, which is what it takes to build a list of them. */
  lemma ExtraIsHomogeneous(extra: seq<Component>)
    requires |extra| > 0
    ensures NewList(Children(extra)) == Some(ListTag(10, Children(extra)))
  {
    hide Children;
    assert forall i :: 0 <= i < |extra| ==> TypeId(Children(extra)[i]) == 10;
  }

  // ------------------------------------------------------------------ injectivity

  lemma {:induction false} PresentInjective(a: seq<Slot>, b: seq<Slot>)
    requires |a| == |b| && DistinctKeys(a) && forall i :: 0 <= i < |a| ==> a[i].key == b[i].key
    requires Present(a) == Present(b)
    ensures a == b
    decreases |a|
  {
    if |a| == 0 {
    } else {
      SetTogether(a, b);
      assert Present(a[1..]) == Present(b[1..]) by {
        if a[0].value.Some? {
          assert Present(a)[1..] == Present(a[1..]) && Present(b)[1..] == Present(b[1..]);
        }
      }
      if a[0].value.Some? { assert Present(a)[0] == Present(b)[0]; }
      PresentInjective(a[1..], b[1..]);
      assert a == [a[0]] + a[1..] && b == [b[0]] + b[1..];
    }
  }

  /** The first slot is set in both or in neither: its key occurs nowhere else. */
  lemma SetTogether(a: seq<Slot>, b: seq<Slot>)
    requires 0 < |a| == |b| && DistinctKeys(a) && forall i :: 0 <= i < |a| ==> a[i].key == b[i].key
    requires Present(a) == Present(b)
    ensures a[0].value.Some? <==> b[0].value.Some?
  {
    SetHere(a);
    SetHere(b);
  }

  lemma SetHere(a: seq<Slot>)
    requires |a| > 0 && DistinctKeys(a)
    ensures a[0].value.Some? <==> HasName(Present(a), a[0].key)
  {
    if a[0].value.Some? {
      assert Present(a)[0].name == a[0].key;
    } else if HasName(Present(a[1..]), a[0].key) {
      PresentNames(a[1..], a[0].key);
    }
  }

  /** No two components have the same NBT form. */
  lemma {:induction false} ToNbtInjective(a: Component, b: Component)
    requires ToNbt(a) == ToNbt(b)
    ensures a == b
    decreases a, 1
  {
    hide Present, ToNbt, Children, NewList;
    EntriesArePresent(a);
    EntriesArePresent(b);
    SameSlots(a, b);
    SlotsInjective(a, b);
    if |a.extra| == 0 {
    } else {
      ExtraIsHomogeneous(a.extra);
    }
    if |b.extra| == 0 {
    } else {
      ExtraIsHomogeneous(b.extra);
    }
    ChildrenInjective(a.extra, b.extra);
  }

  lemma SameSlots(a: Component, b: Component)
    requires Present(Slots(a)) == Present(Slots(b))
    ensures Slots(a) == Slots(b)
  {
    hide Slots, Keys, Present;
    KeysAreDistinct(a);
    SlotKeys(a);
    SlotKeys(b);
    PresentInjective(Slots(a), Slots(b));
  }

  lemma SlotsInjective(a: Component, b: Component)
    requires Slots(a) == Slots(b)
    ensures a == b.(extra := a.extra)
    ensures (if |a.extra| == 0 then None else NewList(Children(a.extra)))
      == (if |b.extra| == 0 then None else NewList(Children(b.extra)))
  {
    hide NewList, Children;
    var s, t := Slots(a), Slots(b);
    assert s[0] == t[0] && s[1] == t[1] && s[2] == t[2] && s[3] == t[3] && s[4] == t[4];
    assert s[5] == t[5] && s[6] == t[6] && s[7] == t[7] && s[8] == t[8];
  }

  lemma {:induction false} ChildrenInjective(a: seq<Component>, b: seq<Component>)
    requires Children(a) == Children(b)
    ensures a == b
    decreases a, 0
  {
    if |a| == 0 {
    } else {
      assert Children(a)[0] == Children(b)[0] && Children(a)[1..] == Children(a[1..]);
      assert Children(b)[1..] == Children(b[1..]);
      ToNbtInjective(a[0], b[0]);
      ChildrenInjective(a[1..], b[1..]);
      assert a == [a[0]] + a[1..] && b == [b[0]] + b[1..];
    }
  }

  // ------------------------------------------------------------------ what the compound says

  lemma {:induction false} GetPresent(slots: seq<Slot>, i: nat)
    requires DistinctKeys(slots) && i < |slots|
    ensures Get(Present(slots), slots[i].key) == slots[i].value
    decreases |slots|
  {
    hide DistinctKeys;
    if i == 0 {
      assert DistinctKeys(slots);
      FirstOrAbsent(slots);
    } else {
      TailIsDistinct(slots);
      GetPresent(slots[1..], i - 1);
      DifferentKey(slots, i);
      assert slots[1..][i - 1] == slots[i];
      if slots[0].value.Some? { assert Present(slots)[1..] == Present(slots[1..]); }
    }
  }

  lemma TailIsDistinct(slots: seq<Slot>)
    requires DistinctKeys(slots) && |slots| > 0
    ensures DistinctKeys(slots[1..])
  {
  }

  lemma DifferentKey(slots: seq<Slot>, i: nat)
    requires DistinctKeys(slots) && 0 < i < |slots|
    ensures slots[0].key != slots[i].key
  {
  }

  lemma FirstOrAbsent(slots: seq<Slot>)
    requires DistinctKeys(slots) && |slots| > 0
    ensures Get(Present(slots), slots[0].key) == slots[0].value
  {
    if slots[0].value.None? {
      SetHere(slots);
      AbsentIsNone(Present(slots), slots[0].key);
    } else {
      assert Present(slots)[0] == Entry(slots[0].key, slots[0].value.value);
    }
  }

  lemma {:induction false} AbsentIsNone(entries: seq<Entry>, name: string)
    requires !HasName(entries, name)
    ensures Get(entries, name) == None
  {
    if |entries| == 0 {
    } else {
      assert entries[0].name != name;
      forall i | 0 <= i < |entries| - 1 ensures entries[1..][i].name != name {
        assert entries[i + 1].name != name;
      }
      AbsentIsNone(entries[1..], name);
    }
  }

  /** Under each key the compound holds the field of that name, strings as they are, flags as a byte that is
      1 or 0, children as a list of their own forms. */
  lemma FieldsByName(c: Component)
    ensures var entries := ToNbt(c).entries;
      && Get(entries, "text") == (if c.text.Some? then Some(StringTag(c.text.value)) else None)
      && Get(entries, "translate") == (if c.translate.Some? then Some(StringTag(c.translate.value)) else None)
      && Get(entries, "color") == (if c.color.Some? then Some(StringTag(c.color.value)) else None)
      && Get(entries, "bold") == Flag(c.bold) && Get(entries, "italic") == Flag(c.italic)
      && Get(entries, "underlined") == Flag(c.underlined) && Get(entries, "strikethrough") == Flag(c.strikethrough)
      && Get(entries, "obfuscated") == Flag(c.obfuscated)
      && (c.extra == [] ==> Get(entries, "extra") == None)
      && (c.extra != [] ==> Get(entries, "extra") == Some(ListTag(10, Children(c.extra))))
  {
    hide Present, ToNbt, NewList, Get, DistinctKeys;
    EntriesArePresent(c);
    KeysAreDistinct(c);
    SlotValues(c);
    if c.extra != [] { ExtraIsHomogeneous(c.extra); }
    var s := Slots(c);
    assert s[8].value == if |c.extra| == 0 then None else NewList(Children(c.extra));
    hide Slots;
    forall i | 0 <= i < 9 ensures Get(Present(s), s[i].key) == s[i].value { GetPresent(s, i); }
  }

  function Flag(b: Option<bool>): Option<NbtTag> {
    if b == Some(true) then Some(ByteTag(1)) else if b == Some(false) then Some(ByteTag(0)) else None
  }

  /** The children's forms, one for one. */
  lemma {:induction false} ChildrenInOrder(extra: seq<Component>, i: nat)
    requires i < |extra|
    ensures Children(extra)[i] == ToNbt(extra[i])
    decreases |extra|
  {
    hide ToNbt;
    if i == 0 {
    } else {
      ChildrenInOrder(extra[1..], i - 1);
    }
  }

  // ------------------------------------------------------------------ limits

  /** Component nesting below this one. */
  function Levels(c: Component): nat
    decreases c, 1
  {
    if |c.extra| == 0 then 0 else 1 + MaxLevels(c.extra)
  }

  function MaxLevels(extra: seq<Component>): nat
    decreases extra, 0
  {
    if |extra| == 0 then 0
    else
      var a, b := Levels(extra[0]), MaxLevels(extra[1..]);
      if a > b then a else b
  }

  predicate HasField(c: Component) {
    c.text.Some? || c.translate.Some? || c.color.Some? || c.bold.Some? || c.italic.Some?
    || c.underlined.Some? || c.strikethrough.Some? || c.obfuscated.Some?
  }

  /** Depth of the deepest NBT tag, this component's compound being at 0: fields are one below it,
      and a child compound is two below, under the list that holds it. */
  function Depth(c: Component): nat
    decreases c, 1
  {
    if |c.extra| > 0 then 2 + MaxDepth(c.extra) else if HasField(c) then 1 else 0
  }

  function MaxDepth(extra: seq<Component>): nat
    decreases extra, 0
  {
    if |extra| == 0 then 0
    else
      var a, b := Depth(extra[0]), MaxDepth(extra[1..]);
      if a > b then a else b
  }

  lemma {:induction false} DepthOfLevels(c: Component)
    ensures 2 * Levels(c) <= Depth(c) <= 2 * Levels(c) + 1
    decreases c, 1
  {
    DepthOfMaxLevels(c.extra);
  }

  lemma {:induction false} DepthOfMaxLevels(extra: seq<Component>)
    ensures |extra| > 0 ==> 2 * MaxLevels(extra) <= MaxDepth(extra) <= 2 * MaxLevels(extra) + 1
    decreases extra, 0
  {
    if |extra| == 0 {
    } else {
      DepthOfLevels(extra[0]);
      DepthOfMaxLevels(extra[1..]);
    }
  }

  /** No component has more than `most` children. */
  predicate ChildCounts(c: Component, most: nat)
    decreases c, 1
  {
    |c.extra| <= most && AllChildCounts(c.extra, most)
  }

  predicate AllChildCounts(extra: seq<Component>, most: nat)
    decreases extra, 0
  {
    |extra| == 0 || (ChildCounts(extra[0], most) && AllChildCounts(extra[1..], most))
  }

  predicate OptionFits(s: Option<string>) {
    s.Some? ==> StringFits(s.value)
  }

  predicate TextsFit(c: Component)
    decreases c, 1
  {
    OptionFits(c.text) && OptionFits(c.translate) && OptionFits(c.color) && AllTextsFit(c.extra)
  }

  predicate AllTextsFit(extra: seq<Component>)
    decreases extra, 0
  {
    |extra| == 0 || (TextsFit(extra[0]) && AllTextsFit(extra[1..]))
  }

  lemma {:induction false} PresentLimits(slots: seq<Slot>, depth: nat)
    ensures EntriesLimits(Present(slots), depth)
      <==> forall i :: 0 <= i < |slots| && slots[i].value.Some? ==> Limits(slots[i].value.value, depth)
    decreases |slots|
  {
    hide Limits;
    if |slots| == 0 {
    } else {
      PresentLimits(slots[1..], depth);
      assert forall i :: 0 <= i < |slots| - 1 ==> slots[1..][i] == slots[i + 1];
      if slots[0].value.Some? {
        assert Present(slots)[1..] == Present(slots[1..]) && Present(slots)[0].value == slots[0].value.value;
      }
      assert forall i :: 0 < i < |slots| ==> slots[i] == slots[1..][i - 1];
    }
  }

  /** A component is within the reader's limits exactly when its deepest tag is and no list is too long. */
  lemma {:induction false} ComponentLimits(c: Component, depth: nat)
    ensures Limits(ToNbt(c), depth) <==> depth + Depth(c) <= MAX_DEPTH && ChildCounts(c, MAX_ARRAY_LEN)
    decreases c, 1
  {
    hide Present, EntriesLimits, ToNbt, Children, ItemsLimits;
    EntriesArePresent(c);
    PresentLimits(Slots(c), depth + 1);
    var s := Slots(c);
    LeafLimits(s, depth + 1, c);
    if |c.extra| > 0 {
      ExtraIsHomogeneous(c.extra);
      ChildrenLimits(c.extra, depth + 2);
    } else {
      NoChildren(MAX_ARRAY_LEN);
    }
  }

  lemma NoChildren(most: nat)
    ensures AllChildCounts([], most)
  {
  }

  lemma SlotValues(c: Component)
    ensures var s := Slots(c);
      && s[0].key == "text" && s[1].key == "translate" && s[2].key == "color" && s[3].key == "bold"
      && s[4].key == "italic" && s[5].key == "underlined" && s[6].key == "strikethrough"
      && s[7].key == "obfuscated" && s[8].key == "extra"
      && s[0].value == StringValue(c.text) && s[1].value == StringValue(c.translate)
      && s[2].value == StringValue(c.color) && s[3].value == BoolValue(c.bold)
      && s[4].value == BoolValue(c.italic) && s[5].value == BoolValue(c.underlined)
      && s[6].value == BoolValue(c.strikethrough) && s[7].value == BoolValue(c.obfuscated)
  {
    hide NewList, Children, StringValue, BoolValue;
  }

  lemma LeafLimits(s: seq<Slot>, depth: nat, c: Component)
    requires s == Slots(c) && depth >= 1
    ensures (forall i :: 0 <= i < 9 && s[i].value.Some? ==> Limits(s[i].value.value, depth))
      <==> (HasField(c) ==> depth <= MAX_DEPTH) && (s[8].value.Some? ==> Limits(s[8].value.value, depth))
  {
    hide NewList, Slots;
    SlotValues(c);
  }

  lemma {:induction false} ChildrenLimits(extra: seq<Component>, depth: nat)
    requires |extra| > 0
    ensures ItemsLimits(Children(extra), depth)
      <==> depth + MaxDepth(extra) <= MAX_DEPTH && AllChildCounts(extra, MAX_ARRAY_LEN)
    decreases extra, 0
  {
    hide Limits, ToNbt, Depth, ChildCounts;
    ComponentLimits(extra[0], depth);
    assert Children(extra)[0] == ToNbt(extra[0]) && Children(extra)[1..] == Children(extra[1..]);
    if |extra| > 1 {
      ChildrenLimits(extra[1..], depth);
    } else {
      assert extra[1..] == [];
      NoChildren(MAX_ARRAY_LEN);
    }
  }

  lemma {:induction false} ModLenBound(s: string)
    ensures ModLen(s) <= 6 * |s|
  {
    if |s| == 0 {
    } else {
      ModLenBound(s[1..]);
    }
  }

  lemma {:induction false} PresentFits(slots: seq<Slot>)
    requires forall i :: 0 <= i < |slots| ==> |slots[i].key| <= 13
    ensures EntriesFit(Present(slots))
      <==> forall i :: 0 <= i < |slots| && slots[i].value.Some? ==> StringsFit(slots[i].value.value)
    decreases |slots|
  {
    hide StringsFit, ModLen;
    if |slots| == 0 {
    } else {
      ModLenBound(slots[0].key);
      PresentFits(slots[1..]);
      assert forall i :: 0 <= i < |slots| - 1 ==> slots[1..][i] == slots[i + 1];
      if slots[0].value.Some? {
        assert Present(slots)[1..] == Present(slots[1..]) && Present(slots)[0].value == slots[0].value.value;
        assert Present(slots)[0].name == slots[0].key;
      }
      assert forall i :: 0 < i < |slots| ==> slots[i] == slots[1..][i - 1];
    }
  }

  lemma {:induction false} ComponentFits(c: Component)
    ensures StringsFit(ToNbt(c)) <==> TextsFit(c)
    decreases c, 1
  {
    hide Present, EntriesFit, ToNbt, Children, ItemsFit, StringFits;
    EntriesArePresent(c);
    KeyLengths(c);
    PresentFits(Slots(c));
    LeafFits(Slots(c), c);
    if |c.extra| == 0 {
    } else {
      ExtraIsHomogeneous(c.extra);
    }
    ChildrenFit(c.extra);
  }

  lemma KeyLengths(c: Component)
    ensures forall i :: 0 <= i < 9 ==> |Slots(c)[i].key| <= 13
  {
    hide Slots, Keys, Heads;
    SlotKeys(c);
    KeysHaveHeads();
  }

  lemma LeafFits(s: seq<Slot>, c: Component)
    requires s == Slots(c)
    ensures (forall i :: 0 <= i < 9 && s[i].value.Some? ==> StringsFit(s[i].value.value))
      <==> OptionFits(c.text) && OptionFits(c.translate) && OptionFits(c.color)
           && (s[8].value.Some? ==> StringsFit(s[8].value.value))
  {
    hide NewList, StringFits, Slots;
    SlotValues(c);
  }

  lemma {:induction false} ChildrenFit(extra: seq<Component>)
    ensures ItemsFit(Children(extra)) <==> AllTextsFit(extra)
    decreases extra, 0
  {
    hide StringsFit, ToNbt, TextsFit;
    if |extra| == 0 {
    } else {
      ComponentFits(extra[0]);
      ChildrenFit(extra[1..]);
      assert Children(extra)[0] == ToNbt(extra[0]) && Children(extra)[1..] == Children(extra[1..]);
    }
  }

  // ------------------------------------------------------------------ the NBT form is a lawful tree

  lemma {:induction false} PresentWf(slots: seq<Slot>)
    requires DistinctKeys(slots)
    requires forall i :: 0 <= i < |slots| && slots[i].value.Some? ==> Wf(slots[i].value.value)
    ensures WfEntries(Present(slots)) && UniqueNames(Present(slots))
    decreases |slots|
  {
    hide Wf;
    if |slots| == 0 {
    } else {
      assert forall i :: 0 <= i < |slots| - 1 ==> slots[1..][i] == slots[i + 1];
      PresentWf(slots[1..]);
      var tail := Present(slots[1..]);
      forall i | 0 <= i < |tail| ensures tail[i].name != slots[0].key {
        assert HasName(tail, tail[i].name);
        PresentNames(slots[1..], tail[i].name);
        var k :| 0 <= k < |slots| - 1 && slots[1..][k].key == tail[i].name;
        assert slots[k + 1].key != slots[0].key;
      }
    }
  }

  lemma {:induction false} ComponentWf(c: Component)
    requires ChildCounts(c, 0xFFFF_FFFF)
    ensures Wf(ToNbt(c))
    decreases c, 1
  {
    hide Present, WfEntries, UniqueNames, ToNbt, Children, WfItems;
    var s := Slots(c);
    EntriesArePresent(c);
    KeysAreDistinct(c);
    if |c.extra| == 0 {
    } else {
      ExtraIsHomogeneous(c.extra);
      ChildrenWf(c.extra);
      Pow2Of32();
    }
    SlotsWf(s, c);
    PresentWf(s);
  }

  lemma SlotsWf(s: seq<Slot>, c: Component)
    requires s == Slots(c) && (s[8].value.Some? ==> Wf(s[8].value.value))
    ensures forall i :: 0 <= i < 9 && s[i].value.Some? ==> Wf(s[i].value.value)
  {
    hide NewList, Slots;
    SlotValues(c);
    BoolsAreBytes();
  }

  lemma BoolsAreBytes()
    ensures Wf(ByteTag(0)) && Wf(ByteTag(1))
  {
    assert Pow2(7) >= 2;
  }

  lemma {:induction false} ChildrenWf(extra: seq<Component>)
    requires AllChildCounts(extra, 0xFFFF_FFFF)
    ensures WfItems(Children(extra), 10)
    decreases extra, 0
  {
    hide Wf, ToNbt, ChildCounts;
    if |extra| == 0 {
    } else {
      ComponentWf(extra[0]);
      ChildrenWf(extra[1..]);
    }
  }

  /** A component survives the binary round trip exactly when its deepest tag is at most 512 down,
      it has no list over the length limit, and its strings fit. */
  lemma ComponentRoundTrip(c: Component, rest: seq<byte>)
    requires ChildCounts(c, 0xFFFF_FFFF)
    ensures Wf(ToNbt(c))
    ensures ReadNetwork(WriteNetwork(ToNbt(c)) + rest) == Success((ToNbt(c), rest))
      <==> Depth(c) <= MAX_DEPTH && ChildCounts(c, MAX_ARRAY_LEN) && TextsFit(c)
  {
    hide Limits, StringsFit, Wf, ToNbt, WriteNetwork, ReadNetwork;
    ComponentWf(c);
    ComponentLimits(c, 0);
    ComponentFits(c);
    NetworkRoundTrip(ToNbt(c), rest);
  }

  /** Nesting of at most 255 levels is always shallow enough, and more than 256 never is; at 256
      it depends on the deepest components being empty. */
  lemma LevelsThatSurvive(c: Component)
    ensures Levels(c) <= 255 ==> Depth(c) <= MAX_DEPTH
    ensures Levels(c) >= 257 ==> Depth(c) > MAX_DEPTH
  {
    DepthOfLevels(c);
  }

  // ------------------------------------------------------------------ the writer

  /** Fills a compound field by field, then the children in order. */
  method BuildNbt(c: Component) returns (t: NbtTag)
    ensures t == ToNbt(c)
    decreases c, 2
  {
    hide Insert, NewList, TypeId;
    var entries: seq<Entry> := [];
    if c.text.Some? { entries := Insert(entries, "text", StringTag(c.text.value)); }
    if c.translate.Some? { entries := Insert(entries, "translate", StringTag(c.translate.value)); }
    if c.color.Some? { entries := Insert(entries, "color", StringTag(c.color.value)); }
    assert InsertPresent(entries, Slots(c)[3..]) == InsertPresent([], Slots(c)) by { FirstSlots(c, entries); }
    var flags := [ ("bold", c.bold), ("italic", c.italic), ("underlined", c.underlined),
                   ("strikethrough", c.strikethrough), ("obfuscated", c.obfuscated) ];
    for i := 0 to 5
      invariant InsertPresent(entries, Slots(c)[3 + i..]) == InsertPresent([], Slots(c))
    {
      FlagSlot(c, flags, i);
      assert Slots(c)[3 + i..][1..] == Slots(c)[3 + i + 1..];
      match flags[i].1 {
        case Some(value) => entries := Insert(entries, flags[i].0, ByteTag(if value then 1 else 0));
        case None =>
      }
    }
    if |c.extra| > 0 {
      var children := BuildChildren(c.extra);
      ExtraIsHomogeneous(c.extra);
      match NewList(children) {
        case Some(list) => entries := Insert(entries, "extra", list);
        case None =>
      }
    }
    t := CompoundTag(entries);
  }

  /** What the writer has after the three strings. */
  lemma FirstSlots(c: Component, entries: seq<Entry>)
    requires var a := if c.text.Some? then Insert([], "text", StringTag(c.text.value)) else [];
      var b := if c.translate.Some? then Insert(a, "translate", StringTag(c.translate.value)) else a;
      entries == if c.color.Some? then Insert(b, "color", StringTag(c.color.value)) else b
    ensures InsertPresent(entries, Slots(c)[3..]) == InsertPresent([], Slots(c))
  {
    hide Insert, NewList, Children, BoolValue;
    var s := Slots(c);
    assert s[0] == Slot("text", StringValue(c.text)) && s[1] == Slot("translate", StringValue(c.translate));
    assert s[2] == Slot("color", StringValue(c.color));
    assert s[1..][1..] == s[2..] && s[2..][1..] == s[3..];
    assert s[1..][0] == s[1] && s[2..][0] == s[2];
    var a := if c.text.Some? then Insert([], "text", StringTag(c.text.value)) else [];
    var b := if c.translate.Some? then Insert(a, "translate", StringTag(c.translate.value)) else a;
    assert InsertPresent([], s) == InsertPresent(a, s[1..]);
    assert InsertPresent(a, s[1..]) == InsertPresent(b, s[2..]);
    assert InsertPresent(b, s[2..]) == InsertPresent(entries, s[3..]);
  }

  lemma FlagSlot(c: Component, flags: seq<(string, Option<bool>)>, i: nat)
    requires i < 5
    requires flags == [ ("bold", c.bold), ("italic", c.italic), ("underlined", c.underlined),
                        ("strikethrough", c.strikethrough), ("obfuscated", c.obfuscated) ]
    ensures Slots(c)[3 + i..][0] == Slot(flags[i].0, BoolValue(flags[i].1))
  {
    hide NewList, Children, StringValue;
  }

  method BuildChildren(extra: seq<Component>) returns (tags: seq<NbtTag>)
    ensures tags == Children(extra)
    decreases extra, 0
  {
    hide ToNbt, InsertPresent;
    tags := [];
    for i := 0 to |extra|
      invariant tags + Children(extra[i..]) == Children(extra)
    {
      var tag := BuildNbt(extra[i]);
      assert extra[i..][0] == extra[i] && extra[i..][1..] == extra[i + 1..];
      assert tags + ([tag] + Children(extra[i + 1..])) == tags + [tag] + Children(extra[i + 1..]);
      tags := tags + [tag];
    }
  }
}

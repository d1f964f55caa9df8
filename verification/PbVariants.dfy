/** Other ways to write the same message (pb_decode.c): a packed array or an item at a time, a field
    given twice, a zero tag at the end; and arrays that do not come out at their size. */
module PbVariants {
  import opened InternalKeys
  import opened Coding
  import opened PbMessages
  import opened PbEncode
  import opened PbDecode
  import opened PbRoundTrip
  import opened PbMalformed

  // ---- arrays ----

  predicate ItemsOk(f: Field, items: seq<Item>, k: nat) {
    && IsArray(f.rule) && k <= |items| && (forall x :: x in items ==> ItemTyped(f.dtype, x))
    && ItemsBytes(f.dtype, items, k, TagBytes(f.tag, WireType(f.dtype))).Some?
    && |ItemsBytes(f.dtype, items, k, TagBytes(f.tag, WireType(f.dtype))).value| < WORD
  }

  /** The items from the k-th on, each with a tag, and the bytes of a packed array of them. */
  function Tagged(f: Field, items: seq<Item>, k: nat): Bytes
    requires ItemsOk(f, items, k)
  {
    ItemsBytes(f.dtype, items, k, TagBytes(f.tag, WireType(f.dtype))).value
  }

  function Packed(f: Field, items: seq<Item>, k: nat): Bytes
    requires ItemsOk(f, items, k)
  {
    PackedSize(f, items, k);
    ItemsBytes(f.dtype, items, k, []).value
  }

  lemma {:induction false} PackedSize(f: Field, items: seq<Item>, k: nat)
    requires ItemsOk(f, items, k)
    ensures var r := ItemsBytes(f.dtype, items, k, []); r.Some? && |r.value| <= |Tagged(f, items, k)|
    decreases |items| - k
  {
    hide ItemBytes, ItemTyped, TagBytes, ItemsBytes, WireType;
    ItemsStep(f.dtype, items, k, TagBytes(f.tag, WireType(f.dtype)));
    ItemsStep(f.dtype, items, k, []);
    if k < |items| { PackedSize(f, items, k + 1); }
  }

  lemma ItemsParts(f: Field, items: seq<Item>, k: nat)
    requires ItemsOk(f, items, k) && k < |items|
    ensures ItemsOk(f, items, k + 1)
    ensures ItemTyped(f.dtype, items[k]) && ItemBytes(f.dtype, items[k]).Some?
    ensures var first := ItemBytes(f.dtype, items[k]).value;
      && 0 < |first| < WORD
      && Tagged(f, items, k) == TagBytes(f.tag, WireType(f.dtype)) + first + Tagged(f, items, k + 1)
      && Packed(f, items, k) == first + Packed(f, items, k + 1)
  {
    hide ItemBytes, ItemTyped, TagBytes, ItemsBytes, WireType;
    ItemsStep(f.dtype, items, k, TagBytes(f.tag, WireType(f.dtype)));
    ItemsStep(f.dtype, items, k, []);
    ItemBytesNotEmpty(f.dtype, items[k]);
    assert items[k] in items;
    PackedSize(f, items, k + 1);
    var first, rest := ItemBytes(f.dtype, items[k]).value, ItemsBytes(f.dtype, items, k + 1, []).value;
    assert [] + first + rest == first + rest;
  }

  lemma NoItems(f: Field, items: seq<Item>)
    requires ItemsOk(f, items, |items|)
    ensures Tagged(f, items, |items|) == [] && Packed(f, items, |items|) == []
  {
    hide ItemBytes, ItemTyped, TagBytes, WireType;
  }

  /** What reading the rest of a packed array does with the next item. */
  lemma PackedStep(f: Field, held: seq<Item>, count: nat, items: seq<Item>, k: nat)
    requires FieldOk(f) && ItemsOk(f, items, k) && k < |items| && ArrayState(f, held, count)
    ensures ItemTyped(f.dtype, items[k])
    ensures ItemsOk(f, items, k + 1)
    ensures var next := CanonItem(f.dtype, items[k]);
      if count >= f.rule.room || !ItemTerminated(f.dtype, items[k]) then
        PackedFrom(f, held, count, Packed(f, items, k)) == None
      else
        && ArrayState(f, StoreItem(f, held, count, next), count + 1)
        && PackedFrom(f, held, count, Packed(f, items, k)) ==
           PackedFrom(f, StoreItem(f, held, count, next), count + 1, Packed(f, items, k + 1))
  {
    hide ItemBytes, ItemFrom, ItemTyped, DefaultItem, ItemTerminated, CanonItem, ItemsBytes, StoreItem, Tagged, Packed,
      ItemsOk;
    ItemsParts(f, items, k);
    FieldItem(f, items[k], Packed(f, items, k + 1));
    CanonItemTyped(f.dtype, items[k]);
    ArrayRoom(f, held, count);
    if count < f.rule.room { StoreKeeps(f, held, count, CanonItem(f.dtype, items[k])); }
  }

  lemma ArrayRoom(f: Field, held: seq<Item>, count: nat)
    requires ArrayState(f, held, count)
    ensures IsArray(f.rule) && count <= |held|
  {
  }

  /** More items than the array has room for are refused. */
  lemma {:induction false} PackedOverflow(f: Field, held: seq<Item>, count: nat, items: seq<Item>, k: nat)
    requires FieldOk(f) && ItemsOk(f, items, k) && k < |items| && ArrayState(f, held, count)
    requires count + |items| - k > f.rule.room
    ensures PackedFrom(f, held, count, Packed(f, items, k)) == None
    decreases |items| - k
  {
    hide ItemTyped, DefaultItem, ItemTerminated, CanonItem, StoreItem, Packed, ItemsOk, ArrayState, PackedFrom;
    PackedStep(f, held, count, items, k);
    ArrayRoom(f, held, count);
    if count < f.rule.room && ItemTerminated(f.dtype, items[k]) {
      PackedOverflow(f, StoreItem(f, held, count, CanonItem(f.dtype, items[k])), count + 1, items, k + 1);
    }
  }

  /** The slot and the count that reading the rest of an array ends with. */
  function ArrayEnd(fields: seq<Field>, cur: seq<Slot>, i: nat, fill: Option<Filling>, items: seq<Item>,
                    k: nat): Option<(seq<Item>, nat)>
    requires MessageTyped(fields, cur) && i < |fields| && FillingOk(fields, fill) && ItemsOk(fields[i], items, k)
  {
    CountFits(fields, cur, i, fill);
    PackedFrom(fields[i], cur[i].items, CountFor(fields, cur, i, fill), Packed(fields[i], items, k))
  }

  /** The state of the decoder once so much of an array has been read. */
  lemma Stored(fields: seq<Field>, cur: seq<Slot>, i: nat, fill: Option<Filling>, held: seq<Item>, count: nat)
    requires MessageTyped(fields, cur) && FillingOk(fields, fill) && i < |fields| && IsArray(fields[i].rule)
    requires ArrayState(fields[i], held, count) && count <= fields[i].rule.room
    ensures var cur', fill' := SetSlot(fields, cur, i, Items(held)), FillAfter(fields, i, count, fill);
      && SlotTyped(fields[i], Items(held)) && MessageTyped(fields, cur') && FillingOk(fields, fill')
      && (count > 0 || fill.None? || fields[i].rule.Repeated? ==> CountFor(fields, cur', i, fill') == count)
      && SwitchOk(fields, i, fill') && (forall seen :: SeenAfter(fields, i, seen) == seen)
      && (forall s :: SetSlot(fields, cur', i, s) == SetSlot(fields, cur, i, s))
      && (forall c :: FillAfter(fields, i, c, fill') == FillAfter(fields, i, c, fill))
  {
    hide ItemTyped, OneActive;
    SetSlotTyped(fields, cur, i, Items(held));
    forall s ensures SetSlot(fields, SetSlot(fields, cur, i, Items(held)), i, s) == SetSlot(fields, cur, i, s) { }
  }

  /** One round of the decoding loop on an item with its tag. */
  lemma TaggedStep(fields: seq<Field>, cur: seq<Slot>, seen: set<nat>, fill: Option<Filling>, i: nat, items: seq<Item>,
                   k: nat, more: Bytes)
    requires DescriptorOk(fields) && MessageTyped(fields, cur) && FillingOk(fields, fill) && i < |fields|
    requires ItemsOk(fields[i], items, k) && k < |items| && SwitchOk(fields, i, fill)
    ensures SlotTyped(fields[i], cur[i]) && ItemTyped(fields[i].dtype, items[k])
    ensures ItemsOk(fields[i], items, k + 1)
    ensures var f, count := fields[i], CountFor(fields, cur, i, fill);
      ArrayState(f, cur[i].items, count) &&
      if count >= f.rule.room || !ItemTerminated(f.dtype, items[k]) then
        MessageFrom(fields, cur, seen, fill, Tagged(f, items, k) + more) == None
      else
        var next := StoreItem(f, cur[i].items, count, CanonItem(f.dtype, items[k]));
        var cur', fill' := SetSlot(fields, cur, i, Items(next)), FillAfter(fields, i, count + 1, fill);
        && ArrayState(f, next, count + 1) && MessageTyped(fields, cur') && FillingOk(fields, fill')
        && MessageFrom(fields, cur, seen, fill, Tagged(f, items, k) + more) ==
           MessageFrom(fields, cur', seen, fill', Tagged(f, items, k + 1) + more)
  {
    hide ItemBytes, ItemFrom, ItemTyped, DefaultItem, ItemTerminated, CanonItem, StoreItem, Tagged, Packed, ItemsOk,
      MessageFrom, TagBytes, DescriptorOk, OneActive, SetSlot, SwitchOk, CountFor, FillAfter, FillingOk, Packable,
      WireType;
    var f := fields[i];
    ItemsParts(f, items, k);
    var rest := Tagged(f, items, k + 1) + more;
    var tag, first := TagBytes(f.tag, WireType(f.dtype)), ItemBytes(f.dtype, items[k]).value;
    assert Tagged(f, items, k) + more == tag + (first + rest);
    ItemsArray(f, items, k);
    WireSmall(f.dtype);
    OneField(fields, cur, seen, fill, i, WireType(f.dtype), first + rest);
    DescriptorField(fields, i);
    FieldItem(f, items[k], rest);
    CanonItemTyped(f.dtype, items[k]);
    if Packable(f.dtype) { NumbersUnprefixed(f.dtype); }
    var count := CountFor(fields, cur, i, fill);
    ArrayRoom(f, cur[i].items, count);
    if count < f.rule.room {
      var next := StoreItem(f, cur[i].items, count, CanonItem(f.dtype, items[k]));
      StoreKeeps(f, cur[i].items, count, CanonItem(f.dtype, items[k]));
      Stored(fields, cur, i, fill, next, count + 1);
    }
  }

  lemma ItemsArray(f: Field, items: seq<Item>, k: nat)
    requires ItemsOk(f, items, k)
    ensures IsArray(f.rule)
  {
  }

  lemma ItemsSlot(f: Field, s: Slot)
    requires IsArray(f.rule) && SlotTyped(f, s)
    ensures s.Items?
  {
    hide ItemTyped;
  }

  /** Items written one at a time are read as a packed array of them would be: both ways end in
      the same state, or both fail. */
  lemma {:induction false} TaggedAsPacked(fields: seq<Field>, cur: seq<Slot>, seen: set<nat>, fill: Option<Filling>,
                                          i: nat, items: seq<Item>, k: nat, more: Bytes)
    requires DescriptorOk(fields) && MessageTyped(fields, cur) && FillingOk(fields, fill) && i < |fields|
    requires ItemsOk(fields[i], items, k) && k < |items| && SwitchOk(fields, i, fill)
    ensures var r := ArrayEnd(fields, cur, i, fill, items, k);
      && (r.Some? ==>
            && MessageTyped(fields, SetSlot(fields, cur, i, Items(r.value.0)))
            && FillingOk(fields, FillAfter(fields, i, r.value.1, fill)))
      && MessageFrom(fields, cur, seen, fill, Tagged(fields[i], items, k) + more) ==
         if r.None? then None
         else MessageFrom(fields, SetSlot(fields, cur, i, Items(r.value.0)), seen,
                          FillAfter(fields, i, r.value.1, fill), more)
    decreases |items| - k
  {
    hide ItemTyped, DefaultItem, ItemTerminated, CanonItem, StoreItem, Tagged, Packed, ItemsOk, MessageFrom, PackedFrom,
      DescriptorOk, OneActive, SetSlot, SwitchOk, CountFor, FillAfter, FillingOk, ArrayState;
    var f, count := fields[i], CountFor(fields, cur, i, fill);
    TaggedStep(fields, cur, seen, fill, i, items, k, more);
    DescriptorField(fields, i);
    ItemsArray(f, items, k);
    ItemsSlot(f, cur[i]);
    PackedStep(f, cur[i].items, count, items, k);
    ArrayRoom(f, cur[i].items, count);
    if count < f.rule.room && ItemTerminated(f.dtype, items[k]) {
      var next := StoreItem(f, cur[i].items, count, CanonItem(f.dtype, items[k]));
      Stored(fields, cur, i, fill, next, count + 1);
      var cur', fill' := SetSlot(fields, cur, i, Items(next)), FillAfter(fields, i, count + 1, fill);
      if k + 1 < |items| {
        TaggedAsPacked(fields, cur', seen, fill', i, items, k + 1, more);
      } else {
        NoItems(f, items);
        PackedEnd(f, next, count + 1);
        assert [] + more == more;
      }
    }
  }

  lemma PackedEnd(f: Field, held: seq<Item>, count: nat)
    requires ArrayState(f, held, count)
    ensures PackedFrom(f, held, count, []) == Some((held, count))
  {
    hide ItemTyped, ItemFrom, DefaultItem;
  }

  /** The decoder reads a packed array and one written an item at a time alike, whatever follows. */
  lemma PackedOrTagged(fields: seq<Field>, cur: seq<Slot>, seen: set<nat>, fill: Option<Filling>, i: nat,
                       items: seq<Item>, more: Bytes)
    requires DescriptorOk(fields) && MessageTyped(fields, cur) && FillingOk(fields, fill) && i < |fields|
    requires ItemsOk(fields[i], items, 0) && items != [] && Packable(fields[i].dtype) && SwitchOk(fields, i, fill)
    ensures var f := fields[i];
      MessageFrom(fields, cur, seen, fill, TagBytes(f.tag, STRING_TYPE) + Prefixed(Packed(f, items, 0)) + more) ==
      MessageFrom(fields, cur, seen, fill, Tagged(f, items, 0) + more)
  {
    hide ItemTyped, Tagged, Packed, ItemsOk, MessageFrom, PackedFrom, TagBytes, Prefixed, PrefixedFrom, DescriptorOk,
      OneActive, SetSlot, SwitchOk, CountFor, FillAfter, FillingOk, ArrayState, Packable;
    var f, data := fields[i], Packed(fields[i], items, 0);
    TaggedAsPacked(fields, cur, seen, fill, i, items, 0, more);
    PackedSize(f, items, 0);
    PackedFits(f, items);
    ItemsArray(f, items, 0);
    assert TagBytes(f.tag, STRING_TYPE) + Prefixed(data) + more == TagBytes(f.tag, STRING_TYPE) +
      (Prefixed(data) + more);
    OneField(fields, cur, seen, fill, i, STRING_TYPE, Prefixed(data) + more);
    PrefixedSplit(data, more);
    NotRequired(fields, i, seen);
  }

  lemma PackedFits(f: Field, items: seq<Item>)
    requires ItemsOk(f, items, 0)
    ensures |Packed(f, items, 0)| < WORD
  {
    hide ItemTyped, ItemsBytes;
    PackedSize(f, items, 0);
  }

  lemma NotRequired(fields: seq<Field>, i: nat, seen: set<nat>)
    requires i < |fields|
    ensures !fields[i].rule.Required? ==> SeenAfter(fields, i, seen) == seen
  {
  }

  /** More items than there is room for, counting those read before, make decoding fail. */
  lemma OverflowRefused(fields: seq<Field>, cur: seq<Slot>, seen: set<nat>, fill: Option<Filling>, i: nat,
                        items: seq<Item>, more: Bytes)
    requires DescriptorOk(fields) && MessageTyped(fields, cur) && FillingOk(fields, fill) && i < |fields|
    requires ItemsOk(fields[i], items, 0) && items != [] && SwitchOk(fields, i, fill)
    requires CountFor(fields, cur, i, fill) + |items| > fields[i].rule.room
    ensures MessageFrom(fields, cur, seen, fill, Tagged(fields[i], items, 0) + more) == None
    ensures Packable(fields[i].dtype) ==>
      MessageFrom(fields, cur, seen, fill,
                  TagBytes(fields[i].tag, STRING_TYPE) + Prefixed(Packed(fields[i], items, 0)) + more) == None
  {
    hide ItemTyped, Tagged, Packed, ItemsOk, MessageFrom, PackedFrom, TagBytes, Prefixed, DescriptorOk, OneActive,
      SetSlot, SwitchOk, CountFor, FillingOk, ArrayState, Packable;
    CountFits(fields, cur, i, fill);
    ItemsArray(fields[i], items, 0);
    DescriptorField(fields, i);
    TaggedAsPacked(fields, cur, seen, fill, i, items, 0, more);
    PackedOverflow(fields[i], cur[i].items, CountFor(fields, cur, i, fill), items, 0);
    if Packable(fields[i].dtype) { PackedOrTagged(fields, cur, seen, fill, i, items, more); }
  }

  /** An array without a count that has been started must be complete when the message ends ... */
  lemma IncompleteRefused(fields: seq<Field>, cur: seq<Slot>, seen: set<nat>, fill: Option<Filling>)
    requires MessageTyped(fields, cur) && FillingOk(fields, fill)
    requires fill.Some? && fill.value.count < fields[fill.value.field].rule.room
    ensures MessageFrom(fields, cur, seen, fill, []) == None
  {
    hide SlotTyped, OneActive;
  }

  /** ... and when another such array starts. */
  lemma InterleavedRefused(fields: seq<Field>, cur: seq<Slot>, seen: set<nat>, fill: Option<Filling>, i: nat,
                           wireType: nat, more: Bytes)
    requires DescriptorOk(fields) && MessageTyped(fields, cur) && FillingOk(fields, fill) && i < |fields|
    requires wireType < 8
    requires fields[i].rule.FixedArray? && fill.Some? && fill.value.field != i
    requires fill.value.count < fields[fill.value.field].rule.room
    ensures MessageFrom(fields, cur, seen, fill, TagBytes(fields[i].tag, wireType) + more) == None
  {
    hide SlotFrom, SlotTyped, Varint32, TagBytes, FindTag, OneActive, DescriptorOk, AllSeen;
    TagFound(fields, i);
    TagIs(fields[i].tag, wireType, more);
  }

  // ---- a field given twice ----

  predicate ValueOk(f: Field, x: Item) {
    && !IsArray(f.rule) && !f.dtype.MessageType? && ItemTyped(f.dtype, x) && ItemBytes(f.dtype, x).Some?
    && |ItemBytes(f.dtype, x).value| < WORD && ItemTerminated(f.dtype, x)
  }

  function ValueBytes(f: Field, x: Item): Bytes
    requires ValueOk(f, x)
  {
    TagBytes(f.tag, WireType(f.dtype)) + ItemBytes(f.dtype, x).value
  }

  /** A value that is no message takes the place of whatever the field held. */
  lemma ValueReplaces(fields: seq<Field>, cur: seq<Slot>, seen: set<nat>, fill: Option<Filling>, i: nat, x: Item,
                      more: Bytes)
    requires DescriptorOk(fields) && MessageTyped(fields, cur) && FillingOk(fields, fill) && i < |fields|
    requires ValueOk(fields[i], x)
    ensures MessageTyped(fields, SetSlot(fields, cur, i, Hold(fields[i], x)))
    ensures MessageFrom(fields, cur, seen, fill, ValueBytes(fields[i], x) + more) ==
            MessageFrom(fields, SetSlot(fields, cur, i, Hold(fields[i], x)), SeenAfter(fields, i, seen), fill, more)
  {
    hide ItemBytes, ItemTyped, DefaultItem, MessageFrom, TagBytes, DescriptorOk, OneActive, SetSlot, SeenAfter,
      CountFor, FillingOk, WireType, NumberFrom, BlobFrom, ItemTerminated;
    var f := fields[i];
    var tag, bytes := TagBytes(f.tag, WireType(f.dtype)), ItemBytes(f.dtype, x).value;
    assert tag + bytes + more == tag + (bytes + more);
    WireSmall(f.dtype);
    OneField(fields, cur, seen, fill, i, WireType(f.dtype), bytes + more);
    DescriptorField(fields, i);
    FieldItem(f, x, more);
  }

  /** Of two values for the same field the last one counts. */
  lemma LastWins(fields: seq<Field>, cur: seq<Slot>, seen: set<nat>, fill: Option<Filling>, i: nat, x: Item, y: Item,
                 more: Bytes)
    requires DescriptorOk(fields) && MessageTyped(fields, cur) && FillingOk(fields, fill) && i < |fields|
    requires ValueOk(fields[i], x) && ValueOk(fields[i], y)
    ensures MessageFrom(fields, cur, seen, fill, ValueBytes(fields[i], x) + (ValueBytes(fields[i], y) + more)) ==
            MessageFrom(fields, cur, seen, fill, ValueBytes(fields[i], y) + more)
  {
    hide ItemTyped, MessageFrom, DescriptorOk, OneActive, ValueOk, ValueBytes, FillingOk;
    var first := SetSlot(fields, cur, i, HeldValue(fields[i], x));
    ValueReplaces(fields, cur, seen, fill, i, x, ValueBytes(fields[i], y) + more);
    ValueReplaces(fields, first, SeenAfter(fields, i, seen), fill, i, y, more);
    ValueReplaces(fields, cur, seen, fill, i, y, more);
    var last := HeldValue(fields[i], y);
    assert SetSlot(fields, first, i, last) == SetSlot(fields, cur, i, last);
    assert SeenAfter(fields, i, SeenAfter(fields, i, seen)) == SeenAfter(fields, i, seen);
  }

  function HeldValue(f: Field, x: Item): Slot
    requires ValueOk(f, x)
  {
    Hold(f, x)
  }

  // ---- the end ----

  /** A zero tag ends a message like the end of its bytes, whatever follows. */
  lemma ZeroTagEnds(fields: seq<Field>, cur: seq<Slot>, seen: set<nat>, fill: Option<Filling>, more: Bytes)
    requires MessageTyped(fields, cur) && FillingOk(fields, fill)
    ensures MessageFrom(fields, cur, seen, fill, [0] + more) == MessageFrom(fields, cur, seen, fill, [])
  {
    hide SlotFrom, SlotTyped, OneActive, AllSeen, FillingOk, Filled;
    assert Varint32([0] + more) == Some((0, more)) by { assert ([0] + more)[1..] == more; }
  }
}

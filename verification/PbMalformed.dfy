/** What the decoder refuses (pb_decode.c): input that ends inside a field, and arrays and byte
    strings with more in them than the struct has room for. */
module PbMalformed {
  import opened InternalKeys
  import opened Coding
  import opened PbMessages
  import opened PbEncode
  import opened PbDecode
  import opened PbRoundTrip
  import opened PbUnknownFields

  // ---- a value cut off ----

  lemma {:induction false} UnendedTail(s: Bytes, bitpos: nat, result: nat)
    requires Unended(s, 0) && result < WORD
    ensures Varint32Tail(s, bitpos, result) == None
    decreases |s|
  {
    hide Varint32Tail;
    TailStep(s, bitpos, result);
    if s != [] {
      UnendedTail(s[1..], bitpos + 7, if bitpos >= 32 then result else WithBits(result, s[0], bitpos));
    }
  }

  lemma Varint32Cut(n: nat, cut: nat)
    requires cut < |EncodeVarint(n)|
    ensures Varint32(EncodeVarint(n)[..cut]) == None
  {
    hide EncodeVarint, Varint32Tail;
    var s := EncodeVarint(n)[..cut];
    VarintUnended(s, 0, n, cut);
    if s != [] { UnendedTail(s[1..], 7, s[0] % 128); }
  }

  lemma Varint64Cut(n: nat, cut: nat)
    requires cut < |EncodeVarint(n)|
    ensures Varint64(EncodeVarint(n)[..cut]) == None
  {
    hide EncodeVarint;
    var s := EncodeVarint(n)[..cut];
    VarintUnended(s, 0, n, cut);
    UnendedVarint(s, 0, 10);
  }

  lemma PrefixedCut(bytes: Bytes, cut: nat)
    requires |bytes| < WORD && cut < |Prefixed(bytes)|
    ensures PrefixedFrom(Prefixed(bytes)[..cut]) == None
  {
    hide EncodeVarint, Varint32;
    var e := EncodeVarint(|bytes|);
    if cut < |e| {
      assert (e + bytes)[..cut] == e[..cut];
      Varint32Cut(|bytes|, cut);
    } else {
      assert (e + bytes)[..cut] == e + bytes[..cut - |e|];
      Varint32RoundTrip(|bytes|, bytes[..cut - |e|]);
    }
  }

  lemma NumberCut(t: DataType, x: Item, cut: nat)
    requires DataTypeOk(t) && Packable(t) && ItemTyped(t, x)
    requires ItemBytes(t, x).Some? && cut < |ItemBytes(t, x).value|
    ensures NumberFrom(t, ItemBytes(t, x).value[..cut]) == None
  {
    hide EncodeVarint, Varint32, Varint64, EncodeFixed32, EncodeFixed64, Unsigned, ZigZag;
    match t
    case BoolType => Varint32Cut(if x.b then 1 else 0, cut);
    case VarintType(size) => Varint64Cut(Unsigned(x.n), cut);
    case UvarintType(size) => Varint64Cut(x.u, cut);
    case SvarintType(size) => Varint64Cut(ZigZag(x.n), cut);
    case Fixed32 =>
    case Fixed64 =>
  }

  /** No value can be read from a part of its encoding. */
  lemma ItemCut(t: DataType, x: Item, cur: Item, cut: nat)
    requires DataTypeOk(t) && ItemTyped(t, x) && ItemTyped(t, cur)
    requires ItemBytes(t, x).Some? && cut < |ItemBytes(t, x).value| < WORD
    ensures ItemFrom(t, cur, ItemBytes(t, x).value[..cut]) == None
  {
    hide Prefixed, PrefixedFrom, NumberFrom, MessageBytes, MessageFrom, MessageTyped;
    if t.MessageType? {
      var m := MessageBytes(t.fields, x.slots, 0).value;
      PrefixedLonger(m);
      PrefixedCut(m, cut);
    } else if Packable(t) {
      NumberCut(t, x, cut);
    } else {
      PrefixedLonger(x.bytes);
      PrefixedCut(x.bytes, cut);
    }
  }

  // ---- a byte string too long ----

  /** A field takes the byte strings that leave room for what is stored beside them; a text ends at
      its first zero, and a field of fixed size takes those of its size or none. */
  predicate BlobRead(t: DataType, bytes: Bytes, r: Option<Item>) {
    match t
    case BytesType(size) => (r.Some? <==> |bytes| + BYTES_OFFSET <= size) && (r.Some? ==> r.value == BytesItem(bytes))
    case StringType(size) =>
      && (r.Some? <==> |bytes| < size)
      && (r.Some? ==> r.value.BytesItem? && UpToZero(bytes, r.value.bytes))
    case FixedBytesType(size) =>
      && (r.Some? <==> |bytes| == size || bytes == [])
      && (r.Some? && bytes != [] ==> r.value == BytesItem(bytes))
      && (r.Some? && bytes == [] ==> r.value == BytesItem(Zeros(size)))
    case _ => true
  }

  predicate UpToZero(bytes: Bytes, text: Bytes) {
    text <= bytes && 0 !in text && (|text| < |bytes| ==> bytes[|text|] == 0)
  }

  lemma BlobExactly(t: DataType, cur: Item, bytes: Bytes, rest: Bytes)
    requires (t.BytesType? || t.StringType? || t.FixedBytesType?) && ItemTyped(t, cur) && |bytes| < WORD
    ensures var r := ItemFrom(t, cur, Prefixed(bytes) + rest);
      BlobRead(t, bytes, if r.Some? then Some(r.value.0) else None) && (r.Some? ==> r.value.1 == rest)
  {
    hide Prefixed, PrefixedFrom, BeforeNul, Zeros;
    PrefixedSplit(bytes, rest);
  }

  // ---- a field cut off ----

  /** What follows the tag of a field on the wire: one value, or a packed array. */
  datatype Payload = OneValue(x: Item) | PackedArray(data: Bytes)

  predicate PayloadOk(f: Field, p: Payload) {
    match p
    case OneValue(x) => ItemTyped(f.dtype, x) && ItemBytes(f.dtype, x).Some? && |ItemBytes(f.dtype, x).value| < WORD
    case PackedArray(data) => IsArray(f.rule) && Packable(f.dtype) && |data| < WORD
  }

  function WireOf(f: Field, p: Payload): (w: nat)
    ensures w < 8
  {
    if p.OneValue? then WireType(f.dtype) else STRING_TYPE
  }

  function PayloadBytes(f: Field, p: Payload): Bytes
    requires PayloadOk(f, p)
  {
    if p.OneValue? then ItemBytes(f.dtype, p.x).value else Prefixed(p.data)
  }

  lemma NumbersUnprefixed(t: DataType)
    requires Packable(t)
    ensures WireType(t) != STRING_TYPE
  {
  }

  lemma PayloadCut(f: Field, slot: Slot, count: nat, p: Payload, cut: nat)
    requires FieldOk(f) && PayloadOk(f, p) && cut < |PayloadBytes(f, p)|
    requires SlotTyped(f, slot) && (IsArray(f.rule) ==> ArrayState(f, slot.items, count))
    ensures SlotFrom(f, slot, count, WireOf(f, p), PayloadBytes(f, p)[..cut]) == None
  {
    hide ItemBytes, ItemFrom, ItemTyped, DefaultItem, Prefixed, PrefixedFrom, PackedFrom, StoreItem, DataTypeOk,
      WireType;
    match p
    case OneValue(x) =>
      if Packable(f.dtype) { NumbersUnprefixed(f.dtype); }
      ItemCut(f.dtype, x, DefaultItem(f.dtype), cut);
      if !IsArray(f.rule) { ItemCut(f.dtype, x, slot.item, cut); }
    case PackedArray(data) => PrefixedCut(data, cut);
  }

  lemma TagCut(tag: nat, wireType: nat, cut: nat)
    requires cut < |TagBytes(tag, wireType)|
    ensures Varint32(TagBytes(tag, wireType)[..cut]) == None
  {
    hide EncodeVarint, Varint32;
    Varint32Cut(tag * 8 + wireType, cut);
  }

  /** Input that ends inside a field of the descriptor, in its tag or behind it, is refused. */
  lemma FieldCut(fields: seq<Field>, cur: seq<Slot>, seen: set<nat>, fill: Option<Filling>, i: nat, p: Payload,
                 cut: nat)
    requires DescriptorOk(fields) && MessageTyped(fields, cur) && FillingOk(fields, fill) && i < |fields|
    requires PayloadOk(fields[i], p)
    requires var field := TagBytes(fields[i].tag, WireOf(fields[i], p)) + PayloadBytes(fields[i], p); 0 < cut < |field|
    ensures var field := TagBytes(fields[i].tag, WireOf(fields[i], p)) + PayloadBytes(fields[i], p);
      MessageFrom(fields, cur, seen, fill, field[..cut]) == None
  {
    hide SlotFrom, SlotTyped, TagBytes, OneActive, PayloadBytes, PayloadOk, WireOf, FillingOk, SwitchOk, DescriptorOk,
      Varint32, FindTag, AllSeen, CountFor, FillAfter, SetSlot, SeenAfter, ArrayState;
    var f := fields[i];
    var tag, payload := TagBytes(f.tag, WireOf(f, p)), PayloadBytes(f, p);
    if cut < |tag| {
      assert (tag + payload)[..cut] == tag[..cut];
      TagCut(f.tag, WireOf(f, p), cut);
    } else {
      var left := payload[..cut - |tag|];
      assert (tag + payload)[..cut] == tag + left;
      TagFound(fields, i);
      TagIs(f.tag, WireOf(f, p), left);
      CountFits(fields, cur, i, fill);
      assert FieldOk(f) by { DescriptorField(fields, i); }
      PayloadCut(f, cur[i], CountFor(fields, cur, i, fill), p, cut - |tag|);
    }
  }

  lemma DescriptorField(fields: seq<Field>, i: nat)
    requires DescriptorOk(fields) && i < |fields|
    ensures FieldOk(fields[i])
  {
  }

  // ---- a message cut off ----

  /** The cut falls inside one of the fields that are written, from the n-th on; each item of an
      array that is not packed is a field of its own. */
  predicate Inside(fields: seq<Field>, slots: seq<Slot>, n: nat, cut: nat)
    requires MessageTyped(fields, slots) && n <= |fields| && MessageBytes(fields, slots, n).Some?
    decreases |fields| - n
  {
    n < |fields| &&
    var f, s := fields[n], slots[n];
    assert SlotTyped(f, s);
    var size := |SlotBytes(f, s).value|;
    if cut >= size then Inside(fields, slots, n + 1, cut - size)
    else if IsArray(f.rule) && !Packable(f.dtype) then InsideItems(f, s.items, 0, cut)
    else cut > 0
  }

  predicate InsideItems(f: Field, items: seq<Item>, k: nat, cut: nat)
    requires k <= |items| && forall x :: x in items ==> ItemTyped(f.dtype, x)
    requires ItemsBytes(f.dtype, items, k, TagBytes(f.tag, WireType(f.dtype))).Some?
    decreases |items| - k
  {
    k < |items| &&
    var size := |TagBytes(f.tag, WireType(f.dtype))| + |ItemBytes(f.dtype, items[k]).value|;
    if cut >= size then InsideItems(f, items, k + 1, cut - size) else cut > 0
  }

  lemma {:induction false} ItemsCut(fields: seq<Field>, slots: seq<Slot>, n: nat, seen: set<nat>, fill: Option<Filling>,
                                    k: nat, cut: nat)
    requires DescriptorOk(fields) && MessageTyped(fields, slots) && n < |fields| && IsArray(fields[n].rule)
    requires SlotTyped(fields[n], slots[n]) && k <= |slots[n].items| <= fields[n].rule.room
    requires !Packable(fields[n].dtype) && FillBefore(fields, n, fill)
    requires var r := ItemsBytes(fields[n].dtype, slots[n].items, k,
                                 TagBytes(fields[n].tag, WireType(fields[n].dtype)));
      r.Some? && cut < |r.value| < WORD && InsideItems(fields[n], slots[n].items, k, cut)
    ensures MessageTyped(fields, Partway(fields, slots, n, k)) && FillingOk(fields, FillAt(fields, n, k, fill))
    ensures MessageFrom(fields, Partway(fields, slots, n, k), seen, FillAt(fields, n, k, fill),
              ItemsBytes(fields[n].dtype, slots[n].items, k,
                         TagBytes(fields[n].tag, WireType(fields[n].dtype))).value[..cut]) == None
    decreases |slots[n].items| - k
  {
    hide ItemBytes, ItemTyped, ItemTerminated, ItemsBytes, MessageFrom, TagBytes, DescriptorOk, OneActive, Mixed,
      Partway,
      Packable, WireType;
    var f, items := fields[n], slots[n].items;
    var t, tag := f.dtype, TagBytes(f.tag, WireType(f.dtype));
    PartwayTyped(fields, slots, n, k);
    ItemsStep(t, items, k, tag);
    if k < |items| {
      var first, rest := ItemBytes(t, items[k]).value, ItemsBytes(t, items, k + 1, tag).value;
      var size, all := |tag| + |first|, tag + first + rest;
      if cut >= size {
        assert all[..cut] == tag + (first + rest[..cut - size]);
        TaggedItem(fields, slots, n, seen, fill, k, rest[..cut - size]);
        ItemsCut(fields, slots, n, seen, fill, k + 1, cut - size);
      } else {
        assert all[..cut] == (tag + first)[..cut];
        FillAtOk(fields, slots, n, k, fill);
        FieldCut(fields, Partway(fields, slots, n, k), seen, FillAt(fields, n, k, fill), n, OneValue(items[k]), cut);
      }
    }
  }

  lemma FillAtOk(fields: seq<Field>, slots: seq<Slot>, n: nat, k: nat, fill: Option<Filling>)
    requires n < |fields| == |slots| && IsArray(fields[n].rule) && SlotTyped(fields[n], slots[n])
    requires k <= |slots[n].items| && FillBefore(fields, n, fill)
    ensures FillingOk(fields, FillAt(fields, n, k, fill))
  {
    hide ItemTyped;
  }

  /** A cut inside the first of the fields that are left. */
  lemma SlotCut(fields: seq<Field>, slots: seq<Slot>, n: nat, seen: set<nat>, fill: Option<Filling>, cut: nat)
    requires DescriptorOk(fields) && MessageTyped(fields, slots) && n < |fields| && SlotTyped(fields[n], slots[n])
    requires FillBefore(fields, n, fill) && SlotBytes(fields[n], slots[n]).Some?
    requires cut < |SlotBytes(fields[n], slots[n]).value| < WORD
    requires if IsArray(fields[n].rule) && !Packable(fields[n].dtype)
             then InsideItems(fields[n], slots[n].items, 0, cut)
      else cut > 0
    ensures MessageTyped(fields, Mixed(fields, slots, n)) && FillingOk(fields, fill)
    ensures MessageFrom(fields, Mixed(fields, slots, n), seen, fill, SlotBytes(fields[n], slots[n]).value[..cut]) ==
            None
  {
    hide ItemBytes, ItemTyped, ItemsBytes, MessageFrom, TagBytes, DescriptorOk, OneActive, Mixed, Partway, ItemIsZero,
      InsideItems, FillingOk;
    var f, s := fields[n], slots[n];
    MixedTyped(fields, slots, n);
    FillBeforeOk(fields, n, fill);
    if IsArray(f.rule) && Packable(f.dtype) {
      var data := ItemsBytes(f.dtype, s.items, 0, []).value;
      PrefixedLonger(data);
      FieldCut(fields, Mixed(fields, slots, n), seen, fill, n, PackedArray(data), cut);
    } else if IsArray(f.rule) {
      ItemsCut(fields, slots, n, seen, fill, 0, cut);
      PartwayStart(fields, slots, n);
    } else {
      FieldCut(fields, Mixed(fields, slots, n), seen, fill, n, OneValue(s.item), cut);
    }
  }

  lemma {:induction false} FieldsCut(fields: seq<Field>, slots: seq<Slot>, n: nat, seen: set<nat>,
                                     fill: Option<Filling>,
                                     cut: nat)
    requires DescriptorOk(fields) && MessageTyped(fields, slots) && n <= |fields| && FillBefore(fields, n, fill)
    requires MessageBytes(fields, slots, n).Some? && cut < |MessageBytes(fields, slots, n).value| < WORD
    requires Inside(fields, slots, n, cut)
    ensures MessageTyped(fields, Mixed(fields, slots, n)) && FillingOk(fields, fill)
    ensures MessageFrom(fields, Mixed(fields, slots, n), seen, fill, MessageBytes(fields, slots, n).value[..cut]) ==
            None
    decreases |fields| - n
  {
    hide SlotBytes, SlotTyped, SlotTerminated, Mixed, DescriptorOk, SeenAfter, OneActive, FillPast, FillBefore,
      MessageFrom, MessageBytes, InsideItems, FillingOk;
    MixedTyped(fields, slots, n);
    FillBeforeOk(fields, n, fill);
    MessageBytesStep(fields, slots, n);
    assert SlotTyped(fields[n], slots[n]);
    var first, more := SlotBytes(fields[n], slots[n]).value, MessageBytes(fields, slots, n + 1).value;
    if cut >= |first| {
      assert (first + more)[..cut] == first + more[..cut - |first|];
      SlotRoundTrip(fields, slots, n, seen, fill, more[..cut - |first|]);
      FillStep(fields, slots, n, fill);
      if SlotTerminated(fields[n], slots[n]) {
        FieldsCut(fields, slots, n + 1, SeenAfter(fields, n, seen), FillPast(fields, slots, n, fill), cut - |first|);
      }
    } else {
      assert (first + more)[..cut] == first[..cut];
      SlotCut(fields, slots, n, seen, fill, cut);
    }
  }

  /** An encoded message that is cut off inside a field never decodes. */
  lemma TruncatedMessageRefused(fields: seq<Field>, slots: seq<Slot>, cut: nat)
    requires DescriptorOk(fields) && MessageTyped(fields, slots)
    requires MessageBytes(fields, slots, 0).Some? && cut < |MessageBytes(fields, slots, 0).value| < WORD
    requires Inside(fields, slots, 0, cut)
    ensures MessageFrom(fields, DefaultMessage(fields, |fields|), {}, None, MessageBytes(fields, slots, 0).value[..cut])
            == None
  {
    hide MessageFrom, MessageBytes, DescriptorOk, DefaultSlot, OneActive, SlotTyped, Inside;
    FieldsCut(fields, slots, 0, {}, None, cut);
    assert Mixed(fields, slots, 0) == DefaultMessage(fields, |fields|);
  }
}

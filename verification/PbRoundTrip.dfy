/** What is encoded is decoded again: any message of any descriptor comes back, up to the
    contents of absent fields, exactly if every text in it leaves room for its terminator. */
module PbRoundTrip {
  import opened InternalKeys
  import opened Coding
  import opened PbMessages
  import opened PbEncode
  import opened PbDecode
  import opened PbStreams

  // ---- what comes back ----

  /** The same value with absent fields, at any depth, set to their defaults. */
  function CanonItem(t: DataType, x: Item): (r: Item)
    requires ItemTyped(t, x)
    decreases t, 0
  {
    match t
    case MessageType(fields) => MessageItem(CanonMessage(fields, x.slots, |fields|))
    case _ => x
  }

  function CanonItems(t: DataType, items: seq<Item>): (r: seq<Item>)
    requires forall x :: x in items ==> ItemTyped(t, x)
    ensures |r| == |items| && forall i :: 0 <= i < |items| ==> r[i] == CanonItem(t, items[i])
    decreases t, 1
  {
    seq(|items|, i requires 0 <= i < |items| => CanonItem(t, items[i]))
  }

  function CanonSlot(f: Field, s: Slot): (r: Slot)
    requires SlotTyped(f, s)
    decreases f, 0
  {
    match f.rule
    case Required => Single(CanonItem(f.dtype, s.item))
    case Optional(hasFlag) =>
      if hasFlag then Flagged(s.has, if s.has then CanonItem(f.dtype, s.item) else DefaultItem(f.dtype))
      else Single(CanonItem(f.dtype, s.item))
    case Repeated(_) => Items(CanonItems(f.dtype, s.items))
    case FixedArray(_) => Items(CanonItems(f.dtype, s.items))
    case OneOf(_) => Choice(s.active, if s.active then CanonItem(f.dtype, s.item) else DefaultItem(f.dtype))
  }

  function CanonMessage(fields: seq<Field>, slots: seq<Slot>, n: nat): (r: seq<Slot>)
    requires MessageTyped(fields, slots) && n <= |fields|
    ensures |r| == n && forall i :: 0 <= i < n ==> r[i] == CanonSlot(fields[i], slots[i])
    decreases fields, n
  {
    if n == 0 then [] else CanonMessage(fields, slots, n - 1) + [CanonSlot(fields[n - 1], slots[n - 1])]
  }

  /** Every text that is written leaves room for the terminator in its array. */
  predicate ItemTerminated(t: DataType, x: Item)
    requires ItemTyped(t, x)
    decreases t, 0
  {
    match t
    case StringType(size) => |x.bytes| < size
    case MessageType(fields) => MessageTerminated(fields, x.slots, 0)
    case _ => true
  }

  predicate SlotTerminated(f: Field, s: Slot)
    requires SlotTyped(f, s)
    decreases f, 0
  {
    if IsArray(f.rule) then forall x :: x in s.items ==> ItemTerminated(f.dtype, x)
    else Present(f, s) ==> ItemTerminated(f.dtype, s.item)
  }

  predicate MessageTerminated(fields: seq<Field>, slots: seq<Slot>, n: nat)
    requires MessageTyped(fields, slots)
    decreases fields, 0
  {
    forall i :: n <= i < |fields| ==> SlotTerminated(fields[i], slots[i])
  }

  // ---- numbers ----

  /** A number at a bit position of a 32-bit word. */
  function Placed(n: nat, bitpos: nat): nat {
    n * Shift(bitpos)
  }

  lemma PlacedParts(n: nat, bitpos: nat, result: nat)
    requires bitpos == 7 || bitpos == 14 || bitpos == 21 || bitpos == 28
    requires result < Shift(bitpos) && result + Placed(n, bitpos) < WORD
    ensures bitpos == 28 ==> n < 16
    ensures n % 128 * Shift(bitpos) == Placed(n % 128, bitpos) && result + Placed(n % 128, bitpos) < WORD
    ensures n >= 128 ==>
      && bitpos < 28 && result + Placed(n % 128, bitpos) < Shift(bitpos + 7)
      && Placed(n % 128, bitpos) + Placed(n / 128, bitpos + 7) == Placed(n, bitpos)
  {
    var low, high := n % 128, n / 128;
    if bitpos == 7 {
      assert Placed(n, 7) == low * 0x80 + high * 0x4000;
    } else if bitpos == 14 {
      assert Placed(n, 14) == low * 0x4000 + high * 0x20_0000;
    } else if bitpos == 21 {
      assert Placed(n, 21) == low * 0x20_0000 + high * 0x1000_0000;
    }
  }

  lemma BitsPlaced(n: nat, byte: nat, bitpos: nat, result: nat)
    requires byte == n % 128 || byte == n % 128 + 128
    requires result + Placed(n % 128, bitpos) < WORD
    ensures WithBits(result, byte, bitpos) == result + Placed(n % 128, bitpos)
  {
    assert byte % 128 == n % 128;
  }

  /** The last byte of a varint. */
  lemma TailLast(n: nat, rest: Bytes, bitpos: nat, result: nat)
    requires bitpos == 7 || bitpos == 14 || bitpos == 21 || bitpos == 28
    requires n < 128 && result < Shift(bitpos) && result + Placed(n, bitpos) < WORD
    ensures Varint32Tail([n] + rest, bitpos, result) == Some((result + Placed(n, bitpos), rest))
  {
    hide Varint32Tail, Placed, Shift, WithBits;
    PlacedParts(n, bitpos, result);
    BitsPlaced(n, n, bitpos, result);
    TailStep([n] + rest, bitpos, result);
    assert ([n] + rest)[0] == n && ([n] + rest)[1..] == rest;
  }

  /** A byte of a varint that is not the last. */
  lemma TailMore(n: nat, rest: Bytes, bitpos: nat, result: nat)
    requires bitpos == 7 || bitpos == 14 || bitpos == 21 || bitpos == 28
    requires n >= 128 && result < Shift(bitpos) && result + Placed(n, bitpos) < WORD
    ensures bitpos < 28 && result + Placed(n % 128, bitpos) < Shift(bitpos + 7) <= WORD
    ensures Varint32Tail([n % 128 + 128] + rest, bitpos, result) ==
            Varint32Tail(rest, bitpos + 7, result + Placed(n % 128, bitpos))
  {
    hide Varint32Tail, Placed, Shift, WithBits;
    PlacedParts(n, bitpos, result);
    ShiftFits(bitpos);
    var b := n % 128 + 128;
    BitsPlaced(n, b, bitpos, result);
    TailStep([b] + rest, bitpos, result);
    assert ([b] + rest)[0] == b && ([b] + rest)[1..] == rest;
  }

  lemma ShiftFits(bitpos: nat)
    ensures Shift(bitpos + 7) <= WORD
  {
  }

  lemma {:induction false} TailRoundTrip(n: nat, rest: Bytes, bitpos: nat, result: nat)
    requires bitpos == 7 || bitpos == 14 || bitpos == 21 || bitpos == 28
    requires result < Shift(bitpos) && result + Placed(n, bitpos) < WORD
    ensures Varint32Tail(EncodeVarint(n) + rest, bitpos, result) == Some((result + Placed(n, bitpos), rest))
    decreases n
  {
    hide EncodeVarint, Varint32Tail, Placed, Shift;
    Step(n);
    if n < 128 {
      TailLast(n, rest, bitpos, result);
    } else {
      var more := EncodeVarint(n / 128) + rest;
      assert EncodeVarint(n) + rest == [n % 128 + 128] + more;
      TailMore(n, more, bitpos, result);
      PlacedParts(n, bitpos, result);
      TailRoundTrip(n / 128, rest, bitpos + 7, result + Placed(n % 128, bitpos));
    }
  }

  lemma Varint32RoundTrip(n: nat, rest: Bytes)
    requires n < WORD
    ensures Varint32(EncodeVarint(n) + rest) == Some((n, rest))
  {
    hide EncodeVarint, Varint32Tail;
    Step(n);
    var s := EncodeVarint(n) + rest;
    if n < 128 {
      assert s[1..] == rest;
    } else {
      assert s[1..] == EncodeVarint(n / 128) + rest;
      TailRoundTrip(n / 128, rest, 7, n % 128);
    }
  }

  lemma Varint64RoundTrip(n: nat, rest: Bytes)
    requires n < DOUBLE_WORD
    ensures Varint64(EncodeVarint(n) + rest) == Some((n, rest))
  {
    hide EncodeVarint, VarintAt, Power128;
    PowersOf128();
    var e := EncodeVarint(n);
    assert (e + rest)[0..|e|] == e;
    VarintRoundTrip(n, e + rest, 0, |e + rest|, 10);
    assert (e + rest)[|e|..] == rest;
  }

  lemma IntRoundTrip(size: nat, n: int)
    requires WidthOk(size) && IntFits(n, size)
    ensures DecodeInt(size, Unsigned(n)) == Some(n)
  {
    hide Unsigned;
    UnsignedIs(n);
    if size != 8 { LowWord(n); }
  }

  lemma UnsignedIs(n: int)
    requires -(DOUBLE_WORD as int) < n < DOUBLE_WORD
    ensures Unsigned(n) == if n < 0 then n + DOUBLE_WORD else n
  {
  }

  /** A number of at most 32 bits, as an unsigned one of 64 bits, has its own low 32 bits. */
  lemma LowWord(n: int)
    requires -0x8000_0000 <= n < 0x8000_0000
    ensures Unsigned(n) % WORD == if n < 0 then n + WORD else n
  {
    hide Unsigned;
    UnsignedIs(n);
    if n < 0 {
      ModUnique(n + DOUBLE_WORD, WORD, WORD - 1, n + WORD);
    } else {
      ModUnique(n, WORD, 0, n);
    }
  }

  lemma ZigZagRoundTrip(size: nat, n: int)
    requires WidthOk(size) && IntFits(n, size)
    ensures ZigZag(n) < DOUBLE_WORD && DecodeZigZag(size, ZigZag(n)) == Some(n)
  {
  }

  // ---- values ----

  /** A zero value of a field without a flag is its default, whatever absent parts it holds. */
  lemma {:induction false} ZeroIsDefault(t: DataType, x: Item)
    requires ItemTyped(t, x) && ItemIsZero(t, x)
    ensures CanonItem(t, x) == DefaultItem(t)
    decreases t
  {
    match t
    case MessageType(fields) =>
      forall i | 0 <= i < |fields| ensures CanonSlot(fields[i], x.slots[i]) == DefaultSlot(fields[i]) {
        assert SlotIsZero(fields[i], x.slots[i]);
        ZeroSlotIsDefault(fields[i], x.slots[i]);
      }
      assert CanonMessage(fields, x.slots, |fields|) == DefaultMessage(fields, |fields|);
    case _ =>
  }

  lemma {:induction false} ZeroSlotIsDefault(f: Field, s: Slot)
    requires SlotTyped(f, s) && SlotIsZero(f, s)
    ensures CanonSlot(f, s) == DefaultSlot(f)
    decreases f
  {
    if f.rule == Optional(false) { ZeroIsDefault(f.dtype, s.item); }
  }

  lemma PrefixedSplit(bytes: Bytes, rest: Bytes)
    requires |bytes| < WORD
    ensures PrefixedFrom(Prefixed(bytes) + rest) == Some((bytes, rest))
  {
    hide EncodeVarint, Varint32;
    assert Prefixed(bytes) + rest == EncodeVarint(|bytes|) + (bytes + rest);
    Varint32RoundTrip(|bytes|, bytes + rest);
    assert (bytes + rest)[..|bytes|] == bytes && (bytes + rest)[|bytes|..] == rest;
  }

  lemma {:induction false} NoNul(s: Bytes)
    requires 0 !in s
    ensures BeforeNul(s) == s
  {
    if s != [] {
      NoNul(s[1..]);
      assert s == [s[0]] + s[1..];
    }
  }

  lemma NumberRoundTrip(t: DataType, x: Item, rest: Bytes)
    requires DataTypeOk(t) && ItemTyped(t, x) && Packable(t)
    ensures ItemBytes(t, x).Some? && NumberFrom(t, ItemBytes(t, x).value + rest) == Some((x, rest))
  {
    hide EncodeVarint, Varint32, Varint64, EncodeFixed32, EncodeFixed64, DecodeFixed32, DecodeFixed64, DecodeInt,
      DecodeZigZag, Unsigned, ZigZag;
    match t
    case BoolType => Varint32RoundTrip(if x.b then 1 else 0, rest);
    case VarintType(size) =>
      Varint64RoundTrip(Unsigned(x.n), rest);
      IntRoundTrip(size, x.n);
    case UvarintType(size) => Varint64RoundTrip(x.u, rest);
    case SvarintType(size) =>
      ZigZagRoundTrip(size, x.n);
      Varint64RoundTrip(ZigZag(x.n), rest);
    case Fixed32 =>
      var e := EncodeFixed32(x.u);
      assert (e + rest)[..4] == e && (e + rest)[4..] == rest;
      Fixed32RoundTrip(x.u);
    case Fixed64 =>
      var e := EncodeFixed64(x.u);
      assert (e + rest)[..8] == e && (e + rest)[8..] == rest;
      Fixed64RoundTrip(x.u);
  }

  lemma BlobRoundTrip(t: DataType, x: Item, rest: Bytes)
    requires DataTypeOk(t) && ItemTyped(t, x) && (t.BytesType? || t.StringType? || t.FixedBytesType?)
    requires ItemBytes(t, x).Some? && |ItemBytes(t, x).value| < WORD
    ensures BlobFrom(t, ItemBytes(t, x).value + rest) == if ItemTerminated(t, x) then Some((x, rest)) else None
  {
    hide Prefixed, PrefixedFrom, Zeros, BeforeNul;
    PrefixedSplit(x.bytes, rest);
    match t
    case BytesType(size) =>
    case StringType(size) => NoNul(x.bytes);
    case FixedBytesType(size) =>
  }

  /** Any value is read back in canonical form, whatever follows, or not at all if a text in it is
      unterminated. */
  lemma {:induction false} ItemRoundTrip(t: DataType, x: Item, rest: Bytes)
    requires DataTypeOk(t) && ItemTyped(t, x) && ItemBytes(t, x).Some? && |ItemBytes(t, x).value| < WORD
    ensures ItemFrom(t, DefaultItem(t), ItemBytes(t, x).value + rest) ==
            if ItemTerminated(t, x) then Some((CanonItem(t, x), rest)) else None
    decreases t, 0
  {
    hide Prefixed, PrefixedFrom, NumberFrom, BlobFrom, MessageBytes, MessageFrom, MessageTerminated, CanonMessage,
      DefaultMessage, MessageTyped;
    if t.MessageType? {
      var m := MessageBytes(t.fields, x.slots, 0).value;
      PrefixedSplit(m, rest);
      MessageRoundTrip(t.fields, x.slots);
    } else if Packable(t) {
      NumberRoundTrip(t, x, rest);
    } else {
      BlobRoundTrip(t, x, rest);
    }
  }

  // ---- messages ----

  /** Fields before the n-th read, the others at their defaults. */
  function Mixed(fields: seq<Field>, slots: seq<Slot>, n: nat): (r: seq<Slot>)
    requires MessageTyped(fields, slots) && n <= |fields|
    ensures |r| == |fields|
    ensures forall i :: 0 <= i < |fields| ==> r[i] == if i < n then CanonSlot(fields[i], slots[i])
            else DefaultSlot(fields[i])
  {
    seq(|fields|, i requires 0 <= i < |fields| => if i < n then CanonSlot(fields[i], slots[i])
        else DefaultSlot(fields[i]))
  }

  lemma {:induction false} CanonItemTyped(t: DataType, x: Item)
    requires ItemTyped(t, x)
    ensures ItemTyped(t, CanonItem(t, x))
    decreases t
  {
    if t.MessageType? {
      var r := CanonMessage(t.fields, x.slots, |t.fields|);
      forall i | 0 <= i < |t.fields| ensures SlotTyped(t.fields[i], r[i]) && (IsActive(r[i]) ==> IsActive(x.slots[i])) {
        CanonSlotTyped(t.fields[i], x.slots[i]);
      }
    }
  }

  lemma {:induction false} CanonSlotTyped(f: Field, s: Slot)
    requires SlotTyped(f, s)
    ensures SlotTyped(f, CanonSlot(f, s))
    ensures IsActive(CanonSlot(f, s)) ==> IsActive(s)
    decreases f
  {
    hide ItemTyped, DefaultItem;
    if IsArray(f.rule) {
      forall x | x in s.items ensures ItemTyped(f.dtype, CanonItem(f.dtype, x)) { CanonItemTyped(f.dtype, x); }
    } else {
      CanonItemTyped(f.dtype, s.item);
    }
  }

  lemma MixedTyped(fields: seq<Field>, slots: seq<Slot>, n: nat)
    requires MessageTyped(fields, slots) && n <= |fields|
    ensures MessageTyped(fields, Mixed(fields, slots, n))
  {
    hide SlotTyped, CanonSlot, DefaultSlot;
    var r := Mixed(fields, slots, n);
    forall i | 0 <= i < |fields| ensures SlotTyped(fields[i], r[i]) && (IsActive(r[i]) ==> IsActive(slots[i])) {
      assert SlotTyped(fields[i], slots[i]);
      CanonSlotTyped(fields[i], slots[i]);
      DefaultInactive(fields[i]);
    }
  }

  lemma DefaultInactive(f: Field)
    ensures !IsActive(DefaultSlot(f))
  {
  }

  lemma TagIs(tag: nat, wireType: nat, rest: Bytes)
    requires 0 < tag < TAG_LIMIT && wireType < 8
    ensures var t := Varint32(TagBytes(tag, wireType) + rest);
      t == Some((tag * 8 + wireType, rest)) && t.value.0 / 8 == tag && t.value.0 % 8 == wireType && t.value.0 != 0
  {
    hide EncodeVarint, Varint32;
    Varint32RoundTrip(tag * 8 + wireType, rest);
  }

  /** The position of a tag is unique. */
  lemma TagFound(fields: seq<Field>, i: nat)
    requires DescriptorOk(fields) && i < |fields|
    ensures FindTag(fields, fields[i].tag) == i && 0 < fields[i].tag < TAG_LIMIT && DataTypeOk(fields[i].dtype)
  {
    hide FindTag, DataTypeOk;
    assert FieldOk(fields[i]);
    var j := FindTag(fields, fields[i].tag);
    assert j <= i && fields[j].tag == fields[i].tag;
  }

  /** One round of the decoding loop on a field of the descriptor. */
  lemma OneField(fields: seq<Field>, cur: seq<Slot>, seen: set<nat>, fill: Option<Filling>, i: nat, wireType: nat,
                 body: Bytes)
    requires DescriptorOk(fields) && MessageTyped(fields, cur) && FillingOk(fields, fill) && i < |fields|
    requires wireType < 8
    requires SwitchOk(fields, i, fill)
    ensures SlotTyped(fields[i], cur[i])
    ensures IsArray(fields[i].rule) ==> ArrayState(fields[i], cur[i].items, CountFor(fields, cur, i, fill))
    ensures var x := SlotFrom(fields[i], cur[i], CountFor(fields, cur, i, fill), wireType, body);
      && (x.Some? ==>
          MessageTyped(fields, SetSlot(fields, cur, i, x.value.0)) &&
          FillingOk(fields, FillAfter(fields, i, x.value.1, fill)))
      && MessageFrom(fields, cur, seen, fill, TagBytes(fields[i].tag, wireType) + body) ==
         if x.None? then None
         else MessageFrom(fields, SetSlot(fields, cur, i, x.value.0), SeenAfter(fields, i, seen),
                          FillAfter(fields, i, x.value.1, fill), x.value.2)
  {
    hide DescriptorOk, SlotTyped, SlotFrom, Varint32, TagBytes, FindTag, AllSeen, SetSlot, SeenAfter, OneActive,
      SwitchOk, CountFor, FillAfter, FillingOk, ArrayState, Filled;
    TagFound(fields, i);
    TagIs(fields[i].tag, wireType, body);
    CountFits(fields, cur, i, fill);
    var x := SlotFrom(fields[i], cur[i], CountFor(fields, cur, i, fill), wireType, body);
    if x.Some? {
      SetSlotTyped(fields, cur, i, x.value.0);
      FillKept(fields, i, x.value.0, x.value.1, fill);
    }
  }

  /** Reading field `n` leaves the fields before it read and those after it at their defaults. */
  lemma SetMixed(fields: seq<Field>, slots: seq<Slot>, n: nat)
    requires MessageTyped(fields, slots) && n < |fields|
    requires fields[n].rule.OneOf? ==> IsActive(slots[n])
    ensures SetSlot(fields, Mixed(fields, slots, n), n, CanonSlot(fields[n], slots[n])) == Mixed(fields, slots, n + 1)
  {
    hide CanonItem, DefaultItem, ItemTyped, SetSlot, Mixed;
    var before, after := Mixed(fields, slots, n), Mixed(fields, slots, n + 1);
    forall j | 0 <= j < |fields| && j != n ensures Unset(fields[n], fields[j], before[j]) == after[j] {
      if fields[n].rule.OneOf? && fields[j].rule == fields[n].rule {
        assert SlotTyped(fields[j], slots[j]);
        assert !IsActive(slots[j]);
      }
    }
  }

  lemma {:induction false} FieldItem(f: Field, x: Item, rest: Bytes)
    requires FieldOk(f) && ItemTyped(f.dtype, x) && ItemBytes(f.dtype, x).Some? && |ItemBytes(f.dtype, x).value| < WORD
    ensures ItemFrom(f.dtype, DefaultItem(f.dtype), ItemBytes(f.dtype, x).value + rest) ==
            if ItemTerminated(f.dtype, x) then Some((CanonItem(f.dtype, x), rest)) else None
    decreases f, 0
  {
    ItemRoundTrip(f.dtype, x, rest);
  }

  /** The first `k` items of an array have been read. */
  function PartItems(f: Field, items: seq<Item>, k: nat): (r: seq<Item>)
    requires IsArray(f.rule) && k <= |items| && forall x :: x in items ==> ItemTyped(f.dtype, x)
  {
    CanonItems(f.dtype, items)[..k] + if f.rule.FixedArray? then DefaultItems(f.dtype, |items| - k) else []
  }

  lemma PartState(f: Field, s: Slot, k: nat)
    requires IsArray(f.rule) && SlotTyped(f, s) && k <= |s.items|
    ensures ArrayState(f, PartItems(f, s.items, k), k)
  {
    hide ItemTyped, CanonItem, DefaultItem;
    var done, part := CanonItems(f.dtype, s.items), PartItems(f, s.items, k);
    forall x | x in part ensures ItemTyped(f.dtype, x) {
      var i :| 0 <= i < |part| && part[i] == x;
      if i < k {
        assert x == CanonItem(f.dtype, s.items[i]);
        CanonItemTyped(f.dtype, s.items[i]);
      }
    }
  }

  lemma PartEnds(f: Field, s: Slot)
    requires IsArray(f.rule) && SlotTyped(f, s)
    ensures Items(PartItems(f, s.items, 0)) == DefaultSlot(f)
    ensures PartItems(f, s.items, |s.items|) == CanonItems(f.dtype, s.items)
  {
    hide ItemTyped, CanonItem, DefaultItem;
  }

  lemma PartStep(f: Field, s: Slot, k: nat)
    requires IsArray(f.rule) && SlotTyped(f, s) && k < |s.items|
    ensures k <= |PartItems(f, s.items, k)|
    ensures StoreItem(f, PartItems(f, s.items, k), k, CanonItem(f.dtype, s.items[k])) == PartItems(f, s.items, k + 1)
  {
    hide ItemTyped, CanonItem, DefaultItem;
    var done := CanonItems(f.dtype, s.items);
    assert done[..k] + [done[k]] == done[..k + 1];
  }

  /** A packed array is read item by item. */
  lemma {:induction false} PackedRoundTrip(f: Field, s: Slot, k: nat)
    requires FieldOk(f) && IsArray(f.rule) && SlotTyped(f, s) && k <= |s.items| <= f.rule.room
    requires ItemsBytes(f.dtype, s.items, k, []).Some? && |ItemsBytes(f.dtype, s.items, k, []).value| < WORD
    ensures ArrayState(f, PartItems(f, s.items, k), k)
    ensures PackedFrom(f, PartItems(f, s.items, k), k, ItemsBytes(f.dtype, s.items, k, []).value) ==
            if forall i :: k <= i < |s.items| ==> ItemTerminated(f.dtype, s.items[i])
            then Some((CanonItems(f.dtype, s.items), |s.items|)) else None
    decreases f, |s.items| - k + 1
  {
    hide ItemBytes, ItemFrom, ItemTyped, DefaultItem, ItemTerminated, CanonItem, ItemsBytes, PartItems, StoreItem;
    var t, items := f.dtype, s.items;
    PartState(f, s, k);
    ItemsStep(t, items, k, []);
    if k == |items| {
      PartEnds(f, s);
    } else {
      var first, rest := ItemBytes(t, items[k]).value, ItemsBytes(t, items, k + 1, []).value;
      assert ItemsBytes(t, items, k, []).value == first + rest;
      assert |first + rest| == |first| + |rest|;
      FieldItem(f, items[k], rest);
      ItemBytesNotEmpty(t, items[k]);
      if ItemTerminated(t, items[k]) {
        PartStep(f, s, k);
        PackedRoundTrip(f, s, k + 1);
      }
    }
  }

  lemma ItemBytesNotEmpty(t: DataType, x: Item)
    requires ItemTyped(t, x)
    ensures ItemBytes(t, x).Some? ==> |ItemBytes(t, x).value| > 0
  {
  }

  /** How far the decoder knows array `n` to be read. */
  function FillAt(fields: seq<Field>, n: nat, k: nat, fill: Option<Filling>): Option<Filling>
    requires n < |fields|
  {
    if fields[n].rule.FixedArray? && k > 0 then Some(Filling(n, k)) else fill
  }

  /** Arrays without a count that have been started lie before field `n` and are complete. */
  predicate FillBefore(fields: seq<Field>, n: nat, fill: Option<Filling>) {
    FillingOk(fields, fill) && Filled(fields, fill) && (fill.Some? ==> fill.value.field < n)
  }

  /** One item with its tag. */
  lemma {:induction false} TaggedItem(fields: seq<Field>, slots: seq<Slot>, n: nat, seen: set<nat>,
                                      fill: Option<Filling>, k: nat, body: Bytes)
    requires DescriptorOk(fields) && MessageTyped(fields, slots) && n < |fields| && IsArray(fields[n].rule)
    requires SlotTyped(fields[n], slots[n]) && k < |slots[n].items| <= fields[n].rule.room && !Packable(fields[n].dtype)
    requires FillBefore(fields, n, fill)
    requires var r := ItemBytes(fields[n].dtype, slots[n].items[k]); r.Some? && |r.value| < WORD
    ensures MessageTyped(fields, Partway(fields, slots, n, k)) && FillingOk(fields, FillAt(fields, n, k, fill))
    ensures MessageTyped(fields, Partway(fields, slots, n, k + 1)) && FillingOk(fields, FillAt(fields, n, k + 1, fill))
    ensures MessageFrom(fields, Partway(fields, slots, n, k), seen, FillAt(fields, n, k, fill),
              TagBytes(fields[n].tag, WireType(fields[n].dtype)) +
                (ItemBytes(fields[n].dtype, slots[n].items[k]).value + body)) ==
            if ItemTerminated(fields[n].dtype, slots[n].items[k])
            then MessageFrom(fields, Partway(fields, slots, n, k + 1), seen, FillAt(fields, n, k + 1, fill), body)
            else None
    decreases fields, 0, 0
  {
    hide ItemBytes, ItemFrom, ItemTyped, DefaultItem, ItemTerminated, CanonItem, MessageFrom, TagBytes, DescriptorOk,
      OneActive, Mixed, SetSlot, PartItems, StoreItem, ArrayState, CountFor, Packable;
    var f, item := fields[n], slots[n].items[k];
    PartwayTyped(fields, slots, n, k);
    PartwayTyped(fields, slots, n, k + 1);
    WireSmall(f.dtype);
    OneField(fields, Partway(fields, slots, n, k), seen, FillAt(fields, n, k, fill), n, WireType(f.dtype),
             ItemBytes(f.dtype, item).value + body);
    TagFound(fields, n);
    FieldItem(f, item, body);
    PartwayCount(fields, slots, n, k, fill);
    PartStep(f, slots[n], k);
    PartwayStep(fields, slots, n, k);
    NotPacked(f.dtype);
  }

  lemma NotPacked(t: DataType)
    requires !Packable(t)
    ensures WireType(t) == STRING_TYPE
  {
  }

  /** An array of items with a tag each. */
  lemma {:induction false} TaggedRoundTrip(fields: seq<Field>, slots: seq<Slot>, n: nat, seen: set<nat>,
                                           fill: Option<Filling>, k: nat, more: Bytes)
    requires DescriptorOk(fields) && MessageTyped(fields, slots) && n < |fields| && IsArray(fields[n].rule)
    requires SlotTyped(fields[n], slots[n]) && k <= |slots[n].items| <= fields[n].rule.room
    requires !Packable(fields[n].dtype)
    requires FillBefore(fields, n, fill)
    requires var r := ItemsBytes(fields[n].dtype, slots[n].items, k,
                                 TagBytes(fields[n].tag, WireType(fields[n].dtype)));
      r.Some? && |r.value| < WORD
    ensures MessageTyped(fields, Partway(fields, slots, n, k)) && FillingOk(fields, FillAt(fields, n, k, fill))
    ensures MessageTyped(fields, Mixed(fields, slots, n + 1))
    ensures FillingOk(fields, FillAt(fields, n, |slots[n].items|, fill))
    ensures MessageFrom(fields, Partway(fields, slots, n, k), seen, FillAt(fields, n, k, fill),
              ItemsBytes(fields[n].dtype, slots[n].items, k, TagBytes(fields[n].tag, WireType(fields[n].dtype))).value +
                more) ==
            if forall i :: k <= i < |slots[n].items| ==> ItemTerminated(fields[n].dtype, slots[n].items[i])
            then MessageFrom(fields, Mixed(fields, slots, n + 1), seen, FillAt(fields, n, |slots[n].items|, fill), more)
            else None
    decreases fields, 0, |slots[n].items| - k + 1
  {
    hide ItemBytes, ItemTyped, ItemTerminated, CanonItem, ItemsBytes, MessageFrom, TagBytes, DescriptorOk, OneActive,
      Mixed, Partway, Packable;
    var items := slots[n].items;
    var t, tag := fields[n].dtype, TagBytes(fields[n].tag, WireType(fields[n].dtype));
    PartwayTyped(fields, slots, n, k);
    MixedTyped(fields, slots, n + 1);
    ItemsStep(t, items, k, tag);
    if k == |items| {
      PartwayDone(fields, slots, n);
      assert [] + more == more;
    } else {
      var first, rest := ItemBytes(t, items[k]).value, ItemsBytes(t, items, k + 1, tag).value;
      assert tag + first + rest + more == tag + (first + (rest + more));
      TaggedItem(fields, slots, n, seen, fill, k, rest + more);
      if ItemTerminated(t, items[k]) {
        TaggedRoundTrip(fields, slots, n, seen, fill, k + 1, more);
      }
    }
  }

  lemma WireSmall(t: DataType)
    ensures WireType(t) < 8
  {
  }

  /** The first `k` items of array `n` have been read. */
  function Partway(fields: seq<Field>, slots: seq<Slot>, n: nat, k: nat): (r: seq<Slot>)
    requires MessageTyped(fields, slots) && n < |fields| && IsArray(fields[n].rule)
    requires SlotTyped(fields[n], slots[n]) && k <= |slots[n].items|
    ensures |r| == |fields| && r[n] == Items(PartItems(fields[n], slots[n].items, k))
  {
    Mixed(fields, slots, n)[n := Items(PartItems(fields[n], slots[n].items, k))]
  }

  lemma PartwayTyped(fields: seq<Field>, slots: seq<Slot>, n: nat, k: nat)
    requires MessageTyped(fields, slots) && n < |fields| && IsArray(fields[n].rule)
    requires SlotTyped(fields[n], slots[n]) && k <= |slots[n].items|
    ensures MessageTyped(fields, Partway(fields, slots, n, k))
  {
    hide CanonItem, ItemTyped, DefaultItem, Mixed, PartItems;
    MixedTyped(fields, slots, n);
    PartState(fields[n], slots[n], k);
    var before, r := Mixed(fields, slots, n), Partway(fields, slots, n, k);
    forall i | 0 <= i < |fields| ensures SlotTyped(fields[i], r[i]) {
      assert SlotTyped(fields[i], before[i]);
    }
  }

  lemma PartwayCount(fields: seq<Field>, slots: seq<Slot>, n: nat, k: nat, fill: Option<Filling>)
    requires MessageTyped(fields, slots) && n < |fields| && IsArray(fields[n].rule)
    requires SlotTyped(fields[n], slots[n]) && k <= |slots[n].items| && FillBefore(fields, n, fill)
    ensures CountFor(fields, Partway(fields, slots, n, k), n, FillAt(fields, n, k, fill)) == k
  {
    hide CanonItem, ItemTyped, OneActive, Mixed, DefaultItem;
  }

  lemma PartwayDone(fields: seq<Field>, slots: seq<Slot>, n: nat)
    requires MessageTyped(fields, slots) && n < |fields| && IsArray(fields[n].rule) && SlotTyped(fields[n], slots[n])
    ensures Partway(fields, slots, n, |slots[n].items|) == Mixed(fields, slots, n + 1)
  {
    hide CanonItem, ItemTyped, OneActive, DefaultSlot, PartItems;
    PartEnds(fields[n], slots[n]);
  }

  lemma PartwayStep(fields: seq<Field>, slots: seq<Slot>, n: nat, k: nat)
    requires MessageTyped(fields, slots) && n < |fields| && IsArray(fields[n].rule)
    requires SlotTyped(fields[n], slots[n]) && k < |slots[n].items|
    ensures SetSlot(fields, Partway(fields, slots, n, k), n, Items(PartItems(fields[n], slots[n].items, k + 1))) ==
            Partway(fields, slots, n, k + 1)
    ensures forall seen :: SeenAfter(fields, n, seen) == seen
  {
    hide CanonItem, ItemTyped, OneActive, Mixed, PartItems;
  }

  lemma PartwayStart(fields: seq<Field>, slots: seq<Slot>, n: nat)
    requires MessageTyped(fields, slots) && n < |fields| && IsArray(fields[n].rule) && SlotTyped(fields[n], slots[n])
    ensures Partway(fields, slots, n, 0) == Mixed(fields, slots, n)
  {
    hide CanonItem, ItemTyped, OneActive, CanonSlot, PartItems, DefaultSlot;
    PartEnds(fields[n], slots[n]);
  }

  /** The decoder knows of every required field before the n-th. */
  ghost predicate SeenUpTo(fields: seq<Field>, n: nat, seen: set<nat>)
    requires n <= |fields|
  {
    forall q :: 0 <= q < RequiredCount(fields, n) && q < MAX_REQUIRED_FIELDS ==> q in seen
  }

  lemma SeenStep(fields: seq<Field>, n: nat, seen: set<nat>)
    requires n < |fields| && SeenUpTo(fields, n, seen)
    ensures SeenUpTo(fields, n + 1, SeenAfter(fields, n, seen))
    ensures !fields[n].rule.Required? ==> SeenAfter(fields, n, seen) == seen
  {
  }

  /** What the decoder knows about arrays without a count after field `n`. */
  function FillPast(fields: seq<Field>, slots: seq<Slot>, n: nat, fill: Option<Filling>): Option<Filling>
    requires n < |fields| == |slots|
  {
    if slots[n].Items? then FillAt(fields, n, |slots[n].items|, fill) else fill
  }

  /** One field that holds a single value and is written. */
  lemma {:induction false} PresentRoundTrip(fields: seq<Field>, slots: seq<Slot>, n: nat, seen: set<nat>,
                                            fill: Option<Filling>, more: Bytes)
    requires DescriptorOk(fields) && MessageTyped(fields, slots) && n < |fields| && !IsArray(fields[n].rule)
    requires SlotTyped(fields[n], slots[n]) && Present(fields[n], slots[n]) && FillBefore(fields, n, fill)
    requires SlotBytes(fields[n], slots[n]).Some? && |SlotBytes(fields[n], slots[n]).value| < WORD
    ensures MessageTyped(fields, Mixed(fields, slots, n)) && MessageTyped(fields, Mixed(fields, slots, n + 1))
    ensures MessageFrom(fields, Mixed(fields, slots, n), seen, fill, SlotBytes(fields[n], slots[n]).value + more) ==
            if SlotTerminated(fields[n], slots[n])
            then MessageFrom(fields, Mixed(fields, slots, n + 1), SeenAfter(fields, n, seen), fill, more)
            else None
    decreases fields, 1
  {
    hide ItemBytes, ItemFrom, ItemTyped, DefaultItem, ItemTerminated, CanonItem, MessageFrom, TagBytes, DescriptorOk,
      OneActive, Mixed, SetSlot, SeenAfter, ItemIsZero, ArrayFrom, CountFor, FillingOk, Filled;
    var f, item := fields[n], slots[n].item;
    var tag, bytes := TagBytes(f.tag, WireType(f.dtype)), ItemBytes(f.dtype, item).value;
    MixedTyped(fields, slots, n);
    MixedTyped(fields, slots, n + 1);
    assert tag + bytes + more == tag + (bytes + more);
    WireSmall(f.dtype);
    TagFound(fields, n);
    OneField(fields, Mixed(fields, slots, n), seen, fill, n, WireType(f.dtype), bytes + more);
    FieldItem(f, item, more);
    SetMixed(fields, slots, n);
  }

  lemma {:induction false} ArrayRoundTrip(fields: seq<Field>, slots: seq<Slot>, n: nat, seen: set<nat>,
                                          fill: Option<Filling>, more: Bytes)
    requires DescriptorOk(fields) && MessageTyped(fields, slots) && n < |fields| && IsArray(fields[n].rule)
    requires SlotTyped(fields[n], slots[n]) && Packable(fields[n].dtype) && slots[n].items != []
    requires FillBefore(fields, n, fill)
    requires SlotBytes(fields[n], slots[n]).Some? && |SlotBytes(fields[n], slots[n]).value| < WORD
    ensures MessageTyped(fields, Mixed(fields, slots, n)) && MessageTyped(fields, Mixed(fields, slots, n + 1))
    ensures FillingOk(fields, FillPast(fields, slots, n, fill))
    ensures MessageFrom(fields, Mixed(fields, slots, n), seen, fill, SlotBytes(fields[n], slots[n]).value + more) ==
            if SlotTerminated(fields[n], slots[n])
            then MessageFrom(fields, Mixed(fields, slots, n + 1), SeenAfter(fields, n, seen),
                             FillPast(fields, slots, n, fill), more)
            else None
    decreases fields, 1
  {
    hide ItemBytes, ItemFrom, ItemTyped, DefaultItem, ItemTerminated, CanonItem, MessageFrom, TagBytes, DescriptorOk,
      OneActive, Mixed, SetSlot, SeenAfter, PackedFrom, PrefixedFrom, Prefixed, ItemsBytes, CountFor, ArrayState,
      PartItems;
    var f, items := fields[n], slots[n].items;
    var tag, data := TagBytes(f.tag, STRING_TYPE), ItemsBytes(f.dtype, items, 0, []).value;
    MixedTyped(fields, slots, n);
    MixedTyped(fields, slots, n + 1);
    assert tag + Prefixed(data) + more == tag + (Prefixed(data) + more);
    TagFound(fields, n);
    PartwayStart(fields, slots, n);
    PartwayCount(fields, slots, n, 0, fill);
    OneField(fields, Mixed(fields, slots, n), seen, fill, n, STRING_TYPE, Prefixed(data) + more);
    PrefixedSplit(data, more);
    PackedRoundTrip(f, slots[n], 0);
    PartEnds(f, slots[n]);
    SetMixed(fields, slots, n);
    assert (forall x :: x in items ==> ItemTerminated(f.dtype, x)) <==>
      forall i :: 0 <= i < |items| ==> ItemTerminated(f.dtype, items[i]);
  }

  /** One field, whatever its rule. */
  lemma {:induction false} SlotRoundTrip(fields: seq<Field>, slots: seq<Slot>, n: nat, seen: set<nat>,
                                         fill: Option<Filling>, more: Bytes)
    requires DescriptorOk(fields) && MessageTyped(fields, slots) && n < |fields| && SlotTyped(fields[n], slots[n])
    requires SlotBytes(fields[n], slots[n]).Some? && |SlotBytes(fields[n], slots[n]).value| < WORD
    requires FillBefore(fields, n, fill)
    ensures MessageTyped(fields, Mixed(fields, slots, n)) && MessageTyped(fields, Mixed(fields, slots, n + 1))
    ensures FillingOk(fields, FillPast(fields, slots, n, fill))
    ensures MessageFrom(fields, Mixed(fields, slots, n), seen, fill, SlotBytes(fields[n], slots[n]).value + more) ==
            if SlotTerminated(fields[n], slots[n])
            then MessageFrom(fields, Mixed(fields, slots, n + 1), SeenAfter(fields, n, seen),
                             FillPast(fields, slots, n, fill), more)
            else None
    decreases fields, 2
  {
    hide ItemBytes, ItemTyped, ItemTerminated, CanonItem, MessageFrom, TagBytes, DescriptorOk, OneActive, Mixed,
      ItemsBytes, ItemIsZero, DefaultItem, PartItems;
    var f, s := fields[n], slots[n];
    if IsArray(f.rule) && s.items != [] && Packable(f.dtype) {
      ArrayRoundTrip(fields, slots, n, seen, fill, more);
    } else if IsArray(f.rule) && s.items != [] {
      TaggedRoundTrip(fields, slots, n, seen, fill, 0, more);
      PartwayStart(fields, slots, n);
      assert (forall x :: x in s.items ==> ItemTerminated(f.dtype, x)) <==>
        forall i :: 0 <= i < |s.items| ==> ItemTerminated(f.dtype, s.items[i]);
    } else if !IsArray(f.rule) && Present(f, s) {
      PresentRoundTrip(fields, slots, n, seen, fill, more);
    } else {
      MixedTyped(fields, slots, n);
      AbsentIsDefault(f, s);
      MixedSame(fields, slots, n);
      assert [] + more == more;
    }
  }

  lemma AbsentIsDefault(f: Field, s: Slot)
    requires SlotTyped(f, s) && if IsArray(f.rule) then s.items == [] else !Present(f, s)
    ensures CanonSlot(f, s) == DefaultSlot(f)
  {
    hide ItemTyped, ItemIsZero, CanonItem, DefaultItem;
    if f.rule == Optional(false) { ZeroIsDefault(f.dtype, s.item); }
  }

  lemma MixedSame(fields: seq<Field>, slots: seq<Slot>, n: nat)
    requires MessageTyped(fields, slots) && n < |fields| && CanonSlot(fields[n], slots[n]) == DefaultSlot(fields[n])
    ensures Mixed(fields, slots, n + 1) == Mixed(fields, slots, n)
  {
    hide CanonSlot, DefaultSlot, OneActive, SlotTyped;
  }

  lemma FillStep(fields: seq<Field>, slots: seq<Slot>, n: nat, fill: Option<Filling>)
    requires n < |fields| == |slots| && FillBefore(fields, n, fill) && SlotTyped(fields[n], slots[n])
    ensures FillBefore(fields, n + 1, FillPast(fields, slots, n, fill))
  {
    hide ItemTyped;
  }

  lemma MessageBytesStep(fields: seq<Field>, slots: seq<Slot>, n: nat)
    requires MessageTyped(fields, slots) && n <= |fields|
    ensures MessageBytes(fields, slots, n) ==
            if n == |fields| then Some([])
            else
              var first, rest := SlotBytes(fields[n], slots[n]), MessageBytes(fields, slots, n + 1);
              if first.None? || rest.None? then None else Some(first.value + rest.value)
  {
    hide SlotBytes, OneActive, SlotTyped;
  }

  lemma NothingLeft(fields: seq<Field>, slots: seq<Slot>, seen: set<nat>, fill: Option<Filling>)
    requires MessageTyped(fields, slots) && SeenUpTo(fields, |fields|, seen) && FillBefore(fields, |fields|, fill)
    ensures MessageTyped(fields, Mixed(fields, slots, |fields|))
    ensures FillingOk(fields, fill)
    ensures MessageFrom(fields, Mixed(fields, slots, |fields|), seen, fill, []) == Some(Mixed(fields, slots, |fields|))
  {
    hide OneActive, SlotTyped, Mixed, RequiredCount;
    MixedTyped(fields, slots, |fields|);
  }

  /** The fields from the n-th on. */
  lemma {:induction false} FieldsRoundTrip(fields: seq<Field>, slots: seq<Slot>, n: nat, seen: set<nat>,
                                           fill: Option<Filling>)
    requires DescriptorOk(fields) && MessageTyped(fields, slots) && n <= |fields| && SeenUpTo(fields, n, seen)
    requires FillBefore(fields, n, fill)
    requires MessageBytes(fields, slots, n).Some? && |MessageBytes(fields, slots, n).value| < WORD
    ensures MessageTyped(fields, Mixed(fields, slots, n))
    ensures MessageFrom(fields, Mixed(fields, slots, n), seen, fill, MessageBytes(fields, slots, n).value) ==
            if MessageTerminated(fields, slots, n) then Some(Mixed(fields, slots, |fields|)) else None
    decreases fields, 3, |fields| - n
  {
    hide SlotBytes, SlotTyped, SlotTerminated, Mixed, DescriptorOk, SeenAfter, OneActive, FillPast, FillBefore,
      SeenUpTo, MessageFrom, MessageBytes;
    MixedTyped(fields, slots, n);
    MessageBytesStep(fields, slots, n);
    if n == |fields| {
      NothingLeft(fields, slots, seen, fill);
    } else {
      assert SlotTyped(fields[n], slots[n]);
      SlotRoundTrip(fields, slots, n, seen, fill, MessageBytes(fields, slots, n + 1).value);
      SeenStep(fields, n, seen);
      FillStep(fields, slots, n, fill);
      if SlotTerminated(fields[n], slots[n]) {
        FieldsRoundTrip(fields, slots, n + 1, SeenAfter(fields, n, seen), FillPast(fields, slots, n, fill));
      }
    }
  }

  /** Any message that is encoded below 4 GB is decoded to the same message, up to the contents
      of absent fields, exactly if every text in it leaves room for its terminator; otherwise
      decoding fails. */
  lemma {:induction false} MessageRoundTrip(fields: seq<Field>, slots: seq<Slot>)
    requires DescriptorOk(fields) && MessageTyped(fields, slots)
    requires MessageBytes(fields, slots, 0).Some? && |MessageBytes(fields, slots, 0).value| < WORD
    ensures MessageFrom(fields, DefaultMessage(fields, |fields|), {}, None, MessageBytes(fields, slots, 0).value) ==
            if MessageTerminated(fields, slots, 0) then Some(CanonMessage(fields, slots, |fields|)) else None
    decreases fields, 4
  {
    hide MessageFrom, MessageBytes, MessageTerminated, DescriptorOk, CanonSlot, DefaultSlot, OneActive, SlotTyped;
    FieldsRoundTrip(fields, slots, 0, {}, None);
    assert Mixed(fields, slots, 0) == DefaultMessage(fields, |fields|);
    assert Mixed(fields, slots, |fields|) == CanonMessage(fields, slots, |fields|);
  }

  /** A text of one character in an array of one: it is encoded, and decoding the encoding fails. */
  lemma FullTextLost(fields: seq<Field>, slots: seq<Slot>)
    requires fields == [Field(1, Required, StringType(1))] && slots == [Single(BytesItem([65]))]
    ensures DescriptorOk(fields) && MessageTyped(fields, slots)
    ensures MessageBytes(fields, slots, 0) == Some([10, 1, 65])
    ensures MessageFrom(fields, DefaultMessage(fields, 1), {}, None, [10, 1, 65]) == None
  {
    hide MessageFrom, DefaultMessage;
    assert EncodeVarint(10) == [10] && EncodeVarint(1) == [1];
    assert Prefixed([65]) == [1, 65] && TagBytes(1, STRING_TYPE) == [10];
    assert ItemBytes(StringType(1), BytesItem([65])) == Some([1, 65]);
    MessageBytesStep(fields, slots, 0);
    MessageBytesStep(fields, slots, 1);
    assert SlotBytes(fields[0], slots[0]) == Some([10] + [1, 65]);
    assert MessageBytes(fields, slots, 0).value == [10, 1, 65];
    assert !SlotTerminated(fields[0], slots[0]);
    MessageRoundTrip(fields, slots);
  }

  // ---- the canonical form is the same message ----

  lemma {:induction false} CanonZero(t: DataType, x: Item)
    requires ItemTyped(t, x)
    ensures ItemTyped(t, CanonItem(t, x)) && (ItemIsZero(t, CanonItem(t, x)) <==> ItemIsZero(t, x))
    decreases t
  {
    CanonItemTyped(t, x);
    match t
    case MessageType(fields) =>
      forall i | 0 <= i < |fields|
        ensures SlotTyped(fields[i], CanonSlot(fields[i], x.slots[i]))
        ensures SlotIsZero(fields[i], CanonSlot(fields[i], x.slots[i])) <==> SlotIsZero(fields[i], x.slots[i])
      {
        CanonSlotZero(fields[i], x.slots[i]);
      }
    case _ =>
  }

  lemma {:induction false} CanonSlotZero(f: Field, s: Slot)
    requires SlotTyped(f, s)
    ensures SlotTyped(f, CanonSlot(f, s)) && (SlotIsZero(f, CanonSlot(f, s)) <==> SlotIsZero(f, s))
    decreases f
  {
    hide ItemTyped, ItemIsZero, CanonItem, DefaultItem;
    CanonSlotTyped(f, s);
    if f.rule == Optional(false) { CanonZero(f.dtype, s.item); }
  }

  lemma {:induction false} CanonItemBytes(t: DataType, x: Item)
    requires ItemTyped(t, x)
    ensures ItemTyped(t, CanonItem(t, x)) && ItemBytes(t, CanonItem(t, x)) == ItemBytes(t, x)
    decreases t, 0
  {
    hide MessageBytes, MessageTyped, CanonMessage;
    CanonItemTyped(t, x);
    if t.MessageType? { CanonMessageBytes(t.fields, x.slots, 0); }
  }

  lemma {:induction false} CanonItemsBytes(f: Field, items: seq<Item>, n: nat, before: Bytes)
    requires n <= |items| && forall x :: x in items ==> ItemTyped(f.dtype, x)
    ensures forall x :: x in CanonItems(f.dtype, items) ==> ItemTyped(f.dtype, x)
    ensures ItemsBytes(f.dtype, CanonItems(f.dtype, items), n, before) == ItemsBytes(f.dtype, items, n, before)
    decreases f, |items| - n
  {
    hide ItemBytes, ItemTyped, CanonItem, ItemsBytes;
    var done := CanonItems(f.dtype, items);
    forall x | x in done ensures ItemTyped(f.dtype, x) {
      var i :| 0 <= i < |done| && done[i] == x;
      CanonItemTyped(f.dtype, items[i]);
    }
    ItemsStep(f.dtype, items, n, before);
    ItemsStep(f.dtype, done, n, before);
    if n < |items| {
      CanonItemBytes(f.dtype, items[n]);
      CanonItemsBytes(f, items, n + 1, before);
    }
  }

  lemma {:induction false} CanonSlotBytes(f: Field, s: Slot)
    requires SlotTyped(f, s)
    ensures SlotTyped(f, CanonSlot(f, s)) && SlotBytes(f, CanonSlot(f, s)) == SlotBytes(f, s)
    decreases f
  {
    hide ItemBytes, ItemTyped, CanonItem, ItemsBytes, DefaultItem, ItemIsZero;
    CanonSlotTyped(f, s);
    if IsArray(f.rule) {
      CanonItemsBytes(f, s.items, 0, []);
      CanonItemsBytes(f, s.items, 0, TagBytes(f.tag, WireType(f.dtype)));
      assert CanonItems(f.dtype, s.items) == [] <==> s.items == [];
    } else {
      CanonItemBytes(f.dtype, s.item);
      CanonZero(f.dtype, s.item);
    }
  }

  /** The canonical form is encoded to the same bytes: nothing present has changed. */
  lemma {:induction false} CanonMessageBytes(fields: seq<Field>, slots: seq<Slot>, n: nat)
    requires MessageTyped(fields, slots) && n <= |fields|
    ensures MessageTyped(fields, CanonMessage(fields, slots, |fields|))
    ensures MessageBytes(fields, CanonMessage(fields, slots, |fields|), n) == MessageBytes(fields, slots, n)
    decreases fields, |fields| - n
  {
    hide SlotBytes, SlotTyped, CanonSlot, DefaultSlot, OneActive, Mixed;
    MixedTyped(fields, slots, |fields|);
    assert Mixed(fields, slots, |fields|) == CanonMessage(fields, slots, |fields|);
    if n < |fields| {
      assert SlotTyped(fields[n], slots[n]);
      CanonSlotBytes(fields[n], slots[n]);
      CanonMessageBytes(fields, slots, n + 1);
    }
  }

  /** Encoding into a buffer of the computed size and decoding again. */
  method EncodeAndDecode(fields: seq<Field>, slots: seq<Slot>) returns (r: Option<seq<Slot>>)
    requires DescriptorOk(fields) && MessageTyped(fields, slots)
    ensures var m := MessageBytes(fields, slots, 0);
      m.Some? && |m.value| < WORD ==>
        r == if MessageTerminated(fields, slots, 0) then Some(CanonMessage(fields, slots, |fields|)) else None
  {
    hide MessageFrom, MessageBytes, MessageTerminated, DescriptorOk, CanonMessage, DefaultMessage, MessageTyped;
    var size := EncodedSize(fields, slots);
    if size.None? {
      return None;
    }
    var needed, written := EncodeExactly(fields, slots, size.value);
    r := Decode(fields, written.value);
    if size.value < WORD { MessageRoundTrip(fields, slots); }
  }
}

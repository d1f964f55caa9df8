/** Decoding messages (pb_decode.c): what a byte string means, and the stream it is read from. */
module PbDecode {
  import opened InternalKeys
  import opened Coding
  import opened PbMessages

  // ---- varints ----

  /** A 64-bit varint of at most ten bytes; bits past the 64th are cut off. */
  function Varint64(s: Bytes): (r: Option<(nat, Bytes)>)
    ensures r.Some? ==> r.value.0 < DOUBLE_WORD && |r.value.1| < |s| && r.value.1 == s[|s| - |r.value.1|..]
  {
    var v := VarintAt(s, 0, |s|, 10);
    if v.None? then None else Some((v.value.0 % DOUBLE_WORD, s[v.value.1..]))
  }

  function Shift(bitpos: nat): nat {
    if bitpos == 7 then 0x80 else if bitpos == 14 then 0x4000 else if bitpos == 21 then 0x20_0000 else 0x1000_0000
  }

  /** The low seven bits of a byte put in at a bit position of a 32-bit word. */
  function WithBits(result: nat, byte: nat, bitpos: nat): (r: nat)
    ensures r < WORD
  {
    (result + byte % 128 * Shift(bitpos)) % WORD
  }

  /** A 32-bit varint; bytes past the 32nd bit may only repeat the sign. */
  function Varint32(s: Bytes): (r: Option<(nat, Bytes)>)
    ensures r.Some? ==> r.value.0 < WORD && |r.value.1| < |s| && r.value.1 == s[|s| - |r.value.1|..]
  {
    if s == [] then None
    else if s[0] < 128 then Some((s[0], s[1..]))
    else Varint32Tail(s[1..], 7, s[0] % 128)
  }

  function Varint32Tail(s: Bytes, bitpos: nat, result: nat): (r: Option<(nat, Bytes)>)
    requires result < WORD
    ensures r.Some? ==> r.value.0 < WORD && |r.value.1| < |s| && r.value.1 == s[|s| - |r.value.1|..]
    decreases |s|
  {
    if s == [] then None
    else
      var byte := s[0];
      if bitpos >= 32 && byte % 128 != 0 && (result < 0x8000_0000 || byte != (if bitpos < 63 then 0xff else 1))
        then None
      else
        var result' := if bitpos >= 32 then result else WithBits(result, byte, bitpos);
        if byte >= 128 then Varint32Tail(s[1..], bitpos + 7, result')
        else if bitpos == 28 && byte >= 16 then None
        else Some((result', s[1..]))
  }

  /** What the next byte of a 32-bit varint does. */
  lemma TailStep(s: Bytes, bitpos: nat, result: nat)
    requires result < WORD
    ensures s == [] ==> Varint32Tail(s, bitpos, result) == None
    ensures s != [] ==>
      var byte: nat, rest := s[0], s[1..];
      var result' := if bitpos >= 32 then result else WithBits(result, byte, bitpos);
      Varint32Tail(s, bitpos, result) ==
      if bitpos >= 32 && byte % 128 != 0 && (result < 0x8000_0000 || byte != (if bitpos < 63 then 0xff else 1))
        then None
      else if byte >= 128 then Varint32Tail(rest, bitpos + 7, result')
      else if bitpos == 28 && byte >= 16 then None
      else Some((result', rest))
  {
  }

  // ---- numbers ----

  function ToSigned(u: nat, size: nat): int {
    if u < Half(size) then u else u - 2 * Half(size)
  }

  /** Narrow fields take the low 32 bits first, and must then hold the value. */
  function DecodeInt(size: nat, u: nat): (r: Option<int>)
    requires u < DOUBLE_WORD
    ensures r.Some? ==> IntFits(r.value, size)
  {
    if size == 8 then Some(ToSigned(u, 8))
    else if size != 4 && size != 2 && size != 1 then None
    else
      var n := ToSigned(u % WORD, 4);
      if IntFits(n, size) then Some(n) else None
  }

  function DecodeUint(size: nat, u: nat): (r: Option<nat>)
    ensures r.Some? ==> UintFits(r.value, size)
  {
    if WidthOk(size) && UintFits(u, size) then Some(u) else None
  }

  function DecodeZigZag(size: nat, u: nat): (r: Option<int>)
    ensures r.Some? ==> IntFits(r.value, size)
  {
    var n := if u % 2 == 1 then -(u / 2) - 1 else u / 2;
    if WidthOk(size) && IntFits(n, size) then Some(n) else None
  }

  // ---- defaults ----

  function DefaultItem(t: DataType): (x: Item)
    ensures ItemTyped(t, x)
    decreases t, 0
  {
    match t
    case BoolType => BoolItem(false)
    case VarintType(_) => IntItem(0)
    case UvarintType(_) => UintItem(0)
    case SvarintType(_) => IntItem(0)
    case Fixed32 => UintItem(0)
    case Fixed64 => UintItem(0)
    case BytesType(_) => BytesItem([])
    case StringType(_) => BytesItem([])
    case MessageType(fields) => MessageItem(DefaultMessage(fields, |fields|))
    case FixedBytesType(size) => BytesItem(Zeros(size))
  }

  function DefaultItems(t: DataType, n: nat): (items: seq<Item>)
    ensures |items| == n && forall i :: 0 <= i < n ==> items[i] == DefaultItem(t)
    ensures forall x :: x in items ==> ItemTyped(t, x)
    decreases t, n + 1
  {
    if n == 0 then [] else DefaultItems(t, n - 1) + [DefaultItem(t)]
  }

  function DefaultSlot(f: Field): (s: Slot)
    ensures SlotTyped(f, s)
    decreases f, 0
  {
    match f.rule
    case Required => Single(DefaultItem(f.dtype))
    case Optional(hasFlag) => if hasFlag then Flagged(false, DefaultItem(f.dtype)) else Single(DefaultItem(f.dtype))
    case Repeated(_) => Items([])
    case FixedArray(room) => Items(DefaultItems(f.dtype, room))
    case OneOf(_) => Choice(false, DefaultItem(f.dtype))
  }

  /** `pb_message_set_to_defaults` for the first `n` fields: zeros, no flags, no items. */
  function DefaultMessage(fields: seq<Field>, n: nat): (slots: seq<Slot>)
    requires n <= |fields|
    ensures |slots| == n && forall i :: 0 <= i < n ==> slots[i] == DefaultSlot(fields[i])
    ensures n == |fields| ==> MessageTyped(fields, slots)
    decreases fields, n
  {
    if n == 0 then [] else DefaultMessage(fields, n - 1) + [DefaultSlot(fields[n - 1])]
  }

  // ---- fields ----

  /** Position of the field of that tag; their number if there is none. */
  function FindTag(fields: seq<Field>, tag: nat): (i: nat)
    ensures i <= |fields|
    ensures i < |fields| ==> fields[i].tag == tag
    ensures forall j :: 0 <= j < i ==> fields[j].tag != tag
  {
    if fields == [] || fields[0].tag == tag then 0
    else
      var i := FindTag(fields[1..], tag);
      assert forall j :: 1 <= j < i + 1 ==> fields[j] == fields[1..][j - 1];
      i + 1
  }

  /** What is left after a field of unknown tag. */
  function Skip(wireType: nat, s: Bytes): (r: Option<Bytes>)
    ensures r.Some? ==> |r.value| < |s| && r.value == s[|s| - |r.value|..]
    decreases |s|
  {
    if wireType == VARINT_TYPE then
      if s == [] then None else if s[0] < 128 then Some(s[1..]) else Skip(wireType, s[1..])
    else if wireType == FIXED64_TYPE then if |s| < 8 then None else Some(s[8..])
    else if wireType == FIXED32_TYPE then if |s| < 4 then None else Some(s[4..])
    else if wireType == STRING_TYPE then
      var n := Varint32(s);
      if n.None? || n.value.0 > |n.value.1| then None else Some(n.value.1[n.value.0..])
    else None
  }

  /** The characters before the terminator. */
  function BeforeNul(s: Bytes): (r: Bytes)
    ensures r <= s && 0 !in r && (|r| < |s| ==> s[|r|] == 0)
  {
    if s == [] || s[0] == 0 then [] else [s[0]] + BeforeNul(s[1..])
  }

  /** Number of required fields among the first `n`. */
  function RequiredCount(fields: seq<Field>, n: nat): (c: nat)
    requires n <= |fields|
    ensures c <= n
  {
    if n == 0 then 0 else RequiredCount(fields, n - 1) + (if fields[n - 1].rule.Required? then 1 else 0)
  }

  /** All required fields have been seen, as far as the decoder keeps track. */
  predicate AllSeen(fields: seq<Field>, seen: set<nat>) {
    forall q :: 0 <= q < RequiredCount(fields, |fields|) && q < MAX_REQUIRED_FIELDS ==> q in seen
  }

  function SeenAfter(fields: seq<Field>, i: nat, seen: set<nat>): set<nat>
    requires i < |fields|
  {
    var q := RequiredCount(fields, i);
    if fields[i].rule.Required? && q < MAX_REQUIRED_FIELDS then seen + {q} else seen
  }

  /** Setting a member of a oneof unsets the others. */
  function SetSlot(fields: seq<Field>, slots: seq<Slot>, i: nat, s: Slot): (r: seq<Slot>)
    requires i < |fields| == |slots|
    ensures |r| == |slots| && r[i] == s
    ensures forall j :: 0 <= j < |slots| && j != i ==> r[j] == Unset(fields[i], fields[j], slots[j])
  {
    seq(|slots|, j requires 0 <= j < |slots| => if j == i then s else Unset(fields[i], fields[j], slots[j]))
  }

  function Unset(f: Field, other: Field, s: Slot): Slot {
    if f.rule.OneOf? && other.rule == f.rule && s.Choice? then Choice(false, s.item) else s
  }

  /** A number at the front. */
  function NumberFrom(t: DataType, s: Bytes): (r: Option<(Item, Bytes)>)
    requires Packable(t)
    ensures r.Some? ==> ItemTyped(t, r.value.0) && |r.value.1| < |s| && r.value.1 == s[|s| - |r.value.1|..]
  {
    match t
    case BoolType =>
      var v := Varint32(s);
      if v.None? then None else Some((BoolItem(v.value.0 != 0), v.value.1))
    case VarintType(size) =>
      var v := Varint64(s);
      if v.None? || DecodeInt(size, v.value.0).None? then None
      else Some((IntItem(DecodeInt(size, v.value.0).value), v.value.1))
    case UvarintType(size) =>
      var v := Varint64(s);
      if v.None? || DecodeUint(size, v.value.0).None? then None
      else Some((UintItem(DecodeUint(size, v.value.0).value), v.value.1))
    case SvarintType(size) =>
      var v := Varint64(s);
      if v.None? || DecodeZigZag(size, v.value.0).None? then None
      else Some((IntItem(DecodeZigZag(size, v.value.0).value), v.value.1))
    case Fixed32 => if |s| < 4 then None else Some((UintItem(DecodeFixed32(s[..4])), s[4..]))
    case Fixed64 => if |s| < 8 then None else Some((UintItem(DecodeFixed64(s[..8])), s[8..]))
  }

  /** As many bytes as the length at the front says, and the rest. */
  function PrefixedFrom(s: Bytes): (r: Option<(Bytes, Bytes)>)
    ensures r.Some? ==> |r.value.0| + |r.value.1| < |s| && r.value.1 == s[|s| - |r.value.1|..]
  {
    var n := Varint32(s);
    if n.None? || n.value.0 > |n.value.1| then None else Some((n.value.1[..n.value.0], n.value.1[n.value.0..]))
  }

  /** A text or bytes at the front; too much for the field's room is an error. */
  function BlobFrom(t: DataType, s: Bytes): (r: Option<(Item, Bytes)>)
    requires t.BytesType? || t.StringType? || t.FixedBytesType?
    ensures r.Some? ==> ItemTyped(t, r.value.0) && |r.value.1| < |s| && r.value.1 == s[|s| - |r.value.1|..]
  {
    var b := PrefixedFrom(s);
    if b.None? then None
    else
      var (bytes, rest) := b.value;
      match t
      case BytesType(size) => if |bytes| > SIZE_MAX || |bytes| + BYTES_OFFSET > size then None
        else Some((BytesItem(bytes), rest))
      case StringType(size) => if |bytes| + 1 > size then None else Some((BytesItem(BeforeNul(bytes)), rest))
      case FixedBytesType(size) =>
        if |bytes| == 0 then Some((BytesItem(Zeros(size)), rest))
        else if |bytes| > SIZE_MAX || |bytes| != size then None
        else Some((BytesItem(bytes), rest))
  }

  /** One value of the type at the front; a submessage is read into what is there. */
  function ItemFrom(t: DataType, cur: Item, s: Bytes): (r: Option<(Item, Bytes)>)
    requires ItemTyped(t, cur)
    ensures r.Some? ==> ItemTyped(t, r.value.0) && |r.value.1| < |s| && r.value.1 == s[|s| - |r.value.1|..]
    decreases |s|, 0
  {
    if Packable(t) then NumberFrom(t, s)
    else if t.MessageType? then
      var b := PrefixedFrom(s);
      if b.None? then None
      else
        var m := MessageFrom(t.fields, cur.slots, {}, None, b.value.0);
        if m.None? then None else Some((MessageItem(m.value), b.value.1))
    else BlobFrom(t, s)
  }

  // ---- arrays ----

  /** An array field while it is being read: so many items have been. */
  predicate ArrayState(f: Field, items: seq<Item>, count: nat) {
    && IsArray(f.rule) && (forall x :: x in items ==> ItemTyped(f.dtype, x))
    && (f.rule.Repeated? ==> count == |items|) && (f.rule.FixedArray? ==> count <= |items| == f.rule.room)
  }

  function StoreItem(f: Field, items: seq<Item>, count: nat, x: Item): seq<Item>
    requires count <= |items|
  {
    if f.rule.Repeated? || count == |items| then items + [x] else items[count := x]
  }

  lemma StoreKeeps(f: Field, items: seq<Item>, count: nat, x: Item)
    requires ArrayState(f, items, count) && count < f.rule.room && ItemTyped(f.dtype, x)
    ensures ArrayState(f, StoreItem(f, items, count, x), count + 1)
  {
    hide ItemTyped;
    var items' := StoreItem(f, items, count, x);
    forall y | y in items' ensures ItemTyped(f.dtype, y) {
      var i :| 0 <= i < |items'| && items'[i] == y;
      if i < |items| && i != count { assert y == items[i]; }
    }
  }

  /** A packed array: items until the bytes run out; more than there is room for is an error. */
  function PackedFrom(f: Field, items: seq<Item>, count: nat, s: Bytes): (r: Option<(seq<Item>, nat)>)
    requires ArrayState(f, items, count)
    ensures r.Some? ==> ArrayState(f, r.value.0, r.value.1)
    decreases |s|, 1
  {
    if s == [] then Some((items, count))
    else if count >= f.rule.room then None
    else
      var x := ItemFrom(f.dtype, DefaultItem(f.dtype), s);
      if x.None? then None
      else
        StoreKeeps(f, items, count, x.value.0);
        PackedFrom(f, StoreItem(f, items, count, x.value.0), count + 1, x.value.1)
  }

  /** The payload of an array field: a packed one whatever follows, or one item. */
  function ArrayFrom(f: Field, items: seq<Item>, count: nat, wireType: nat,
                     s: Bytes): (r: Option<(seq<Item>, nat, Bytes)>)
    requires ArrayState(f, items, count)
    ensures r.Some? ==> ArrayState(f, r.value.0, r.value.1) && |r.value.2| < |s| && r.value.2 == s[|s| - |r.value.2|..]
    decreases |s|, 2
  {
    if wireType == STRING_TYPE && Packable(f.dtype) then
      var b := PrefixedFrom(s);
      if b.None? then None
      else
        var p := PackedFrom(f, items, count, b.value.0);
        if p.None? then None else Some((p.value.0, p.value.1, b.value.1))
    else if count >= f.rule.room then None
    else
      var x := ItemFrom(f.dtype, DefaultItem(f.dtype), s);
      if x.None? then None
      else
        StoreKeeps(f, items, count, x.value.0);
        Some((StoreItem(f, items, count, x.value.0), count + 1, x.value.1))
  }

  // ---- messages ----

  /** The payload of a field whose tag has been read; `count` is how much of an array has been. */
  function SlotFrom(f: Field, slot: Slot, count: nat, wireType: nat, s: Bytes): (r: Option<(Slot, nat, Bytes)>)
    requires SlotTyped(f, slot) && (IsArray(f.rule) ==> ArrayState(f, slot.items, count))
    ensures r.Some? ==> SlotTyped(f, r.value.0) && |r.value.2| < |s| && r.value.2 == s[|s| - |r.value.2|..]
    ensures r.Some? && IsArray(f.rule) ==> ArrayState(f, r.value.0.items, r.value.1)
    decreases |s|, 3
  {
    if IsArray(f.rule) then
      var a := ArrayFrom(f, slot.items, count, wireType, s);
      if a.None? then None else Some((Items(a.value.0), a.value.1, a.value.2))
    else
      var cur := if f.rule.OneOf? && f.dtype.MessageType? then DefaultItem(f.dtype) else slot.item;
      var x := ItemFrom(f.dtype, cur, s);
      if x.None? then None else Some((Hold(f, x.value.0), 0, x.value.1))
  }

  /** The slot that holds a value that was read. */
  function Hold(f: Field, x: Item): (s: Slot)
    requires !IsArray(f.rule)
    ensures ItemTyped(f.dtype, x) ==> SlotTyped(f, s)
  {
    match f.rule
    case OneOf(_) => Choice(true, x)
    case Optional(hasFlag) => if hasFlag then Flagged(true, x) else Single(x)
    case Required => Single(x)
  }

  /** The array without a count that was read last, and how many of its items have been. */
  datatype Filling = Filling(field: nat, count: nat)

  predicate FillingOk(fields: seq<Field>, fill: Option<Filling>) {
    fill.Some? ==>
      && fill.value.field < |fields| && fields[fill.value.field].rule.FixedArray?
      && fill.value.count <= fields[fill.value.field].rule.room
  }

  /** All its items have been. */
  predicate Filled(fields: seq<Field>, fill: Option<Filling>)
    requires FillingOk(fields, fill)
  {
    fill.Some? ==> fill.value.count == fields[fill.value.field].rule.room
  }

  /** How much of field `i` has been read. */
  function CountFor(fields: seq<Field>, slots: seq<Slot>, i: nat, fill: Option<Filling>): nat
    requires i < |fields| == |slots|
  {
    if slots[i].Items? && fields[i].rule.Repeated? then |slots[i].items|
    else if fill.Some? && fill.value.field == i then fill.value.count
    else 0
  }

  /** Starting another array without a count before the last one is complete is an error. */
  predicate SwitchOk(fields: seq<Field>, i: nat, fill: Option<Filling>)
    requires i < |fields| && FillingOk(fields, fill)
  {
    fields[i].rule.FixedArray? && fill.Some? && fill.value.field != i ==> Filled(fields, fill)
  }

  function FillAfter(fields: seq<Field>, i: nat, count: nat, fill: Option<Filling>): Option<Filling>
    requires i < |fields|
  {
    if fields[i].rule.FixedArray? then Some(Filling(i, count)) else fill
  }

  lemma CountFits(fields: seq<Field>, slots: seq<Slot>, i: nat, fill: Option<Filling>)
    requires MessageTyped(fields, slots) && i < |fields| && FillingOk(fields, fill)
    ensures SlotTyped(fields[i], slots[i])
    ensures IsArray(fields[i].rule) ==> ArrayState(fields[i], slots[i].items, CountFor(fields, slots, i, fill))
  {
    hide ItemTyped;
    assert SlotTyped(fields[i], slots[i]);
  }

  /** `pb_decode_noinit`: fields in any order into what is there, until the bytes run out or a
      zero tag ends the message. */
  function MessageFrom(fields: seq<Field>, slots: seq<Slot>, seen: set<nat>, fill: Option<Filling>,
                       s: Bytes): (r: Option<seq<Slot>>)
    requires MessageTyped(fields, slots) && FillingOk(fields, fill)
    ensures r.Some? ==> MessageTyped(fields, r.value)
    decreases |s|, 4
  {
    var t := Varint32(s);
    if s == [] || (t.Some? && t.value.0 == 0) then
      (if Filled(fields, fill) && AllSeen(fields, seen) then Some(slots) else None)
    else if t.None? then None
    else
      var i := FindTag(fields, t.value.0 / 8);
      if i == |fields| then
        var rest := Skip(t.value.0 % 8, t.value.1);
        if rest.None? then None else MessageFrom(fields, slots, seen, fill, rest.value)
      else if !SwitchOk(fields, i, fill) then None
      else
        CountFits(fields, slots, i, fill);
        var x := SlotFrom(fields[i], slots[i], CountFor(fields, slots, i, fill), t.value.0 % 8, t.value.1);
        if x.None? then None
        else
          SetSlotTyped(fields, slots, i, x.value.0);
          MessageFrom(fields, SetSlot(fields, slots, i, x.value.0), SeenAfter(fields, i, seen),
                      FillAfter(fields, i, x.value.1, fill), x.value.2)
  }

  lemma SetSlotTyped(fields: seq<Field>, slots: seq<Slot>, i: nat, s: Slot)
    requires MessageTyped(fields, slots) && i < |fields| && SlotTyped(fields[i], s)
    ensures MessageTyped(fields, SetSlot(fields, slots, i, s))
  {
    hide ItemTyped;
    var r := SetSlot(fields, slots, i, s);
    forall j | 0 <= j < |fields| ensures SlotTyped(fields[j], r[j]) {
      assert SlotTyped(fields[j], slots[j]);
    }
  }
}

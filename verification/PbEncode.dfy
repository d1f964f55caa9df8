/** Encoding messages (pb_encode.c): what is written, and the stream it is written to, whose
    sizing mode counts bytes without storing them. */
module PbEncode {
  import opened InternalKeys
  import opened Coding
  import opened PbMessages

  // ---- what an encoding is ----

  function TagBytes(tag: nat, wireType: nat): (b: Bytes)
    ensures |b| > 0
  {
    EncodeVarint(tag * 8 + wireType)
  }

  /** A 64-bit signed number as unsigned. */
  function Unsigned(n: int): (u: nat)
    ensures u < DOUBLE_WORD
  {
    n % DOUBLE_WORD
  }

  /** Small numbers of either sign become small unsigned ones. */
  function ZigZag(n: int): (u: nat)
  {
    if n < 0 then -2 * n - 1 else 2 * n
  }

  function Prefixed(bytes: Bytes): (b: Bytes)
    ensures |b| > |bytes|
  {
    EncodeVarint(|bytes|) + bytes
  }

  /** One value; None for a bytes array that does not fit its own field or a bad width. */
  function ItemBytes(t: DataType, x: Item): (r: Option<Bytes>)
    requires ItemTyped(t, x)
    decreases t, 0
  {
    match t
    case BoolType => Some(EncodeVarint(if x.b then 1 else 0))
    case VarintType(size) => if WidthOk(size) then Some(EncodeVarint(Unsigned(x.n))) else None
    case UvarintType(size) => if WidthOk(size) then Some(EncodeVarint(x.u)) else None
    case SvarintType(size) => if WidthOk(size) then Some(EncodeVarint(ZigZag(x.n))) else None
    case Fixed32 => Some(EncodeFixed32(x.u))
    case Fixed64 => Some(EncodeFixed64(x.u))
    case BytesType(size) => if |x.bytes| + BYTES_OFFSET > size then None else Some(Prefixed(x.bytes))
    case StringType(_) => Some(Prefixed(x.bytes))
    case MessageType(fields) =>
      var m := MessageBytes(fields, x.slots, 0);
      if m.None? then None else Some(Prefixed(m.value))
    case FixedBytesType(_) => Some(Prefixed(x.bytes))
  }

  /** The values one after the other, from the n-th on, each after `before`. */
  function ItemsBytes(t: DataType, items: seq<Item>, n: nat, before: Bytes): (r: Option<Bytes>)
    requires n <= |items| && forall x :: x in items ==> ItemTyped(t, x)
    decreases t, |items| - n + 1
  {
    if n == |items| then Some([])
    else
      var first, rest := ItemBytes(t, items[n]), ItemsBytes(t, items, n + 1, before);
      if first.None? || rest.None? then None else Some(before + first.value + rest.value)
  }

  /** Whether a value of a field without a flag counts as absent (proto3). */
  predicate ItemIsZero(t: DataType, x: Item)
    requires ItemTyped(t, x)
    decreases t, 0
  {
    match t
    case BoolType => !x.b
    case VarintType(_) => x.n == 0
    case UvarintType(_) => x.u == 0
    case SvarintType(_) => x.n == 0
    case Fixed32 => x.u == 0
    case Fixed64 => x.u == 0
    case BytesType(_) => x.bytes == []
    case StringType(_) => x.bytes == []
    case MessageType(fields) => MessageIsZero(fields, x.slots)
    case FixedBytesType(size) => size == 0
  }

  predicate MessageIsZero(fields: seq<Field>, slots: seq<Slot>)
    requires MessageTyped(fields, slots)
    decreases fields, 0
  {
    forall i :: 0 <= i < |fields| ==> SlotIsZero(fields[i], slots[i])
  }

  predicate SlotIsZero(f: Field, s: Slot)
    requires SlotTyped(f, s)
    decreases f, 0
  {
    match f.rule
    case Required => false
    case Optional(hasFlag) => if hasFlag then !s.has else ItemIsZero(f.dtype, s.item)
    case Repeated(_) => s.items == []
    case FixedArray(_) => false
    case OneOf(_) => !s.active
  }

  /** Whether a field that holds one value is written. */
  predicate Present(f: Field, s: Slot)
    requires SlotTyped(f, s) && !IsArray(f.rule)
    decreases f, 1
  {
    match f.rule
    case Required => true
    case Optional(hasFlag) => if hasFlag then s.has else !ItemIsZero(f.dtype, s.item)
    case OneOf(_) => s.active
  }

  /** One field: its tag and value if present; an array packed if its type allows. */
  function SlotBytes(f: Field, s: Slot): (r: Option<Bytes>)
    requires SlotTyped(f, s)
    decreases f, 2
  {
    if IsArray(f.rule) then
      if s.items == [] then Some([])
      else if |s.items| > f.rule.room then None
      else if Packable(f.dtype) then
        var data := ItemsBytes(f.dtype, s.items, 0, []);
        if data.None? then None else Some(TagBytes(f.tag, STRING_TYPE) + Prefixed(data.value))
      else ItemsBytes(f.dtype, s.items, 0, TagBytes(f.tag, WireType(f.dtype)))
    else if Present(f, s) then
      var item := ItemBytes(f.dtype, s.item);
      if item.None? then None else Some(TagBytes(f.tag, WireType(f.dtype)) + item.value)
    else Some([])
  }

  /** The fields in order, from the n-th on. */
  function MessageBytes(fields: seq<Field>, slots: seq<Slot>, n: nat): (r: Option<Bytes>)
    requires MessageTyped(fields, slots) && n <= |fields|
    decreases fields, |fields| - n
  {
    if n == |fields| then Some([])
    else
      var first, rest := SlotBytes(fields[n], slots[n]), MessageBytes(fields, slots, n + 1);
      if first.None? || rest.None? then None else Some(first.value + rest.value)
  }

  // ---- the stream ----

  class OStream {
    const sizing: bool
    const maxSize: nat
    var bytesWritten: nat
    var buffer: Bytes

    predicate Valid()
      reads this
    {
      if sizing then buffer == [] else bytesWritten == |buffer| <= maxSize
    }

    constructor ToBuffer(size: nat)
      ensures Valid() && !sizing && maxSize == size && buffer == []
    {
      sizing, maxSize, bytesWritten, buffer := false, size, 0, [];
    }

    constructor Sizing()
      ensures Valid() && sizing && bytesWritten == 0
    {
      sizing, maxSize, bytesWritten, buffer := true, 0, 0, [];
    }

    /** What an encoder does for `r`: it succeeds exactly if there is an encoding and, unless only
        sizes are wanted, room for it; then it counts the bytes and, when writing, appends them. */
    twostate predicate Emits(ok: bool, new r: Option<Bytes>)
      reads this
    {
      && Valid()
      && (ok <==> r.Some? && (sizing || old(bytesWritten) + |r.value| <= maxSize))
      && (ok ==> bytesWritten == old(bytesWritten) + |r.value| && (!sizing ==> buffer == old(buffer) + r.value))
    }

    method Write(bytes: Bytes) returns (ok: bool)
      requires Valid()
      modifies this
      ensures Emits(ok, Some(bytes))
    {
      if |bytes| > 0 && !sizing {
        if bytesWritten + |bytes| > maxSize {
          return false;
        }
        buffer := buffer + bytes;
      }
      bytesWritten := bytesWritten + |bytes|;
      return true;
    }

    /** Counts bytes without storing any. */
    method Count(n: nat)
      requires Valid() && sizing
      modifies this
      ensures Valid() && bytesWritten == old(bytesWritten) + n
    {
      bytesWritten := bytesWritten + n;
    }

    method WriteVarint(v: nat) returns (ok: bool)
      requires Valid()
      modifies this
      ensures Emits(ok, Some(EncodeVarint(v)))
    {
      if v <= 0x7f {
        ok := Write([v]);
      } else {
        var bytes := VarintBuffer(v);
        ok := Write(bytes);
      }
    }

    method WritePrefixed(bytes: Bytes) returns (ok: bool)
      requires Valid()
      modifies this
      ensures Emits(ok, Some(Prefixed(bytes)))
    {
      hide EncodeVarint;
      ok := WriteVarint(|bytes|);
      if ok {
        ok := Write(bytes);
      }
    }

    /** The submessage is sized first; writing it goes through a stream that has just that room. */
    method WriteSubmessage(fields: seq<Field>, slots: seq<Slot>) returns (ok: bool)
      requires Valid() && MessageTyped(fields, slots)
      modifies this
      ensures var m := MessageBytes(fields, slots, 0); Emits(ok, if m.None? then None else Some(Prefixed(m.value)))
      decreases fields, 1
    {
      hide EncodeVarint, MessageBytes;
      var sizes := new OStream.Sizing();
      ok := sizes.WriteMessage(fields, slots);
      if !ok {
        return;
      }
      var size := sizes.bytesWritten;
      ok := WriteVarint(size);
      if !ok {
        return;
      }
      if sizing {
        Count(size);
        return;
      }
      if bytesWritten + size > maxSize {
        return false;
      }
      var substream := new OStream.ToBuffer(size);
      ok := substream.WriteMessage(fields, slots);
      bytesWritten := bytesWritten + substream.bytesWritten;
      buffer := buffer + substream.buffer;
    }

    method WriteItem(t: DataType, x: Item) returns (ok: bool)
      requires Valid() && ItemTyped(t, x)
      modifies this
      ensures Emits(ok, ItemBytes(t, x))
      decreases t, 0
    {
      hide EncodeVarint, EncodeFixed32, EncodeFixed64, MessageBytes, MessageTyped;
      match t
      case BoolType => ok := WriteVarint(if x.b then 1 else 0);
      case VarintType(size) =>
        if !WidthOk(size) { return false; }
        ok := WriteVarint(Unsigned(x.n));
      case UvarintType(size) =>
        if !WidthOk(size) { return false; }
        ok := WriteVarint(x.u);
      case SvarintType(size) =>
        if !WidthOk(size) { return false; }
        ok := WriteVarint(ZigZag(x.n));
      case Fixed32 => ok := Write(EncodeFixed32(x.u));
      case Fixed64 => ok := Write(EncodeFixed64(x.u));
      case BytesType(size) =>
        if |x.bytes| + BYTES_OFFSET > size { return false; }
        ok := WritePrefixed(x.bytes);
      case StringType(_) => ok := WritePrefixed(x.bytes);
      case MessageType(fields) => ok := WriteSubmessage(fields, x.slots);
      case FixedBytesType(_) => ok := WritePrefixed(x.bytes);
    }

    method WriteTag(tag: nat, wireType: nat) returns (ok: bool)
      requires Valid()
      modifies this
      ensures Emits(ok, Some(TagBytes(tag, wireType)))
    {
      ok := WriteVarint(tag * 8 + wireType);
    }

    /** The tag, if one is given, and the item. */
    method WriteTagged(t: DataType, x: Item, tag: Option<nat>) returns (ok: bool)
      requires Valid() && ItemTyped(t, x)
      modifies this
      ensures Emits(ok, Tagged(t, x, BeforeItem(t, tag)))
      decreases t, 1
    {
      hide EncodeVarint, ItemBytes, TagBytes;
      ok := true;
      if tag.Some? {
        ok := WriteTag(tag.value, WireType(t));
      }
      if ok {
        ok := WriteItem(t, x);
      }
    }

    /** The items one after the other, each after the field's tag if `tag` is given. */
    method WriteItems(t: DataType, items: seq<Item>, tag: Option<nat>) returns (ok: bool)
      requires Valid() && forall x :: x in items ==> ItemTyped(t, x)
      modifies this
      ensures Emits(ok, ItemsBytes(t, items, 0, BeforeItem(t, tag)))
      decreases t, 2
    {
      hide ItemsBytes, Tagged, BeforeItem;
      ghost var before := BeforeItem(t, tag);
      ghost var all := ItemsBytes(t, items, 0, before);
      for i := 0 to |items|
        invariant Valid() && StillToCome(all, old(bytesWritten), old(buffer), ItemsBytes(t, items, i, before))
      {
        ItemsStep(t, items, i, before);
        ok := WriteTagged(t, items[i], tag);
        if !ok { return; }
      }
      ItemsStep(t, items, |items|, before);
      return true;
    }

    /** What has been written so far and what is still to come make up the whole. */
    predicate StillToCome(all: Option<Bytes>, written0: nat, buffer0: Bytes, rest: Option<Bytes>)
      reads this
    {
      && (all.Some? <==> rest.Some?)
      && written0 <= bytesWritten
      && (all.Some? ==> bytesWritten + |rest.value| == written0 + |all.value|)
      && (all.Some? && !sizing ==> buffer + rest.value == buffer0 + all.value)
    }

    /** An array: packed behind its tag and size if the type allows, else one tag for each item. */
    method WriteArray(f: Field, s: Slot) returns (ok: bool)
      requires Valid() && SlotTyped(f, s) && IsArray(f.rule)
      modifies this
      ensures Emits(ok, SlotBytes(f, s))
      decreases f, 0
    {
      hide EncodeVarint, ItemBytes, TagBytes, ItemsBytes, ItemTyped;
      if s.items == [] {
        return true;
      }
      if |s.items| > f.rule.room {
        return false;
      }
      if !Packable(f.dtype) {
        ok := WriteItems(f.dtype, s.items, Some(f.tag));
        return;
      }
      ok := WriteTag(f.tag, STRING_TYPE);
      if !ok { return; }
      var size;
      if f.dtype.Fixed32? {
        size := 4 * |s.items|;
        FixedSize(f.dtype, s.items, 0);
      } else if f.dtype.Fixed64? {
        size := 8 * |s.items|;
        FixedSize(f.dtype, s.items, 0);
      } else {
        var sizes := new OStream.Sizing();
        ok := sizes.WriteItems(f.dtype, s.items, None);
        if !ok { return; }
        size := sizes.bytesWritten;
      }
      ok := WriteVarint(size);
      if !ok { return; }
      if sizing {
        Count(size);
        return;
      }
      ok := WriteItems(f.dtype, s.items, None);
    }

    method WriteField(f: Field, s: Slot) returns (ok: bool)
      requires Valid() && SlotTyped(f, s)
      modifies this
      ensures Emits(ok, SlotBytes(f, s))
      decreases f, 1
    {
      hide EncodeVarint, ItemBytes, TagBytes, ItemsBytes, ItemTyped, ItemIsZero;
      if IsArray(f.rule) {
        ok := WriteArray(f, s);
      } else if Present(f, s) {
        ok := WriteTag(f.tag, WireType(f.dtype));
        if ok {
          ok := WriteItem(f.dtype, s.item);
        }
      } else {
        ok := true;
      }
    }

    /** `pb_encode`: every field in the order of the descriptor. */
    method WriteMessage(fields: seq<Field>, slots: seq<Slot>) returns (ok: bool)
      requires Valid() && MessageTyped(fields, slots)
      modifies this
      ensures Emits(ok, MessageBytes(fields, slots, 0))
      decreases fields, 0
    {
      hide SlotBytes, SlotTyped;
      ghost var all := MessageBytes(fields, slots, 0);
      for i := 0 to |fields|
        invariant Valid() && StillToCome(all, old(bytesWritten), old(buffer), MessageBytes(fields, slots, i))
      {
        ok := WriteField(fields[i], slots[i]);
        if !ok { return; }
      }
      return true;
    }
  }

  /** Seven bits a byte with the top bit set, then the top bit of the last byte cleared. */
  method VarintBuffer(v: nat) returns (bytes: Bytes)
    requires v > 0x7f
    ensures bytes == EncodeVarint(v)
  {
    hide EncodeVarint;
    bytes := [];
    var value: nat := v;
    while value > 0
      invariant value > 0 ==> EncodeVarint(v) == bytes + EncodeVarint(value)
      invariant value == 0 ==> |bytes| > 0 && bytes[|bytes| - 1] >= 128 && EncodeVarint(v) == TopCleared(bytes)
    {
      Step(value);
      ghost var before := bytes;
      bytes := bytes + [value % 128 + 128];
      if value < 128 {
        assert TopCleared(bytes) == before + [value];
      } else {
        assert bytes + EncodeVarint(value / 128) == before + EncodeVarint(value);
      }
      value := value / 128;
    }
    bytes := TopCleared(bytes);
  }

  function TopCleared(bytes: Bytes): Bytes
    requires |bytes| > 0 && bytes[|bytes| - 1] >= 128
  {
    bytes[..|bytes| - 1] + [bytes[|bytes| - 1] - 128]
  }

  function BeforeItem(t: DataType, tag: Option<nat>): Bytes {
    if tag.None? then [] else TagBytes(tag.value, WireType(t))
  }

  function Tagged(t: DataType, x: Item, before: Bytes): Option<Bytes>
    requires ItemTyped(t, x)
  {
    var item := ItemBytes(t, x);
    if item.None? then None else Some(before + item.value)
  }

  lemma ItemsStep(t: DataType, items: seq<Item>, n: nat, before: Bytes)
    requires n <= |items| && forall x :: x in items ==> ItemTyped(t, x)
    ensures ItemsBytes(t, items, n, before) ==
            if n == |items| then Some([])
            else
              var first, rest := Tagged(t, items[n], before), ItemsBytes(t, items, n + 1, before);
              if first.None? || rest.None? then None else Some(first.value + rest.value)
  {
    hide ItemBytes, ItemTyped;
  }

  lemma {:induction false} FixedSize(t: DataType, items: seq<Item>, n: nat)
    requires n <= |items| && forall x :: x in items ==> ItemTyped(t, x)
    requires t.Fixed32? || t.Fixed64?
    ensures var r := ItemsBytes(t, items, n, []);
      r.Some? && |r.value| == if t.Fixed32? then 4 * (|items| - n) else 8 * (|items| - n)
    decreases |items| - n
  {
    hide EncodeFixed32, EncodeFixed64;
    if n < |items| {
      assert items[n] in items && ItemBytes(t, items[n]).Some? && |ItemBytes(t, items[n]).value| == if t.Fixed32?
        then 4 else 8;
      FixedSize(t, items, n + 1);
    }
    ItemsStep(t, items, n, []);
  }

  /** `pb_get_encoded_size`. */
  method EncodedSize(fields: seq<Field>, slots: seq<Slot>) returns (size: Option<nat>)
    requires MessageTyped(fields, slots)
    ensures size == var m := MessageBytes(fields, slots, 0); if m.None? then None else Some(|m.value|)
  {
    hide MessageBytes, MessageTyped;
    var stream := new OStream.Sizing();
    var ok := stream.WriteMessage(fields, slots);
    return if ok then Some(stream.bytesWritten) else None;
  }

  /** The size pass is exact: a buffer of that size takes the message, any smaller one does not. */
  method EncodeExactly(fields: seq<Field>, slots: seq<Slot>, bufferSize: nat)
    returns (size: Option<nat>, written: Option<Bytes>)
    requires MessageTyped(fields, slots)
    ensures size == var m := MessageBytes(fields, slots, 0); if m.None? then None else Some(|m.value|)
    ensures size.Some? ==> (written.Some? <==> bufferSize >= size.value)
    ensures size.None? ==> written.None?
    ensures written.Some? ==> |written.value| == size.value && written == MessageBytes(fields, slots, 0)
  {
    hide MessageBytes, MessageTyped;
    size := EncodedSize(fields, slots);
    var stream := new OStream.ToBuffer(bufferSize);
    var ok := stream.WriteMessage(fields, slots);
    written := if ok then Some(stream.buffer) else None;
    assert ok ==> stream.buffer == MessageBytes(fields, slots, 0).value;
  }
}

/** The input stream of nanopb and the decoder's loops over it (pb_decode.c). */
module PbStreams {
  import opened InternalKeys
  import opened Coding
  import opened PbMessages
  import opened PbDecode

  /** A position in a buffer and how many bytes may be read; a substream shares the buffer. */
  class IStream {
    const data: Bytes
    var state: nat
    var bytesLeft: nat

    predicate Valid()
      reads this
    {
      state + bytesLeft <= |data|
    }

    function Rest(): (r: Bytes)
      requires Valid()
      reads this
      ensures |r| == bytesLeft
    {
      data[state..state + bytesLeft]
    }

    constructor (data: Bytes, state: nat, size: nat)
      requires state + size <= |data|
      ensures Valid() && Rest() == data[state..state + size] && this.data == data && this.state == state
      ensures bytesLeft == size
    {
      this.data, this.state, bytesLeft := data, state, size;
    }

    /** What a reader does that is to leave `rest`. */
    twostate predicate Leaves(new rest: Bytes)
      requires old(Valid())
      reads this
    {
      Valid() && Rest() == rest && state + bytesLeft == old(state + bytesLeft)
    }

    /** A reader never moves the end of what may be read outward. */
    twostate predicate Stays()
      requires old(Valid())
      reads this
    {
      Valid() && state + bytesLeft <= old(state + bytesLeft)
    }

    method ReadByte() returns (r: Option<Byte>)
      requires Valid()
      modifies this
      ensures r.None? <==> old(Rest()) == []
      ensures r.None? ==> Leaves(old(Rest()))
      ensures r.Some? ==> r.value == old(Rest())[0] && Leaves(old(Rest())[1..])
    {
      if bytesLeft == 0 {
        return None;
      }
      r := Some(data[state]);
      state := state + 1;
      bytesLeft := bytesLeft - 1;
    }

    method Read(count: nat) returns (r: Option<Bytes>)
      requires Valid()
      modifies this
      ensures r.None? <==> old(bytesLeft) < count
      ensures r.None? ==> Leaves(old(Rest()))
      ensures r.Some? ==> r.value == old(Rest())[..count] && Leaves(old(Rest())[count..])
    {
      if bytesLeft < count {
        return None;
      }
      r := Some(data[state..state + count]);
      state := state + count;
      bytesLeft := bytesLeft - count;
    }

    method ReadVarint32() returns (r: Option<nat>)
      requires Valid()
      modifies this
      ensures Stays() && (r.None? <==> Varint32(old(Rest())).None?)
      ensures r.Some? ==> var v := Varint32(old(Rest())).value; r.value == v.0 && Leaves(v.1)
    {
      hide Varint32Tail, WithBits;
      ghost var s, end := Rest(), state + bytesLeft;
      var b := ReadByte();
      if b.None? {
        return None;
      }
      var byte: nat := b.value;
      if byte < 128 {
        return Some(byte);
      }
      var bitpos: nat, result: nat := 7, byte % 128;
      while true
        invariant Valid() && state + bytesLeft == end && result < WORD && bitpos >= 7
        invariant Varint32(s) == Varint32Tail(Rest(), bitpos, result)
        decreases bytesLeft
      {
        TailStep(Rest(), bitpos, result);
        b := ReadByte();
        if b.None? {
          return None;
        }
        byte := b.value;
        if bitpos >= 32 {
          var signExtension := if bitpos < 63 then 0xff else 1;
          if byte % 128 != 0 && (result < 0x8000_0000 || byte != signExtension) {
            return None;
          }
        } else {
          result := WithBits(result, byte, bitpos);
        }
        bitpos := bitpos + 7;
        if byte < 128 {
          break;
        }
      }
      if bitpos == 35 && byte >= 16 {
        return None;
      }
      return Some(result);
    }

    method ReadVarint() returns (r: Option<nat>)
      requires Valid()
      modifies this
      ensures Stays() && (r.None? <==> Varint64(old(Rest())).None?)
      ensures r.Some? ==> var v := Varint64(old(Rest())).value; r.value == v.0 && Leaves(v.1)
    {
      hide VarintAt, LowBits, Partial;
      ghost var s := Rest();
      var result: nat, weight: nat, k := 0, 1, 0; // weight is two to the power of the bit position, 7 * k
      PartialStart(s, 0, |s|, 10, DOUBLE_WORD);
      while true
        invariant Valid() && k <= 10 && k <= |s| && Leaves(s[k..])
        invariant Partial(s, 0, |s|, 10, DOUBLE_WORD, k, result, weight)
        decreases 10 - k
      {
        if k >= 10 {
          PartialEnd(s, 0, |s|, 10, DOUBLE_WORD, k, result, weight);
          return None;
        }
        var b := ReadByte();
        if b.None? {
          PartialEnd(s, 0, |s|, 10, DOUBLE_WORD, k, result, weight);
          return None;
        }
        PartialStep(s, 0, |s|, 10, DOUBLE_WORD, k, result, weight);
        var byte: nat := b.value;
        if byte < 128 {
          return Some(Sum(result, byte, weight, DOUBLE_WORD));
        }
        result := Sum(result, LowBits(byte), weight, DOUBLE_WORD);
        weight, k := weight * 128, k + 1;
      }
    }

    /** A stream of as many bytes as the length at the front says. Until it is closed, this stream
        counts those bytes as read without having moved past them. */
    method OpenSubstream() returns (r: Option<IStream>)
      requires Valid()
      modifies this
      ensures Stays() && (r.None? <==> PrefixedFrom(old(Rest())).None?)
      ensures r.Some? ==> var (bytes, rest) := PrefixedFrom(old(Rest())).value; var n := |bytes|;
        && fresh(r.value) && r.value.Valid() && r.value.Rest() == bytes && r.value.state == state
        && r.value.data == data
        && state + n + bytesLeft == old(state + bytesLeft) <= |data| && data[state + n..state + n + bytesLeft] == rest
        && bytesLeft + n < old(bytesLeft)
    {
      hide Varint32;
      var size := ReadVarint32();
      if size.None? || bytesLeft < size.value {
        return None;
      }
      var sub := new IStream(data, state, size.value);
      r := Some(sub);
      bytesLeft := bytesLeft - size.value;
    }

    /** Skips what the substream has left and moves this stream past it. */
    method CloseSubstream(sub: IStream)
      requires sub != this && sub.Valid() && sub.data == data && sub.state + sub.bytesLeft + bytesLeft <= |data|
      modifies this, sub
      ensures Valid() && state == old(sub.state + sub.bytesLeft) && bytesLeft == old(bytesLeft)
      ensures Rest() == data[state..state + bytesLeft]
    {
      if sub.bytesLeft > 0 {
        var skipped := sub.Read(sub.bytesLeft);
      }
      state := sub.state;
    }

    method SkipField(wireType: nat) returns (ok: bool)
      requires Valid()
      modifies this
      ensures Stays() && (ok <==> Skip(wireType, old(Rest())).Some?)
      ensures ok ==> Leaves(Skip(wireType, old(Rest())).value)
    {
      hide Varint32;
      ghost var s := Rest();
      if wireType == VARINT_TYPE {
        while true
          invariant Valid() && state + bytesLeft == old(state + bytesLeft)
          invariant Skip(wireType, s) == Skip(wireType, Rest())
          decreases bytesLeft
        {
          var b := ReadByte();
          if b.None? { return false; }
          if b.value < 128 { return true; }
        }
      } else if wireType == FIXED64_TYPE {
        var r := Read(8);
        return r.Some?;
      } else if wireType == FIXED32_TYPE {
        var r := Read(4);
        return r.Some?;
      } else if wireType == STRING_TYPE {
        var n := ReadVarint32();
        if n.None? { return false; }
        var r := Read(n.value);
        return r.Some?;
      }
      return false;
    }

    /** The length and that many bytes, if there are and the length does not exceed `most`. */
    method ReadPrefixed(most: nat) returns (r: Option<Bytes>)
      requires Valid()
      modifies this
      ensures Stays()
      ensures var b := PrefixedFrom(old(Rest())); r.None? <==> b.None? || |b.value.0| > most
      ensures r.Some? ==> var (bytes, rest) := PrefixedFrom(old(Rest())).value; r.value == bytes && Leaves(rest)
    {
      hide Varint32;
      var n := ReadVarint32();
      if n.None? || n.value > most { return None; }
      r := Read(n.value);
    }

    method ReadNumber(t: DataType) returns (r: Option<Item>)
      requires Valid() && Packable(t)
      modifies this
      ensures Stays() && (r.None? <==> NumberFrom(t, old(Rest())).None?)
      ensures r.Some? ==> var x := NumberFrom(t, old(Rest())).value; r.value == x.0 && Leaves(x.1)
    {
      hide Varint32, Varint64, DecodeInt, DecodeUint, DecodeZigZag;
      match t
      case BoolType =>
        var v := ReadVarint32();
        if v.None? { return None; }
        return Some(BoolItem(v.value != 0));
      case VarintType(size) =>
        var v := ReadVarint();
        if v.None? { return None; }
        var n := DecodeInt(size, v.value);
        return if n.None? then None else Some(IntItem(n.value));
      case UvarintType(size) =>
        var v := ReadVarint();
        if v.None? { return None; }
        var n := DecodeUint(size, v.value);
        return if n.None? then None else Some(UintItem(n.value));
      case SvarintType(size) =>
        var v := ReadVarint();
        if v.None? { return None; }
        var n := DecodeZigZag(size, v.value);
        return if n.None? then None else Some(IntItem(n.value));
      case Fixed32 =>
        var b := Read(4);
        return if b.None? then None else Some(UintItem(DecodeFixed32(b.value)));
      case Fixed64 =>
        var b := Read(8);
        return if b.None? then None else Some(UintItem(DecodeFixed64(b.value)));
    }

    method ReadBlob(t: DataType) returns (r: Option<Item>)
      requires Valid() && (t.BytesType? || t.StringType? || t.FixedBytesType?)
      modifies this
      ensures Stays() && (r.None? <==> BlobFrom(t, old(Rest())).None?)
      ensures r.Some? ==> var x := BlobFrom(t, old(Rest())).value; r.value == x.0 && Leaves(x.1)
    {
      hide PrefixedFrom, BeforeNul;
      match t
      case BytesType(size) =>
        if size < BYTES_OFFSET { return None; }
        var b := ReadPrefixed(if SIZE_MAX < size - BYTES_OFFSET then SIZE_MAX else size - BYTES_OFFSET);
        return if b.None? then None else Some(BytesItem(b.value));
      case StringType(size) =>
        if size == 0 { return None; }
        var b := ReadPrefixed(size - 1);
        return if b.None? then None else Some(BytesItem(BeforeNul(b.value)));
      case FixedBytesType(size) =>
        var b := ReadPrefixed(SIZE_MAX);
        if b.None? { return None; }
        if b.value == [] {
          return Some(BytesItem(Zeros(size)));
        }
        return if |b.value| != size then None else Some(BytesItem(b.value));
    }

    /** One value of the type; a submessage is read into what is there. */
    method ReadItem(t: DataType, cur: Item) returns (r: Option<Item>)
      requires Valid() && ItemTyped(t, cur)
      modifies this
      ensures Stays() && (r.None? <==> ItemFrom(t, cur, old(Rest())).None?)
      ensures r.Some? ==> var x := ItemFrom(t, cur, old(Rest())).value; r.value == x.0 && Leaves(x.1)
      decreases bytesLeft, 1
    {
      hide NumberFrom, BlobFrom, MessageFrom, MessageTyped;
      if Packable(t) {
        r := ReadNumber(t);
      } else if t.MessageType? {
        r := ReadSubmessage(t.fields, cur);
      } else {
        r := ReadBlob(t);
      }
    }

    method ReadSubmessage(fields: seq<Field>, cur: Item) returns (r: Option<Item>)
      requires Valid() && ItemTyped(MessageType(fields), cur)
      modifies this
      ensures Stays() && (r.None? <==> ItemFrom(MessageType(fields), cur, old(Rest())).None?)
      ensures r.Some? ==> var x := ItemFrom(MessageType(fields), cur, old(Rest())).value; r.value == x.0 && Leaves(x.1)
      decreases bytesLeft, 0
    {
      hide PrefixedFrom, MessageFrom, MessageTyped;
      var sub := OpenSubstream();
      if sub.None? { return None; }
      var m := sub.value.ReadMessage(fields, cur.slots);
      CloseSubstream(sub.value);
      return if m.None? then None else Some(MessageItem(m.value));
    }

    /** The payload of a packed array. */
    method ReadPacked(f: Field, items: seq<Item>, count: nat) returns (r: Option<(seq<Item>, nat)>)
      requires Valid() && ArrayState(f, items, count)
      modifies this
      ensures Stays() && (r.Some? ==> state + bytesLeft == old(state + bytesLeft))
      ensures r == PackedFrom(f, items, count, old(Rest()))
      decreases bytesLeft, 2
    {
      hide ItemFrom, ItemTyped, DefaultItem, ArrayState, StoreItem;
      var read := items;
      var size: nat := count;
      ghost var s := Rest();
      CountInRange(f, read, size);
      while bytesLeft > 0 && size < f.rule.room
        invariant IsArray(f.rule) && Valid() && state + bytesLeft == old(state + bytesLeft)
        invariant bytesLeft <= old(bytesLeft)
        invariant ArrayState(f, read, size) && PackedFrom(f, items, count, s) == PackedFrom(f, read, size, Rest())
        decreases bytesLeft
      {
        var x := ReadItem(f.dtype, DefaultItem(f.dtype));
        if x.None? { return None; }
        StoreKeeps(f, read, size, x.value);
        CountInRange(f, read, size);
        read := StoreItem(f, read, size, x.value);
        size := size + 1;
      }
      if bytesLeft > 0 { return None; }
      return Some((read, size));
    }

    method ReadArray(f: Field, items: seq<Item>, count: nat, wireType: nat) returns (r: Option<(seq<Item>, nat)>)
      requires Valid() && ArrayState(f, items, count)
      modifies this
      ensures Stays() && (r.None? <==> ArrayFrom(f, items, count, wireType, old(Rest())).None?)
      ensures r.Some? ==> var x := ArrayFrom(f, items, count, wireType, old(Rest())).value;
              r.value == (x.0, x.1) && Leaves(x.2)
      decreases bytesLeft, 3
    {
      hide ItemFrom, ItemTyped, DefaultItem, PrefixedFrom, PackedFrom, StoreItem;
      if wireType == STRING_TYPE && Packable(f.dtype) {
        var sub := OpenSubstream();
        if sub.None? { return None; }
        r := sub.value.ReadPacked(f, items, count);
        if r.None? { return None; }
        CloseSubstream(sub.value);
        return;
      }
      if count >= f.rule.room { return None; }
      var x := ReadItem(f.dtype, DefaultItem(f.dtype));
      if x.None? { return None; }
      return Some((StoreItem(f, items, count, x.value), count + 1));
    }

    /** `decode_static_field`: the payload of a field whose tag has been read. */
    method ReadSlot(f: Field, slot: Slot, count: nat, wireType: nat) returns (r: Option<(Slot, nat)>)
      requires Valid() && SlotTyped(f, slot) && (IsArray(f.rule) ==> ArrayState(f, slot.items, count))
      modifies this
      ensures Stays() && (r.None? <==> SlotFrom(f, slot, count, wireType, old(Rest())).None?)
      ensures r.Some? ==> var x := SlotFrom(f, slot, count, wireType, old(Rest())).value;
              r.value == (x.0, x.1) && Leaves(x.2)
      decreases bytesLeft, 4
    {
      hide ItemFrom, ItemTyped, DefaultItem, ArrayFrom;
      if IsArray(f.rule) {
        var a := ReadArray(f, slot.items, count, wireType);
        return if a.None? then None else Some((Items(a.value.0), a.value.1));
      }
      var x := ReadItem(f.dtype, if f.rule.OneOf? && f.dtype.MessageType? then DefaultItem(f.dtype) else slot.item);
      return if x.None? then None else Some((Hold(f, x.value), 0));
    }

    /** `pb_decode_noinit`. */
    method ReadMessage(fields: seq<Field>, start: seq<Slot>) returns (r: Option<seq<Slot>>)
      requires Valid() && MessageTyped(fields, start)
      modifies this
      ensures Stays() && (r.Some? ==> state + bytesLeft == old(state + bytesLeft))
      ensures r == MessageFrom(fields, start, {}, None, old(Rest()))
      decreases bytesLeft, 5
    {
      hide SlotFrom, SlotTyped, Varint32, Skip, SetSlot, FindTag, AllSeen, Filled, CountFor, ArrayState, OneActive;
      var slots, seen: set<nat> := start, {};
      var fill: Option<Filling> := None;
      ghost var s := Rest();
      while bytesLeft > 0
        invariant Valid() && state + bytesLeft == old(state + bytesLeft) && bytesLeft <= old(bytesLeft)
        invariant MessageTyped(fields, slots) && FillingOk(fields, fill)
        invariant MessageFrom(fields, start, {}, None, s) == MessageFrom(fields, slots, seen, fill, Rest())
        decreases bytesLeft
      {
        var t := ReadVarint32();
        if t.None? { return None; }
        if t.value == 0 {
          break;
        }
        var i := FindTag(fields, t.value / 8);
        if i == |fields| {
          var ok := SkipField(t.value % 8);
          if !ok { return None; }
        } else {
          if !SwitchOk(fields, i, fill) { return None; }
          CountFits(fields, slots, i, fill);
          var count := CountFor(fields, slots, i, fill);
          var x := ReadSlot(fields[i], slots[i], count, t.value % 8);
          if x.None? { return None; }
          SetSlotTyped(fields, slots, i, x.value.0);
          FillKept(fields, i, x.value.0, x.value.1, fill);
          slots := SetSlot(fields, slots, i, x.value.0);
          seen := SeenAfter(fields, i, seen);
          fill := FillAfter(fields, i, x.value.1, fill);
        }
      }
      return if Filled(fields, fill) && AllSeen(fields, seen) then Some(slots) else None;
    }
  }

  lemma CountInRange(f: Field, items: seq<Item>, count: nat)
    requires ArrayState(f, items, count)
    ensures count <= |items| && IsArray(f.rule)
  {
  }

  lemma FillKept(fields: seq<Field>, i: nat, s: Slot, count: nat, fill: Option<Filling>)
    requires i < |fields| && FillingOk(fields, fill) && SlotTyped(fields[i], s)
    requires IsArray(fields[i].rule) ==> ArrayState(fields[i], s.items, count)
    ensures FillingOk(fields, FillAfter(fields, i, count, fill))
  {
    hide ItemTyped;
  }

  /** `pb_decode`: defaults first. */
  method Decode(fields: seq<Field>, bytes: Bytes) returns (r: Option<seq<Slot>>)
    ensures r == MessageFrom(fields, DefaultMessage(fields, |fields|), {}, None, bytes)
  {
    hide MessageFrom, MessageTyped, DefaultMessage;
    var stream := new IStream(bytes, 0, |bytes|);
    assert bytes[0..|bytes|] == bytes;
    r := stream.ReadMessage(fields, DefaultMessage(fields, |fields|));
  }
}

/** Fields that a decoder does not know (pb_decode.c, `pb_skip_field`): whatever was written for
    them is passed over whole, so an older descriptor reads what it knows of a newer message. */
module PbUnknownFields {
  import opened InternalKeys
  import opened Coding
  import opened PbMessages
  import opened PbEncode
  import opened PbDecode
  import opened PbRoundTrip

  // ---- one value ----

  lemma {:induction false} SkipsVarint(n: nat, rest: Bytes)
    ensures Skip(VARINT_TYPE, EncodeVarint(n) + rest) == Some(rest)
    decreases n
  {
    hide EncodeVarint;
    Step(n);
    var s := EncodeVarint(n) + rest;
    if n < 128 {
      assert s[1..] == rest;
    } else {
      assert s[1..] == EncodeVarint(n / 128) + rest;
      SkipsVarint(n / 128, rest);
    }
  }

  lemma SkipsPrefixed(bytes: Bytes, rest: Bytes)
    requires |bytes| < WORD
    ensures Skip(STRING_TYPE, Prefixed(bytes) + rest) == Some(rest)
  {
    hide EncodeVarint, Varint32;
    assert Prefixed(bytes) + rest == EncodeVarint(|bytes|) + (bytes + rest);
    Varint32RoundTrip(|bytes|, bytes + rest);
    assert (bytes + rest)[|bytes|..] == rest;
  }

  /** Skipping by the wire type of a data type passes over exactly one value of it. */
  lemma SkipsItem(t: DataType, x: Item, rest: Bytes)
    requires ItemTyped(t, x) && ItemBytes(t, x).Some? && |ItemBytes(t, x).value| < WORD
    ensures Skip(WireType(t), ItemBytes(t, x).value + rest) == Some(rest)
  {
    hide EncodeVarint, EncodeFixed32, EncodeFixed64, Skip, Prefixed, MessageBytes, MessageTyped, Unsigned, ZigZag;
    match t
    case BoolType => SkipsVarint(if x.b then 1 else 0, rest);
    case VarintType(size) => SkipsVarint(Unsigned(x.n), rest);
    case UvarintType(size) => SkipsVarint(x.u, rest);
    case SvarintType(size) => SkipsVarint(ZigZag(x.n), rest);
    case Fixed32 => SkipsFixed(FIXED32_TYPE, EncodeFixed32(x.u), rest);
    case Fixed64 => SkipsFixed(FIXED64_TYPE, EncodeFixed64(x.u), rest);
    case MessageType(fields) => SkipsPrefixed(MessageBytes(fields, x.slots, 0).value, rest);
    case _ => SkipsPrefixed(x.bytes, rest);
  }

  lemma SkipsFixed(wireType: nat, bytes: Bytes, rest: Bytes)
    requires (wireType == FIXED32_TYPE && |bytes| == 4) || (wireType == FIXED64_TYPE && |bytes| == 8)
    ensures Skip(wireType, bytes + rest) == Some(rest)
  {
    assert (bytes + rest)[|bytes|..] == rest;
  }

  // ---- one field ----

  predicate Unknown(fields: seq<Field>, tag: nat) {
    0 < tag < TAG_LIMIT && forall i :: 0 <= i < |fields| ==> fields[i].tag != tag
  }

  /** One round of the decoding loop on a field that is not in the descriptor. */
  lemma UnknownTag(fields: seq<Field>, cur: seq<Slot>, seen: set<nat>, fill: Option<Filling>, tag: nat, wireType: nat,
                   body: Bytes, rest: Bytes)
    requires MessageTyped(fields, cur) && FillingOk(fields, fill) && Unknown(fields, tag) && wireType < 8
    requires Skip(wireType, body) == Some(rest)
    ensures MessageFrom(fields, cur, seen, fill, TagBytes(tag, wireType) + body) ==
            MessageFrom(fields, cur, seen, fill, rest)
  {
    hide SlotFrom, SlotTyped, Varint32, TagBytes, FindTag, AllSeen, OneActive, Skip, FillingOk, Filled;
    TagIs(tag, wireType, body);
    NotFound(fields, tag);
  }

  lemma NotFound(fields: seq<Field>, tag: nat)
    requires Unknown(fields, tag)
    ensures FindTag(fields, tag) == |fields|
  {
  }

  /** An unknown array of items with a tag each. */
  lemma {:induction false} UnknownItems(fields: seq<Field>, cur: seq<Slot>, seen: set<nat>, fill: Option<Filling>,
                                        f: Field, items: seq<Item>, n: nat, more: Bytes)
    requires MessageTyped(fields, cur) && FillingOk(fields, fill) && Unknown(fields, f.tag)
    requires n <= |items| && forall x :: x in items ==> ItemTyped(f.dtype, x)
    requires var r := ItemsBytes(f.dtype, items, n, TagBytes(f.tag, WireType(f.dtype))); r.Some? && |r.value| < WORD
    ensures MessageFrom(fields, cur, seen, fill,
              ItemsBytes(f.dtype, items, n, TagBytes(f.tag, WireType(f.dtype))).value + more) ==
            MessageFrom(fields, cur, seen, fill, more)
    decreases |items| - n
  {
    hide ItemBytes, ItemTyped, ItemsBytes, MessageFrom, TagBytes, OneActive, MessageTyped, Skip, FillingOk;
    var t, tag := f.dtype, TagBytes(f.tag, WireType(f.dtype));
    ItemsStep(t, items, n, tag);
    if n == |items| {
      assert [] + more == more;
    } else {
      var first, rest := ItemBytes(t, items[n]).value, ItemsBytes(t, items, n + 1, tag).value;
      assert tag + first + rest + more == tag + (first + (rest + more));
      SkipsItem(t, items[n], rest + more);
      WireSmall(t);
      UnknownTag(fields, cur, seen, fill, f.tag, WireType(t), first + (rest + more), rest + more);
      UnknownItems(fields, cur, seen, fill, f, items, n + 1, more);
    }
  }

  /** Everything that is written for a field is passed over if the field is not known. */
  lemma UnknownSlot(fields: seq<Field>, cur: seq<Slot>, seen: set<nat>, fill: Option<Filling>, f: Field, s: Slot,
                    more: Bytes)
    requires MessageTyped(fields, cur) && FillingOk(fields, fill) && Unknown(fields, f.tag) && SlotTyped(f, s)
    requires SlotBytes(f, s).Some? && |SlotBytes(f, s).value| < WORD
    ensures MessageFrom(fields, cur, seen, fill, SlotBytes(f, s).value + more) ==
            MessageFrom(fields, cur, seen, fill, more)
  {
    hide ItemBytes, ItemTyped, ItemsBytes, MessageFrom, TagBytes, OneActive, MessageTyped, Skip, ItemIsZero, FillingOk,
      Prefixed;
    var t, tag := f.dtype, TagBytes(f.tag, WireType(f.dtype));
    WireSmall(t);
    if IsArray(f.rule) && s.items != [] && Packable(t) {
      var data := ItemsBytes(t, s.items, 0, []).value;
      PrefixedLonger(data);
      SkipsPrefixed(data, more);
      assert TagBytes(f.tag, STRING_TYPE) + Prefixed(data) + more ==
        TagBytes(f.tag, STRING_TYPE) + (Prefixed(data) + more);
      UnknownTag(fields, cur, seen, fill, f.tag, STRING_TYPE, Prefixed(data) + more, more);
    } else if IsArray(f.rule) && s.items != [] {
      UnknownItems(fields, cur, seen, fill, f, s.items, 0, more);
    } else if !IsArray(f.rule) && Present(f, s) {
      var bytes := ItemBytes(t, s.item).value;
      SkipsItem(t, s.item, more);
      assert tag + bytes + more == tag + (bytes + more);
      UnknownTag(fields, cur, seen, fill, f.tag, WireType(t), bytes + more, more);
    } else {
      assert [] + more == more;
    }
  }

  lemma PrefixedLonger(bytes: Bytes)
    ensures |Prefixed(bytes)| > |bytes|
  {
  }

  // ---- whole messages ----

  /** Positions of the fields that are known, among the first `n`. */
  function Positions(fields: seq<Field>, known: set<nat>, n: nat): (ps: seq<nat>)
    requires n <= |fields|
    ensures forall i :: 0 <= i < |ps| ==> ps[i] < n && fields[ps[i]].tag in known
    ensures forall i, j :: 0 <= i < j < |ps| ==> ps[i] < ps[j]
  {
    if n == 0 then []
    else Positions(fields, known, n - 1) + (if fields[n - 1].tag in known then [n - 1] else [])
  }

  function Pick<T>(all: seq<T>, ps: seq<nat>): (some: seq<T>)
    requires forall i :: 0 <= i < |ps| ==> ps[i] < |all|
    ensures |some| == |ps| && forall i :: 0 <= i < |ps| ==> some[i] == all[ps[i]]
  {
    seq(|ps|, i requires 0 <= i < |ps| => all[ps[i]])
  }

  /** The descriptor of the known fields, and their slots. */
  function KnownFields(fields: seq<Field>, known: set<nat>): seq<Field> {
    Pick(fields, Positions(fields, known, |fields|))
  }

  function KnownSlots(fields: seq<Field>, slots: seq<Slot>, known: set<nat>): seq<Slot>
    requires |slots| == |fields|
  {
    Pick(slots, Positions(fields, known, |fields|))
  }

  lemma {:induction false} PositionsGrow(fields: seq<Field>, known: set<nat>, n: nat, m: nat)
    requires n <= m <= |fields|
    ensures Positions(fields, known, n) <= Positions(fields, known, m)
    ensures n < m && fields[n].tag in known ==>
              |Positions(fields, known, n)| < |Positions(fields, known, m)| &&
              Positions(fields, known, m)[|Positions(fields, known, n)|] == n
  {
    if n < m {
      PositionsGrow(fields, known, n, m - 1);
    }
  }

  lemma KnownOk(fields: seq<Field>, slots: seq<Slot>, known: set<nat>)
    requires DescriptorOk(fields) && MessageTyped(fields, slots)
    ensures DescriptorOk(KnownFields(fields, known))
    ensures MessageTyped(KnownFields(fields, known), KnownSlots(fields, slots, known))
    ensures forall i :: 0 <= i < |fields| && fields[i].tag !in known ==>
              Unknown(KnownFields(fields, known), fields[i].tag)
  {
    hide FieldOk, SlotTyped, IsActive, Positions;
    var ps := Positions(fields, known, |fields|);
    var some, its := KnownFields(fields, known), KnownSlots(fields, slots, known);
    assert forall i :: 0 <= i < |some| ==> some[i] == fields[ps[i]] && its[i] == slots[ps[i]];
    forall i | 0 <= i < |some| ensures FieldOk(some[i]) && SlotTyped(some[i], its[i]) && some[i].tag in known {
      assert FieldOk(fields[ps[i]]) && SlotTyped(fields[ps[i]], slots[ps[i]]);
    }
    forall i | 0 <= i < |fields| && fields[i].tag !in known ensures Unknown(some, fields[i].tag) {
      TagFound(fields, i);
    }
  }

  /** Field `n` among those known. */
  lemma KnownAt(fields: seq<Field>, slots: seq<Slot>, known: set<nat>, n: nat)
    requires n < |fields| == |slots|
    ensures var k := |Positions(fields, known, n)|;
      && |Positions(fields, known, n + 1)| == (if fields[n].tag in known then k + 1 else k)
      && |Positions(fields, known, n + 1)| <= |KnownFields(fields, known)| == |KnownSlots(fields, slots, known)|
      && (fields[n].tag in known ==>
            k < |KnownFields(fields, known)| && KnownFields(fields, known)[k] == fields[n] &&
              KnownSlots(fields, slots, known)[k] == slots[n])
  {
    PositionsGrow(fields, known, n, |fields|);
    PositionsGrow(fields, known, n + 1, |fields|);
  }

  /** The fields from the n-th on, known and unknown, with those known before them read. */
  lemma {:induction false} KnownRest(fields: seq<Field>, slots: seq<Slot>, known: set<nat>, n: nat, seen: set<nat>,
                                     fill: Option<Filling>)
    requires DescriptorOk(fields) && MessageTyped(fields, slots) && n <= |fields|
    requires MessageBytes(fields, slots, n).Some? && |MessageBytes(fields, slots, n).value| < WORD
    requires MessageTyped(KnownFields(fields, known), KnownSlots(fields, slots, known))
    requires |Positions(fields, known, n)| <= |KnownFields(fields, known)|
    requires SeenUpTo(KnownFields(fields, known), |Positions(fields, known, n)|, seen)
    requires FillBefore(KnownFields(fields, known), |Positions(fields, known, n)|, fill)
    ensures var some, its, k := KnownFields(fields, known), KnownSlots(fields, slots, known),
                                |Positions(fields, known, n)|;
      MessageTyped(some, Mixed(some, its, k)) &&
      MessageFrom(some, Mixed(some, its, k), seen, fill, MessageBytes(fields, slots, n).value) ==
      if MessageTerminated(some, its, k) then Some(Mixed(some, its, |some|)) else None
    decreases |fields| - n
  {
    hide SlotBytes, SlotTyped, SlotTerminated, Mixed, DescriptorOk, SeenAfter, OneActive, FillPast, FillBefore,
      SeenUpTo, MessageFrom, MessageBytes, Unknown, Positions, KnownFields, KnownSlots;
    var some, its, k := KnownFields(fields, known), KnownSlots(fields, slots, known), |Positions(fields, known, n)|;
    KnownOk(fields, slots, known);
    MixedTyped(some, its, k);
    MessageBytesStep(fields, slots, n);
    if n == |fields| {
      AllKnown(fields, known);
      NothingLeft(some, its, seen, fill);
    } else {
      assert SlotTyped(fields[n], slots[n]);
      var more := MessageBytes(fields, slots, n + 1).value;
      KnownAt(fields, slots, known, n);
      if fields[n].tag in known {
        SlotRoundTrip(some, its, k, seen, fill, more);
        SeenStep(some, k, seen);
        FillStep(some, its, k, fill);
        if SlotTerminated(fields[n], slots[n]) {
          KnownRest(fields, slots, known, n + 1, SeenAfter(some, k, seen), FillPast(some, its, k, fill));
        }
      } else {
        FillBeforeOk(some, k, fill);
        UnknownSlot(some, Mixed(some, its, k), seen, fill, fields[n], slots[n], more);
        KnownRest(fields, slots, known, n + 1, seen, fill);
      }
    }
  }

  lemma AllKnown(fields: seq<Field>, known: set<nat>)
    ensures |Positions(fields, known, |fields|)| == |KnownFields(fields, known)|
  {
  }

  lemma FillBeforeOk(fields: seq<Field>, n: nat, fill: Option<Filling>)
    requires FillBefore(fields, n, fill)
    ensures FillingOk(fields, fill)
  {
  }

  /** A decoder that knows only some of the fields of a message reads exactly these: it gets
      their values in canonical form if every text in them leaves room for its terminator, and
      fails otherwise; the other fields make no difference. */
  lemma UnknownFieldsIgnored(fields: seq<Field>, slots: seq<Slot>, known: set<nat>)
    requires DescriptorOk(fields) && MessageTyped(fields, slots)
    requires MessageBytes(fields, slots, 0).Some? && |MessageBytes(fields, slots, 0).value| < WORD
    ensures var some, its := KnownFields(fields, known), KnownSlots(fields, slots, known);
      MessageTyped(some, its) &&
      MessageFrom(some, DefaultMessage(some, |some|), {}, None, MessageBytes(fields, slots, 0).value) ==
      if MessageTerminated(some, its, 0) then Some(CanonMessage(some, its, |some|)) else None
  {
    hide MessageFrom, MessageBytes, MessageTerminated, DescriptorOk, CanonSlot, DefaultSlot, OneActive, SlotTyped,
      KnownFields, KnownSlots;
    var some, its := KnownFields(fields, known), KnownSlots(fields, slots, known);
    KnownOk(fields, slots, known);
    KnownRest(fields, slots, known, 0, {}, None);
    assert Mixed(some, its, 0) == DefaultMessage(some, |some|);
    assert Mixed(some, its, |some|) == CanonMessage(some, its, |some|);
  }
}

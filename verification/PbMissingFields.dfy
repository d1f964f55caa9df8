/** Fields that a message was written without (pb_decode.c): a decoder that knows more fields than
    the writer leaves them at their defaults, and refuses the message if one of them is required. */
module PbMissingFields {
  import opened InternalKeys
  import opened Coding
  import opened PbMessages
  import opened PbEncode
  import opened PbDecode
  import opened PbRoundTrip
  import opened PbUnknownFields

  /** The message with the fields that were not written at their defaults. */
  function Blanked(fields: seq<Field>, slots: seq<Slot>, known: set<nat>): (r: seq<Slot>)
    requires |slots| == |fields|
    ensures |r| == |fields|
    ensures forall i :: 0 <= i < |fields| ==> r[i] == if fields[i].tag in known then slots[i]
            else DefaultSlot(fields[i])
  {
    seq(|fields|, i requires 0 <= i < |fields| => if fields[i].tag in known then slots[i] else DefaultSlot(fields[i]))
  }

  lemma BlankedTyped(fields: seq<Field>, slots: seq<Slot>, known: set<nat>)
    requires MessageTyped(fields, slots)
    ensures MessageTyped(fields, Blanked(fields, slots, known))
  {
    hide SlotTyped, DefaultSlot;
    var r := Blanked(fields, slots, known);
    forall i | 0 <= i < |fields| ensures SlotTyped(fields[i], r[i]) && (IsActive(r[i]) ==> IsActive(slots[i])) {
      assert SlotTyped(fields[i], slots[i]);
      DefaultInactive(fields[i]);
    }
  }

  lemma {:induction false} DefaultIsCanon(t: DataType)
    ensures ItemTyped(t, DefaultItem(t)) && CanonItem(t, DefaultItem(t)) == DefaultItem(t)
    decreases t
  {
    match t
    case MessageType(fields) =>
      var d := DefaultMessage(fields, |fields|);
      forall i | 0 <= i < |fields| ensures CanonSlot(fields[i], d[i]) == d[i] { DefaultSlotIsCanon(fields[i]); }
      assert CanonMessage(fields, d, |fields|) == d;
    case _ =>
  }

  lemma {:induction false} DefaultSlotIsCanon(f: Field)
    ensures SlotTyped(f, DefaultSlot(f)) && CanonSlot(f, DefaultSlot(f)) == DefaultSlot(f)
    decreases f
  {
    hide ItemTyped, CanonItem, DefaultItem;
    DefaultIsCanon(f.dtype);
  }

  /** Types with a value that counts as absent: none of required fields, arrays that are always
      full, or bytes of a fixed size. */
  predicate CanBeAbsent(t: DataType)
    decreases t
  {
    match t
    case FixedBytesType(size) => size == 0
    case MessageType(fields) => forall i :: 0 <= i < |fields| ==> SlotCanBeAbsent(fields[i])
    case _ => true
  }

  predicate SlotCanBeAbsent(f: Field)
    decreases f
  {
    !f.rule.Required? && !f.rule.FixedArray? && (f.rule == Optional(false) ==> CanBeAbsent(f.dtype))
  }

  /** A field without a flag is left out exactly if its type can be absent and it is, up to the
      contents of absent parts, the default. */
  lemma {:induction false} AbsentIff(t: DataType, x: Item)
    requires ItemTyped(t, x)
    ensures ItemIsZero(t, x) <==> CanBeAbsent(t) && CanonItem(t, x) == DefaultItem(t)
    decreases t
  {
    if ItemIsZero(t, x) { ZeroIsDefault(t, x); }
    if t.MessageType? {
      var fields, d := t.fields, DefaultMessage(t.fields, |t.fields|);
      var c := CanonMessage(fields, x.slots, |fields|);
      forall i | 0 <= i < |fields| ensures SlotTyped(fields[i], x.slots[i])
        ensures SlotIsZero(fields[i], x.slots[i]) <==> SlotCanBeAbsent(fields[i]) && c[i] == d[i]
      {
        SlotAbsentIff(fields[i], x.slots[i]);
      }
      assert c == d <==> forall i :: 0 <= i < |fields| ==> c[i] == d[i];
    }
  }

  lemma {:induction false} SlotAbsentIff(f: Field, s: Slot)
    requires SlotTyped(f, s)
    ensures SlotIsZero(f, s) <==> SlotCanBeAbsent(f) && CanonSlot(f, s) == DefaultSlot(f)
    decreases f
  {
    hide ItemTyped, ItemIsZero, CanonItem, DefaultItem, CanBeAbsent;
    if f.rule == Optional(false) { AbsentIff(f.dtype, s.item); }
  }

  /** The required fields written so far, by their number among the required ones. */
  ghost predicate SeenWritten(fields: seq<Field>, known: set<nat>, n: nat, seen: set<nat>)
    requires n <= |fields|
  {
    forall q: nat :: q in seen <==> exists i :: 0 <= i < n && Counts(fields, known, i, q)
  }

  /** Field `i` is required, the q-th one, tracked and written. */
  ghost predicate Counts(fields: seq<Field>, known: set<nat>, i: nat, q: nat)
    requires i < |fields|
  {
    fields[i].rule.Required? && RequiredCount(fields, i) == q < MAX_REQUIRED_FIELDS && fields[i].tag in known
  }

  /** Every required field was written, as far as the decoder keeps track of them. */
  predicate RequiredWritten(fields: seq<Field>, known: set<nat>) {
    forall i :: 0 <= i < |fields| && fields[i].rule.Required? && RequiredCount(fields, i) < MAX_REQUIRED_FIELDS ==>
      fields[i].tag in known
  }

  lemma SeenGrows(fields: seq<Field>, known: set<nat>, n: nat, seen: set<nat>)
    requires n < |fields| && SeenWritten(fields, known, n, seen)
    ensures fields[n].tag in known ==> SeenWritten(fields, known, n + 1, SeenAfter(fields, n, seen))
    ensures fields[n].tag !in known ==> SeenWritten(fields, known, n + 1, seen)
  {
    if fields[n].tag in known {
      var seen' := SeenAfter(fields, n, seen);
      forall q: nat ensures q in seen' <==> exists i :: 0 <= i < n + 1 && Counts(fields, known, i, q) {
        assert Counts(fields, known, n, q) <==>
          fields[n].rule.Required? && RequiredCount(fields, n) == q < MAX_REQUIRED_FIELDS;
      }
    } else {
      forall q: nat ensures q in seen <==> exists i :: 0 <= i < n + 1 && Counts(fields, known, i, q) { }
    }
  }

  lemma {:induction false} CountRises(fields: seq<Field>, i: nat, j: nat)
    requires i < j <= |fields|
    ensures RequiredCount(fields, i) + (if fields[i].rule.Required? then 1 else 0) <= RequiredCount(fields, j)
  {
    if i < j - 1 { CountRises(fields, i, j - 1); }
  }

  lemma {:induction false} CountReached(fields: seq<Field>, n: nat, q: nat) returns (i: nat)
    requires n <= |fields| && q < RequiredCount(fields, n)
    ensures i < n && fields[i].rule.Required? && RequiredCount(fields, i) == q
  {
    if fields[n - 1].rule.Required? && RequiredCount(fields, n - 1) == q {
      i := n - 1;
    } else {
      i := CountReached(fields, n - 1, q);
    }
  }

  lemma AllSeenIs(fields: seq<Field>, known: set<nat>, seen: set<nat>)
    requires SeenWritten(fields, known, |fields|, seen)
    ensures AllSeen(fields, seen) <==> RequiredWritten(fields, known)
  {
    hide RequiredCount;
    if AllSeen(fields, seen) {
      forall i | 0 <= i < |fields| && fields[i].rule.Required? && RequiredCount(fields, i) < MAX_REQUIRED_FIELDS
        ensures fields[i].tag in known
      {
        CountRises(fields, i, |fields|);
        var q := RequiredCount(fields, i);
        assert q in seen;
        var j :| 0 <= j < |fields| && Counts(fields, known, j, q);
        if j < i { CountRises(fields, j, i); } else if i < j { CountRises(fields, i, j); }
      }
    }
    if RequiredWritten(fields, known) {
      forall q | 0 <= q < RequiredCount(fields, |fields|) && q < MAX_REQUIRED_FIELDS ensures q in seen {
        var i := CountReached(fields, |fields|, q);
        assert Counts(fields, known, i, q);
      }
    }
  }

  /** The texts in the fields written, from the n-th on, leave room for their terminators. */
  predicate WrittenTerminated(fields: seq<Field>, slots: seq<Slot>, known: set<nat>, n: nat)
    requires MessageTyped(fields, slots)
  {
    forall i :: n <= i < |fields| && fields[i].tag in known ==> SlotTerminated(fields[i], slots[i])
  }

  /** The bytes of the known fields from the n-th on. */
  function KnownBytes(fields: seq<Field>, slots: seq<Slot>, known: set<nat>, n: nat): (r: Option<Bytes>)
    requires MessageTyped(fields, slots) && n <= |fields|
    decreases |fields| - n
  {
    if n == |fields| then Some([])
    else
      assert SlotTyped(fields[n], slots[n]);
      var rest := KnownBytes(fields, slots, known, n + 1);
      if fields[n].tag !in known then rest
      else
        var first := SlotBytes(fields[n], slots[n]);
        if first.None? || rest.None? then None else Some(first.value + rest.value)
  }

  /** It is what the writer's own descriptor gives. */
  lemma {:induction false} KnownBytesAre(fields: seq<Field>, slots: seq<Slot>, known: set<nat>, n: nat)
    requires MessageTyped(fields, slots) && n <= |fields|
    requires MessageTyped(KnownFields(fields, known), KnownSlots(fields, slots, known))
    ensures |Positions(fields, known, n)| <= |KnownFields(fields, known)|
    ensures KnownBytes(fields, slots, known, n) ==
            MessageBytes(KnownFields(fields, known), KnownSlots(fields, slots, known), |Positions(fields, known, n)|)
    decreases |fields| - n
  {
    hide SlotBytes, SlotTyped, OneActive, MessageBytes, Positions, KnownFields, KnownSlots;
    var some, its := KnownFields(fields, known), KnownSlots(fields, slots, known);
    if n == |fields| {
      AllKnown(fields, known);
      MessageBytesStep(some, its, |some|);
    } else {
      assert SlotTyped(fields[n], slots[n]);
      KnownAt(fields, slots, known, n);
      KnownBytesAre(fields, slots, known, n + 1);
      if fields[n].tag in known { MessageBytesStep(some, its, |Positions(fields, known, n)|); }
    }
  }

  lemma MixedBlank(fields: seq<Field>, slots: seq<Slot>, known: set<nat>, n: nat)
    requires n < |fields| == |slots| && fields[n].tag !in known && MessageTyped(fields, Blanked(fields, slots, known))
    ensures var blank := Blanked(fields, slots, known); Mixed(fields, blank, n + 1) == Mixed(fields, blank, n)
  {
    hide CanonSlot, DefaultSlot, OneActive, SlotTyped;
    DefaultSlotIsCanon(fields[n]);
    MixedSame(fields, Blanked(fields, slots, known), n);
  }

  lemma EndOfMessage(fields: seq<Field>, cur: seq<Slot>, seen: set<nat>, fill: Option<Filling>)
    requires MessageTyped(fields, cur) && FillBefore(fields, |fields|, fill)
    ensures FillingOk(fields, fill)
    ensures MessageFrom(fields, cur, seen, fill, []) == if AllSeen(fields, seen) then Some(cur) else None
  {
    hide SlotTyped, OneActive, AllSeen;
  }

  lemma FillLater(fields: seq<Field>, n: nat, fill: Option<Filling>)
    requires FillBefore(fields, n, fill)
    ensures FillBefore(fields, n + 1, fill) && FillingOk(fields, fill)
  {
  }

  /** Reading the fields that were written, from the n-th on. */
  lemma {:induction false} NewerRest(fields: seq<Field>, slots: seq<Slot>, known: set<nat>, n: nat, seen: set<nat>,
                                     fill: Option<Filling>)
    requires DescriptorOk(fields) && MessageTyped(fields, slots) && n <= |fields| && FillBefore(fields, n, fill)
    requires KnownBytes(fields, slots, known, n).Some? && |KnownBytes(fields, slots, known, n).value| < WORD
    requires SeenWritten(fields, known, n, seen)
    requires MessageTyped(fields, Blanked(fields, slots, known))
    ensures var blank := Blanked(fields, slots, known);
      && MessageTyped(fields, Mixed(fields, blank, n)) && FillingOk(fields, fill)
      && MessageFrom(fields, Mixed(fields, blank, n), seen, fill, KnownBytes(fields, slots, known, n).value) ==
         if WrittenTerminated(fields, slots, known, n) && RequiredWritten(fields, known)
         then Some(Mixed(fields, blank, |fields|)) else None
    decreases |fields| - n
  {
    hide SlotBytes, SlotTyped, SlotTerminated, Mixed, DescriptorOk, SeenAfter, OneActive, FillPast, FillBefore,
      MessageFrom, SeenWritten, RequiredWritten, FillingOk, AllSeen;
    var blank := Blanked(fields, slots, known);
    MixedTyped(fields, blank, n);
    FillLater(fields, n, fill);
    if n == |fields| {
      EndOfMessage(fields, Mixed(fields, blank, n), seen, fill);
      AllSeenIs(fields, known, seen);
    } else {
      assert SlotTyped(fields[n], slots[n]) && SlotTyped(fields[n], blank[n]);
      SeenGrows(fields, known, n, seen);
      if fields[n].tag in known {
        SlotRoundTrip(fields, blank, n, seen, fill, KnownBytes(fields, slots, known, n + 1).value);
        FillStep(fields, blank, n, fill);
        if SlotTerminated(fields[n], slots[n]) {
          NewerRest(fields, slots, known, n + 1, SeenAfter(fields, n, seen), FillPast(fields, blank, n, fill));
        }
      } else {
        MixedBlank(fields, slots, known, n);
        NewerRest(fields, slots, known, n + 1, seen, fill);
      }
    }
  }

  /** A decoder that knows all fields reads a message written with some of them: it gets those in
      canonical form and the others at their defaults, exactly if every text written leaves room
      for its terminator and every required field, of the first 64, was written. */
  lemma MissingFieldsDefault(fields: seq<Field>, slots: seq<Slot>, known: set<nat>)
    requires DescriptorOk(fields) && MessageTyped(fields, slots)
    ensures MessageTyped(KnownFields(fields, known), KnownSlots(fields, slots, known))
    ensures MessageTyped(fields, Blanked(fields, slots, known))
    ensures var m := MessageBytes(KnownFields(fields, known), KnownSlots(fields, slots, known), 0);
      m.Some? && |m.value| < WORD ==>
        MessageFrom(fields, DefaultMessage(fields, |fields|), {}, None, m.value) ==
        if WrittenTerminated(fields, slots, known, 0) && RequiredWritten(fields, known)
        then Some(CanonMessage(fields, Blanked(fields, slots, known), |fields|)) else None
  {
    hide MessageFrom, MessageBytes, DescriptorOk, CanonSlot, DefaultSlot, OneActive, SlotTyped, KnownFields, KnownSlots,
      WrittenTerminated, RequiredWritten, KnownBytes;
    KnownOk(fields, slots, known);
    BlankedTyped(fields, slots, known);
    KnownBytesAre(fields, slots, known, 0);
    var m := KnownBytes(fields, slots, known, 0);
    if m.Some? && |m.value| < WORD {
      var blank := Blanked(fields, slots, known);
      NewerRest(fields, slots, known, 0, {}, None);
      assert Mixed(fields, blank, 0) == DefaultMessage(fields, |fields|);
      assert Mixed(fields, blank, |fields|) == CanonMessage(fields, blank, |fields|);
    }
  }

  /** An empty message decodes exactly if no field is required. */
  lemma EmptyMessage(fields: seq<Field>)
    ensures MessageFrom(fields, DefaultMessage(fields, |fields|), {}, None, []).Some? <==>
            forall i :: 0 <= i < |fields| ==> !fields[i].rule.Required?
  {
    hide DefaultMessage, SlotTyped, OneActive, RequiredCount, MessageFrom;
    EndOfMessage(fields, DefaultMessage(fields, |fields|), {}, None);
    FirstRequired(fields, |fields|);
    NothingSeen(fields, {});
  }

  lemma NothingSeen(fields: seq<Field>, seen: set<nat>)
    requires seen == {}
    ensures AllSeen(fields, seen) <==> RequiredCount(fields, |fields|) == 0
  {
    hide RequiredCount;
    var first: nat := 0;
    assert first !in seen;
  }

  lemma {:induction false} FirstRequired(fields: seq<Field>, n: nat)
    requires n <= |fields|
    ensures RequiredCount(fields, n) == 0 <==> forall i :: 0 <= i < n ==> !fields[i].rule.Required?
  {
    if n > 0 { FirstRequired(fields, n - 1); }
  }
}

/** Messages of nanopb (Market/Pods/nanopb): field descriptors, and typed values in place of C
    structs.  Static allocation only. */
module PbMessages {
  import opened Coding

  const VARINT_TYPE: nat := 0
  const FIXED64_TYPE: nat := 1
  const STRING_TYPE: nat := 2
  const FIXED32_TYPE: nat := 5

  /** Largest value of the size type, which the app's build makes 32 bits wide
      (`PB_FIELD_32BIT`), and what a bytes array stores before its bytes. */
  const SIZE_MAX: nat := 0xFFFF_FFFF
  const BYTES_OFFSET: nat := 4
  const MAX_REQUIRED_FIELDS: nat := 64

  /** Tags have 29 bits, as a tag and a wire type together fill 32. */
  const TAG_LIMIT: nat := 0x2000_0000

  // ---- descriptors ----

  /** The data type of a field; `size` is the width of an integer or the room of an array. */
  datatype DataType =
    | BoolType
    | VarintType(size: nat)
    | UvarintType(size: nat)
    | SvarintType(size: nat)
    | Fixed32
    | Fixed64
    | BytesType(size: nat)
    | StringType(size: nat)
    | MessageType(fields: seq<Field>)
    | FixedBytesType(size: nat)

  /** How often a field occurs. Optional fields have a flag (proto2) or are left out when zero
      (proto3); an array has room for so many items and a count, or is always full; the members
      of a oneof share its number. */
  datatype Rule = Required | Optional(hasFlag: bool) | Repeated(room: nat) | FixedArray(room: nat) | OneOf(group: nat)

  predicate IsArray(r: Rule) {
    r.Repeated? || r.FixedArray?
  }

  datatype Field = Field(tag: nat, rule: Rule, dtype: DataType)

  predicate Packable(t: DataType) {
    t.BoolType? || t.VarintType? || t.UvarintType? || t.SvarintType? || t.Fixed32? || t.Fixed64?
  }

  function WireType(t: DataType): nat {
    match t
    case Fixed32 => FIXED32_TYPE
    case Fixed64 => FIXED64_TYPE
    case BytesType(_) => STRING_TYPE
    case StringType(_) => STRING_TYPE
    case MessageType(_) => STRING_TYPE
    case FixedBytesType(_) => STRING_TYPE
    case _ => VARINT_TYPE
  }

  predicate WidthOk(size: nat) {
    size == 1 || size == 2 || size == 4 || size == 8
  }

  /** Tags are distinct, not zero and fit 29 bits, at every level. */
  predicate DescriptorOk(fields: seq<Field>)
    decreases fields
  {
    && (forall i :: 0 <= i < |fields| ==> FieldOk(fields[i]))
    && (forall i, j :: 0 <= i < j < |fields| ==> fields[i].tag != fields[j].tag)
  }

  predicate FieldOk(f: Field)
    decreases f
  {
    0 < f.tag < TAG_LIMIT && DataTypeOk(f.dtype)
  }

  predicate DataTypeOk(t: DataType)
    decreases t
  {
    match t
    case VarintType(size) => WidthOk(size)
    case UvarintType(size) => WidthOk(size)
    case SvarintType(size) => WidthOk(size)
    case MessageType(fields) => DescriptorOk(fields)
    case FixedBytesType(size) => size <= SIZE_MAX
    case _ => true
  }

  // ---- values ----

  /** One value of a field; texts and byte arrays are what they hold. */
  datatype Item =
    | BoolItem(b: bool)
    | IntItem(n: int)
    | UintItem(u: nat)
    | BytesItem(bytes: Bytes)
    | MessageItem(slots: seq<Slot>)

  /** What a struct holds for one field. */
  datatype Slot =
    | Single(item: Item)                    // required, or optional without a flag
    | Flagged(has: bool, item: Item)
    | Items(items: seq<Item>)               // as many as the count says
    | Choice(active: bool, item: Item)      // a member of a oneof

  function Half(size: nat): int {
    if size == 1 then 0x80 else if size == 2 then 0x8000 else if size == 4 then 0x8000_0000 else 0x8000_0000_0000_0000
  }

  predicate IntFits(n: int, size: nat) {
    -Half(size) <= n < Half(size)
  }

  predicate UintFits(u: nat, size: nat) {
    u < 2 * Half(size)
  }

  /** The value is of the C type that the descriptor names. */
  predicate ItemTyped(t: DataType, x: Item)
    decreases t
  {
    match t
    case BoolType => x.BoolItem?
    case VarintType(size) => x.IntItem? && IntFits(x.n, size)
    case UvarintType(size) => x.UintItem? && UintFits(x.u, size)
    case SvarintType(size) => x.IntItem? && IntFits(x.n, size)
    case Fixed32 => x.UintItem? && x.u < WORD
    case Fixed64 => x.UintItem? && x.u < DOUBLE_WORD
    case BytesType(size) => x.BytesItem? && |x.bytes| <= SIZE_MAX
    case StringType(size) => x.BytesItem? && |x.bytes| <= size && 0 !in x.bytes
    case MessageType(fields) => x.MessageItem? && MessageTyped(fields, x.slots)
    case FixedBytesType(size) => x.BytesItem? && |x.bytes| == size
  }

  predicate SlotTyped(f: Field, s: Slot)
    decreases f, 0
  {
    match f.rule
    case Required => s.Single? && ItemTyped(f.dtype, s.item)
    case Optional(hasFlag) => (if hasFlag then s.Flagged? else s.Single?) && ItemTyped(f.dtype, s.item)
    case Repeated(_) => s.Items? && forall x :: x in s.items ==> ItemTyped(f.dtype, x)
    case FixedArray(room) => s.Items? && |s.items| == room && forall x :: x in s.items ==> ItemTyped(f.dtype, x)
    case OneOf(_) => s.Choice? && ItemTyped(f.dtype, s.item)
  }

  predicate MessageTyped(fields: seq<Field>, slots: seq<Slot>)
    decreases fields
  {
    |slots| == |fields| && OneActive(fields, slots) && forall i :: 0 <= i < |fields| ==> SlotTyped(fields[i], slots[i])
  }

  /** The tag that a oneof stores picks one of its members. */
  predicate OneActive(fields: seq<Field>, slots: seq<Slot>)
    requires |slots| == |fields|
  {
    forall i, j :: 0 <= i < j < |fields| && fields[i].rule.OneOf? && fields[i].rule == fields[j].rule ==>
      !(IsActive(slots[i]) && IsActive(slots[j]))
  }

  predicate IsActive(s: Slot) {
    s.Choice? && s.active
  }
}

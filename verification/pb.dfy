/** nanopb messages (pb.h): field descriptors, message values, and the encoding that the
    Protocol Buffers Encoding specification gives them ("Base 128 Varints", "Message
    Structure").  Fields are statically allocated, and a descriptor is a tree. */
module Pb {
  import opened InternalKey
  import opened Coding

  // ----- Descriptors -----

  /** The LTYPE of a field, with its data_size. */
  datatype Kind =
    | Bool
    | Varint(size: nat)  // 1, 2, 4 or 8 bytes
    | Uvarint(size: nat)
    | Svarint(size: nat)
    | Fixed32
    | Fixed64
    | ByteArray(capacity: nat)
    | String(capacity: nat)  // with the terminator
    | FixedLengthBytes(size: nat)
    | Submessage(fields: seq<Field>)

  /** The HTYPE of a field, with its array_size or its union. */
  datatype Rule =
    | Required
    | Optional  // with a has_ flag
    | Implicit  // proto3: present when it is not zero
    | Repeated(max: nat)
    | FixedCount(count: nat)
    | Oneof(group: nat)

  datatype Field = Field(tag: nat, kind: Kind, rule: Rule)

  /** Kinds that go packed into one length-delimited record. */
  predicate Packable(k: Kind) {
    k.Bool? || k.Varint? || k.Uvarint? || k.Svarint? || k.Fixed32? || k.Fixed64?
  }

  predicate IsArray(r: Rule) {
    r.Repeated? || r.FixedCount?
  }

  const WT_VARINT := 0
  const WT_64BIT := 1
  const WT_STRING := 2
  const WT_32BIT := 5

  function WireType(k: Kind): nat {
    match k
    case Fixed32 => WT_32BIT
    case Fixed64 => WT_64BIT
    case ByteArray(_) => WT_STRING
    case String(_) => WT_STRING
    case FixedLengthBytes(_) => WT_STRING
    case Submessage(_) => WT_STRING
    case _ => WT_VARINT
  }

  // ----- Values -----

  /** What a field holds: one slot for each field of a message, with the values that are
      present in it. */
  datatype Value = Number(n: int) | Blob(bytes: Bytes) | Message(slots: seq<Slot>)
  type Slot = seq<Value>

  const TWO63: nat := 0x8000_0000_0000_0000
  const TWO64: nat := 0x1_0000_0000_0000_0000
  const TWO32: nat := 0x1_0000_0000

  predicate IsSize(size: nat) {
    size == 1 || size == 2 || size == 4 || size == 8
  }

  function Half(size: nat): nat {
    if size == 1 then 0x80 else if size == 2 then 0x8000 else if size == 4 then 0x8000_0000 else TWO63
  }

  /** The value can be held by a field of this kind. */
  predicate HasKind(k: Kind, v: Value)
    decreases k, 2
  {
    match k
    case Bool => v.Number? && (v.n == 0 || v.n == 1)
    case Varint(size) => IsSize(size) && v.Number? && -(Half(size) as int) <= v.n < Half(size)
    case Svarint(size) => IsSize(size) && v.Number? && -(Half(size) as int) <= v.n < Half(size)
    case Uvarint(size) => IsSize(size) && v.Number? && 0 <= v.n < 2 * Half(size)
    case Fixed32 => v.Number? && 0 <= v.n < TWO32
    case Fixed64 => v.Number? && 0 <= v.n < TWO64
    case ByteArray(capacity) => v.Blob? && |v.bytes| <= capacity
    case String(capacity) => v.Blob? && |v.bytes| + 1 <= capacity && 0 !in v.bytes
    case FixedLengthBytes(size) => v.Blob? && |v.bytes| == size
    case Submessage(fields) => v.Message? && HasFields(k, v.slots)
  }

  predicate HasFields(k: Kind, slots: seq<Slot>)
    requires k.Submessage?
    decreases k, 1
  {
    && |slots| == |k.fields|
    && (forall i :: 0 <= i < |slots| ==> HasRule(k.fields[i], slots[i]))
    && forall i, j :: 0 <= i < j < |slots| && slots[i] != [] && slots[j] != []
                      && k.fields[i].rule.Oneof? && k.fields[j].rule.Oneof? ==>
         k.fields[i].rule.group != k.fields[j].rule.group
  }

  predicate HasRule(f: Field, slot: Slot)
    decreases f
  {
    && (match f.rule
        case Required => |slot| == 1
        case Optional => |slot| <= 1
        case Implicit => |slot| == 1
        case Repeated(max) => |slot| <= max
        case FixedCount(count) => |slot| == count
        case Oneof(_) => |slot| <= 1)
    && forall j :: 0 <= j < |slot| ==> HasKind(f.kind, slot[j])
  }

  // ----- Defaults -----

  /** What pb_message_set_to_defaults leaves, all defaults being zero. */
  function Default(k: Kind): Value
    decreases k, 2
  {
    match k
    case ByteArray(_) => Blob([])
    case String(_) => Blob([])
    case FixedLengthBytes(size) => Blob(seq(size, _ => 0))
    case Submessage(fields) => Message(DefaultSlots(k))
    case _ => Number(0)
  }

  /** Numbers are zero, strings and blobs empty, and bytes of a fixed length all zero. */
  lemma DefaultIsZero(k: Kind)
    ensures match k
      case ByteArray(_) => Default(k) == Blob([])
      case String(_) => Default(k) == Blob([])
      case FixedLengthBytes(size) => Default(k).Blob? && |Default(k).bytes| == size && forall b :: b in Default(k).bytes ==> b == 0
      case Submessage(fields) => Default(k).Message? && |Default(k).slots| == |fields|
      case _ => Default(k) == Number(0)
  {
  }

  function DefaultSlots(k: Kind): (r: seq<Slot>)
    requires k.Submessage?
    ensures |r| == |k.fields|
    decreases k, 1
  {
    seq(|k.fields|, i requires 0 <= i < |k.fields| => DefaultSlot(k.fields[i]))
  }

  function DefaultSlot(f: Field): Slot
    decreases f
  {
    match f.rule
    case Required => [Default(f.kind)]
    case Implicit => [Default(f.kind)]
    case FixedCount(count) => var d := Default(f.kind); seq(count, _ => d)
    case _ => []
  }

  /** pb_check_proto3_default_value on a field that holds `v`. */
  predicate IsZero(k: Kind, v: Value)
    decreases k, 0
  {
    match k
    case FixedLengthBytes(size) => size == 0
    case Submessage(fields) =>
      v.Message? && |v.slots| == |fields| && forall i :: 0 <= i < |fields| ==> IsZeroSlot(fields[i], v.slots[i])
    case _ => (v.Number? && v.n == 0) || (v.Blob? && v.bytes == [])
  }

  predicate IsZeroSlot(f: Field, slot: Slot)
    decreases f
  {
    match f.rule
    case Required => false
    case FixedCount(_) => false
    case Implicit => |slot| == 1 && IsZero(f.kind, slot[0])
    case _ => slot == []
  }

  /** A value that is skipped is the one that the decoder starts from. */
  lemma {:induction false} ZeroIsDefault(k: Kind, v: Value)
    requires HasKind(k, v) && IsZero(k, v)
    ensures v == Default(k)
    decreases k, 0
  {
    if k.Submessage? {
      forall i | 0 <= i < |k.fields|
        ensures v.slots[i] == DefaultSlot(k.fields[i])
      {
        assert HasRule(k.fields[i], v.slots[i]) && IsZeroSlot(k.fields[i], v.slots[i]);
        if k.fields[i].rule.Implicit? {
          ZeroIsDefault(k.fields[i].kind, v.slots[i][0]);
        }
      }
      assert v.slots == DefaultSlots(k);
    } else if k.FixedLengthBytes? {
      assert v.bytes == [];
    }
  }

  // ----- The encoding -----

  /** The low 64 bits of a signed number. */
  function Unsigned64(n: int): nat {
    n % TWO64
  }

  function ZigZag(n: int): nat {
    if n < 0 then -2 * n - 1 else 2 * n
  }

  function EncodeTag(wireType: nat, tag: nat): Bytes {
    Coding.Varint(tag * 8 + wireType)
  }

  function EncodeValue(k: Kind, v: Value): Bytes
    requires HasKind(k, v)
    decreases k, 2, 0
  {
    match k
    case Bool => Coding.Varint(v.n)
    case Varint(_) => Coding.Varint(Unsigned64(v.n))
    case Uvarint(_) => Coding.Varint(v.n)
    case Svarint(_) => Coding.Varint(ZigZag(v.n))
    case Fixed32 => Fixed(v.n, 4)
    case Fixed64 => Fixed(v.n, 8)
    case Submessage(_) => LengthPrefixed(EncodeMessage(k, v.slots))
    case _ => LengthPrefixed(v.bytes)
  }

  /** The values of an array one after the other, each with its tag or without. */
  function EncodeItems(f: Field, slot: Slot, tagged: bool): Bytes
    requires forall j :: 0 <= j < |slot| ==> HasKind(f.kind, slot[j])
    decreases f, |slot|
  {
    if slot == [] then []
    else
      var n := |slot| - 1;
      EncodeItems(f, slot[..n], tagged)
      + ((if tagged then EncodeTag(WireType(f.kind), f.tag) else []) + EncodeValue(f.kind, slot[n]))
  }

  function EncodeSlot(f: Field, slot: Slot): Bytes
    requires HasRule(f, slot)
    decreases f, |slot| + 1
  {
    if slot == [] || (f.rule.Implicit? && IsZero(f.kind, slot[0])) then []
    else if IsArray(f.rule) && Packable(f.kind) then
      EncodeTag(WT_STRING, f.tag) + LengthPrefixed(EncodeItems(f, slot, false))
    else EncodeItems(f, slot, true)
  }

  /** The first `n` fields. */
  function EncodeFields(k: Kind, slots: seq<Slot>, n: nat): Bytes
    requires k.Submessage? && HasFields(k, slots) && n <= |slots|
    decreases k, 1, n
  {
    if n == 0 then [] else EncodeFields(k, slots, n - 1) + EncodeSlot(k.fields[n - 1], slots[n - 1])
  }

  function EncodeMessage(k: Kind, slots: seq<Slot>): Bytes
    requires k.Submessage? && HasFields(k, slots)
    decreases k, 1, |slots| + 1
  {
    EncodeFields(k, slots, |slots|)
  }

  function ItemBytes(f: Field, v: Value, tagged: bool): Bytes
    requires HasKind(f.kind, v)
  {
    (if tagged then EncodeTag(WireType(f.kind), f.tag) else []) + EncodeValue(f.kind, v)
  }

  lemma {:induction false} ItemsPrefix(f: Field, slot: Slot, tagged: bool, i: nat, j: nat)
    requires i <= j <= |slot| && forall a :: 0 <= a < |slot| ==> HasKind(f.kind, slot[a])
    ensures EncodeItems(f, slot[..i], tagged) <= EncodeItems(f, slot[..j], tagged)
    decreases j
  {
    hide HasKind, EncodeValue;
    if i < j {
      ItemsPrefix(f, slot, tagged, i, j - 1);
      assert slot[..j][..j - 1] == slot[..j - 1];
    }
  }

  lemma {:induction false} FieldsPrefix(k: Kind, slots: seq<Slot>, m: nat, n: nat)
    requires k.Submessage? && HasFields(k, slots) && m <= n <= |slots|
    ensures EncodeFields(k, slots, m) <= EncodeFields(k, slots, n)
  {
    hide HasFields, EncodeSlot;
    if m < n {
      FieldsPrefix(k, slots, m, n - 1);
    }
  }

  // ----- Which fields are left out -----

  /** A number, a blob or a string is left out exactly when it is the default. */
  lemma ScalarIsZero(k: Kind, v: Value)
    requires HasKind(k, v) && !k.Submessage?
    ensures IsZero(k, v) <==> v == Default(k) && (k.FixedLengthBytes? ==> k.size == 0)
  {
    if k.FixedLengthBytes? && k.size == 0 {
      assert v.bytes == [];
    }
  }

  /** A field of the message has a fixed count of nothing. */
  predicate HasEmptyArrays(fields: seq<Field>) {
    exists i :: 0 <= i < |fields| && fields[i].rule == FixedCount(0)
  }

  lemma {:induction false} FieldsAreEmpty(k: Kind, slots: seq<Slot>, n: nat)
    requires k.Submessage? && HasFields(k, slots) && n <= |slots|
    ensures EncodeFields(k, slots, n) == [] <==>
      forall i :: 0 <= i < n ==> HasRule(k.fields[i], slots[i]) && EncodeSlot(k.fields[i], slots[i]) == []
  {
    hide HasRule, EncodeSlot, HasFields;
    if n > 0 {
      FieldsAreEmpty(k, slots, n - 1);
      SlotHasRule(k, slots, n - 1);
    }
  }

  lemma SlotHasRule(k: Kind, slots: seq<Slot>, i: nat)
    requires k.Submessage? && HasFields(k, slots) && i < |slots|
    ensures |slots| == |k.fields| && HasRule(k.fields[i], slots[i])
  {
  }

  lemma SlotIsEmpty(f: Field, slot: Slot)
    requires HasRule(f, slot)
    ensures IsZeroSlot(f, slot) ==> EncodeSlot(f, slot) == []
    ensures EncodeSlot(f, slot) == [] && f.rule != FixedCount(0) ==> IsZeroSlot(f, slot)
  {
    hide HasKind, EncodeValue, IsZero, LengthPrefixed;
    assert |EncodeTag(WT_STRING, f.tag)| >= 1 && |EncodeTag(WireType(f.kind), f.tag)| >= 1;
    if slot != [] {
      var before := EncodeItems(f, slot[..|slot| - 1], true);
      assert |EncodeItems(f, slot, true)| >= |before| + 1;
    }
  }

  /** A message in a field is left out exactly when there is nothing to write of it. */
  lemma MessageIsZero(k: Kind, v: Value)
    requires k.Submessage? && HasKind(k, v) && !HasEmptyArrays(k.fields)
    ensures IsZero(k, v) <==> EncodeMessage(k, v.slots) == []
  {
    hide HasRule, EncodeSlot, IsZeroSlot;
    FieldsAreEmpty(k, v.slots, |v.slots|);
    forall i | 0 <= i < |v.slots|
      ensures IsZeroSlot(k.fields[i], v.slots[i]) <==> HasRule(k.fields[i], v.slots[i]) && EncodeSlot(k.fields[i], v.slots[i]) == []
    {
      SlotHasRule(k, v.slots, i);
      SlotIsEmpty(k.fields[i], v.slots[i]);
    }
  }
}

/** The wire format of Protocol Buffers as its Encoding specification has it ("Message Structure"),
    without descriptors: what any reader makes of an encoded message. */
module PbWire {
  import opened InternalKey
  import opened Coding
  import opened Pb
  import opened PbRoundTrip

  /** A field number, a wire type and the bytes of the value, without a length in front. */
  datatype Record = Record(tag: nat, wireType: nat, payload: Bytes)

  // ----- The rule for each wire type -----

  /** Where the varint ends: at the first byte below 128. */
  function VarintEnd(s: Bytes, p: nat): (r: Option<nat>)
    ensures r.Some? ==> p < r.value <= |s|
    decreases |s| - p
  {
    if p >= |s| then None else if s[p] < 128 then Some(p + 1) else VarintEnd(s, p + 1)
  }

  /** The payload and where it ends: 0 is one varint, 1 eight bytes, 2 a length and as many bytes,
      5 four bytes. */
  function ReadPayload(wireType: nat, s: Bytes, p: nat): (r: Option<(Bytes, nat)>)
    ensures r.Some? ==> p < r.value.1 <= |s|
  {
    if wireType == 0 then
      match VarintEnd(s, p) case None => None case Some(q) => Some((s[p..q], q))
    else if wireType == 1 then
      if p + 8 <= |s| then Some((s[p..p + 8], p + 8)) else None
    else if wireType == 2 then
      match ReadVarint(s, p, |s|, 10)
      case None => None
      case Some(n) => if n.next + n.value <= |s| then Some((s[n.next..n.next + n.value], n.next + n.value)) else None
    else if wireType == 5 then
      if p + 4 <= |s| then Some((s[p..p + 4], p + 4)) else None
    else None
  }

  /** One record: a key, whose low three bits are the wire type, and the payload. */
  function ReadRecord(s: Bytes, p: nat): (r: Option<(Record, nat)>)
    ensures r.Some? ==> p < r.value.1 <= |s|
  {
    match ReadVarint(s, p, |s|, 10)
    case None => None
    case Some(key) =>
      match ReadPayload(key.value % 8, s, key.next)
      case None => None
      case Some(found) => Some((Record(key.value / 8, key.value % 8, found.0), found.1))
  }

  function Parse(s: Bytes, p: nat): Option<seq<Record>>
    requires p <= |s|
    decreases |s| - p
  {
    if p == |s| then Some([])
    else
      match ReadRecord(s, p)
      case None => None
      case Some(found) =>
        match Parse(s, found.1)
        case None => None
        case Some(rest) => Some([found.0] + rest)
  }

  // ----- What a message is to be on the wire -----

  /** The table of wire types: VARINT 0, I64 1, LEN 2, I32 5. */
  function TypeOnWire(k: Kind): nat {
    if k.Bool? || k.Varint? || k.Uvarint? || k.Svarint? then 0
    else if k.Fixed64? then 1
    else if k.Fixed32? then 5
    else 2
  }

  /** The bytes of a value: numbers as varints or in fixed width, and the rest as it is. */
  function Payload(k: Kind, v: Value): Bytes
    requires HasKind(k, v)
  {
    match k
    case Bool => Coding.Varint(v.n)
    case Varint(_) => Coding.Varint(if v.n < 0 then v.n + 0x1_0000_0000_0000_0000 else v.n)
    case Uvarint(_) => Coding.Varint(v.n)
    case Svarint(_) => Coding.Varint(if v.n < 0 then -2 * v.n - 1 else 2 * v.n)
    case Fixed32 => Fixed(v.n, 4)
    case Fixed64 => Fixed(v.n, 8)
    case Submessage(_) => EncodeMessage(k, v.slots)
    case _ => v.bytes
  }

  /** Nothing but the values. */
  function Packed(k: Kind, slot: Slot): Bytes
    requires forall j :: 0 <= j < |slot| ==> HasKind(k, slot[j])
  {
    if slot == [] then [] else Packed(k, slot[..|slot| - 1]) + Payload(k, slot[|slot| - 1])
  }

  function RecordsOfItems(f: Field, slot: Slot): (r: seq<Record>)
    requires forall j :: 0 <= j < |slot| ==> HasKind(f.kind, slot[j])
  {
    seq(|slot|, j requires 0 <= j < |slot| => Record(f.tag, TypeOnWire(f.kind), Payload(f.kind, slot[j])))
  }

  /** Arrays of numbers go in one record of type 2; a proto3 field that is zero is left out. */
  function RecordsOfSlot(f: Field, slot: Slot): seq<Record>
    requires HasRule(f, slot)
  {
    if slot == [] || (f.rule.Implicit? && IsZero(f.kind, slot[0])) then []
    else if (f.rule.Repeated? || f.rule.FixedCount?) && TypeOnWire(f.kind) != 2 then [Record(f.tag, 2, Packed(f.kind, slot))]
    else RecordsOfItems(f, slot)
  }

  function RecordsOf(k: Kind, slots: seq<Slot>, n: nat): seq<Record>
    requires k.Submessage? && HasFields(k, slots) && n <= |slots|
  {
    if n == 0 then [] else RecordsOf(k, slots, n - 1) + RecordsOfSlot(k.fields[n - 1], slots[n - 1])
  }

  // ----- What is written is that -----

  lemma {:induction false} EndOfVarint(v: nat, s: Bytes, p: nat)
    requires HoldsAt(s, p, Coding.Varint(v))
    ensures VarintEnd(s, p) == Some(p + |Coding.Varint(v)|)
  {
    if v >= 128 {
      HoldsParts(s, p, [v % 128 + 128], Coding.Varint(v / 128));
      assert s[p] == s[p..p + |Coding.Varint(v)|][0];
      EndOfVarint(v / 128, s, p + 1);
    } else {
      assert s[p] == s[p..p + 1][0];
    }
  }

  lemma VarintIsRead(v: nat, s: Bytes, p: nat)
    requires v < TWO64 && HoldsAt(s, p, Coding.Varint(v))
    ensures ReadVarint(s, p, |s|, 10) == Some(Parsed(v, p + |Coding.Varint(v)|))
  {
    Powers();
    VarintRoundTrip(v, s, p, |s|, 10);
  }

  lemma LengthIsRead(data: Bytes, s: Bytes, p: nat)
    requires |data| < TWO32 && HoldsAt(s, p, LengthPrefixed(data))
    ensures ReadPayload(2, s, p) == Some((data, p + |LengthPrefixed(data)|))
  {
    hide ReadVarint, Coding.Varint;
    HoldsParts(s, p, Coding.Varint(|data|), data);
    VarintIsRead(|data|, s, p);
  }

  /** The value of a field, by the rule of its wire type. */
  lemma ValueIsRead(k: Kind, v: Value, s: Bytes, p: nat)
    requires HasKind(k, v) && ValueFits(k, v) && HoldsAt(s, p, EncodeValue(k, v))
    ensures ReadPayload(TypeOnWire(k), s, p) == Some((Payload(k, v), p + |EncodeValue(k, v)|))
    ensures TypeOnWire(k) != 2 ==> EncodeValue(k, v) == Payload(k, v)
  {
    hide Coding.Varint, ReadVarint, VarintEnd, EncodeMessage, LengthPrefixed, HasFields, Fixed;
    if TypeOnWire(k) == 2 {
      LengthIsRead(Payload(k, v), s, p);
    } else if TypeOnWire(k) == 0 {
      var n := NumberOf(k, v);
      EndOfVarint(n, s, p);
    }
  }

  lemma NumberOf(k: Kind, v: Value) returns (n: nat)
    requires HasKind(k, v) && TypeOnWire(k) == 0
    ensures Payload(k, v) == EncodeValue(k, v) == Coding.Varint(n)
  {
    hide Coding.Varint;
    n := if k.Varint? then Unsigned64(v.n) else if k.Svarint? then ZigZag(v.n) else v.n;
  }

  /** A key, whose tag and wire type come back. */
  lemma KeyIsRead(wireType: nat, tag: nat, s: Bytes, p: nat)
    requires wireType < 8 && tag < TAG_LIMIT && HoldsAt(s, p, EncodeTag(wireType, tag))
    ensures var key := ReadVarint(s, p, |s|, 10);
      key.Some? && key.value.next == p + |EncodeTag(wireType, tag)| && key.value.value / 8 == tag
      && key.value.value % 8 == wireType
  {
    hide Coding.Varint, ReadVarint;
    VarintIsRead(tag * 8 + wireType, s, p);
  }

  /** An item is one record, of the wire type that the table has for its kind. */
  lemma ItemIsRecord(f: Field, v: Value, s: Bytes, p: nat)
    requires HasKind(f.kind, v) && ValueFits(f.kind, v) && f.tag < TAG_LIMIT && HoldsAt(s, p, ItemBytes(f, v, true))
    ensures ReadRecord(s, p) == Some((Record(f.tag, TypeOnWire(f.kind), Payload(f.kind, v)), p + |ItemBytes(f, v, true)|))
  {
    hide ReadVarint, HoldsAt, EncodeTag, EncodeValue, Payload, ReadPayload, HasKind, ValueFits;
    HoldsParts(s, p, EncodeTag(WireType(f.kind), f.tag), EncodeValue(f.kind, v));
    KeyIsRead(WireType(f.kind), f.tag, s, p);
    ValueIsRead(f.kind, v, s, p + |EncodeTag(WireType(f.kind), f.tag)|);
  }

  /** From `p` to `q` these records are read. */
  ghost predicate Reads(s: Bytes, p: nat, records: seq<Record>, q: nat) {
    && p <= q <= |s|
    && Parse(s, p) == match Parse(s, q) case None => None case Some(rest) => Some(records + rest)
  }

  lemma ReadsNothing(s: Bytes, p: nat)
    requires p <= |s|
    ensures Reads(s, p, [], p)
  {
    assert forall rest: seq<Record> :: [] + rest == rest;
  }

  lemma ReadsOne(s: Bytes, p: nat, record: Record, q: nat)
    requires p < |s| && ReadRecord(s, p) == Some((record, q))
    ensures Reads(s, p, [record], q)
  {
  }

  lemma ReadsMore(s: Bytes, p: nat, a: seq<Record>, q: nat, b: seq<Record>, r: nat)
    requires Reads(s, p, a, q) && Reads(s, q, b, r)
    ensures Reads(s, p, a + b, r)
  {
    hide Parse;
    if Parse(s, r).Some? {
      assert a + (b + Parse(s, r).value) == a + b + Parse(s, r).value;
    }
  }

  /** The items of an array up to the `j`-th, one record each. */
  lemma {:induction false} ItemsAreRecords(f: Field, slot: Slot, j: nat, s: Bytes, p: nat)
    requires j <= |slot| && f.tag < TAG_LIMIT && forall a :: 0 <= a < |slot| ==> HasKind(f.kind, slot[a])
    requires forall a :: 0 <= a < |slot| ==> ValueFits(f.kind, slot[a])
    requires HoldsAt(s, p, EncodeItems(f, slot, true))
    ensures Reads(s, p, RecordsOfItems(f, slot[..j]), p + |EncodeItems(f, slot[..j], true)|)
    decreases j
  {
    hide HasKind, ValueFits, HoldsAt, EncodeValue, EncodeTag, Payload, Reads, ReadRecord;
    if j == 0 {
      NoItems(f, slot);
      HoldsEnds(s, p, EncodeItems(f, slot, true));
      ReadsNothing(s, p);
    } else {
      ItemsAreRecords(f, slot, j - 1, s, p);
      ItemAt(f, slot, true, j - 1, s, p);
      var q := p + |EncodeItems(f, slot[..j - 1], true)|;
      ItemIsRecord(f, slot[j - 1], s, q);
      HoldsEnds(s, q, ItemBytes(f, slot[j - 1], true));
      var record := Record(f.tag, TypeOnWire(f.kind), Payload(f.kind, slot[j - 1]));
      ReadsOne(s, q, record, q + |ItemBytes(f, slot[j - 1], true)|);
      ReadsMore(s, p, RecordsOfItems(f, slot[..j - 1]), q, [record], q + |ItemBytes(f, slot[j - 1], true)|);
      assert RecordsOfItems(f, slot[..j - 1]) + [record] == RecordsOfItems(f, slot[..j]);
    }
  }

  lemma {:induction false} PackedIsItems(f: Field, slot: Slot)
    requires Packable(f.kind) && forall a :: 0 <= a < |slot| ==> HasKind(f.kind, slot[a])
    ensures EncodeItems(f, slot, false) == Packed(f.kind, slot)
    decreases |slot|
  {
    hide HasKind, EncodeValue, Payload;
    if slot != [] {
      var n := |slot| - 1;
      PackedIsItems(f, slot[..n]);
      ScalarPayload(f.kind, slot[n]);
      assert [] + EncodeValue(f.kind, slot[n]) == EncodeValue(f.kind, slot[n]);
    }
  }

  lemma ScalarPayload(k: Kind, v: Value)
    requires Packable(k) && HasKind(k, v)
    ensures EncodeValue(k, v) == Payload(k, v)
  {
    hide Coding.Varint, Fixed;
  }

  lemma PackableIsNotLength(k: Kind)
    ensures Packable(k) <==> TypeOnWire(k) != 2
  {
  }

  lemma {:induction false} SlotIsRecords(f: Field, slot: Slot, s: Bytes, p: nat)
    requires HasRule(f, slot) && SlotFits(f, slot) && f.tag < TAG_LIMIT && HoldsAt(s, p, EncodeSlot(f, slot))
    ensures Reads(s, p, RecordsOfSlot(f, slot), p + |EncodeSlot(f, slot)|)
  {
    hide HasKind, ValueFits, HoldsAt, EncodeItems, EncodeTag, Reads, IsZero, LengthPrefixed, ReadRecord, ReadPayload, Parse,
      ReadVarint, Packed, RecordsOfItems, Packable, TypeOnWire;
    HoldsEnds(s, p, EncodeSlot(f, slot));
    PackableIsNotLength(f.kind);
    if slot == [] || (f.rule.Implicit? && IsZero(f.kind, slot[0])) {
      ReadsNothing(s, p);
    } else if IsArray(f.rule) && Packable(f.kind) {
      PackedIsRecord(f, slot, s, p);
    } else {
      ItemsAreRecords(f, slot, |slot|, s, p);
      assert slot[..|slot|] == slot;
    }
  }

  lemma PackedIsRecord(f: Field, slot: Slot, s: Bytes, p: nat)
    requires Packable(f.kind) && f.tag < TAG_LIMIT && forall a :: 0 <= a < |slot| ==> HasKind(f.kind, slot[a])
    requires |EncodeItems(f, slot, false)| < TWO32
    requires HoldsAt(s, p, EncodeTag(WT_STRING, f.tag) + LengthPrefixed(EncodeItems(f, slot, false)))
    ensures Reads(s, p, [Record(f.tag, 2, Packed(f.kind, slot))],
                  p + |EncodeTag(WT_STRING, f.tag) + LengthPrefixed(EncodeItems(f, slot, false))|)
  {
    hide HasKind, HoldsAt, EncodeItems, EncodeTag, LengthPrefixed, ReadPayload, Packed, ReadVarint, Reads, Packable;
    var key, data := EncodeTag(WT_STRING, f.tag), EncodeItems(f, slot, false);
    PackedIsItems(f, slot);
    HoldsEnds(s, p, key + LengthPrefixed(data));
    HoldsParts(s, p, key, LengthPrefixed(data));
    KeyIsRead(WT_STRING, f.tag, s, p);
    LengthIsRead(data, s, p + |key|);
    ReadsOne(s, p, Record(f.tag, 2, data), p + |key| + |LengthPrefixed(data)|);
  }

  lemma {:induction false} FieldsAreRecords(k: Kind, slots: seq<Slot>, n: nat, s: Bytes, p: nat)
    requires k.Submessage? && WellFormed(k) && HasFields(k, slots) && n <= |slots| && PartsFit(k, slots)
    requires HoldsAt(s, p, EncodeMessage(k, slots))
    ensures Reads(s, p, RecordsOf(k, slots, n), p + |EncodeFields(k, slots, n)|)
  {
    hide HoldsAt, HasFields, HasKind, WellFormed, EncodeSlot, Reads, RecordsOfSlot, SlotFits, HasRule;
    if n == 0 {
      HoldsEnds(s, p, EncodeMessage(k, slots));
      ReadsNothing(s, p);
    } else {
      FieldsAreRecords(k, slots, n - 1, s, p);
      RuleOf(k, slots, n - 1);
      FieldsPrefix(k, slots, n, |slots|);
      PrefixOf(s, p, EncodeFields(k, slots, n), EncodeMessage(k, slots));
      var f, slot, q := k.fields[n - 1], slots[n - 1], p + |EncodeFields(k, slots, n - 1)|;
      HoldsParts(s, p, EncodeFields(k, slots, n - 1), EncodeSlot(f, slot));
      TagIsSmall(k, n - 1);
      SlotIsRecords(f, slot, s, q);
      ReadsMore(s, p, RecordsOf(k, slots, n - 1), q, RecordsOfSlot(f, slot), q + |EncodeSlot(f, slot)|);
    }
  }

  lemma TagIsSmall(k: Kind, n: nat)
    requires k.Submessage? && WellFormed(k) && n < |k.fields|
    ensures k.fields[n].tag < TAG_LIMIT
  {
    assert FieldIsWellFormed(k.fields[n]);
  }

  /** Any reader of the format, without the descriptor, finds in an encoded message exactly the
      records of its fields: their numbers, wire types and payloads, in order. */
  lemma EncodedIsRecords(k: Kind, slots: seq<Slot>)
    requires k.Submessage? && WellFormed(k) && HasFields(k, slots) && PartsFit(k, slots)
    ensures Parse(EncodeMessage(k, slots), 0) == Some(RecordsOf(k, slots, |slots|))
  {
    hide EncodeMessage, HasFields, WellFormed, PartsFit, RecordsOf, ReadRecord;
    var s := EncodeMessage(k, slots);
    assert s[0..|s|] == s;
    WholeFields(k, slots);
    FieldsAreRecords(k, slots, |slots|, s, 0);
    assert RecordsOf(k, slots, |slots|) + [] == RecordsOf(k, slots, |slots|);
  }

  lemma WholeFields(k: Kind, slots: seq<Slot>)
    requires k.Submessage? && HasFields(k, slots)
    ensures EncodeFields(k, slots, |slots|) == EncodeMessage(k, slots)
  {
  }
}

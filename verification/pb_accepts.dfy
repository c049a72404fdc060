/** What the nanopb decoder may accept at all (pb_decode.c): whatever the bytes are, what comes out
    fits the descriptor, and every required field was there. */
module PbAccepts {
  import opened InternalKey
  import opened Coding
  import opened Pb
  import opened PbDecoding

  // ----- What fits a descriptor -----

  /** The storage of a field of this kind can hold the value. */
  predicate FitsKind(k: Kind, v: Value)
    decreases k, 2
  {
    match k
    case Bool => v.Number? && (v.n == 0 || v.n == 1)
    case Varint(size) => IsSize(size) && v.Number? && -(Half(size) as int) <= v.n < Half(size)
    case Svarint(size) => IsSize(size) && v.Number? && -(Half(size) as int) <= v.n < Half(size)
    case Uvarint(size) => IsSize(size) && v.Number? && 0 <= v.n < 2 * Half(size)
    case Fixed32 => v.Number? && 0 <= v.n < TWO32
    case Fixed64 => v.Number? && 0 <= v.n < TWO64
    case ByteArray(capacity) => v.Blob? && |v.bytes| <= capacity
    case String(capacity) => v.Blob? && |v.bytes| + 1 <= capacity
    case FixedLengthBytes(size) => v.Blob? && |v.bytes| == size
    case Submessage(fields) => v.Message? && FitsFields(k, v.slots)
  }

  predicate FitsFields(k: Kind, slots: seq<Slot>)
    requires k.Submessage?
    decreases k, 1
  {
    && |slots| == |k.fields|
    && (forall i :: 0 <= i < |slots| ==> FitsRule(k.fields[i], slots[i]))
    && OneOfEach(k.fields, slots)
  }

  /** At most one field of a union is held. */
  predicate OneOfEach(fields: seq<Field>, slots: seq<Slot>)
    requires |slots| == |fields|
  {
    forall i, j :: 0 <= i < j < |slots| && slots[i] != [] && slots[j] != []
                   && fields[i].rule.Oneof? && fields[j].rule.Oneof? ==>
      fields[i].rule.group != fields[j].rule.group
  }

  predicate FitsRule(f: Field, slot: Slot)
    decreases f
  {
    && FitsCount(f.rule, |slot|)
    && forall j :: 0 <= j < |slot| ==> FitsKind(f.kind, slot[j])
  }

  predicate FitsCount(r: Rule, n: nat) {
    match r
    case Required => n == 1
    case Optional => n <= 1
    case Implicit => n == 1
    case Repeated(max) => n <= max
    case FixedCount(count) => n == count
    case Oneof(_) => n <= 1
  }

  /** Sizes of numbers are those that the decoder has, at every depth. */
  predicate SizesOk(k: Kind)
    decreases k, 1
  {
    match k
    case Varint(size) => IsSize(size)
    case Uvarint(size) => IsSize(size)
    case Svarint(size) => IsSize(size)
    case String(capacity) => capacity >= 1
    case Submessage(fields) => forall i :: 0 <= i < |fields| ==> SizesOkOf(fields[i])
    case _ => true
  }

  predicate SizesOkOf(f: Field)
    decreases f
  {
    SizesOk(f.kind)
  }

  // ----- Defaults fit -----

  lemma {:induction false} DefaultFits(k: Kind)
    requires SizesOk(k)
    ensures FitsKind(k, Default(k))
    decreases k, 2
  {
    if k.Submessage? {
      DefaultsFit(k);
    }
  }

  lemma {:induction false} DefaultsFit(k: Kind)
    requires k.Submessage? && SizesOk(k)
    ensures FitsFields(k, DefaultSlots(k))
    decreases k, 1
  {
    var slots := DefaultSlots(k);
    forall i | 0 <= i < |slots|
      ensures FitsRule(k.fields[i], slots[i])
    {
      var f := k.fields[i];
      assert SizesOkOf(f) && slots[i] == DefaultSlot(f);
      DefaultFits(f.kind);
    }
  }

  // ----- Every step keeps it -----

  lemma NumberFits(k: Kind, u: nat)
    ensures k.Varint? && CastVarint(k.size, u).Some? ==> FitsKind(k, CastVarint(k.size, u).value)
    ensures k.Uvarint? && CastUvarint(k.size, u).Some? ==> FitsKind(k, CastUvarint(k.size, u).value)
    ensures k.Svarint? && CastSvarint(k.size, u).Some? ==> FitsKind(k, CastSvarint(k.size, u).value)
  {
  }

  lemma ScalarFits(k: Kind, s: Bytes, p: nat, limit: nat, start: Value)
    requires p <= limit <= |s| && !k.Submessage? && SizesOk(k) && DecodeValue(k, s, p, limit, start).Some?
    ensures FitsKind(k, DecodeValue(k, s, p, limit, start).value.value)
  {
    hide ReadVarint32, CastVarint, CastUvarint, CastSvarint;
    Powers();
    var u := GetVarint64(s, p, limit);
    if u.Some? {
      NumberFits(k, u.value.value);
    }
  }

  /** The slot of field `i` may become `slot`. */
  lemma SlotChanges(k: Kind, slots: seq<Slot>, i: nat, slot: Slot)
    requires k.Submessage? && |slots| == |k.fields| && FitsFields(k, slots) && i < |slots|
    requires FitsRule(k.fields[i], slot)
    requires slot == [] || slots[i] != [] || !k.fields[i].rule.Oneof?
    ensures FitsFields(k, slots[i := slot])
  {
    hide FitsRule;
  }

  lemma PushFits(k: Kind, i: nat, st: State, v: Value)
    requires k.Submessage? && |st.slots| == |k.fields| && FitsFields(k, st.slots) && i < |k.fields|
    requires IsArray(k.fields[i].rule) && FitsKind(k.fields[i].kind, v)
    requires Count(k.fields, i, st) < Limit(k.fields[i].rule) && (k.fields[i].rule.FixedCount? ==> st.fixed.Some?)
    ensures FitsFields(k, Push(k.fields, i, st, v).slots)
    ensures k.fields[i].rule.FixedCount? ==> Push(k.fields, i, st, v).fixed.Some?
  {
    hide FitsKind;
    var slot := Push(k.fields, i, st, v).slots[i];
    assert FitsRule(k.fields[i], st.slots[i]);
    assert FitsRule(k.fields[i], slot);
    hide FitsRule;
    SlotChanges(k, st.slots, i, slot);
  }

  lemma StoreFits(k: Kind, i: nat, st: State, v: Value)
    requires k.Submessage? && |st.slots| == |k.fields| && FitsFields(k, st.slots) && i < |k.fields|
    requires !IsArray(k.fields[i].rule) && FitsKind(k.fields[i].kind, v)
    ensures FitsFields(k, Store(k.fields, i, st, v).slots)
  {
    hide FitsKind;
    assert FitsRule(k.fields[i], [v]);
    if k.fields[i].rule.Oneof? {
      var cleared := ClearUnion(k.fields, st.slots, i);
      forall j | 0 <= j < |cleared|
        ensures FitsRule(k.fields[j], cleared[j])
      {
        assert FitsRule(k.fields[j], st.slots[j]);
      }
    }
  }

  lemma StartFits(k: Kind, i: nat, slots: seq<Slot>)
    requires k.Submessage? && |slots| == |k.fields| && FitsFields(k, slots) && i < |k.fields| && SizesOk(k)
    ensures FitsKind(k.fields[i].kind, StartOf(k.fields[i], slots[i])) && SizesOk(k.fields[i].kind)
    ensures FitsKind(k.fields[i].kind, Default(k.fields[i].kind))
  {
    hide FitsKind;
    assert SizesOkOf(k.fields[i]) && FitsRule(k.fields[i], slots[i]);
    DefaultFits(k.fields[i].kind);
  }

  lemma {:induction false} ValueFits(k: Kind, s: Bytes, p: nat, limit: nat, start: Value)
    requires p <= limit <= |s| && SizesOk(k) && FitsKind(k, start) && DecodeValue(k, s, p, limit, start).Some?
    ensures FitsKind(k, DecodeValue(k, s, p, limit, start).value.value)
    decreases k, 6, 0
  {
    hide FitsFields, DecodeMessage, ReadVarint32;
    if k.Submessage? {
      var size := ReadVarint32(s, p, limit).value;
      MessageFits(k, s, size.next, size.next + size.value, start.slots);
    } else {
      ScalarFits(k, s, p, limit, start);
    }
  }

  lemma {:induction false} PackedFits(k: Kind, i: nat, s: Bytes, p: nat, limit: nat, st: State)
    requires k.Submessage? && |st.slots| == |k.fields| && i < |k.fields| && p <= limit <= |s| && SizesOk(k)
    requires IsArray(k.fields[i].rule) && FitsFields(k, st.slots) && (k.fields[i].rule.FixedCount? ==> st.fixed.Some?)
    requires DecodePacked(k, i, s, p, limit, st).Some?
    ensures FitsFields(k, DecodePacked(k, i, s, p, limit, st).value.slots)
    decreases k, 2, limit - p
  {
    hide FitsFields, FitsKind, DecodeValue, Push, Count;
    if p < limit {
      var d := Default(k.fields[i].kind);
      StartFits(k, i, st.slots);
      ValueFits(k.fields[i].kind, s, p, limit, d);
      var v := DecodeValue(k.fields[i].kind, s, p, limit, d).value;
      PushFits(k, i, st, v.value);
      PackedFits(k, i, s, v.next, limit, Push(k.fields, i, st, v.value));
    }
  }

  lemma {:induction false} FieldFits(k: Kind, i: nat, wireType: nat, s: Bytes, p: nat, limit: nat, st: State)
    requires k.Submessage? && |st.slots| == |k.fields| && i < |k.fields| && p <= limit <= |s| && SizesOk(k)
    requires FitsFields(k, st.slots) && (k.fields[i].rule.FixedCount? ==> st.fixed.Some?)
    requires DecodeField(k, i, wireType, s, p, limit, st).Some?
    ensures FitsFields(k, DecodeField(k, i, wireType, s, p, limit, st).value.value.slots)
    decreases k, 3, 0
  {
    hide FitsFields, FitsKind, DecodeValue, Push, Count, Store, DecodePacked, ReadVarint32, StartOf;
    var f := k.fields[i];
    StartFits(k, i, st.slots);
    if IsArray(f.rule) && wireType == WT_STRING && Packable(f.kind) {
      var size := ReadVarint32(s, p, limit).value;
      PackedFits(k, i, s, size.next, size.next + size.value, st);
    } else if IsArray(f.rule) {
      ValueFits(f.kind, s, p, limit, Default(f.kind));
      PushFits(k, i, st, DecodeValue(f.kind, s, p, limit, Default(f.kind)).value.value);
    } else {
      var start := StartOf(f, st.slots[i]);
      ValueFits(f.kind, s, p, limit, start);
      StoreFits(k, i, st, DecodeValue(f.kind, s, p, limit, start).value.value);
    }
  }

  lemma {:induction false} LoopFits(k: Kind, s: Bytes, p: nat, limit: nat, st: State)
    requires k.Submessage? && |st.slots| == |k.fields| && p <= limit <= |s| && SizesOk(k) && FitsFields(k, st.slots)
    requires DecodeLoop(k, s, p, limit, st).Some?
    ensures FitsFields(k, DecodeLoop(k, s, p, limit, st).value.slots)
    decreases k, 4, limit - p
  {
    hide FitsFields, DecodeField, Note, ReadVarint32, SkipField, FindField;
    if p < limit {
      var key := ReadVarint32(s, p, limit).value;
      if key.value != 0 {
        var i := FindField(k.fields, key.value / 8);
        if i.None? {
          LoopFits(k, s, SkipField(key.value % 8, s, key.next, limit).value, limit, st);
        } else {
          var noted := Note(k.fields, i.value, st).value;
          FieldFits(k, i.value, key.value % 8, s, key.next, limit, noted);
          var got := DecodeField(k, i.value, key.value % 8, s, key.next, limit, noted).value;
          LoopFits(k, s, got.next, limit, got.value);
        }
      }
    }
  }

  lemma {:induction false} MessageFits(k: Kind, s: Bytes, p: nat, limit: nat, slots: seq<Slot>)
    requires k.Submessage? && |slots| == |k.fields| && p <= limit <= |s| && SizesOk(k) && FitsFields(k, slots)
    requires DecodeMessage(k, s, p, limit, slots).Some?
    ensures FitsFields(k, DecodeMessage(k, s, p, limit, slots).value)
    decreases k, 5, 0
  {
    hide FitsFields, DecodeLoop;
    LoopFits(k, s, p, limit, State(slots, None, {}));
  }

  /** Whatever the bytes are: what is decoded fits the descriptor.  No value is out of range, no
      array, string or blob longer than its storage, and no union holds two fields. */
  lemma DecodedFits(k: Kind, s: Bytes)
    requires k.Submessage? && SizesOk(k) && Decode(k, s).Some?
    ensures FitsFields(k, Decode(k, s).value)
  {
    hide FitsFields, DecodeMessage;
    DefaultsFit(k);
    MessageFits(k, s, 0, |s|, DefaultSlots(k));
  }

  // ----- Required fields -----

  /** Somewhere in the bytes is a key with this tag. */
  ghost predicate HasKey(s: Bytes, limit: nat, tag: nat)
    requires limit <= |s|
  {
    exists p: nat :: KeyAt(s, p, limit, tag)
  }

  predicate KeyAt(s: Bytes, p: nat, limit: nat, tag: nat)
    requires limit <= |s|
  {
    ReadVarint32(s, p, limit).Some? && ReadVarint32(s, p, limit).value.value / 8 == tag
  }

  /** Every required field that counts as seen has a key in the bytes. */
  ghost predicate SeenHaveKeys(fields: seq<Field>, seen: set<nat>, s: Bytes, limit: nat)
    requires limit <= |s|
  {
    forall i :: 0 <= i < |fields| && fields[i].rule.Required? && RequiredBefore(fields, i) in seen ==>
      HasKey(s, limit, fields[i].tag)
  }

  lemma {:induction false} RequiredGrows(fields: seq<Field>, i: nat, j: nat)
    requires i <= j <= |fields|
    ensures RequiredBefore(fields, i) <= RequiredBefore(fields, j)
    ensures i < j && fields[i].rule.Required? ==> RequiredBefore(fields, i) < RequiredBefore(fields, j)
    decreases j
  {
    if i < j {
      RequiredGrows(fields, i, j - 1);
    }
  }

  lemma NoteHasKey(fields: seq<Field>, i: nat, st: State, s: Bytes, limit: nat)
    requires |st.slots| == |fields| && i < |fields| && limit <= |s| && Note(fields, i, st).Some?
    requires SeenHaveKeys(fields, st.seen, s, limit) && HasKey(s, limit, fields[i].tag)
    ensures SeenHaveKeys(fields, Note(fields, i, st).value.seen, s, limit)
  {
    hide HasKey;
    forall j | 0 <= j < |fields| && fields[j].rule.Required? && RequiredBefore(fields, j) in Note(fields, i, st).value.seen
      ensures HasKey(s, limit, fields[j].tag)
    {
      if i < j {
        RequiredGrows(fields, i, j);
      } else {
        RequiredGrows(fields, j, i);
      }
    }
  }

  lemma {:induction false} PackedKeepsSeen(k: Kind, i: nat, s: Bytes, p: nat, limit: nat, st: State)
    requires k.Submessage? && |st.slots| == |k.fields| && i < |k.fields| && p <= limit <= |s|
    requires DecodePacked(k, i, s, p, limit, st).Some?
    ensures DecodePacked(k, i, s, p, limit, st).value.seen == st.seen
    decreases limit - p
  {
    hide DecodeValue, Count;
    if p < limit {
      var v := DecodeValue(k.fields[i].kind, s, p, limit, Default(k.fields[i].kind)).value;
      PackedKeepsSeen(k, i, s, v.next, limit, Push(k.fields, i, st, v.value));
    }
  }

  lemma FieldKeepsSeen(k: Kind, i: nat, wireType: nat, s: Bytes, p: nat, limit: nat, st: State)
    requires k.Submessage? && |st.slots| == |k.fields| && i < |k.fields| && p <= limit <= |s|
    requires DecodeField(k, i, wireType, s, p, limit, st).Some?
    ensures DecodeField(k, i, wireType, s, p, limit, st).value.value.seen == st.seen
  {
    hide DecodeValue, Count, DecodePacked, ReadVarint32, StartOf;
    if IsArray(k.fields[i].rule) && wireType == WT_STRING && Packable(k.fields[i].kind) {
      var size := ReadVarint32(s, p, limit).value;
      PackedKeepsSeen(k, i, s, size.next, size.next + size.value, st);
    }
  }

  lemma {:induction false} LoopHasKeys(k: Kind, s: Bytes, p: nat, limit: nat, st: State)
    requires k.Submessage? && |st.slots| == |k.fields| && p <= limit <= |s| && SeenHaveKeys(k.fields, st.seen, s, limit)
    requires DecodeLoop(k, s, p, limit, st).Some?
    ensures SeenHaveKeys(k.fields, DecodeLoop(k, s, p, limit, st).value.seen, s, limit)
    decreases limit - p
  {
    hide DecodeField, Note, ReadVarint32, SkipField, FindField, SeenHaveKeys;
    if p < limit {
      var key := ReadVarint32(s, p, limit).value;
      if key.value != 0 {
        var i := FindField(k.fields, key.value / 8);
        if i.None? {
          LoopHasKeys(k, s, SkipField(key.value % 8, s, key.next, limit).value, limit, st);
        } else {
          var noted := Note(k.fields, i.value, st).value;
          assert KeyAt(s, p, limit, k.fields[i.value].tag);
          NoteHasKey(k.fields, i.value, st, s, limit);
          FieldKeepsSeen(k, i.value, key.value % 8, s, key.next, limit, noted);
          var got := DecodeField(k, i.value, key.value % 8, s, key.next, limit, noted).value;
          LoopHasKeys(k, s, got.next, limit, got.value);
        }
      }
    }
  }

  /** Nothing is decoded from bytes in which the key of a required field is nowhere, for the first
      64 required fields. */
  lemma RequiredIsThere(k: Kind, s: Bytes, i: nat)
    requires k.Submessage? && i < |k.fields| && k.fields[i].rule.Required? && RequiredBefore(k.fields, i) < 64
    requires Decode(k, s).Some?
    ensures HasKey(s, |s|, k.fields[i].tag)
  {
    hide DecodeLoop, HasKey;
    RequiredGrows(k.fields, i, |k.fields|);
    LoopHasKeys(k, s, 0, |s|, State(DefaultSlots(k), None, {}));
  }

  // ----- Which numbers are taken -----

  /** An integer field of 32 or 64 bits takes every varint, by its low bits; a narrower one takes what
      is then in its range. */
  lemma VarintTaken(size: nat, u: nat, n: int)
    requires IsSize(size) && u < TWO64
    ensures CastVarint(size, u) == Some(Number(n)) <==>
      && -(Half(size) as int) <= n < Half(size)
      && if size == 8 then n % TWO64 == u else -2147483648 <= n < 2147483648 && n % TWO32 == u % TWO32
  {
  }

  lemma UvarintTaken(size: nat, u: nat, n: int)
    requires IsSize(size)
    ensures CastUvarint(size, u) == Some(Number(n)) <==> n == u && n < 2 * Half(size)
  {
  }

  /** A zigzag number: even ones are not negative, odd ones are. */
  lemma SvarintTaken(size: nat, u: nat, n: int)
    requires IsSize(size)
    ensures CastSvarint(size, u) == Some(Number(n)) <==>
      -(Half(size) as int) <= n < Half(size) && u == if n >= 0 then 2 * n else -2 * n - 1
  {
  }

  /** Any number but zero is true. */
  lemma BoolTaken(s: Bytes, p: nat, limit: nat, start: Value, u: nat, next: nat)
    requires p < next <= limit <= |s| && ReadVarint32(s, p, limit) == Some(Parsed(u, next))
    ensures DecodeValue(Bool, s, p, limit, start) == Some(Got(Number(if u == 0 then 0 else 1), next))
  {
    hide ReadVarint32;
  }

  const TWO_ENTRIES := Submessage([Field(1, Uvarint(4), FixedCount(2))])

  lemma SmallByte(s: Bytes, p: nat, limit: nat)
    requires p < limit <= |s| && s[p] < 128
    ensures ReadVarint32(s, p, limit) == Some(Parsed(s[p], p + 1)) && GetVarint64(s, p, limit) == Some(Parsed(s[p], p + 1))
  {
    assert Power(128, 0) == 1 && Shifted(s[p] % 128, 1) == s[p] as int;
  }

  /** One packed entry of at most two. */
  lemma OneEntry(s: Bytes, p: nat, limit: nat, st: State)
    requires p < limit <= |s| && s[p] < 128 && |st.slots| == 1 && st.fixed.Some?
    ensures DecodePacked(TWO_ENTRIES, 0, s, p, limit, st)
         == if st.fixed.value.1 >= 2 then None
            else DecodePacked(TWO_ENTRIES, 0, s, p + 1, limit, Push(TWO_ENTRIES.fields, 0, st, Number(s[p] as int)))
  {
    hide GetVarint64, Push;
    SmallByte(s, p, limit);
    assert DecodeValue(Uvarint(4), s, p, limit, Default(Uvarint(4))) == Some(Got(Number(s[p] as int), p + 1));
  }

  /** A fixed-count array with an entry too few is refused. */
  lemma TooFewEntries()
    ensures Decode(TWO_ENTRIES, [10, 1, 5]) == None
  {
    hide ReadVarint32, GetVarint64, DecodePacked;
    var s: Bytes, k := [10, 1, 5], TWO_ENTRIES;
    var st := State(DefaultSlots(k), None, {});
    SmallByte(s, 0, 3);
    SmallByte(s, 1, 3);
    var noted := st.(fixed := Some((0, 0)));
    assert FindField(k.fields, 1) == Some(0) && Note(k.fields, 0, st) == Some(noted);
    OneEntry(s, 2, 3, noted);
    var one := Push(k.fields, 0, noted, Number(5));
    PackedEnds(s, 3, one);
    assert DecodeField(k, 0, 2, s, 1, 3, noted) == Some(Got(one, 3));
    assert DecodeLoop(k, s, 3, 3, one) == Some(one) && one.fixed == Some((0, 1));
  }

  lemma PackedEnds(s: Bytes, limit: nat, st: State)
    requires limit <= |s| && |st.slots| == 1
    ensures DecodePacked(TWO_ENTRIES, 0, s, limit, limit, st) == Some(st)
  {
  }

  /** A zero where a key should be ends the message, whatever follows. */
  lemma ZeroEnds(k: Kind, s: Bytes, p: nat, limit: nat, st: State)
    requires k.Submessage? && |st.slots| == |k.fields| && p < limit <= |s| && s[p] == 0
    ensures DecodeLoop(k, s, p, limit, st) == Some(st)
  {
    hide ReadVarint32;
    SmallByte(s, p, limit);
  }

  // ----- What fits and what can be written -----

  /** No string in the message has a zero byte in it, at any depth. */
  predicate NoZeros(k: Kind, v: Value)
    requires FitsKind(k, v)
    decreases k, 2
  {
    match k
    case String(_) => 0 !in v.bytes
    case Submessage(_) => NoZerosIn(k, v.slots)
    case _ => true
  }

  predicate NoZerosIn(k: Kind, slots: seq<Slot>)
    requires k.Submessage? && FitsFields(k, slots)
    decreases k, 1
  {
    forall i :: 0 <= i < |slots| ==> NoZerosOf(k.fields[i], slots[i])
  }

  predicate NoZerosOf(f: Field, slot: Slot)
    decreases f
  {
    FitsRule(f, slot) && forall j :: 0 <= j < |slot| ==> NoZeros(f.kind, slot[j])
  }

  lemma {:induction false} KindIff(k: Kind, v: Value)
    ensures HasKind(k, v) <==> FitsKind(k, v) && NoZeros(k, v)
    decreases k, 2
  {
    if k.Submessage? && v.Message? {
      FieldsIff(k, v.slots);
    }
  }

  lemma {:induction false} RuleIff(f: Field, slot: Slot)
    ensures HasRule(f, slot) <==> FitsRule(f, slot) && NoZerosOf(f, slot)
    decreases f
  {
    hide HasKind, FitsKind, NoZeros;
    forall j | 0 <= j < |slot|
      ensures HasKind(f.kind, slot[j]) <==> FitsKind(f.kind, slot[j]) && NoZeros(f.kind, slot[j])
    {
      KindIff(f.kind, slot[j]);
    }
  }

  /** A message can be encoded exactly when it fits and no string in it has a zero byte. */
  lemma {:induction false} FieldsIff(k: Kind, slots: seq<Slot>)
    requires k.Submessage?
    ensures HasFields(k, slots) <==> FitsFields(k, slots) && NoZerosIn(k, slots)
    decreases k, 1
  {
    hide HasRule, FitsRule, NoZerosOf;
    if |slots| == |k.fields| {
      forall i | 0 <= i < |slots|
        ensures HasRule(k.fields[i], slots[i]) <==> FitsRule(k.fields[i], slots[i]) && NoZerosOf(k.fields[i], slots[i])
      {
        RuleIff(k.fields[i], slots[i]);
      }
    }
  }
}

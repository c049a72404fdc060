/** Messages between descriptors that differ (pb_decode.c): a field that a reader does not know is
    skipped by its wire type alone, and all other fields come out as they were written. */
module PbEvolution {
  import opened InternalKey
  import opened Coding
  import opened Pb
  import opened PbDecoding
  import opened PbRoundTrip
  import PbWire
  import PbAccepts

  // ----- Skipping -----

  lemma {:induction false} VarintIsSkipped(v: nat, s: Bytes, p: nat, limit: nat)
    requires HoldsAt(s, p, Coding.Varint(v)) && p + |Coding.Varint(v)| <= limit <= |s|
    ensures SkipVarint(s, p, limit) == Some(p + |Coding.Varint(v)|)
  {
    if v >= 128 {
      HoldsParts(s, p, [v % 128 + 128], Coding.Varint(v / 128));
      assert s[p] == s[p..p + |Coding.Varint(v)|][0];
      VarintIsSkipped(v / 128, s, p + 1, limit);
    } else {
      assert s[p] == s[p..p + 1][0];
    }
  }

  lemma PrefixIsSkipped(data: Bytes, s: Bytes, p: nat, limit: nat)
    requires |data| < TWO32 && HoldsAt(s, p, LengthPrefixed(data)) && p + |LengthPrefixed(data)| <= limit <= |s|
    ensures SkipField(WT_STRING, s, p, limit) == Some(p + |LengthPrefixed(data)|)
  {
    hide Coding.Varint, ReadVarint32;
    PrefixWritten(data, s, p, limit);
  }

  /** A value that was written, of any kind, is skipped by its wire type: to right behind it. */
  lemma ValueIsSkipped(k: Kind, v: Value, s: Bytes, p: nat, limit: nat)
    requires HasKind(k, v) && ValueFits(k, v)
    requires HoldsAt(s, p, EncodeValue(k, v)) && p + |EncodeValue(k, v)| <= limit <= |s|
    ensures SkipField(WireType(k), s, p, limit) == Some(p + |EncodeValue(k, v)|)
  {
    hide Coding.Varint, SkipVarint, ReadVarint32, EncodeMessage, LengthPrefixed, HasFields, Fixed;
    if PbWire.TypeOnWire(k) == 0 {
      var n := PbWire.NumberOf(k, v);
      VarintIsSkipped(n, s, p, limit);
    } else if PbWire.TypeOnWire(k) == 2 {
      PrefixIsSkipped(PbWire.Payload(k, v), s, p, limit);
    }
  }

  /** What pb_skip_field skips, of any bytes, is what the rule of the wire type says; groups and
      unknown wire types are refused. */
  lemma SkipIsRule(wireType: nat, s: Bytes, p: nat, limit: nat)
    requires p <= limit <= |s|
    ensures wireType == 0 ==> SkipField(wireType, s, p, limit) == PbWire.VarintEnd(s[..limit], p)
    ensures wireType == 1 ==> SkipField(wireType, s, p, limit) == if p + 8 <= limit then Some(p + 8) else None
    ensures wireType == 5 ==> SkipField(wireType, s, p, limit) == if p + 4 <= limit then Some(p + 4) else None
    ensures wireType != 0 && wireType != 1 && wireType != 2 && wireType != 5 ==> SkipField(wireType, s, p, limit) == None
  {
    hide ReadVarint32;
    if wireType == 0 {
      SkipIsEnd(s, p, limit);
    }
  }

  lemma {:induction false} SkipIsEnd(s: Bytes, p: nat, limit: nat)
    requires p <= limit <= |s|
    ensures SkipVarint(s, p, limit) == PbWire.VarintEnd(s[..limit], p)
    decreases limit - p
  {
    if p < limit && s[p] >= 128 {
      SkipIsEnd(s, p + 1, limit);
    }
  }

  // ----- Fields that the reader does not know -----

  ghost predicate Unknown(k: Kind, tag: nat)
    requires k.Submessage?
  {
    forall i :: 0 <= i < |k.fields| ==> k.fields[i].tag != tag
  }

  lemma RecordIsSkipped(k: Kind, wireType: nat, tag: nat, s: Bytes, p: nat, limit: nat, st: State, q: nat)
    requires k.Submessage? && |st.slots| == |k.fields| && Unknown(k, tag) && 0 < tag < TAG_LIMIT && wireType < 8
    requires HoldsAt(s, p, EncodeTag(wireType, tag)) && p + |EncodeTag(wireType, tag)| <= limit <= |s|
    requires SkipField(wireType, s, p + |EncodeTag(wireType, tag)|, limit) == Some(q)
    ensures q <= limit && DecodeLoop(k, s, p, limit, st) == DecodeLoop(k, s, q, limit, st)
  {
    hide SkipField, ReadVarint32, HoldsAt, Coding.Varint;
    Varint32Written(tag * 8 + wireType, s, p, limit);
    assert (tag * 8 + wireType) / 8 == tag && (tag * 8 + wireType) % 8 == wireType;
    assert FindField(k.fields, tag).None?;
  }

  lemma ItemIsSkipped(k: Kind, f: Field, v: Value, s: Bytes, p: nat, limit: nat, st: State)
    requires k.Submessage? && |st.slots| == |k.fields| && Unknown(k, f.tag) && 0 < f.tag < TAG_LIMIT
    requires HasKind(f.kind, v) && ValueFits(f.kind, v)
    requires HoldsAt(s, p, ItemBytes(f, v, true)) && p + |ItemBytes(f, v, true)| <= limit <= |s|
    ensures DecodeLoop(k, s, p, limit, st) == DecodeLoop(k, s, p + |ItemBytes(f, v, true)|, limit, st)
  {
    hide SkipField, DecodeLoop, HoldsAt, EncodeTag, EncodeValue, HasKind, ValueFits;
    PartFits(s, p, EncodeTag(WireType(f.kind), f.tag), EncodeValue(f.kind, v), limit);
    WireTypeSmall(f.kind);
    var q := p + |EncodeTag(WireType(f.kind), f.tag)|;
    ValueIsSkipped(f.kind, v, s, q, limit);
    RecordIsSkipped(k, WireType(f.kind), f.tag, s, p, limit, st, q + |EncodeValue(f.kind, v)|);
  }

  lemma {:induction false} ItemsAreSkipped(k: Kind, f: Field, slot: Slot, j: nat, s: Bytes, p: nat, limit: nat, st: State)
    requires k.Submessage? && |st.slots| == |k.fields| && Unknown(k, f.tag) && 0 < f.tag < TAG_LIMIT && j <= |slot|
    requires forall a :: 0 <= a < |slot| ==> HasKind(f.kind, slot[a])
    requires forall a :: 0 <= a < |slot| ==> ValueFits(f.kind, slot[a])
    requires HoldsAt(s, p, EncodeItems(f, slot, true)) && p + |EncodeItems(f, slot, true)| <= limit <= |s|
    ensures |EncodeItems(f, slot[..j], true)| <= |EncodeItems(f, slot, true)|
    ensures DecodeLoop(k, s, p, limit, st) == DecodeLoop(k, s, p + |EncodeItems(f, slot[..j], true)|, limit, st)
    decreases j
  {
    hide DecodeLoop, HoldsAt, EncodeTag, EncodeValue, HasKind, ValueFits;
    if j == 0 {
      NoItems(f, slot);
    } else {
      ItemsAreSkipped(k, f, slot, j - 1, s, p, limit, st);
      ItemAt(f, slot, true, j - 1, s, p);
      ItemIsSkipped(k, f, slot[j - 1], s, p + |EncodeItems(f, slot[..j - 1], true)|, limit, st);
    }
  }

  /** All that one field wrote. */
  lemma SlotIsSkipped(k: Kind, f: Field, slot: Slot, s: Bytes, p: nat, limit: nat, st: State)
    requires k.Submessage? && |st.slots| == |k.fields| && Unknown(k, f.tag) && 0 < f.tag < TAG_LIMIT
    requires HasRule(f, slot) && SlotFits(f, slot)
    requires HoldsAt(s, p, EncodeSlot(f, slot)) && p + |EncodeSlot(f, slot)| <= limit <= |s|
    ensures DecodeLoop(k, s, p, limit, st) == DecodeLoop(k, s, p + |EncodeSlot(f, slot)|, limit, st)
  {
    hide DecodeLoop, EncodeItems, EncodeTag, HoldsAt, HasKind, IsZero, LengthPrefixed, ValueFits, SkipField;
    if slot == [] || (f.rule.Implicit? && IsZero(f.kind, slot[0])) {
    } else if IsArray(f.rule) && Packable(f.kind) {
      var key, data := EncodeTag(WT_STRING, f.tag), EncodeItems(f, slot, false);
      PartFits(s, p, key, LengthPrefixed(data), limit);
      PrefixIsSkipped(data, s, p + |key|, limit);
      RecordIsSkipped(k, WT_STRING, f.tag, s, p, limit, st, p + |key| + |LengthPrefixed(data)|);
    } else {
      ItemsAreSkipped(k, f, slot, |slot|, s, p, limit, st);
      assert slot[..|slot|] == slot;
    }
  }

  // ----- A reader with some of the fields -----

  /** The fields with one of these tags. */
  function Known(fields: seq<Field>, tags: set<nat>): seq<Field> {
    if fields == [] then []
    else
      var n := |fields| - 1;
      Known(fields[..n], tags) + if fields[n].tag in tags then [fields[n]] else []
  }

  function KnownSlots(fields: seq<Field>, slots: seq<Slot>, tags: set<nat>): (r: seq<Slot>)
    requires |slots| == |fields|
    ensures |r| == |Known(fields, tags)|
  {
    if fields == [] then []
    else
      var n := |fields| - 1;
      KnownSlots(fields[..n], slots[..n], tags) + if fields[n].tag in tags then [slots[n]] else []
  }

  /** Where a known field is for the reader. */
  lemma {:induction false} KnownPrefix(fields: seq<Field>, slots: seq<Slot>, tags: set<nat>, n: nat)
    requires n <= |fields| == |slots|
    ensures Known(fields[..n], tags) <= Known(fields, tags)
    ensures KnownSlots(fields[..n], slots[..n], tags) <= KnownSlots(fields, slots, tags)
    decreases |fields| - n
  {
    if n == |fields| {
      assert fields[..n] == fields && slots[..n] == slots;
    } else {
      KnownPrefix(fields, slots, tags, n + 1);
      assert fields[..n + 1][..n] == fields[..n] && slots[..n + 1][..n] == slots[..n];
    }
  }

  lemma KnownStep(fields: seq<Field>, slots: seq<Slot>, tags: set<nat>, n: nat)
    requires n < |fields| == |slots|
    ensures var i := |Known(fields[..n], tags)|;
      if fields[n].tag in tags then
        && |Known(fields[..n + 1], tags)| == i + 1 && i < |Known(fields, tags)|
        && Known(fields, tags)[i] == fields[n] && KnownSlots(fields, slots, tags)[i] == slots[n]
      else |Known(fields[..n + 1], tags)| == i
  {
    assert fields[..n + 1][..n] == fields[..n] && slots[..n + 1][..n] == slots[..n];
    KnownPrefix(fields, slots, tags, n + 1);
  }

  /** The field of the writer that known field `i` is. */
  lemma {:induction false} KnownFrom(fields: seq<Field>, slots: seq<Slot>, tags: set<nat>, i: nat) returns (n: nat)
    requires |fields| == |slots| && i < |Known(fields, tags)|
    ensures n < |fields| && |Known(fields[..n], tags)| == i && fields[n].tag in tags
    ensures Known(fields, tags)[i] == fields[n] && KnownSlots(fields, slots, tags)[i] == slots[n]
    decreases |fields|
  {
    var m := |fields| - 1;
    if i < |Known(fields[..m], tags)| {
      n := KnownFrom(fields[..m], slots[..m], tags, i);
      assert fields[..m][..n] == fields[..n];
    } else {
      n := m;
    }
  }

  lemma {:induction false} KnownGrows(fields: seq<Field>, tags: set<nat>, m: nat, n: nat)
    requires m <= n <= |fields|
    ensures |Known(fields[..m], tags)| <= |Known(fields[..n], tags)|
    decreases n
  {
    if m < n {
      KnownGrows(fields, tags, m, n - 1);
      assert fields[..n][..n - 1] == fields[..n - 1];
    }
  }

  lemma KnownInOrder(fields: seq<Field>, tags: set<nat>, m: nat, n: nat)
    requires m < |fields| && n < |fields| && |Known(fields[..m], tags)| < |Known(fields[..n], tags)|
    ensures m < n
  {
    if n <= m {
      KnownGrows(fields, tags, n, m);
    }
  }

  function Reader(k: Kind, tags: set<nat>): (r: Kind)
    requires k.Submessage?
    ensures r.Submessage?
  {
    Submessage(Known(k.fields, tags))
  }

  lemma ReaderIsWellFormed(k: Kind, tags: set<nat>)
    requires k.Submessage? && WellFormed(k)
    ensures WellFormed(Reader(k, tags))
  {
    hide Known;
    var r := Known(k.fields, tags);
    forall i | 0 <= i < |r|
      ensures FieldIsWellFormed(r[i])
    {
      var n := KnownFrom(k.fields, DefaultSlots(k), tags, i);
      assert FieldIsWellFormed(k.fields[n]);
    }
    forall i, j | 0 <= i < j < |r|
      ensures r[i].tag != r[j].tag
    {
      var m := KnownFrom(k.fields, DefaultSlots(k), tags, i);
      var n := KnownFrom(k.fields, DefaultSlots(k), tags, j);
      KnownInOrder(k.fields, tags, m, n);
    }
  }

  lemma ReaderHasFields(k: Kind, slots: seq<Slot>, tags: set<nat>)
    requires k.Submessage? && |slots| == |k.fields| && HasFields(k, slots)
    ensures HasFields(Reader(k, tags), KnownSlots(k.fields, slots, tags))
  {
    hide Known, KnownSlots, HasRule;
    var r, known := Known(k.fields, tags), KnownSlots(k.fields, slots, tags);
    forall i | 0 <= i < |r|
      ensures HasRule(r[i], known[i])
    {
      var n := KnownFrom(k.fields, slots, tags, i);
    }
    forall i, j | 0 <= i < j < |known| && known[i] != [] && known[j] != [] && r[i].rule.Oneof? && r[j].rule.Oneof?
      ensures r[i].rule.group != r[j].rule.group
    {
      var m := KnownFrom(k.fields, slots, tags, i);
      var n := KnownFrom(k.fields, slots, tags, j);
      KnownInOrder(k.fields, tags, m, n);
    }
  }

  /** The reader is between two fields of the writer. */
  ghost predicate Comes(k: Kind, slots: seq<Slot>, tags: set<nat>, s: Bytes, p: nat, limit: nat, n: nat)
    requires k.Submessage? && HasFields(k, slots) && n <= |slots| == |k.fields| && p <= limit <= |s|
  {
    var r, known, i := Reader(k, tags), KnownSlots(k.fields, slots, tags), |Known(k.fields[..n], tags)|;
    i <= |known| && DecodeLoop(r, s, p, limit, After(r, known, i)) == Some(After(r, known, |known|))
  }

  /** From field `n` of the writer on. */
  lemma {:induction false} FieldsArrive(k: Kind, slots: seq<Slot>, tags: set<nat>, n: nat, s: Bytes)
    requires k.Submessage? && WellFormed(k) && HasFields(k, slots) && n <= |slots| == |k.fields| && PartsFit(k, slots)
    requires s == EncodeMessage(k, slots)
    ensures |EncodeFields(k, slots, n)| <= |s| && Comes(k, slots, tags, s, |EncodeFields(k, slots, n)|, |s|, n)
    decreases |slots| - n
  {
    hide DecodeLoop, HoldsAt, After, HasFields, HasKind, WellFormed, EncodeSlot, Known, KnownSlots, HasRule, SlotFits,
      Comes, Unknown;
    ReaderHasFields(k, slots, tags);
    var r, known, limit := Reader(k, tags), KnownSlots(k.fields, slots, tags), |s|;
    if n == |slots| {
      assert k.fields[..n] == k.fields;
      AtLimit(r, s, limit, After(r, known, |known|));
      assert Comes(k, slots, tags, s, limit, limit, n) by { ComesAtEnd(k, slots, tags, s); }
    } else {
      FieldsArrive(k, slots, tags, n + 1, s);
      FieldsPrefix(k, slots, n + 1, |slots|);
      Whole(s);
      PrefixOf(s, 0, EncodeFields(k, slots, n + 1), s);
      PartFits(s, 0, EncodeFields(k, slots, n), EncodeSlot(k.fields[n], slots[n]), limit);
      FieldArrives(k, slots, tags, n, s);
    }
  }

  lemma ComesAtEnd(k: Kind, slots: seq<Slot>, tags: set<nat>, s: Bytes)
    requires k.Submessage? && HasFields(k, slots) && |slots| == |k.fields|
    ensures Comes(k, slots, tags, s, |s|, |s|, |slots|)
  {
    hide Known, KnownSlots, After, HasFields;
    assert k.fields[..|slots|] == k.fields;
  }

  /** One field of the writer, known or not. */
  lemma FieldArrives(k: Kind, slots: seq<Slot>, tags: set<nat>, n: nat, s: Bytes)
    requires k.Submessage? && WellFormed(k) && HasFields(k, slots) && n < |slots| == |k.fields| && PartsFit(k, slots)
    requires var p, q := |EncodeFields(k, slots, n)|, |EncodeFields(k, slots, n + 1)|;
      && HasRule(k.fields[n], slots[n]) && q == p + |EncodeSlot(k.fields[n], slots[n])| <= |s|
      && HoldsAt(s, p, EncodeSlot(k.fields[n], slots[n])) && Comes(k, slots, tags, s, q, |s|, n + 1)
    ensures Comes(k, slots, tags, s, |EncodeFields(k, slots, n)|, |s|, n)
  {
    hide DecodeLoop, HoldsAt, After, HasFields, HasKind, WellFormed, EncodeSlot, Known, KnownSlots, HasRule, SlotFits,
      EncodeFields, FieldIsWellFormed;
    var r, known, i := Reader(k, tags), KnownSlots(k.fields, slots, tags), |Known(k.fields[..n], tags)|;
    var f, slot, p := k.fields[n], slots[n], |EncodeFields(k, slots, n)|;
    ReaderHasFields(k, slots, tags);
    ReaderIsWellFormed(k, tags);
    KnownStep(k.fields, slots, tags, n);
    if f.tag in tags {
      SlotWritten(r, known, i, s, p, |s|);
    } else {
      KnownPrefix(k.fields, slots, tags, n);
      UnknownTag(k, tags, n);
      SlotIsSkipped(r, f, slot, s, p, |s|, After(r, known, i));
    }
  }

  lemma UnknownTag(k: Kind, tags: set<nat>, n: nat)
    requires k.Submessage? && WellFormed(k) && n < |k.fields| && k.fields[n].tag !in tags
    ensures Unknown(Reader(k, tags), k.fields[n].tag) && 0 < k.fields[n].tag < TAG_LIMIT
  {
    hide Known;
    var r := Reader(k, tags);
    assert FieldIsWellFormed(k.fields[n]);
    forall i | 0 <= i < |r.fields|
      ensures r.fields[i].tag != k.fields[n].tag
    {
      var m := KnownFrom(k.fields, DefaultSlots(k), tags, i);
    }
  }

  /** A reader whose descriptor has only some of the fields gets exactly what those fields hold,
      from any message of the writer. */
  lemma SubsetDecodes(k: Kind, slots: seq<Slot>, tags: set<nat>)
    requires k.Submessage? && WellFormed(k) && HasFields(k, slots) && PartsFit(k, slots)
    ensures Decode(Reader(k, tags), EncodeMessage(k, slots)) == Some(KnownSlots(k.fields, slots, tags))
  {
    hide DecodeLoop, HasFields, WellFormed, Known, KnownSlots, SeenAfter, DefaultSlot, RequiredBefore, FixedAfter, FixedFull,
      HasRule, SlotFits;
    var r, known, s := Reader(k, tags), KnownSlots(k.fields, slots, tags), EncodeMessage(k, slots);
    ReaderHasFields(k, slots, tags);
    FieldsArrive(k, slots, tags, 0, s);
    assert k.fields[..0] == [] && Known([], tags) == [] by { NoneKnown(tags); }
    assert known[..0] + DefaultSlots(r)[0..] == DefaultSlots(r);
    assert known[..|known|] + DefaultSlots(r)[|known|..] == known;
    NothingYet(r, known);
    FixedIsFull(r, known, |known|);
    AllAreSeen(r, |known|);
  }

  lemma NoneKnown(tags: set<nat>)
    ensures Known([], tags) == []
  {
  }

  // ----- A field that comes again -----

  /** The value decodes, whatever is held before. */
  lemma {:induction false} ValueReplaces(k: Kind, v: Value, s: Bytes, p: nat, limit: nat, start: Value)
    requires !k.Submessage? && WellFormed(k) && HasKind(k, v) && ValueFits(k, v)
    requires HoldsAt(s, p, EncodeValue(k, v)) && p + |EncodeValue(k, v)| <= limit <= |s|
    ensures DecodeValue(k, s, p, limit, start) == Some(Got(v, p + |EncodeValue(k, v)|))
  {
    hide HoldsAt, Coding.Varint, ReadVarint32, LengthPrefixed, DecodeBlob, HasKind;
    if Packable(k) {
      ScalarWritten(k, v, s, p, limit, start);
    } else {
      BlobIs(k, v);
      BlobWritten(k, v, s, p, limit);
    }
  }

  lemma BlobIs(k: Kind, v: Value)
    requires !Packable(k) && !k.Submessage? && HasKind(k, v)
    ensures (k.ByteArray? || k.String? || k.FixedLengthBytes?) && EncodeValue(k, v) == LengthPrefixed(v.bytes)
  {
    hide LengthPrefixed;
  }

  /** In any state, the value of a field that is not an array takes the place of the one before, and
      of any other field of its union; nothing else changes. */
  lemma ItemReplaces(k: Kind, i: nat, v: Value, s: Bytes, p: nat, limit: nat, st: State) returns (st': State)
    requires k.Submessage? && WellFormed(k) && |st.slots| == |k.fields| && i < |k.fields|
    requires var f := k.fields[i]; !IsArray(f.rule) && !f.kind.Submessage? && HasKind(f.kind, v) && ValueFits(f.kind, v)
    requires HoldsAt(s, p, ItemBytes(k.fields[i], v, true)) && p + |ItemBytes(k.fields[i], v, true)| <= limit <= |s|
    ensures |st'.slots| == |k.fields| && st'.slots[i] == [v] && st'.fixed == st.fixed
    ensures forall j :: 0 <= j < |k.fields| && j != i ==>
      st'.slots[j] == if k.fields[i].rule.Oneof? && k.fields[j].rule == k.fields[i].rule then [] else st.slots[j]
    ensures DecodeLoop(k, s, p, limit, st) == DecodeLoop(k, s, p + |ItemBytes(k.fields[i], v, true)|, limit, st')
  {
    hide DecodeLoop, DecodeValue, EncodeValue, EncodeTag, HoldsAt, HasKind, WellFormed, ValueFits;
    var f := k.fields[i];
    var tag := EncodeTag(WireType(f.kind), f.tag);
    PartFits(s, p, tag, EncodeValue(f.kind, v), limit);
    KindIsWellFormed(k, i);
    WireTypeSmall(f.kind);
    var noted := Note(k.fields, i, st).value;
    ValueReplaces(f.kind, v, s, p + |tag|, limit, StartOf(f, noted.slots[i]));
    st' := Store(k.fields, i, noted, v);
    LoopStep(k, i, WireType(f.kind), s, p, limit, st, noted, Got(st', p + |tag| + |EncodeValue(f.kind, v)|));
  }

  /** In any state, a value of an array that is not full is one more at its end. */
  lemma ItemAppends(k: Kind, i: nat, v: Value, s: Bytes, p: nat, limit: nat, st: State) returns (st': State)
    requires k.Submessage? && WellFormed(k) && |st.slots| == |k.fields| && i < |k.fields|
    requires var f := k.fields[i]; f.rule.Repeated? && HasKind(f.kind, v) && ValueFits(f.kind, v) && |st.slots[i]| < f.rule.max
    requires var f := k.fields[i]; !Packable(f.kind)
    requires HoldsAt(s, p, ItemBytes(k.fields[i], v, true)) && p + |ItemBytes(k.fields[i], v, true)| <= limit <= |s|
    ensures |st'.slots| == |k.fields| && st' == st.(slots := st.slots[i := st.slots[i] + [v]])
    ensures DecodeLoop(k, s, p, limit, st) == DecodeLoop(k, s, p + |ItemBytes(k.fields[i], v, true)|, limit, st')
  {
    hide DecodeLoop, DecodeValue, EncodeValue, EncodeTag, HoldsAt, HasKind, WellFormed, ValueFits;
    var f := k.fields[i];
    var tag := EncodeTag(WireType(f.kind), f.tag);
    PartFits(s, p, tag, EncodeValue(f.kind, v), limit);
    KindIsWellFormed(k, i);
    WireTypeSmall(f.kind);
    ValueWritten(f.kind, v, s, p + |tag|, limit, Default(f.kind));
    st' := Push(k.fields, i, st, v);
    LoopStep(k, i, WireType(f.kind), s, p, limit, st, st, Got(st', p + |tag| + |EncodeValue(f.kind, v)|));
  }

  // ----- Decoding and encoding again -----

  /** Whatever was accepted, from any bytes, can be encoded and comes back the same, if no string in
      it has a zero byte. */
  lemma AcceptedComesBack(k: Kind, s: Bytes)
    requires k.Submessage? && WellFormed(k) && PbAccepts.SizesOk(k) && Decode(k, s).Some?
    ensures PbAccepts.FitsFields(k, Decode(k, s).value)
    ensures PbAccepts.NoZerosIn(k, Decode(k, s).value) ==>
      var slots := Decode(k, s).value;
      HasFields(k, slots) && (PartsFit(k, slots) ==> Decode(k, EncodeMessage(k, slots)) == Some(slots))
  {
    hide HasFields, PbAccepts.FitsFields, PbAccepts.NoZerosIn, WellFormed, PartsFit, DecodeMessage, EncodeMessage;
    PbAccepts.DecodedFits(k, s);
    var slots := Decode(k, s).value;
    PbAccepts.FieldsIff(k, slots);
    if PbAccepts.NoZerosIn(k, slots) && PartsFit(k, slots) {
      RoundTrip(k, slots);
    }
  }
}

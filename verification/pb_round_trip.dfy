/** Decoding what was encoded gives back the message. */
module PbRoundTrip {
  import opened InternalKey
  import opened Coding
  import opened Pb
  import opened PbDecoding
  import opened PbVarints

  // ----- Descriptors that generated code has -----

  const TAG_LIMIT: nat := 0x2000_0000

  /** Tags are distinct, positive and below 2^29, at every depth. */
  ghost predicate WellFormed(k: Kind)
    decreases k, 1
  {
    k.Submessage? ==>
      && (forall i :: 0 <= i < |k.fields| ==> FieldIsWellFormed(k.fields[i]))
      && forall i, j :: 0 <= i < j < |k.fields| ==> k.fields[i].tag != k.fields[j].tag
  }

  ghost predicate FieldIsWellFormed(f: Field)
    decreases f
  {
    0 < f.tag < TAG_LIMIT && WellFormed(f.kind)
  }

  // ----- Lengths -----

  /** The length in front of a value is a 32-bit number. */
  ghost predicate ValueFits(k: Kind, v: Value)
    requires HasKind(k, v)
  {
    if Packable(k) then true else if k.Submessage? then |EncodeMessage(k, v.slots)| < TWO32 else |v.bytes| < TWO32
  }

  ghost predicate SlotFits(f: Field, slot: Slot)
    requires HasRule(f, slot)
  {
    slot == [] || (f.rule.Implicit? && IsZero(f.kind, slot[0]))
    || if IsArray(f.rule) && Packable(f.kind) then |EncodeItems(f, slot, false)| < TWO32
       else forall j :: 0 <= j < |slot| ==> ValueFits(f.kind, slot[j])
  }

  /** Every part of the message that has its length in front is below 4 GiB. */
  ghost predicate PartsFit(k: Kind, slots: seq<Slot>)
    requires k.Submessage? && HasFields(k, slots)
  {
    |slots| == |k.fields| && forall n :: 0 <= n < |slots| ==> HasRule(k.fields[n], slots[n]) && SlotFits(k.fields[n], slots[n])
  }

  lemma ItemIsPart(f: Field, slot: Slot, j: nat)
    requires j < |slot| && forall a :: 0 <= a < |slot| ==> HasKind(f.kind, slot[a])
    ensures |EncodeValue(f.kind, slot[j])| <= |EncodeItems(f, slot, true)|
  {
    hide HasKind, EncodeValue, EncodeTag;
    ItemsPrefix(f, slot, true, j + 1, |slot|);
    assert slot[..|slot|] == slot && slot[..j + 1][..j] == slot[..j];
  }

  lemma SmallValueFits(k: Kind, v: Value)
    requires HasKind(k, v) && |EncodeValue(k, v)| < TWO32
    ensures ValueFits(k, v)
  {
    hide EncodeMessage, HasFields;
  }

  lemma SmallSlotFits(f: Field, slot: Slot)
    requires HasRule(f, slot) && |EncodeSlot(f, slot)| < TWO32
    ensures SlotFits(f, slot)
  {
    hide HasKind, EncodeValue, EncodeItems, ValueFits, IsZero, EncodeTag;
    if slot != [] && !(f.rule.Implicit? && IsZero(f.kind, slot[0])) && !(IsArray(f.rule) && Packable(f.kind)) {
      forall j | 0 <= j < |slot|
        ensures ValueFits(f.kind, slot[j])
      {
        ItemIsPart(f, slot, j);
        SmallValueFits(f.kind, slot[j]);
      }
    }
  }

  /** In a message that is below 4 GiB all parts are. */
  lemma SmallFits(k: Kind, slots: seq<Slot>)
    requires k.Submessage? && HasFields(k, slots) && |EncodeMessage(k, slots)| < TWO32
    ensures PartsFit(k, slots)
  {
    hide HasRule, EncodeSlot, SlotFits;
    assert |slots| == |k.fields|;
    forall n | 0 <= n < |slots|
      ensures HasRule(k.fields[n], slots[n]) && SlotFits(k.fields[n], slots[n])
    {
      RuleOf(k, slots, n);
      FieldsPrefix(k, slots, n + 1, |slots|);
      SmallSlotFits(k.fields[n], slots[n]);
    }
  }

  // ----- Scalars -----

  lemma Varint32Written(v: nat, s: Bytes, p: nat, limit: nat)
    requires v < TWO32 && HoldsAt(s, p, Coding.Varint(v)) && p + |Coding.Varint(v)| <= limit <= |s|
    ensures ReadVarint32(s, p, limit) == Some(Parsed(v, p + |Coding.Varint(v)|))
  {
    hide ReadVarint32;
    Powers();
    VarintRoundTrip(v, s, p, limit, 5);
    ShortVarint32(s, p, limit);
  }

  lemma Unsigned64Of(n: int)
    requires -(TWO63 as int) <= n < TWO63
    ensures Unsigned64(n) == if n < 0 then n + TWO64 else n
  {
  }

  lemma Low32(n: int)
    requires -0x8000_0000 <= n < 0x8000_0000
    ensures (if n < 0 then n + TWO64 else n) % TWO32 == if n < 0 then n + TWO32 else n
  {
    if n < 0 {
      assert n + TWO64 == TWO32 * (TWO32 - 1) + (n + TWO32);
    }
  }

  lemma VarintCastsBack(size: nat, n: int)
    requires IsSize(size) && -(Half(size) as int) <= n < Half(size)
    ensures Unsigned64(n) < TWO64 && CastVarint(size, Unsigned64(n)) == Some(Number(n))
  {
    hide Unsigned64;
    Unsigned64Of(n);
    if size != 8 {
      Low32(n);
    }
  }

  lemma ZigZagBack(n: int)
    ensures UnZigZag(ZigZag(n)) == n
  {
  }

  lemma SvarintCastsBack(size: nat, n: int)
    requires IsSize(size) && -(Half(size) as int) <= n < Half(size)
    ensures ZigZag(n) < TWO64 && CastSvarint(size, ZigZag(n)) == Some(Number(n))
  {
    hide UnZigZag;
    ZigZagBack(n);
  }

  lemma NumberWritten(u: nat, s: Bytes, p: nat, limit: nat, cast: nat -> Option<Value>, v: Value)
    requires u < TWO64 && HoldsAt(s, p, Coding.Varint(u)) && p + |Coding.Varint(u)| <= limit <= |s|
    requires cast(u) == Some(v)
    ensures DecodeNumber(s, p, limit, cast) == Some(Got(v, p + |Coding.Varint(u)|))
  {
    Varint64RoundTrip(u, s, p, limit);
  }

  lemma FixedWritten(n: nat, size: nat, s: Bytes, p: nat, limit: nat)
    requires 0 < size && n < Power(256, size) && HoldsAt(s, p, Fixed(n, size)) && p + size <= limit <= |s|
    ensures DecodeFixedWidth(s, p, limit, size) == Some(Got(Number(n), p + size))
  {
    FixedRoundTrip(n, size, []);
    assert Fixed(n, size) + [] == Fixed(n, size);
  }

  /** A length and as many bytes. */
  lemma PrefixWritten(data: Bytes, s: Bytes, p: nat, limit: nat)
    requires |data| < TWO32 && HoldsAt(s, p, LengthPrefixed(data)) && p + |LengthPrefixed(data)| <= limit <= |s|
    ensures var q := p + |Coding.Varint(|data|)|;
      && ReadVarint32(s, p, limit) == Some(Parsed(|data|, q)) && HoldsAt(s, q, data)
      && q + |data| == p + |LengthPrefixed(data)| <= limit
  {
    hide Coding.Varint, ReadVarint32;
    HoldsParts(s, p, Coding.Varint(|data|), data);
    Varint32Written(|data|, s, p, limit);
  }

  lemma BlobWritten(k: Kind, v: Value, s: Bytes, p: nat, limit: nat)
    requires k.ByteArray? || k.String? || k.FixedLengthBytes?
    requires HasKind(k, v) && |v.bytes| < TWO32
    requires HoldsAt(s, p, LengthPrefixed(v.bytes)) && p + |LengthPrefixed(v.bytes)| <= limit <= |s|
    ensures DecodeBlob(k, s, p, limit) == Some(Got(v, p + |LengthPrefixed(v.bytes)|))
  {
    hide Coding.Varint, ReadVarint32, LengthPrefixed;
    PrefixWritten(v.bytes, s, p, limit);
    if k.FixedLengthBytes? && v.bytes == [] {
      assert Default(k).bytes == [];
    }
  }

  // ----- Positions -----

  /** Where item `j` of an array is. */
  lemma ItemAt(f: Field, slot: Slot, tagged: bool, j: nat, s: Bytes, p: nat)
    requires j < |slot| && (forall a :: 0 <= a < |slot| ==> HasKind(f.kind, slot[a]))
    requires HoldsAt(s, p, EncodeItems(f, slot, tagged))
    ensures var q := p + |EncodeItems(f, slot[..j], tagged)|;
      && HoldsAt(s, q, ItemBytes(f, slot[j], tagged))
      && q + |ItemBytes(f, slot[j], tagged)| == p + |EncodeItems(f, slot[..j + 1], tagged)|
           <= p + |EncodeItems(f, slot, tagged)|
  {
    hide HasKind, EncodeValue, HoldsAt;
    ItemsPrefix(f, slot, tagged, j + 1, |slot|);
    assert slot[..|slot|] == slot && slot[..j + 1][..j] == slot[..j];
    PrefixOf(s, p, EncodeItems(f, slot[..j + 1], tagged), EncodeItems(f, slot, tagged));
    HoldsParts(s, p, EncodeItems(f, slot[..j], tagged), ItemBytes(f, slot[j], tagged));
  }

  lemma PrefixOf(s: Bytes, p: nat, a: Bytes, b: Bytes)
    requires a <= b && HoldsAt(s, p, b)
    ensures HoldsAt(s, p, a)
  {
    assert s[p..p + |a|] == s[p..p + |b|][..|a|];
  }

  // ----- The state after some fields -----

  /** The fixed-count array that was filled last, among the first `n` fields. */
  function FixedAfter(k: Kind, slots: seq<Slot>, n: nat): (r: Option<(nat, nat)>)
    requires k.Submessage? && |slots| == |k.fields| && n <= |slots|
    ensures r.Some? ==> r.value.0 < n
  {
    if n == 0 then None
    else if k.fields[n - 1].rule.FixedCount? && slots[n - 1] != [] then Some((n - 1, |slots[n - 1]|))
    else FixedAfter(k, slots, n - 1)
  }

  function SeenAfter(k: Kind, n: nat): set<nat>
    requires k.Submessage? && n <= |k.fields|
  {
    if n == 0 then {}
    else
      SeenAfter(k, n - 1)
      + if k.fields[n - 1].rule.Required? && RequiredBefore(k.fields, n - 1) < MAX_REQUIRED_FIELDS
        then {RequiredBefore(k.fields, n - 1)} else {}
  }

  /** What the decoder has when it has decoded the first `n` fields. */
  function After(k: Kind, slots: seq<Slot>, n: nat): (st: State)
    requires k.Submessage? && |slots| == |k.fields| && n <= |slots|
    ensures |st.slots| == |slots|
  {
    State(slots[..n] + DefaultSlots(k)[n..], FixedAfter(k, slots, n), SeenAfter(k, n))
  }

  lemma {:induction false} FixedIsFull(k: Kind, slots: seq<Slot>, n: nat)
    requires k.Submessage? && HasFields(k, slots) && n <= |slots|
    ensures FixedFull(k.fields, After(k, slots, n))
  {
    hide DefaultSlots, HasKind;
    if n > 0 {
      FixedIsFull(k, slots, n - 1);
      assert HasRule(k.fields[n - 1], slots[n - 1]);
    }
  }

  lemma {:induction false} AllAreSeen(k: Kind, n: nat)
    requires k.Submessage? && n <= |k.fields|
    ensures forall r: nat :: r < RequiredBefore(k.fields, n) && r < MAX_REQUIRED_FIELDS ==> r in SeenAfter(k, n)
  {
    if n > 0 {
      AllAreSeen(k, n - 1);
    }
  }

  /** An array field of which `j` entries are decoded. */
  function Filling(k: Kind, slots: seq<Slot>, n: nat, j: nat): (st: State)
    requires k.Submessage? && |slots| == |k.fields| && n < |slots| && j <= |slots[n]|
    requires IsArray(k.fields[n].rule)
    ensures |st.slots| == |slots|
  {
    var st := After(k, slots, n);
    if k.fields[n].rule.FixedCount? then
      var d := DefaultSlot(k.fields[n]);
      st.(slots := st.slots[n := slots[n][..j] + if j <= |d| then d[j..] else []], fixed := Some((n, j)))
    else st.(slots := st.slots[n := slots[n][..j]])
  }

  lemma StartsFilling(k: Kind, slots: seq<Slot>, n: nat)
    requires k.Submessage? && HasFields(k, slots) && n < |slots| && IsArray(k.fields[n].rule)
    ensures Note(k.fields, n, After(k, slots, n)) == Some(Filling(k, slots, n, 0))
  {
    hide HasKind;
    FixedIsFull(k, slots, n);
    var st, d := After(k, slots, n), DefaultSlot(k.fields[n]);
    assert st.slots[n] == DefaultSlots(k)[n] == d;
    assert slots[n][..0] + d[0..] == d && slots[n][..0] == [];
    assert st.slots[n := d] == st.slots;
  }

  lemma KeepsFilling(k: Kind, slots: seq<Slot>, n: nat, j: nat)
    requires k.Submessage? && HasFields(k, slots) && n < |slots| && IsArray(k.fields[n].rule) && j < |slots[n]|
    ensures var st := Filling(k, slots, n, j);
      && Note(k.fields, n, st) == Some(st)
      && Count(k.fields, n, st) == j < Limit(k.fields[n].rule)
      && Push(k.fields, n, st, slots[n][j]) == Filling(k, slots, n, j + 1)
  {
    hide HasKind, SeenAfter, FixedAfter;
    assert HasRule(k.fields[n], slots[n]);
    var f, slot, d, st := k.fields[n], slots[n], DefaultSlot(k.fields[n]), Filling(k, slots, n, j);
    var after := After(k, slots, n).slots;
    if f.rule.FixedCount? {
      assert (slot[..j] + d[j..])[j := slot[j]] == slot[..j + 1] + d[j + 1..];
      assert st.slots[n := slot[..j + 1] + d[j + 1..]] == after[n := slot[..j + 1] + d[j + 1..]];
    } else {
      assert slot[..j] + [slot[j]] == slot[..j + 1];
      assert st.slots[n := slot[..j + 1]] == after[n := slot[..j + 1]];
    }
  }

  lemma FillingEnds(k: Kind, slots: seq<Slot>, n: nat)
    requires k.Submessage? && HasFields(k, slots) && n < |slots| && IsArray(k.fields[n].rule) && slots[n] != []
    ensures Filling(k, slots, n, |slots[n]|) == After(k, slots, n + 1)
  {
    hide HasKind;
    assert HasRule(k.fields[n], slots[n]);
    var f, slot, d := k.fields[n], slots[n], DefaultSlot(k.fields[n]);
    assert slot[..|slot|] == slot;
    assert f.rule.FixedCount? ==> |d| == |slot| && slot + d[|slot|..] == slot;
    assert After(k, slots, n).slots[n := slot] == After(k, slots, n + 1).slots;
  }

  /** A field that writes nothing is one that the decoder has right already. */
  lemma SkippedSlot(k: Kind, slots: seq<Slot>, n: nat)
    requires k.Submessage? && HasFields(k, slots) && n < |slots| == |k.fields|
    requires slots[n] == [] || (k.fields[n].rule.Implicit? && IsZero(k.fields[n].kind, slots[n][0]))
    ensures After(k, slots, n + 1) == After(k, slots, n)
  {
    hide HasKind, HasRule, IsZero, DefaultSlot;
    assert HasRule(k.fields[n], slots[n]);
    SkippedIsDefault(k.fields[n], slots[n]);
    assert After(k, slots, n + 1).slots == After(k, slots, n).slots;
  }

  lemma SkippedIsDefault(f: Field, slot: Slot)
    requires HasRule(f, slot) && (slot == [] || (f.rule.Implicit? && IsZero(f.kind, slot[0])))
    ensures slot == DefaultSlot(f) && !f.rule.Required? && (f.rule.FixedCount? ==> slot == [])
  {
    hide IsZero, HasKind, Default;
    if slot != [] {
      assert HasKind(f.kind, slot[0]);
      ZeroIsDefault(f.kind, slot[0]);
    }
  }

  /** No other field of the union is held. */
  lemma ClearsNothing(k: Kind, slots: seq<Slot>, n: nat)
    requires k.Submessage? && HasFields(k, slots) && n < |slots| && k.fields[n].rule.Oneof? && slots[n] != []
    ensures ClearUnion(k.fields, After(k, slots, n).slots, n) == After(k, slots, n).slots
  {
    hide HasKind, HasRule, SeenAfter, FixedAfter;
    var before := After(k, slots, n).slots;
    var cleared := ClearUnion(k.fields, before, n);
    forall j | 0 <= j < |slots|
      ensures cleared[j] == before[j]
    {
      if j != n && k.fields[j].rule.Oneof? && k.fields[j].rule.group == k.fields[n].rule.group {
        if j < n {
          assert slots[j] == [];
        } else {
          assert DefaultSlots(k)[j] == DefaultSlot(k.fields[j]);
        }
      }
    }
  }

  lemma SlotsAfter(k: Kind, slots: seq<Slot>, n: nat)
    requires k.Submessage? && |slots| == |k.fields| && n < |slots|
    ensures After(k, slots, n).slots[n] == DefaultSlot(k.fields[n])
    ensures After(k, slots, n).slots[n := slots[n]] == After(k, slots, n + 1).slots
  {
    hide DefaultSlot, SeenAfter, FixedAfter;
    assert After(k, slots, n).slots[n] == DefaultSlots(k)[n];
  }

  /** A field that is not an array, once decoded. */
  lemma StoredSlot(k: Kind, slots: seq<Slot>, n: nat)
    requires k.Submessage? && HasFields(k, slots) && n < |slots| && !IsArray(k.fields[n].rule) && |slots[n]| == 1
    ensures var st := After(k, slots, n);
      && StartOf(k.fields[n], st.slots[n]) == Default(k.fields[n].kind)
      && Note(k.fields, n, st).Some?
      && Store(k.fields, n, Note(k.fields, n, st).value, slots[n][0]) == After(k, slots, n + 1)
  {
    hide After, HasFields, ClearUnion, Note;
    RuleOf(k, slots, n);
    SlotsAfter(k, slots, n);
    if k.fields[n].rule.Oneof? {
      ClearsNothing(k, slots, n);
    }
    assert slots[n] == [slots[n][0]];
    NotedNumbers(k, slots, n);
  }

  lemma NotedNumbers(k: Kind, slots: seq<Slot>, n: nat)
    requires k.Submessage? && |slots| == |k.fields| && n < |slots| && !IsArray(k.fields[n].rule)
    ensures var st := After(k, slots, n);
      Note(k.fields, n, st) == Some(State(st.slots, After(k, slots, n + 1).fixed, After(k, slots, n + 1).seen))
  {
    hide DefaultSlots, ClearUnion;
    assert SeenAfter(k, n) + {} == SeenAfter(k, n);
  }

  // ----- One record -----

  lemma WireTypeSmall(k: Kind)
    ensures WireType(k) < 8
    ensures WireType(k) == WT_STRING ==> !Packable(k)
  {
  }

  /** A tag that was written leads the loop to its field. */
  lemma {:induction false} LoopStep(k: Kind, i: nat, wireType: nat, s: Bytes, p: nat, limit: nat, st: State, noted: State, got: Got<State>)
    requires k.Submessage? && WellFormed(k) && |st.slots| == |k.fields| == |noted.slots| && i < |k.fields| && wireType < 8
    requires limit <= |s| && HoldsAt(s, p, EncodeTag(wireType, k.fields[i].tag))
    requires p + |EncodeTag(wireType, k.fields[i].tag)| <= limit
    requires Note(k.fields, i, st) == Some(noted)
    requires DecodeField(k, i, wireType, s, p + |EncodeTag(wireType, k.fields[i].tag)|, limit, noted) == Some(got)
    ensures DecodeLoop(k, s, p, limit, st) == DecodeLoop(k, s, got.next, limit, got.value)
  {
    hide DecodeField, Note, FindField, ReadVarint32, HoldsAt, Coding.Varint;
    assert FieldIsWellFormed(k.fields[i]);
    var tag := k.fields[i].tag;
    Varint32Written(tag * 8 + wireType, s, p, limit);
    FindsField(k.fields, i);
    assert (tag * 8 + wireType) / 8 == tag && (tag * 8 + wireType) % 8 == wireType;
  }

  lemma PartFits(s: Bytes, p: nat, a: Bytes, b: Bytes, limit: nat)
    requires HoldsAt(s, p, a + b) && p + |a + b| <= limit
    ensures HoldsAt(s, p, a) && HoldsAt(s, p + |a|, b) && p + |a| + |b| <= limit
  {
    HoldsParts(s, p, a, b);
  }

  /** A field with a single value. */
  lemma {:induction false} SingleWritten(k: Kind, slots: seq<Slot>, n: nat, s: Bytes, p: nat, limit: nat)
    requires k.Submessage? && WellFormed(k) && HasFields(k, slots) && n < |slots| == |k.fields|
    requires !IsArray(k.fields[n].rule) && |slots[n]| == 1 && HasKind(k.fields[n].kind, slots[n][0])
    requires HoldsAt(s, p, ItemBytes(k.fields[n], slots[n][0], true))
    requires p + |ItemBytes(k.fields[n], slots[n][0], true)| <= limit <= |s|
    requires ValueFits(k.fields[n].kind, slots[n][0])
    ensures DecodeLoop(k, s, p, limit, After(k, slots, n))
         == DecodeLoop(k, s, p + |ItemBytes(k.fields[n], slots[n][0], true)|, limit, After(k, slots, n + 1))
    decreases k, 1
  {
    hide DecodeLoop, DecodeValue, EncodeValue, EncodeTag, HoldsAt, Note, After, HasFields, HasKind, WellFormed;
    var f, v := k.fields[n], slots[n][0];
    var tag := EncodeTag(WireType(f.kind), f.tag);
    PartFits(s, p, tag, EncodeValue(f.kind, v), limit);
    StoredSlot(k, slots, n);
    WireTypeSmall(f.kind);
    KindIsWellFormed(k, n);
    ValueWritten(f.kind, v, s, p + |tag|, limit, Default(f.kind));
    var noted := Note(k.fields, n, After(k, slots, n)).value;
    var got := Got(Store(k.fields, n, noted, v), p + |tag| + |EncodeValue(f.kind, v)|);
    LoopStep(k, n, WireType(f.kind), s, p, limit, After(k, slots, n), noted, got);
  }

  lemma KindIsWellFormed(k: Kind, n: nat)
    requires k.Submessage? && WellFormed(k) && n < |k.fields|
    ensures WellFormed(k.fields[n].kind)
  {
    assert FieldIsWellFormed(k.fields[n]);
  }

  /** The entries of an array from the `j`-th on, each with its tag. */
  lemma {:induction false} TaggedWritten(k: Kind, slots: seq<Slot>, n: nat, j: nat, s: Bytes, p: nat, limit: nat, st: State)
    requires k.Submessage? && WellFormed(k) && HasFields(k, slots) && n < |slots| == |k.fields| == |st.slots|
    requires IsArray(k.fields[n].rule) && !Packable(k.fields[n].kind) && j < |slots[n]|
    requires Note(k.fields, n, st) == Some(Filling(k, slots, n, j))
    requires forall a :: 0 <= a < |slots[n]| ==> HasKind(k.fields[n].kind, slots[n][a])
    requires HoldsAt(s, p, EncodeItems(k.fields[n], slots[n], true))
    requires p + |EncodeItems(k.fields[n], slots[n], true)| <= limit <= |s|
    requires forall a :: 0 <= a < |slots[n]| ==> ValueFits(k.fields[n].kind, slots[n][a])
    ensures var f, slot := k.fields[n], slots[n];
      var q := p + |EncodeItems(f, slot[..j], true)|;
      && q <= p + |EncodeItems(f, slot, true)|
      && DecodeLoop(k, s, q, limit, st)
           == DecodeLoop(k, s, p + |EncodeItems(f, slot, true)|, limit, Filling(k, slots, n, |slot|))
    decreases k, 1, |slots[n]| - j
  {
    hide DecodeLoop, DecodeValue, EncodeValue, EncodeTag, HoldsAt, Note, Filling, HasFields, HasKind, WellFormed, Push, Count,
      EncodeItems;
    var f, slot := k.fields[n], slots[n];
    var v, q := slot[j], p + |EncodeItems(f, slot[..j], true)|;
    ItemAt(f, slot, true, j, s, p);
    var tag := EncodeTag(WireType(f.kind), f.tag);
    PartFits(s, q, tag, EncodeValue(f.kind, v), limit);
    KeepsFilling(k, slots, n, j);
    WireTypeSmall(f.kind);
    KindIsWellFormed(k, n);
    ValueWritten(f.kind, v, s, q + |tag|, limit, Default(f.kind));
    var got := Got(Filling(k, slots, n, j + 1), q + |tag| + |EncodeValue(f.kind, v)|);
    LoopStep(k, n, WireType(f.kind), s, q, limit, st, Filling(k, slots, n, j), got);
    if j + 1 < |slot| {
      KeepsFilling(k, slots, n, j + 1);
      TaggedWritten(k, slots, n, j + 1, s, p, limit, Filling(k, slots, n, j + 1));
    } else {
      assert slot[..j + 1] == slot;
    }
  }

  /** The entries of a packed array from the `j`-th on. */
  lemma {:induction false} PackedWritten(k: Kind, slots: seq<Slot>, n: nat, j: nat, s: Bytes, p: nat)
    requires k.Submessage? && WellFormed(k) && HasFields(k, slots) && n < |slots| == |k.fields|
    requires IsArray(k.fields[n].rule) && Packable(k.fields[n].kind) && j <= |slots[n]|
    requires forall a :: 0 <= a < |slots[n]| ==> HasKind(k.fields[n].kind, slots[n][a])
    requires HoldsAt(s, p, EncodeItems(k.fields[n], slots[n], false))
    requires p + |EncodeItems(k.fields[n], slots[n], false)| <= |s|
    ensures var f, slot := k.fields[n], slots[n];
      var limit := p + |EncodeItems(f, slot, false)|;
      var q := p + |EncodeItems(f, slot[..j], false)|;
      && q <= limit
      && DecodePacked(k, n, s, q, limit, Filling(k, slots, n, j)) == Some(Filling(k, slots, n, |slot|))
    decreases k, 1, |slots[n]| - j
  {
    hide DecodeLoop, DecodeValue, EncodeValue, HoldsAt, Note, Filling, HasFields, HasKind, WellFormed, Push, Count, EncodeItems;
    var f, slot := k.fields[n], slots[n];
    if j == |slot| {
      assert slot[..j] == slot;
    } else {
      var v, q := slot[j], p + |EncodeItems(f, slot[..j], false)|;
      ItemAt(f, slot, false, j, s, p);
      assert ItemBytes(f, v, false) == EncodeValue(f.kind, v);
      KeepsFilling(k, slots, n, j);
      KindIsWellFormed(k, n);
      ValueWritten(f.kind, v, s, q, p + |EncodeItems(f, slot, false)|, Default(f.kind));
      PackedWritten(k, slots, n, j + 1, s, p);
    }
  }

  lemma {:induction false} ScalarWritten(k: Kind, v: Value, s: Bytes, p: nat, limit: nat, start: Value)
    requires HasKind(k, v) && Packable(k)
    requires HoldsAt(s, p, EncodeValue(k, v)) && p + |EncodeValue(k, v)| <= limit <= |s|
    ensures DecodeValue(k, s, p, limit, start) == Some(Got(v, p + |EncodeValue(k, v)|))
  {
    hide HoldsAt, Coding.Varint, ReadVarint32, DecodeNumber, CastVarint, CastUvarint, CastSvarint, ZigZag, Unsigned64,
      DecodeFixedWidth, Power, Fixed;
    match k
    case Bool => Varint32Written(v.n, s, p, limit);
    case Varint(size) =>
      VarintCastsBack(size, v.n);
      NumberWritten(Unsigned64(v.n), s, p, limit, (u: nat) => CastVarint(size, u), v);
    case Uvarint(size) =>
      CastsUnsigned(size, v.n);
      NumberWritten(v.n, s, p, limit, (u: nat) => CastUvarint(size, u), v);
    case Svarint(size) =>
      SvarintCastsBack(size, v.n);
      NumberWritten(ZigZag(v.n), s, p, limit, (u: nat) => CastSvarint(size, u), v);
    case Fixed32 =>
      Powers();
      FixedWritten(v.n, 4, s, p, limit);
    case Fixed64 =>
      Powers();
      FixedWritten(v.n, 8, s, p, limit);
  }

  lemma CastsUnsigned(size: nat, n: nat)
    requires IsSize(size) && n < 2 * Half(size)
    ensures n < TWO64 && CastUvarint(size, n) == Some(Number(n))
  {
  }

  lemma {:induction false} ValueWritten(k: Kind, v: Value, s: Bytes, p: nat, limit: nat, start: Value)
    requires WellFormed(k) && HasKind(k, v) && start == Default(k) && ValueFits(k, v)
    requires HoldsAt(s, p, EncodeValue(k, v)) && p + |EncodeValue(k, v)| <= limit <= |s|
    ensures DecodeValue(k, s, p, limit, start) == Some(Got(v, p + |EncodeValue(k, v)|))
    decreases k, 6
  {
    hide HoldsAt, Coding.Varint, ReadVarint32, HasFields, EncodeMessage, DecodeMessage, WellFormed, LengthPrefixed;
    if Packable(k) {
      ScalarWritten(k, v, s, p, limit, start);
    } else if k.Submessage? {
      var data := EncodeMessage(k, v.slots);
      PrefixWritten(data, s, p, limit);
      SmallFits(k, v.slots);
      MessageWritten(k, v.slots, s, p + |Coding.Varint(|data|)|);
    } else {
      BlobWritten(k, v, s, p, limit);
    }
  }

  /** An array that goes packed. */
  lemma {:induction false} PackedSlotWritten(k: Kind, slots: seq<Slot>, n: nat, s: Bytes, p: nat, limit: nat)
    requires k.Submessage? && WellFormed(k) && HasFields(k, slots) && n < |slots| == |k.fields|
    requires IsArray(k.fields[n].rule) && Packable(k.fields[n].kind) && slots[n] != []
    requires forall a :: 0 <= a < |slots[n]| ==> HasKind(k.fields[n].kind, slots[n][a])
    requires var w := EncodeTag(WT_STRING, k.fields[n].tag) + LengthPrefixed(EncodeItems(k.fields[n], slots[n], false));
      HoldsAt(s, p, w) && p + |w| <= limit <= |s|
    requires |EncodeItems(k.fields[n], slots[n], false)| < TWO32
    ensures var w := EncodeTag(WT_STRING, k.fields[n].tag) + LengthPrefixed(EncodeItems(k.fields[n], slots[n], false));
      DecodeLoop(k, s, p, limit, After(k, slots, n)) == DecodeLoop(k, s, p + |w|, limit, After(k, slots, n + 1))
    decreases k, 2
  {
    hide DecodeLoop, DecodePacked, EncodeItems, EncodeTag, HoldsAt, Note, Filling, After, HasFields, HasKind, WellFormed,
      Coding.Varint, LengthPrefixed, ReadVarint32;
    var f, slot := k.fields[n], slots[n];
    var tag, items := EncodeTag(WT_STRING, f.tag), EncodeItems(f, slot, false);
    PartFits(s, p, tag, LengthPrefixed(items), limit);
    PrefixWritten(items, s, p + |tag|, limit);
    StartsFilling(k, slots, n);
    assert slot[..0] == [] && EncodeItems(f, slot[..0], false) == [] by { NoItems(f, slot); }
    PackedWritten(k, slots, n, 0, s, p + |tag| + |Coding.Varint(|items|)|);
    FillingEnds(k, slots, n);
    var got := Got(After(k, slots, n + 1), p + |tag| + |LengthPrefixed(items)|);
    LoopStep(k, n, WT_STRING, s, p, limit, After(k, slots, n), Filling(k, slots, n, 0), got);
  }

  lemma NoItems(f: Field, slot: Slot)
    ensures slot[..0] == [] && EncodeItems(f, slot[..0], false) == [] && EncodeItems(f, slot[..0], true) == []
  {
  }

  /** An array whose entries each have a tag. */
  lemma {:induction false} TaggedSlotWritten(k: Kind, slots: seq<Slot>, n: nat, s: Bytes, p: nat, limit: nat)
    requires k.Submessage? && WellFormed(k) && HasFields(k, slots) && n < |slots| == |k.fields|
    requires IsArray(k.fields[n].rule) && !Packable(k.fields[n].kind) && slots[n] != []
    requires forall a :: 0 <= a < |slots[n]| ==> HasKind(k.fields[n].kind, slots[n][a])
    requires HoldsAt(s, p, EncodeItems(k.fields[n], slots[n], true))
    requires p + |EncodeItems(k.fields[n], slots[n], true)| <= limit <= |s|
    requires forall a :: 0 <= a < |slots[n]| ==> ValueFits(k.fields[n].kind, slots[n][a])
    ensures DecodeLoop(k, s, p, limit, After(k, slots, n))
         == DecodeLoop(k, s, p + |EncodeItems(k.fields[n], slots[n], true)|, limit, After(k, slots, n + 1))
    decreases k, 2
  {
    hide DecodeLoop, EncodeItems, HoldsAt, Note, Filling, After, HasFields, HasKind, WellFormed;
    NoItems(k.fields[n], slots[n]);
    StartsFilling(k, slots, n);
    TaggedWritten(k, slots, n, 0, s, p, limit, After(k, slots, n));
    FillingEnds(k, slots, n);
  }

  /** One field. */
  lemma {:induction false} SlotWritten(k: Kind, slots: seq<Slot>, n: nat, s: Bytes, p: nat, limit: nat)
    requires k.Submessage? && WellFormed(k) && HasFields(k, slots) && n < |slots| == |k.fields|
    requires HasRule(k.fields[n], slots[n]) && SlotFits(k.fields[n], slots[n])
    requires HoldsAt(s, p, EncodeSlot(k.fields[n], slots[n])) && p + |EncodeSlot(k.fields[n], slots[n])| <= limit <= |s|
    ensures DecodeLoop(k, s, p, limit, After(k, slots, n))
         == DecodeLoop(k, s, p + |EncodeSlot(k.fields[n], slots[n])|, limit, After(k, slots, n + 1))
    decreases k, 3
  {
    hide DecodeLoop, EncodeItems, EncodeTag, HoldsAt, Note, After, HasFields, HasKind, WellFormed, IsZero, LengthPrefixed;
    var f, slot := k.fields[n], slots[n];
    if slot == [] || (f.rule.Implicit? && IsZero(f.kind, slot[0])) {
      SkippedSlot(k, slots, n);
    } else if IsArray(f.rule) && Packable(f.kind) {
      PackedSlotWritten(k, slots, n, s, p, limit);
    } else if IsArray(f.rule) {
      TaggedSlotWritten(k, slots, n, s, p, limit);
    } else {
      OneItem(f, slot);
      SingleWritten(k, slots, n, s, p, limit);
    }
  }

  lemma OneItem(f: Field, slot: Slot)
    requires |slot| == 1 && HasKind(f.kind, slot[0])
    ensures EncodeItems(f, slot, true) == ItemBytes(f, slot[0], true)
  {
    hide HasKind, EncodeValue;
    NoItems(f, slot);
    assert [] + ItemBytes(f, slot[0], true) == ItemBytes(f, slot[0], true);
  }

  /** All the fields from the `n`-th on. */
  lemma {:induction false} FieldsWritten(k: Kind, slots: seq<Slot>, n: nat, s: Bytes, p: nat)
    requires k.Submessage? && WellFormed(k) && HasFields(k, slots) && n <= |slots| == |k.fields|
    requires PartsFit(k, slots)
    requires HoldsAt(s, p, EncodeMessage(k, slots)) && p + |EncodeMessage(k, slots)| <= |s|
    ensures var limit, q := p + |EncodeMessage(k, slots)|, p + |EncodeFields(k, slots, n)|;
      && q <= limit
      && DecodeLoop(k, s, q, limit, After(k, slots, n)) == Some(After(k, slots, |slots|))
    decreases k, 4, |slots| - n
  {
    hide DecodeLoop, HoldsAt, After, HasFields, HasKind, WellFormed, EncodeSlot;
    var limit, q := p + |EncodeMessage(k, slots)|, p + |EncodeFields(k, slots, n)|;
    if n == |slots| {
      AtLimit(k, s, limit, After(k, slots, n));
    } else {
      RuleOf(k, slots, n);
      FieldsPrefix(k, slots, n + 1, |slots|);
      PrefixOf(s, p, EncodeFields(k, slots, n + 1), EncodeMessage(k, slots));
      PartFits(s, p, EncodeFields(k, slots, n), EncodeSlot(k.fields[n], slots[n]), limit);
      SlotWritten(k, slots, n, s, q, limit);
      FieldsWritten(k, slots, n + 1, s, p);
    }
  }

  lemma AtLimit(k: Kind, s: Bytes, limit: nat, st: State)
    requires k.Submessage? && |st.slots| == |k.fields| && limit <= |s|
    ensures DecodeLoop(k, s, limit, limit, st) == Some(st)
  {
  }

  lemma RuleOf(k: Kind, slots: seq<Slot>, n: nat)
    requires k.Submessage? && HasFields(k, slots) && n < |slots|
    ensures |slots| == |k.fields| && HasRule(k.fields[n], slots[n])
  {
  }

  /** The body of a message. */
  lemma {:induction false} MessageWritten(k: Kind, slots: seq<Slot>, s: Bytes, p: nat)
    requires k.Submessage? && WellFormed(k) && HasFields(k, slots) && PartsFit(k, slots)
    requires HoldsAt(s, p, EncodeMessage(k, slots)) && p + |EncodeMessage(k, slots)| <= |s|
    ensures DecodeMessage(k, s, p, p + |EncodeMessage(k, slots)|, DefaultSlots(k)) == Some(slots)
    decreases k, 5
  {
    hide DecodeLoop, HoldsAt, HasKind, WellFormed, EncodeSlot, HasRule, SeenAfter, DefaultSlot, RequiredBefore, FixedAfter,
      FixedFull;
    assert slots[..0] + DefaultSlots(k)[0..] == DefaultSlots(k);
    assert slots[..|slots|] + DefaultSlots(k)[|slots|..] == slots;
    NothingYet(k, slots);
    FieldsWritten(k, slots, 0, s, p);
    FixedIsFull(k, slots, |slots|);
    AllAreSeen(k, |slots|);
  }

  lemma NothingYet(k: Kind, slots: seq<Slot>)
    requires k.Submessage? && |slots| == |k.fields|
    ensures FixedAfter(k, slots, 0) == None && SeenAfter(k, 0) == {}
  {
  }

  /** A message that was encoded is decoded to the same message. */
  lemma RoundTrip(k: Kind, slots: seq<Slot>)
    requires k.Submessage? && WellFormed(k) && HasFields(k, slots) && PartsFit(k, slots)
    ensures Decode(k, EncodeMessage(k, slots)) == Some(slots)
  {
    hide DecodeMessage, EncodeMessage, HasFields, WellFormed, PartsFit;
    var s := EncodeMessage(k, slots);
    assert s[0..|s|] == s;
    MessageWritten(k, slots, s, 0);
  }
}

/** The nanopb encoder (pb_encode.c): the same code writes a message and, on a stream that only
    counts, tells its size. */
module PbEncode {
  import opened InternalKey
  import opened Coding
  import opened Pb

  /** pb_ostream_t; without a callback it only counts. */
  class OStream {
    const writing: bool
    const maxSize: nat
    var bytesWritten: nat
    var state: Bytes  // what was written

    ghost predicate Inv()
      reads this
    {
      writing ==> bytesWritten <= maxSize
    }

    /** There is room for `n` bytes more than the first `from`. */
    predicate Room(from: nat, n: nat) {
      !writing || from + n <= maxSize
    }

    /** The stream is `w` further than `from` and `before` say. */
    ghost predicate Wrote(from: nat, before: Bytes, w: Bytes)
      reads this
    {
      bytesWritten == from + |w| && state == if writing then before + w else before
    }

    constructor (writing: bool, maxSize: nat)
      ensures Inv() && bytesWritten == 0 && state == [] && this.writing == writing && this.maxSize == maxSize
    {
      this.writing, this.maxSize, bytesWritten, state := writing, maxSize, 0, [];
    }

    /** pb_write */
    method Write(buf: Bytes) returns (ok: bool)
      requires Inv()
      modifies this
      ensures Inv() && ok == Room(old(bytesWritten), |buf|)
      ensures ok ==> Wrote(old(bytesWritten), old(state), buf)
    {
      if |buf| > 0 && writing {
        if bytesWritten + |buf| > maxSize {
          return false;
        }
        state := state + buf;
      }
      bytesWritten := bytesWritten + |buf|;
      return true;
    }

    /** pb_write without data, on a stream that only counts. */
    method Count(size: nat) returns (ok: bool)
      requires Inv() && !writing
      modifies this
      ensures Inv() && ok && bytesWritten == old(bytesWritten) + size && state == old(state)
    {
      bytesWritten := bytesWritten + size;
      return true;
    }
  }

  /** One write after another. */
  lemma TwoWrites(before: Bytes, a: Bytes, b: Bytes)
    ensures before + a + b == before + (a + b)
  {
  }

  // ----- Numbers -----

  /** pb_encode_varint */
  method EncodeVarint(stream: OStream, value: nat) returns (ok: bool)
    requires stream.Inv()
    modifies stream
    ensures stream.Inv() && ok == stream.Room(old(stream.bytesWritten), |Coding.Varint(value)|)
    ensures ok ==> stream.Wrote(old(stream.bytesWritten), old(stream.state), Coding.Varint(value))
  {
    if value <= 0x7F {
      ok := stream.Write([value]);
      return;
    }
    var buffer: Bytes := [];
    var left: nat := value;
    while left > 0
      invariant left > 0 ==> buffer + Coding.Varint(left) == Coding.Varint(value)
      invariant left == 0 ==> buffer != [] && buffer[|buffer| - 1] >= 128
      invariant left == 0 ==> buffer[|buffer| - 1 := buffer[|buffer| - 1] - 128] == Coding.Varint(value)
    {
      ghost var was := buffer;
      buffer := buffer + [left % 128 + 128];
      if left < 128 {
        assert buffer[|buffer| - 1 := left] == was + [left];
      } else {
        assert buffer + Coding.Varint(left / 128) == was + ([left % 128 + 128] + Coding.Varint(left / 128));
      }
      left := left / 128;
    }
    buffer := buffer[|buffer| - 1 := buffer[|buffer| - 1] - 128];
    ok := stream.Write(buffer);
  }

  /** pb_encode_tag */
  method EncodeTag(stream: OStream, wireType: nat, tag: nat) returns (ok: bool)
    requires stream.Inv()
    modifies stream
    ensures stream.Inv() && ok == stream.Room(old(stream.bytesWritten), |Pb.EncodeTag(wireType, tag)|)
    ensures ok ==> stream.Wrote(old(stream.bytesWritten), old(stream.state), Pb.EncodeTag(wireType, tag))
  {
    ok := EncodeVarint(stream, tag * 8 + wireType);
  }

  /** pb_encode_string */
  method EncodeString(stream: OStream, buffer: Bytes) returns (ok: bool)
    requires stream.Inv()
    modifies stream
    ensures stream.Inv() && ok == stream.Room(old(stream.bytesWritten), |LengthPrefixed(buffer)|)
    ensures ok ==> stream.Wrote(old(stream.bytesWritten), old(stream.state), LengthPrefixed(buffer))
  {
    hide Coding.Varint;
    ok := EncodeVarint(stream, |buffer|);
    if !ok {
      return;
    }
    TwoWrites(old(stream.state), Coding.Varint(|buffer|), buffer);
    ok := stream.Write(buffer);
  }

  // ----- Fields and messages -----

  /** The function that PB_ENCODERS has for the kind. */
  method EncodeValue(stream: OStream, k: Kind, v: Value) returns (ok: bool)
    requires stream.Inv() && HasKind(k, v)
    modifies stream
    ensures stream.Inv() && ok == stream.Room(old(stream.bytesWritten), |Pb.EncodeValue(k, v)|)
    ensures ok ==> stream.Wrote(old(stream.bytesWritten), old(stream.state), Pb.EncodeValue(k, v))
    decreases k, 6
  {
    hide Coding.Varint, LengthPrefixed, HasFields, EncodeMessage, Fixed;
    match k
    case Bool => ok := EncodeVarint(stream, v.n);
    case Varint(_) => ok := EncodeVarint(stream, Unsigned64(v.n));
    case Uvarint(_) => ok := EncodeVarint(stream, v.n);
    case Svarint(_) => ok := EncodeVarint(stream, ZigZag(v.n));
    case Fixed32 => ok := stream.Write(Fixed(v.n, 4));
    case Fixed64 => ok := stream.Write(Fixed(v.n, 8));
    case Submessage(_) => ok := EncodeSubmessage(stream, k, v.slots);
    case _ => ok := EncodeString(stream, v.bytes);
  }

  /** pb_encode_submessage: a counting pass for the length, then the message itself. */
  method EncodeSubmessage(stream: OStream, k: Kind, slots: seq<Slot>) returns (ok: bool)
    requires stream.Inv() && k.Submessage? && HasFields(k, slots)
    modifies stream
    ensures stream.Inv() && ok == stream.Room(old(stream.bytesWritten), |LengthPrefixed(EncodeMessage(k, slots))|)
    ensures ok ==> stream.Wrote(old(stream.bytesWritten), old(stream.state), LengthPrefixed(EncodeMessage(k, slots)))
    decreases k, 5
  {
    hide Coding.Varint, HasFields, EncodeMessage;
    var sizing := new OStream(false, 0);
    ok := Encode(sizing, k, slots);
    if !ok {
      assert false;
    }
    var size := sizing.bytesWritten;
    ok := EncodeVarint(stream, size);
    if !ok {
      return;
    }
    if !stream.writing {
      ok := stream.Count(size);
      return;
    }
    if stream.bytesWritten + size > stream.maxSize {
      return false;
    }
    var substream := new OStream(true, size);
    ok := Encode(substream, k, slots);
    TwoWrites(old(stream.state), Coding.Varint(size), EncodeMessage(k, slots));
    assert [] + EncodeMessage(k, slots) == EncodeMessage(k, slots);
    stream.bytesWritten := stream.bytesWritten + substream.bytesWritten;
    stream.state := stream.state + substream.state;
    if substream.bytesWritten != size {
      assert false;  // "submsg size changed"
    }
  }

  /** One entry of an array, with its tag or without. */
  method EncodeItem(stream: OStream, f: Field, v: Value, tagged: bool) returns (ok: bool)
    requires stream.Inv() && HasKind(f.kind, v)
    modifies stream
    ensures stream.Inv() && ok == stream.Room(old(stream.bytesWritten), |ItemBytes(f, v, tagged)|)
    ensures ok ==> stream.Wrote(old(stream.bytesWritten), old(stream.state), ItemBytes(f, v, tagged))
    decreases f, 0
  {
    hide Coding.Varint, HasKind, Pb.EncodeValue, Pb.EncodeTag;
    ghost var tag := if tagged then Pb.EncodeTag(WireType(f.kind), f.tag) else [];
    if tagged {
      ok := EncodeTag(stream, WireType(f.kind), f.tag);
      if !ok {
        return;
      }
    }
    TwoWrites(old(stream.state), tag, Pb.EncodeValue(f.kind, v));
    assert old(stream.state) + [] == old(stream.state);
    ok := EncodeValue(stream, f.kind, v);
  }

  /** The loops of encode_array. */
  method EncodeItems(stream: OStream, f: Field, slot: Slot, tagged: bool) returns (ok: bool)
    requires stream.Inv() && forall j :: 0 <= j < |slot| ==> HasKind(f.kind, slot[j])
    modifies stream
    ensures stream.Inv() && ok == stream.Room(old(stream.bytesWritten), |Pb.EncodeItems(f, slot, tagged)|)
    ensures ok ==> stream.Wrote(old(stream.bytesWritten), old(stream.state), Pb.EncodeItems(f, slot, tagged))
    decreases f, 1
  {
    hide HasKind, ItemBytes, Pb.EncodeItems;
    NoItems(f, slot, tagged);
    ghost var from, before := stream.bytesWritten, stream.state;
    for j := 0 to |slot|
      invariant stream.Inv() && stream.Room(from, |Pb.EncodeItems(f, slot[..j], tagged)|)
      invariant stream.Wrote(from, before, Pb.EncodeItems(f, slot[..j], tagged))
    {
      ItemsSplit(f, slot, tagged, j);
      TwoWrites(before, Pb.EncodeItems(f, slot[..j], tagged), ItemBytes(f, slot[j], tagged));
      ok := EncodeItem(stream, f, slot[j], tagged);
      if !ok {
        return;
      }
    }
    assert slot[..|slot|] == slot;
    return true;
  }

  lemma NoItems(f: Field, slot: Slot, tagged: bool)
    ensures slot[..0] == [] && Pb.EncodeItems(f, [], tagged) == []
  {
  }

  lemma ItemsSplit(f: Field, slot: Slot, tagged: bool, j: nat)
    requires j < |slot| && forall a :: 0 <= a < |slot| ==> HasKind(f.kind, slot[a])
    ensures Pb.EncodeItems(f, slot[..j + 1], tagged) == Pb.EncodeItems(f, slot[..j], tagged) + ItemBytes(f, slot[j], tagged)
    ensures |Pb.EncodeItems(f, slot[..j + 1], tagged)| <= |Pb.EncodeItems(f, slot, tagged)|
  {
    hide HasKind, Pb.EncodeValue, Pb.EncodeTag;
    ItemsPrefix(f, slot, tagged, j + 1, |slot|);
    assert slot[..|slot|] == slot && slot[..j + 1][..j] == slot[..j];
  }

  /** The size of a packed array: known for fixed widths, counted for varints. */
  method PackedSize(f: Field, slot: Slot) returns (size: nat)
    requires Packable(f.kind) && forall j :: 0 <= j < |slot| ==> HasKind(f.kind, slot[j])
    ensures size == |Pb.EncodeItems(f, slot, false)|
    decreases f, 2
  {
    hide HasKind, Pb.EncodeValue;
    if f.kind.Fixed32? {
      FixedSize(f, slot, 4);
      size := 4 * |slot|;
    } else if f.kind.Fixed64? {
      FixedSize(f, slot, 8);
      size := 8 * |slot|;
    } else {
      var sizing := new OStream(false, 0);
      var ok := EncodeItems(sizing, f, slot, false);
      size := sizing.bytesWritten;
    }
  }

  lemma {:induction false} FixedSize(f: Field, slot: Slot, width: nat)
    requires (f.kind.Fixed32? && width == 4) || (f.kind.Fixed64? && width == 8)
    requires forall j :: 0 <= j < |slot| ==> HasKind(f.kind, slot[j])
    ensures |Pb.EncodeItems(f, slot, false)| == width * |slot|
    decreases |slot|
  {
    if slot != [] {
      FixedSize(f, slot[..|slot| - 1], width);
    }
  }

  /** encode_array */
  method EncodeArray(stream: OStream, f: Field, slot: Slot) returns (ok: bool)
    requires stream.Inv() && IsArray(f.rule) && HasRule(f, slot)
    modifies stream
    ensures stream.Inv() && ok == stream.Room(old(stream.bytesWritten), |EncodeSlot(f, slot)|)
    ensures ok ==> stream.Wrote(old(stream.bytesWritten), old(stream.state), EncodeSlot(f, slot))
    decreases f, 3
  {
    hide Coding.Varint, HasKind, Pb.EncodeItems, Pb.EncodeTag;
    if |slot| == 0 {
      return true;
    }
    if !Packable(f.kind) {
      ok := EncodeItems(stream, f, slot, true);
      return;
    }
    ghost var tag, items := Pb.EncodeTag(WT_STRING, f.tag), Pb.EncodeItems(f, slot, false);
    ok := EncodeTag(stream, WT_STRING, f.tag);
    if !ok {
      return;
    }
    var size := PackedSize(f, slot);
    ok := EncodeVarint(stream, size);
    if !ok {
      return;
    }
    TwoWrites(old(stream.state), tag, Coding.Varint(size));
    TwoWrites(old(stream.state), tag + Coding.Varint(size), items);
    TwoWrites(tag, Coding.Varint(size), items);
    if !stream.writing {
      ok := stream.Count(size);
    } else {
      ok := EncodeItems(stream, f, slot, false);
    }
  }

  /** encode_basic_field */
  method EncodeBasicField(stream: OStream, f: Field, slot: Slot) returns (ok: bool)
    requires stream.Inv() && HasRule(f, slot)
    modifies stream
    ensures stream.Inv() && ok == stream.Room(old(stream.bytesWritten), |EncodeSlot(f, slot)|)
    ensures ok ==> stream.Wrote(old(stream.bytesWritten), old(stream.state), EncodeSlot(f, slot))
    decreases f, 4
  {
    hide Coding.Varint, HasKind, Pb.EncodeValue, Pb.EncodeTag, IsZero;
    if IsArray(f.rule) {
      ok := EncodeArray(stream, f, slot);
      return;
    }
    var implicitHas := f.rule.Implicit? && !IsZero(f.kind, slot[0]);
    if f.rule.Required? || implicitHas || (!f.rule.Implicit? && |slot| == 1) {
      OneTagged(f, slot);
      ok := EncodeTag(stream, WireType(f.kind), f.tag);
      if !ok {
        return;
      }
      TwoWrites(old(stream.state), Pb.EncodeTag(WireType(f.kind), f.tag), Pb.EncodeValue(f.kind, slot[0]));
      ok := EncodeValue(stream, f.kind, slot[0]);
    } else {
      ok := true;
    }
  }

  lemma OneTagged(f: Field, slot: Slot)
    requires |slot| == 1 && HasKind(f.kind, slot[0])
    ensures Pb.EncodeItems(f, slot, true) == Pb.EncodeTag(WireType(f.kind), f.tag) + Pb.EncodeValue(f.kind, slot[0])
  {
    hide HasKind, Pb.EncodeValue, Pb.EncodeTag;
    assert Pb.EncodeItems(f, slot[..0], true) == [];
    TwoWrites([], Pb.EncodeTag(WireType(f.kind), f.tag), Pb.EncodeValue(f.kind, slot[0]));
    assert [] + Pb.EncodeTag(WireType(f.kind), f.tag) == Pb.EncodeTag(WireType(f.kind), f.tag);
  }

  /** pb_encode: field after field.  On a stream that only counts, the count grows by exactly
      the number of bytes that the same call writes elsewhere. */
  method Encode(stream: OStream, k: Kind, slots: seq<Slot>) returns (ok: bool)
    requires stream.Inv() && k.Submessage? && HasFields(k, slots)
    modifies stream
    ensures stream.Inv() && ok == stream.Room(old(stream.bytesWritten), |EncodeMessage(k, slots)|)
    ensures ok ==> stream.Wrote(old(stream.bytesWritten), old(stream.state), EncodeMessage(k, slots))
    decreases k, 4
  {
    hide HasRule, HasFields, EncodeSlot, EncodeFields, EncodeMessage;
    NoFields(k, slots);
    ghost var from, before := stream.bytesWritten, stream.state;
    for n := 0 to |k.fields|
      invariant stream.Inv() && stream.Room(from, |EncodeFields(k, slots, n)|)
      invariant stream.Wrote(from, before, EncodeFields(k, slots, n))
    {
      FieldsSplit(k, slots, n);
      TwoWrites(before, EncodeFields(k, slots, n), EncodeSlot(k.fields[n], slots[n]));
      ok := EncodeBasicField(stream, k.fields[n], slots[n]);
      if !ok {
        return;
      }
    }
    return true;
  }

  lemma NoFields(k: Kind, slots: seq<Slot>)
    requires k.Submessage? && HasFields(k, slots)
    ensures |slots| == |k.fields| && EncodeFields(k, slots, 0) == []
    ensures EncodeMessage(k, slots) == EncodeFields(k, slots, |slots|)
  {
  }

  lemma FieldsSplit(k: Kind, slots: seq<Slot>, n: nat)
    requires k.Submessage? && HasFields(k, slots) && n < |slots|
    ensures n < |k.fields| && HasRule(k.fields[n], slots[n])
    ensures EncodeFields(k, slots, n + 1) == EncodeFields(k, slots, n) + EncodeSlot(k.fields[n], slots[n])
    ensures |EncodeFields(k, slots, n + 1)| <= |EncodeMessage(k, slots)|
  {
    hide HasRule, EncodeSlot;
    FieldsPrefix(k, slots, n + 1, |slots|);
  }

  /** pb_get_encoded_size */
  method GetEncodedSize(k: Kind, slots: seq<Slot>) returns (size: nat)
    requires k.Submessage? && HasFields(k, slots)
    ensures size == |EncodeMessage(k, slots)|
  {
    var stream := new OStream(false, 0);
    var ok := Encode(stream, k, slots);
    size := stream.bytesWritten;
  }
}

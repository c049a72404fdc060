/** The nanopb decoder (pb_decode.c): streams, the loop over fields and the check of required
    fields, each against what PbDecoding says of the bytes. */
module PbDecode {
  import opened InternalKey
  import opened Coding
  import opened Pb
  import opened PbDecoding
  import opened PbCommon

  /** pb_istream_t */
  class IStream {
    const bytes: Bytes
    var at: nat
    var bytesLeft: nat

    ghost predicate Inv()
      reads this
    {
      at + bytesLeft <= |bytes|
    }

    ghost function Limit(): nat
      reads this
    {
      at + bytesLeft
    }

    constructor (bytes: Bytes, at: nat, bytesLeft: nat)
      requires at + bytesLeft <= |bytes|
      ensures Inv() && this.bytes == bytes && this.at == at && this.bytesLeft == bytesLeft
    {
      this.bytes, this.at, this.bytesLeft := bytes, at, bytesLeft;
    }

    /** pb_readbyte */
    method ReadByte() returns (r: Option<Byte>)
      requires Inv()
      modifies this
      ensures Inv() && Limit() == old(Limit())
      ensures if old(bytesLeft) == 0 then r.None? && at == old(at)
              else r == Some(bytes[old(at)]) && at == old(at) + 1
    {
      if bytesLeft == 0 {
        return None;
      }
      r := Some(bytes[at]);
      at, bytesLeft := at + 1, bytesLeft - 1;
    }

    /** Goes on at `next`. */
    method Skip(next: nat)
      requires Inv() && at <= next <= Limit()
      modifies this
      ensures Inv() && Limit() == old(Limit()) && at == next
    {
      at, bytesLeft := next, bytesLeft - (next - at);
    }

    /** pb_decode_varint: seven bits at a time, up to bit 63. */
    method DecodeVarint() returns (r: Option<nat>)
      requires Inv()
      modifies this
      ensures Inv() && Limit() == old(Limit())
      ensures match GetVarint64(bytes, old(at), old(Limit()))
              case None => r.None?
              case Some(u) => r == Some(u.value) && at == u.next
    {
      hide Shifted, ReadVarint, VarintContinues;
      var result: nat, unit: nat, bitpos: nat := 0, 1, 0;
      ghost var whole, budget := ReadVarint(bytes, at, Limit(), 10), 10;
      VarintStarts(bytes, at, Limit(), 10);
      while true
        invariant Inv() && Limit() == old(Limit()) && bitpos + 7 * budget == 70 && 0 <= budget <= 10
        invariant VarintContinues(bytes, at, Limit(), budget, whole, result, unit)
        decreases budget
      {
        if bitpos >= 64 || bytesLeft == 0 {
          VarintStops(bytes, at, Limit(), budget, whole, result, unit);
        } else {
          VarintGoesOn(bytes, at, Limit(), budget, whole, result, unit);
        }
        if bitpos >= 64 {
          return None;
        }
        var byte := ReadByte();
        if byte.None? {
          return None;
        }
        if byte.value < 128 {
          result := result + Shifted(byte.value, unit);
          return Some(result % TWO64);
        }
        result := result + Shifted(byte.value - 128, unit);
        unit, bitpos := unit * 128, bitpos + 7;
        budget := budget - 1;
      }
    }

    /** pb_decode_varint32 */
    method DecodeVarint32() returns (r: Option<nat>)
      requires Inv()
      modifies this
      ensures Ended(this, old(Limit()), At(ReadVarint32(bytes, old(at), old(Limit()))), r)
    {
      hide Shifted;
      var byte := ReadByte();
      if byte.None? {
        return None;
      }
      var result: nat, bitpos: nat, unit: nat := byte.value % 128, 7, 128;
      OneUnit(Some(Parsed(result, at)));
      if byte.value < 128 {
        return Some(result);
      }
      ghost var whole := ReadVarint32(bytes, old(at), Limit());
      while true
        invariant Inv() && Limit() == old(Limit()) && result < TWO32 && bitpos % 7 == 0 && bitpos >= 7
        invariant bitpos <= 35 ==> unit == Power(128, bitpos / 7)
        invariant whole == ReadVarint32From(bytes, at, Limit(), bitpos / 7, result)
        decreases bytesLeft
      {
        byte := ReadByte();
        if byte.None? {
          return None;
        }
        if bitpos >= 32 {
          var signExtension := if bitpos < 63 then 255 else 1;
          if byte.value % 128 != 0 && (result < Half(4) || byte.value != signExtension) {
            return None;
          }
        } else {
          result := (result + Shifted(byte.value % 128, unit)) % TWO32;
        }
        unit, bitpos := unit * 128, bitpos + 7;
        if byte.value < 128 {
          break;
        }
      }
      if bitpos == 35 && byte.value >= 16 {
        return None;
      }
      return Some(result);
    }

    /** pb_skip_varint */
    method SkipVarint() returns (ok: bool)
      requires Inv()
      modifies this
      ensures Inv() && Limit() == old(Limit())
      ensures match PbDecoding.SkipVarint(bytes, old(at), old(Limit())) case None => !ok case Some(q) => ok && at == q
    {
      while true
        invariant Inv() && Limit() == old(Limit())
        invariant PbDecoding.SkipVarint(bytes, at, Limit()) == PbDecoding.SkipVarint(bytes, old(at), old(Limit()))
        decreases bytesLeft
      {
        var byte := ReadByte();
        if byte.None? {
          return false;
        }
        if byte.value < 128 {
          return true;
        }
      }
    }

    /** pb_read without a buffer */
    method Read(count: nat) returns (ok: bool)
      requires Inv()
      modifies this
      ensures Inv() && Limit() == old(Limit()) && ok == (count <= old(bytesLeft))
      ensures ok ==> at == old(at) + count
    {
      ok := count <= bytesLeft;
      if ok {
        Skip(at + count);
      }
    }

    /** pb_skip_field, with pb_skip_string */
    method SkipField(wireType: nat) returns (ok: bool)
      requires Inv()
      modifies this
      ensures Inv() && Limit() == old(Limit())
      ensures match PbDecoding.SkipField(wireType, bytes, old(at), old(Limit())) case None => !ok case Some(q) => ok && at == q
    {
      hide ReadVarint32, PbDecoding.SkipVarint;
      if wireType == WT_VARINT {
        ok := SkipVarint();
      } else if wireType == WT_64BIT {
        ok := Read(8);
      } else if wireType == WT_STRING {
        var size := DecodeVarint32();
        ok := false;
        if size.Some? {
          ok := Read(size.value);
        }
      } else if wireType == WT_32BIT {
        ok := Read(4);
      } else {
        ok := false;
      }
    }
  }

  ghost function At(parsed: Option<Parsed>): Option<Got<nat>> {
    match parsed
    case None => None
    case Some(n) => Some(Got(n.value, n.next))
  }

  /** The stream is where the decoding of a value at `at` ended. */
  ghost predicate Ended<T(!new)>(stream: IStream, limit: nat, got: Option<Got<T>>, r: Option<T>)
    reads stream
  {
    && stream.Inv() && stream.Limit() == limit
    && if got.None? then r.None? else r == Some(got.value.value) && stream.at == got.value.next
  }

  // ----- Fields -----

  /** The function that PB_DECODERS has for the kind. */
  method DecodeValue(stream: IStream, k: Kind, start: Value) returns (r: Option<Value>)
    requires stream.Inv() && UniqueTags(k)
    modifies stream
    ensures Ended(stream, old(stream.Limit()), PbDecoding.DecodeValue(k, stream.bytes, old(stream.at), old(stream.Limit()), start), r)
    decreases k, 6, 0
  {
    hide PbDecoding.DecodeValue;
    if k.Submessage? {
      r := DecodeSubmessage(stream, k, start);
    } else {
      var got := PbDecoding.DecodeValue(k, stream.bytes, stream.at, stream.at + stream.bytesLeft, start);
      if got.None? {
        return None;
      }
      stream.Skip(got.value.next);
      r := Some(got.value.value);
    }
  }

  /** Tags are distinct, at every depth. */
  ghost predicate UniqueTags(k: Kind)
    decreases k, 1
  {
    k.Submessage? ==>
      && (forall i :: 0 <= i < |k.fields| ==> FieldUnique(k.fields[i]))
      && forall i, j :: 0 <= i < j < |k.fields| ==> k.fields[i].tag != k.fields[j].tag
  }

  ghost predicate FieldUnique(f: Field)
    decreases f
  {
    UniqueTags(f.kind)
  }

  /** pb_dec_submessage: the message is decoded from a substream of its length. */
  method DecodeSubmessage(stream: IStream, k: Kind, start: Value) returns (r: Option<Value>)
    requires stream.Inv() && k.Submessage? && UniqueTags(k)
    modifies stream
    ensures Ended(stream, old(stream.Limit()), PbDecoding.DecodeValue(k, stream.bytes, old(stream.at), old(stream.Limit()), start), r)
    decreases k, 5, 1
  {
    hide ReadVarint32, PbDecoding.DecodeMessage;
    var size := stream.DecodeVarint32();
    if size.None? || stream.bytesLeft < size.value {
      return None;
    }
    if !start.Message? || |start.slots| != |k.fields| {
      return None;
    }
    var substream := new IStream(stream.bytes, stream.at, size.value);
    var slots := DecodeNoinit(substream, k, start.slots);
    stream.Skip(stream.at + size.value);
    r := if slots.None? then None else Some(Message(slots.value));
  }

  /** The packed branch of decode_static_field, on the substream. */
  method DecodePacked(substream: IStream, k: Kind, i: nat, st: State) returns (r: Option<State>)
    requires substream.Inv() && k.Submessage? && UniqueTags(k) && |st.slots| == |k.fields| && i < |k.fields|
    modifies substream
    ensures substream.Inv()
    ensures r == PbDecoding.DecodePacked(k, i, substream.bytes, old(substream.at), old(substream.Limit()), st)
    decreases k, 2, 1
  {
    hide PbDecoding.DecodeValue, Push, Count, PbDecoding.Limit;
    var st := st;
    ghost var whole := PbDecoding.DecodePacked(k, i, substream.bytes, substream.at, substream.Limit(), st);
    assert FieldUnique(k.fields[i]);
    while substream.bytesLeft > 0 && Count(k.fields, i, st) < PbDecoding.Limit(k.fields[i].rule)
      invariant substream.Inv() && substream.Limit() == old(substream.Limit()) && |st.slots| == |k.fields|
      invariant whole == PbDecoding.DecodePacked(k, i, substream.bytes, substream.at, substream.Limit(), st)
      decreases substream.bytesLeft
    {
      var v := DecodeValue(substream, k.fields[i].kind, Default(k.fields[i].kind));
      if v.None? {
        return None;
      }
      st := Push(k.fields, i, st, v.value);
    }
    if substream.bytesLeft != 0 {
      return None;
    }
    return Some(st);
  }

  /** decode_static_field */
  method DecodeField(stream: IStream, k: Kind, i: nat, wireType: nat, st: State) returns (r: Option<State>)
    requires stream.Inv() && k.Submessage? && UniqueTags(k) && |st.slots| == |k.fields| && i < |k.fields|
    modifies stream
    ensures Ended(stream, old(stream.Limit()),
                  PbDecoding.DecodeField(k, i, wireType, stream.bytes, old(stream.at), old(stream.Limit()), st), r)
    decreases k, 3, 1
  {
    hide PbDecoding.DecodeValue, PbDecoding.DecodePacked, Push, Count, Store, StartOf, ReadVarint32, PbDecoding.Limit;
    var f := k.fields[i];
    assert FieldUnique(f);
    if !IsArray(f.rule) {
      var v := DecodeValue(stream, f.kind, StartOf(f, st.slots[i]));
      r := if v.None? then None else Some(Store(k.fields, i, st, v.value));
    } else if wireType == WT_STRING && Packable(f.kind) {
      var size := stream.DecodeVarint32();
      if size.None? || stream.bytesLeft < size.value {
        return None;
      }
      var substream := new IStream(stream.bytes, stream.at, size.value);
      r := DecodePacked(substream, k, i, st);
      stream.Skip(stream.at + size.value);
    } else {
      if Count(k.fields, i, st) >= PbDecoding.Limit(f.rule) {
        return None;
      }
      var v := DecodeValue(stream, f.kind, Default(f.kind));
      r := if v.None? then None else Some(Push(k.fields, i, st, v.value));
    }
  }

  // ----- Required fields -----

  /** A word of the bitmap, bit by bit. */
  type Word = seq<bool>

  const ALL_BITS: Word := seq(32, _ => true)

  /** All bits shifted right until `r` are left. */
  function LowBits(r: nat): Word {
    seq(32, b => b < r)
  }

  /** The bitmap says which required fields were seen. */
  ghost predicate Tracks(fields: seq<Field>, words: seq<Word>, seen: set<nat>) {
    && |words| == 2 && |words[0]| == 32 && |words[1]| == 32
    && (forall b :: 0 <= b < 32 ==> (words[0][b] <==> b in seen) && (words[1][b] <==> b + 32 in seen))
    && forall r :: r in seen ==> r < RequiredBefore(fields, |fields|) && r < MAX_REQUIRED_FIELDS
  }

  lemma {:induction false} RequiredGrows(fields: seq<Field>, i: nat, j: nat)
    requires i <= j <= |fields|
    ensures RequiredBefore(fields, i) <= RequiredBefore(fields, j)
  {
    if i < j {
      RequiredGrows(fields, i, j - 1);
    }
  }

  /** Setting the bit of a required field keeps up with noting it. */
  method SetSeen(fields: seq<Field>, i: nat, words: seq<Word>, ghost st: State, ghost noted: State) returns (r: seq<Word>)
    requires |st.slots| == |fields| && i < |fields| && Note(fields, i, st) == Some(noted) && Tracks(fields, words, st.seen)
    ensures Tracks(fields, r, noted.seen)
  {
    r := words;
    var index := RequiredBefore(fields, i);
    if fields[i].rule.Required? && index < MAX_REQUIRED_FIELDS {
      RequiredGrows(fields, i + 1, |fields|);
      if index < 32 {
        r := [words[0][index := true], words[1]];
      } else {
        r := [words[0], words[1][index - 32 := true]];
      }
    }
  }

  /** The number of required fields, from wherever the iterator is to the end. */
  method CountRequired(iter: FieldIter) returns (count: nat)
    requires iter.Inv()
    modifies iter
    ensures count == RequiredBefore(iter.fields, |iter.fields|)
  {
    count := iter.requiredFieldIndex;
    var last := iter.fields[iter.pos].rule;
    ghost var pos := iter.pos;
    var more := iter.Next();
    while more
      invariant pos < |iter.fields| && count == RequiredBefore(iter.fields, pos) && last == iter.fields[pos].rule
      invariant iter.Inv() && (more ==> iter.pos == pos + 1) && (more <==> pos + 1 < |iter.fields|)
      decreases |iter.fields| - pos
    {
      count := iter.requiredFieldIndex;
      last := iter.fields[iter.pos].rule;
      pos := iter.pos;
      more := iter.Next();
    }
    if last.Required? {
      count := count + 1;
    }
  }

  /** Whole words first, and then the remaining bits. */
  method CheckRequired(fields: seq<Field>, total: nat, words: seq<Word>, ghost seen: set<nat>) returns (ok: bool)
    requires total == RequiredBefore(fields, |fields|) && Tracks(fields, words, seen)
    ensures ok == AllSeen(fields, seen)
  {
    var count := if total > MAX_REQUIRED_FIELDS then MAX_REQUIRED_FIELDS else total;
    WordsTell(fields, words, seen, count);
    for i := 0 to count / 32
      invariant forall j :: 0 <= j < i ==> words[j] == ALL_BITS
    {
      if words[i] != ALL_BITS {
        return false;
      }
    }
    if count % 32 != 0 {
      if words[count / 32] != LowBits(count % 32) {
        return false;
      }
    }
    return true;
  }

  lemma WordsTell(fields: seq<Field>, words: seq<Word>, seen: set<nat>, count: nat)
    requires Tracks(fields, words, seen)
    requires var total := RequiredBefore(fields, |fields|);
      count == if total > MAX_REQUIRED_FIELDS then MAX_REQUIRED_FIELDS else total
    ensures AllSeen(fields, seen) <==>
              (forall j :: 0 <= j < count / 32 ==> words[j] == ALL_BITS)
              && (count % 32 != 0 ==> words[count / 32] == LowBits(count % 32))
  {
    hide RequiredBefore, LowBits;
    SeenByWord(words, seen, count);
    forall b | InWord(count, 1) <= b < 32
      ensures !words[1][b]
    {
      assert words[0][b] <==> b in seen;
      assert words[1][b] <==> b + 32 in seen;
    }
    WordByWord(words, count);
  }

  lemma SeenByWord(words: seq<Word>, seen: set<nat>, count: nat)
    requires |words| == 2 && |words[0]| == |words[1]| == 32 && count <= 64
    requires forall b :: 0 <= b < 32 ==> (words[0][b] <==> b in seen) && (words[1][b] <==> b + 32 in seen)
    requires forall r :: r in seen ==> r < count
    ensures (forall r: nat :: r < count ==> r in seen)
       <==> words[0] == LowBits(InWord(count, 0)) && words[1] == LowBits(InWord(count, 1))
  {
    hide LowBits;
    WordIs(words[0], InWord(count, 0), seen, 0);
    WordIs(words[1], InWord(count, 1), seen, 32);
  }

  /** How many of the first `count` bits are in word `j`. */
  function InWord(count: nat, j: nat): nat {
    if count >= 32 * j + 32 then 32 else if count >= 32 * j then count - 32 * j else 0
  }

  /** Whole words first, and then the remaining bits. */
  lemma WordByWord(words: seq<Word>, count: nat)
    requires |words| == 2 && |words[0]| == |words[1]| == 32 && count <= 64
    requires forall b :: InWord(count, 0) <= b < 32 ==> !words[0][b]
    requires forall b :: InWord(count, 1) <= b < 32 ==> !words[1][b]
    ensures words[0] == LowBits(InWord(count, 0)) && words[1] == LowBits(InWord(count, 1))
       <==> (forall j :: 0 <= j < count / 32 ==> words[j] == ALL_BITS)
            && (count % 32 != 0 ==> words[count / 32] == LowBits(count % 32))
  {
    assert LowBits(32) == ALL_BITS;
    if count == 64 {
      assert count / 32 == 2 && count % 32 == 0;
    } else if count >= 32 {
      assert count / 32 == 1 && count % 32 == count - 32;
      assert count == 32 ==> words[1] == LowBits(0);
    } else {
      assert count / 32 == 0 && count % 32 == count;
      assert words[1] == LowBits(0);
      assert count == 0 ==> words[0] == LowBits(0);
    }
  }

  /** A word that tells of the indices from `base` on is the low bits when those are seen and no others. */
  lemma WordIs(word: Word, r: nat, seen: set<nat>, base: nat)
    requires |word| == 32 && r <= 32 && forall b :: 0 <= b < 32 ==> (word[b] <==> b + base in seen)
    requires forall b :: r <= b < 32 ==> !word[b]
    ensures word == LowBits(r) <==> forall b :: base <= b < base + r ==> b in seen
    ensures LowBits(32) == ALL_BITS
  {
    if forall b :: base <= b < base + r ==> b in seen {
      assert word == LowBits(r);
    }
    if word == LowBits(r) {
      forall b | base <= b < base + r
        ensures b in seen
      {
        assert word[b - base];
      }
    }
  }

  /** pb_decode_noinit */
  method DecodeNoinit(stream: IStream, k: Kind, slots: seq<Slot>) returns (r: Option<seq<Slot>>)
    requires stream.Inv() && k.Submessage? && UniqueTags(k) && |slots| == |k.fields|
    modifies stream
    ensures stream.Inv()
    ensures r == PbDecoding.DecodeMessage(k, stream.bytes, old(stream.at), old(stream.Limit()), slots)
    decreases k, 5, 0
  {
    hide PbDecoding.DecodeField, Note, ReadVarint32, FindField, SkipField, FixedFull, AllSeen, Tracks;
    var words := [seq(32, _ => false), seq(32, _ => false)];
    assert Tracks(k.fields, words, {}) by { NothingSeen(k.fields); }
    if k.fields == [] {
      var ended := SkipAll(stream, k, State(slots, None, {}));
      AllSeenOfNone(k.fields);
      return if ended.None? then None else Some(ended.value.slots);
    }
    var iter := new FieldIter(k.fields);
    var ended, words' := DecodeTags(stream, k, iter, State(slots, None, {}), words);
    if ended.None? {
      return None;
    }
    if !FixedFull(k.fields, ended.value) {
      return None;
    }
    var count := CountRequired(iter);
    var ok := CheckRequired(k.fields, count, words', ended.value.seen);
    if !ok {
      return None;
    }
    return Some(ended.value.slots);
  }

  lemma NothingSeen(fields: seq<Field>)
    ensures Tracks(fields, [seq(32, _ => false), seq(32, _ => false)], {})
  {
  }

  lemma AllSeenOfNone(fields: seq<Field>)
    ensures fields == [] ==> AllSeen(fields, {}) && FixedFull(fields, State([], None, {}))
  {
  }

  /** The loop of pb_decode_noinit for a message type that has no fields: everything is skipped. */
  method SkipAll(stream: IStream, k: Kind, st: State) returns (r: Option<State>)
    requires stream.Inv() && k.Submessage? && k.fields == [] && st.slots == []
    modifies stream
    ensures stream.Inv() && r == PbDecoding.DecodeLoop(k, stream.bytes, old(stream.at), old(stream.Limit()), st)
    ensures r.Some? ==> r.value == st
  {
    hide ReadVarint32, SkipField;
    while stream.bytesLeft > 0
      invariant stream.Inv() && stream.Limit() == old(stream.Limit())
      invariant PbDecoding.DecodeLoop(k, stream.bytes, stream.at, stream.Limit(), st)
             == PbDecoding.DecodeLoop(k, stream.bytes, old(stream.at), old(stream.Limit()), st)
      decreases stream.bytesLeft
    {
      var key := stream.DecodeVarint32();
      if key.None? {
        return None;
      }
      if key.value == 0 {
        return Some(st);
      }
      var skipped := stream.SkipField(key.value % 8);
      if !skipped {
        return None;
      }
    }
    return Some(st);
  }

  /** The loop of pb_decode_noinit. */
  method DecodeTags(stream: IStream, k: Kind, iter: FieldIter, st: State, words: seq<Word>)
    returns (r: Option<State>, words': seq<Word>)
    requires stream.Inv() && k.Submessage? && UniqueTags(k) && |st.slots| == |k.fields|
    requires iter.Inv() && iter.fields == k.fields && Tracks(k.fields, words, st.seen)
    modifies stream, iter
    ensures stream.Inv() && r == PbDecoding.DecodeLoop(k, stream.bytes, old(stream.at), old(stream.Limit()), st)
    ensures iter.Inv() && (r.Some? ==> Tracks(k.fields, words', r.value.seen))
    decreases k, 4, 0
  {
    hide PbDecoding.DecodeField, Note, ReadVarint32, FindField, SkipField, Tracks;
    var st := st;
    words' := words;
    ghost var whole := PbDecoding.DecodeLoop(k, stream.bytes, stream.at, stream.Limit(), st);
    while stream.bytesLeft > 0
      invariant stream.Inv() && stream.Limit() == old(stream.Limit()) && |st.slots| == |k.fields| && iter.Inv()
      invariant Tracks(k.fields, words', st.seen)
      invariant whole == PbDecoding.DecodeLoop(k, stream.bytes, stream.at, stream.Limit(), st)
      decreases stream.bytesLeft
    {
      var key := stream.DecodeVarint32();
      if key.None? {
        return None, words';
      }
      if key.value == 0 {
        return Some(st), words';
      }
      var found := iter.Find(key.value / 8);
      if !found {
        var skipped := stream.SkipField(key.value % 8);
        if !skipped {
          return None, words';
        }
      } else {
        var noted := Note(k.fields, iter.pos, st);
        if noted.None? {
          return None, words';
        }
        words' := SetSeen(k.fields, iter.pos, words', st, noted.value);
        ghost var from := stream.at;
        var got := DecodeField(stream, k, iter.pos, key.value % 8, noted.value);
        if got.None? {
          return None, words';
        }
        SeenStays(k, iter.pos, key.value % 8, stream.bytes, from, stream.Limit(), noted.value);
        st := got.value;
      }
    }
    return Some(st), words';
  }

  /** Decoding a field does not touch the bitmap. */
  lemma SeenStays(k: Kind, i: nat, wireType: nat, s: Bytes, p: nat, limit: nat, st: State)
    requires k.Submessage? && |st.slots| == |k.fields| && i < |k.fields| && p <= limit <= |s|
    ensures var got := PbDecoding.DecodeField(k, i, wireType, s, p, limit, st);
      got.Some? ==> got.value.value.seen == st.seen
  {
    hide PbDecoding.DecodeValue, ReadVarint32, Count, PbDecoding.Limit;
    if IsArray(k.fields[i].rule) && wireType == WT_STRING && Packable(k.fields[i].kind) {
      var size := ReadVarint32(s, p, limit);
      if size.Some? && limit - size.value.next >= size.value.value {
        PackedSeenStays(k, i, s, size.value.next, size.value.next + size.value.value, st);
      }
    }
  }

  lemma {:induction false} PackedSeenStays(k: Kind, i: nat, s: Bytes, p: nat, limit: nat, st: State)
    requires k.Submessage? && |st.slots| == |k.fields| && i < |k.fields| && p <= limit <= |s|
    ensures var got := PbDecoding.DecodePacked(k, i, s, p, limit, st);
      got.Some? ==> got.value.seen == st.seen
    decreases limit - p
  {
    hide PbDecoding.DecodeValue;
    if p < limit {
      var v := PbDecoding.DecodeValue(k.fields[i].kind, s, p, limit, Default(k.fields[i].kind));
      if v.Some? {
        PackedSeenStays(k, i, s, v.value.next, limit, Push(k.fields, i, st, v.value.value));
      }
    }
  }

  /** pb_decode */
  method Decode(stream: IStream, k: Kind) returns (r: Option<seq<Slot>>)
    requires stream.Inv() && k.Submessage? && UniqueTags(k)
    modifies stream
    ensures stream.Inv()
    ensures r == PbDecoding.DecodeMessage(k, stream.bytes, old(stream.at), old(stream.Limit()), DefaultSlots(k))
  {
    r := DecodeNoinit(stream, k, DefaultSlots(k));
  }
}

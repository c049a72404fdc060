/** What the nanopb decoder makes of a byte sequence (pb_decode.c), field by field. */
module PbDecoding {
  import opened InternalKey
  import opened Coding
  import opened Pb

  const MAX_REQUIRED_FIELDS := 64

  /** The message as it is decoded: the slots, the fixed-count array that is being filled and
      how far, and which required fields were seen, by their index among the required ones. */
  datatype State = State(slots: seq<Slot>, fixed: Option<(nat, nat)>, seen: set<nat>)

  datatype Got<T> = Got(value: T, next: nat)

  // ----- Scalars -----

  /** From bit 32 on a byte may continue the sign of a negative number. */
  predicate ExtendsSign(byte: Byte, count: nat, result: nat) {
    result >= Half(4) && byte == if count < 9 then 255 else 1
  }

  /** pb_decode_varint32 after `count` bytes, which give `result`. */
  function ReadVarint32From(s: Bytes, p: nat, limit: nat, count: nat, result: nat): (r: Option<Parsed>)
    requires limit <= |s| && result < TWO32
    ensures r.Some? ==> p < r.value.next <= limit && r.value.value < TWO32
    decreases limit - p
  {
    if p >= limit then None
    else if count >= 5 && s[p] % 128 != 0 && !ExtendsSign(s[p], count, result) then None
    else
      var result := if count >= 5 then result else (result + Shifted(s[p] % 128, Power(128, count))) % TWO32;
      if s[p] >= 128 then ReadVarint32From(s, p + 1, limit, count + 1, result)
      else if count == 4 && s[p] >= 16 then None  // only four bits of the fifth byte fit
      else Some(Parsed(result, p + 1))
  }

  /** pb_decode_varint32 */
  function ReadVarint32(s: Bytes, p: nat, limit: nat): (r: Option<Parsed>)
    requires limit <= |s|
    ensures r.Some? ==> p < r.value.next <= limit && r.value.value < TWO32
  {
    ReadVarint32From(s, p, limit, 0, 0)
  }

  function Signed(u: nat, half: nat): int {
    if u < half then u else u - 2 * half
  }

  /** pb_dec_varint: fields of up to 32 bits are first cast to 32 bits. */
  function CastVarint(size: nat, u: nat): Option<Value> {
    var signed := if size == 8 then Signed(u, TWO63) else Signed(u % TWO32, Half(4));
    if IsSize(size) && -(Half(size) as int) <= signed < Half(size) then Some(Number(signed)) else None
  }

  function CastUvarint(size: nat, u: nat): Option<Value> {
    if IsSize(size) && u < 2 * Half(size) then Some(Number(u)) else None
  }

  function UnZigZag(u: nat): int {
    if u % 2 == 1 then -(u / 2) - 1 else u / 2
  }

  function CastSvarint(size: nat, u: nat): Option<Value> {
    var n := UnZigZag(u);
    if IsSize(size) && -(Half(size) as int) <= n < Half(size) then Some(Number(n)) else None
  }

  function DecodeNumber(s: Bytes, p: nat, limit: nat, cast: nat -> Option<Value>): (r: Option<Got<Value>>)
    requires limit <= |s|
    ensures r.Some? ==> p < r.value.next <= limit
  {
    match GetVarint64(s, p, limit)
    case None => None
    case Some(u) => match cast(u.value) case None => None case Some(v) => Some(Got(v, u.next))
  }

  function DecodeFixedWidth(s: Bytes, p: nat, limit: nat, n: nat): (r: Option<Got<Value>>)
    requires p <= limit <= |s| && n > 0
    ensures r.Some? ==> p < r.value.next <= limit
  {
    if limit - p < n then None else Some(Got(Number(DecodeFixed(s[p..p + n], n)), p + n))
  }

  /** pb_dec_bytes, pb_dec_string and pb_dec_fixed_length_bytes */
  function DecodeBlob(k: Kind, s: Bytes, p: nat, limit: nat): (r: Option<Got<Value>>)
    requires limit <= |s| && (k.ByteArray? || k.String? || k.FixedLengthBytes?)
    ensures r.Some? ==> p < r.value.next <= limit
  {
    match ReadVarint32(s, p, limit)
    case None => None
    case Some(size) =>
      if k.FixedLengthBytes? && size.value == 0 then Some(Got(Default(k), size.next))
      else if (k.ByteArray? && size.value > k.capacity) || (k.String? && size.value + 1 > k.capacity)
              || (k.FixedLengthBytes? && size.value != k.size) || limit - size.next < size.value then None
      else Some(Got(Blob(s[size.next..size.next + size.value]), size.next + size.value))
  }

  // ----- Finding and skipping fields -----

  /** The first field with this tag. */
  function FindField(fields: seq<Field>, tag: nat): (r: Option<nat>)
    ensures r.Some? ==> r.value < |fields| && fields[r.value].tag == tag
    ensures r.None? ==> forall i :: 0 <= i < |fields| ==> fields[i].tag != tag
  {
    if fields == [] then None
    else if fields[0].tag == tag then Some(0)
    else
      match FindField(fields[1..], tag)
      case None => None
      case Some(i) => Some(i + 1)
  }

  lemma {:induction false} FindsField(fields: seq<Field>, i: nat)
    requires i < |fields| && forall a, b :: 0 <= a < b < |fields| ==> fields[a].tag != fields[b].tag
    ensures FindField(fields, fields[i].tag) == Some(i)
  {
    if i > 0 {
      FindsField(fields[1..], i - 1);
    }
  }

  /** pb_skip_varint: any number of bytes. */
  function SkipVarint(s: Bytes, p: nat, limit: nat): (r: Option<nat>)
    requires p <= limit <= |s|
    ensures r.Some? ==> p < r.value <= limit
    decreases limit - p
  {
    if p == limit then None else if s[p] < 128 then Some(p + 1) else SkipVarint(s, p + 1, limit)
  }

  /** pb_skip_field */
  function SkipField(wireType: nat, s: Bytes, p: nat, limit: nat): (r: Option<nat>)
    requires p <= limit <= |s|
    ensures r.Some? ==> p < r.value <= limit
  {
    if wireType == WT_VARINT then SkipVarint(s, p, limit)
    else if wireType == WT_64BIT then if limit - p < 8 then None else Some(p + 8)
    else if wireType == WT_32BIT then if limit - p < 4 then None else Some(p + 4)
    else if wireType == WT_STRING then
      match ReadVarint32(s, p, limit)
      case None => None
      case Some(n) => if limit - n.next < n.value then None else Some(n.next + n.value)
    else None
  }

  // ----- One field -----

  /** How many required fields come before field `i`. */
  function RequiredBefore(fields: seq<Field>, i: nat): nat
    requires i <= |fields|
  {
    if i == 0 then 0 else RequiredBefore(fields, i - 1) + if fields[i - 1].rule.Required? then 1 else 0
  }

  /** The slots of a union once its field `i` is chosen. */
  function ClearUnion(fields: seq<Field>, slots: seq<Slot>, i: nat): (r: seq<Slot>)
    requires |slots| == |fields| && i < |fields| && fields[i].rule.Oneof?
    ensures |r| == |slots|
  {
    seq(|slots|, j requires 0 <= j < |slots| =>
      if j != i && fields[j].rule.Oneof? && fields[j].rule.group == fields[i].rule.group then [] else slots[j])
  }

  /** Notes that field `i` was found; none when the fixed-count array before it is not full. */
  function Note(fields: seq<Field>, i: nat, st: State): (r: Option<State>)
    requires |st.slots| == |fields| && i < |fields|
    ensures r.Some? ==> r.value.slots == st.slots
    ensures r.Some? && fields[i].rule.FixedCount? ==> r.value.fixed.Some? && r.value.fixed.value.0 == i
  {
    var f := fields[i];
    if f.rule.FixedCount? then
      if st.fixed.Some? && st.fixed.value.0 == i then Some(st)
      else if !FixedFull(fields, st) then None
      else Some(st.(fixed := Some((i, 0))))
    else if f.rule.Required? && RequiredBefore(fields, i) < MAX_REQUIRED_FIELDS then
      Some(st.(seen := st.seen + {RequiredBefore(fields, i)}))
    else Some(st)
  }

  /** The fixed-count array that was decoded last has all its entries. */
  predicate FixedFull(fields: seq<Field>, st: State) {
    st.fixed.None? ||
    (st.fixed.value.0 < |fields| && fields[st.fixed.value.0].rule.FixedCount?
     && st.fixed.value.1 == fields[st.fixed.value.0].rule.count)
  }

  /** How many entries of array `i` there are, and how many there may be. */
  function Count(fields: seq<Field>, i: nat, st: State): nat
    requires |st.slots| == |fields| && i < |fields|
  {
    if fields[i].rule.FixedCount? && st.fixed.Some? then st.fixed.value.1 else |st.slots[i]|
  }

  function Limit(r: Rule): nat {
    match r
    case Repeated(max) => max
    case FixedCount(count) => count
    case _ => 1
  }

  /** One more entry of array `i`. */
  function Push(fields: seq<Field>, i: nat, st: State, v: Value): (r: State)
    requires |st.slots| == |fields| && i < |fields|
    ensures |r.slots| == |fields|
  {
    if fields[i].rule.FixedCount? && st.fixed.Some? then
      var c := st.fixed.value.1;
      var slot := if c < |st.slots[i]| then st.slots[i][c := v] else st.slots[i] + [v];
      st.(slots := st.slots[i := slot], fixed := Some((st.fixed.value.0, c + 1)))
    else st.(slots := st.slots[i := st.slots[i] + [v]])
  }

  /** The value of field `i`, when it is not an array, becomes `v`. */
  function Store(fields: seq<Field>, i: nat, st: State, v: Value): (r: State)
    requires |st.slots| == |fields| && i < |fields|
    ensures |r.slots| == |fields|
  {
    if fields[i].rule.Oneof? then st.(slots := ClearUnion(fields, st.slots, i)[i := [v]])
    else st.(slots := st.slots[i := [v]])
  }

  /** What a field that is not an array is decoded into: what it holds, or a fresh message. */
  function StartOf(f: Field, slot: Slot): Value {
    if slot == [] then Default(f.kind) else slot[0]
  }

  // ----- The loop -----

  function DecodeValue(k: Kind, s: Bytes, p: nat, limit: nat, start: Value): (r: Option<Got<Value>>)
    requires p <= limit <= |s|
    ensures r.Some? ==> p < r.value.next <= limit
    decreases k, 6, 0
  {
    match k
    case Bool =>
      (match ReadVarint32(s, p, limit)
       case None => None
       case Some(u) => Some(Got(Number(if u.value != 0 then 1 else 0), u.next)))
    case Varint(size) => DecodeNumber(s, p, limit, (u: nat) => CastVarint(size, u))
    case Uvarint(size) => DecodeNumber(s, p, limit, (u: nat) => CastUvarint(size, u))
    case Svarint(size) => DecodeNumber(s, p, limit, (u: nat) => CastSvarint(size, u))
    case Fixed32 => DecodeFixedWidth(s, p, limit, 4)
    case Fixed64 => DecodeFixedWidth(s, p, limit, 8)
    case Submessage(fields) =>
      (match ReadVarint32(s, p, limit)
       case None => None
       case Some(size) =>
         if limit - size.next < size.value || !start.Message? || |start.slots| != |fields| then None
         else
           match DecodeMessage(k, s, size.next, size.next + size.value, start.slots)
           case None => None
           case Some(slots) => Some(Got(Message(slots), size.next + size.value)))
    case _ => DecodeBlob(k, s, p, limit)
  }

  /** The entries of a packed array, up to `limit`. */
  function DecodePacked(k: Kind, i: nat, s: Bytes, p: nat, limit: nat, st: State): (r: Option<State>)
    requires k.Submessage? && |st.slots| == |k.fields| && i < |k.fields| && p <= limit <= |s|
    ensures r.Some? ==> |r.value.slots| == |k.fields|
    decreases k, 2, limit - p
  {
    if p == limit then Some(st)
    else if Count(k.fields, i, st) >= Limit(k.fields[i].rule) then None
    else
      match DecodeValue(k.fields[i].kind, s, p, limit, Default(k.fields[i].kind))
      case None => None
      case Some(v) => DecodePacked(k, i, s, v.next, limit, Push(k.fields, i, st, v.value))
  }

  /** decode_static_field */
  function DecodeField(k: Kind, i: nat, wireType: nat, s: Bytes, p: nat, limit: nat, st: State)
    : (r: Option<Got<State>>)
    requires k.Submessage? && |st.slots| == |k.fields| && i < |k.fields| && p <= limit <= |s|
    ensures r.Some? ==> p < r.value.next <= limit && |r.value.value.slots| == |k.fields|
    decreases k, 3, 0
  {
    var f := k.fields[i];
    if IsArray(f.rule) then
      if wireType == WT_STRING && Packable(f.kind) then
        match ReadVarint32(s, p, limit)
        case None => None
        case Some(size) =>
          if limit - size.next < size.value then None
          else
            match DecodePacked(k, i, s, size.next, size.next + size.value, st)
            case None => None
            case Some(st') => Some(Got(st', size.next + size.value))
      else if Count(k.fields, i, st) >= Limit(f.rule) then None
      else
        match DecodeValue(f.kind, s, p, limit, Default(f.kind))
        case None => None
        case Some(v) => Some(Got(Push(k.fields, i, st, v.value), v.next))
    else
      match DecodeValue(f.kind, s, p, limit, StartOf(f, st.slots[i]))
      case None => None
      case Some(v) => Some(Got(Store(k.fields, i, st, v.value), v.next))
  }

  /** The loop of pb_decode_noinit: tag after tag. */
  function DecodeLoop(k: Kind, s: Bytes, p: nat, limit: nat, st: State): (r: Option<State>)
    requires k.Submessage? && |st.slots| == |k.fields| && p <= limit <= |s|
    ensures r.Some? ==> |r.value.slots| == |k.fields|
    decreases k, 4, limit - p
  {
    if p == limit then Some(st)
    else
      match ReadVarint32(s, p, limit)
      case None => None
      case Some(key) =>
        if key.value == 0 then Some(st)  // a message may end with a zero
        else
          match FindField(k.fields, key.value / 8)
          case None =>
            (match SkipField(key.value % 8, s, key.next, limit)
             case None => None
             case Some(q) => DecodeLoop(k, s, q, limit, st))
          case Some(i) =>
            match Note(k.fields, i, st)
            case None => None
            case Some(noted) =>
              match DecodeField(k, i, key.value % 8, s, key.next, limit, noted)
              case None => None
              case Some(got) => DecodeLoop(k, s, got.next, limit, got.value)
  }

  /** Every required field that is kept track of was seen. */
  predicate AllSeen(fields: seq<Field>, seen: set<nat>) {
    forall r: nat :: r < RequiredBefore(fields, |fields|) && r < MAX_REQUIRED_FIELDS ==> r in seen
  }

  /** pb_decode_noinit */
  function DecodeMessage(k: Kind, s: Bytes, p: nat, limit: nat, slots: seq<Slot>): (r: Option<seq<Slot>>)
    requires k.Submessage? && |slots| == |k.fields| && p <= limit <= |s|
    ensures r.Some? ==> |r.value| == |k.fields|
    decreases k, 5, 0
  {
    match DecodeLoop(k, s, p, limit, State(slots, None, {}))
    case None => None
    case Some(st) => if FixedFull(k.fields, st) && AllSeen(k.fields, st.seen) then Some(st.slots) else None
  }

  /** pb_decode */
  function Decode(k: Kind, s: Bytes): Option<seq<Slot>>
    requires k.Submessage?
  {
    DecodeMessage(k, s, 0, |s|, DefaultSlots(k))
  }
}

/** Integers and slices in bytes (util/coding.cc, util/coding.h). */
module Coding {
  import opened InternalKey

  function Power(base: nat, n: nat): (r: nat)
    ensures base > 0 ==> r > 0
  {
    if n == 0 then 1 else base * Power(base, n - 1)
  }

  // ----- Fixed width -----

  /** The `n` low bytes of `v`, least significant first. */
  function Fixed(v: nat, n: nat): (r: Bytes)
    ensures |r| == n
  {
    if n == 0 then [] else [v % 256] + Fixed(v / 256, n - 1)
  }

  function DecodeFixed(s: Bytes, n: nat): (v: nat)
    requires |s| >= n
    ensures v < Power(256, n)
  {
    if n == 0 then 0 else (s[0] as int) + 256 * DecodeFixed(s[1..], n - 1)
  }

  lemma {:induction false} FixedRoundTrip(v: nat, n: nat, rest: Bytes)
    requires v < Power(256, n)
    ensures DecodeFixed(Fixed(v, n) + rest, n) == v
  {
    if n > 0 {
      FixedRoundTrip(v / 256, n - 1, rest);
      assert (Fixed(v, n) + rest)[1..] == Fixed(v / 256, n - 1) + rest;
    }
  }

  /** Byte `i` of a number, counted from the least significant one. */
  function ByteOf(v: nat, i: nat): nat {
    if i == 0 then v % 256 else ByteOf(v / 256, i - 1)
  }

  /** Bytes are in order of weight, the least significant first. */
  lemma {:induction false} FixedByte(v: nat, n: nat, i: nat)
    requires i < n
    ensures (Fixed(v, n)[i] as int) == ByteOf(v, i)
  {
    if i > 0 {
      FixedByte(v / 256, n - 1, i - 1);
    }
  }

  function EncodeFixed32(v: nat): (r: Bytes)
    ensures |r| == 4
  {
    Fixed(v, 4)
  }

  function EncodeFixed64(v: nat): (r: Bytes)
    ensures |r| == 8
  {
    Fixed(v, 8)
  }

  function DecodeFixed32(s: Bytes): (v: nat)
    requires |s| >= 4
    ensures v < 0x1_0000_0000
  {
    Powers();
    DecodeFixed(s, 4)
  }

  function DecodeFixed64(s: Bytes): (v: nat)
    requires |s| >= 8
    ensures v < 0x1_0000_0000_0000_0000
  {
    Powers();
    DecodeFixed(s, 8)
  }

  lemma Powers()
    ensures Power(256, 4) == 0x1_0000_0000 && Power(256, 8) == 0x1_0000_0000_0000_0000
    ensures Power(128, 5) == 0x8_0000_0000 && Power(128, 10) >= 0x1_0000_0000_0000_0000
  {
    assert Power(256, 2) == 0x1_0000;
    assert Power(256, 4) == 256 * (256 * Power(256, 2));
    assert Power(256, 6) == 256 * (256 * Power(256, 4));
    assert Power(256, 8) == 256 * (256 * Power(256, 6));
    assert Power(128, 2) == 0x4000;
    assert Power(128, 4) == 128 * (128 * Power(128, 2));
    assert Power(128, 6) == 128 * (128 * Power(128, 4));
    assert Power(128, 8) == 128 * (128 * Power(128, 6));
    assert Power(128, 10) == 128 * (128 * Power(128, 8));
    assert Power(128, 5) == 128 * Power(128, 4);
  }

  lemma Fixed32RoundTrip(v: nat, rest: Bytes)
    requires v < 0x1_0000_0000
    ensures DecodeFixed32(EncodeFixed32(v) + rest) == v
  {
    Powers();
    FixedRoundTrip(v, 4, rest);
  }

  lemma Fixed64RoundTrip(v: nat, rest: Bytes)
    requires v < 0x1_0000_0000_0000_0000
    ensures DecodeFixed64(EncodeFixed64(v) + rest) == v
  {
    Powers();
    FixedRoundTrip(v, 8, rest);
  }

  // ----- Varints -----

  /** Seven bits a byte, least significant first; the high bit says that more follow. */
  function Varint(v: nat): (r: Bytes)
    ensures |r| >= 1
  {
    if v < 128 then [v] else [v % 128 + 128] + Varint(v / 128)
  }

  /** Seven bits of a number, the group `i` from the least significant one. */
  function GroupOf(v: nat, i: nat): nat {
    if i == 0 then v % 128 else GroupOf(v / 128, i - 1)
  }

  /** Groups are in order of weight, each byte but the last has its high bit set, and there are as few
      bytes as the number needs. */
  lemma {:induction false} VarintByte(v: nat, i: nat)
    requires i < |Varint(v)|
    ensures (Varint(v)[i] as int) % 128 == GroupOf(v, i)
    ensures Varint(v)[i] >= 128 <==> i + 1 < |Varint(v)|
    ensures v < Power(128, |Varint(v)|) && (|Varint(v)| > 1 ==> v >= Power(128, |Varint(v)| - 1))
    decreases v
  {
    if v >= 128 {
      VarintByte(v / 128, if i > 0 then i - 1 else 0);
    }
  }

  lemma {:induction false} VarintFits(v: nat, n: nat)
    requires n > 0 && v < Power(128, n)
    ensures |Varint(v)| <= n
  {
    if v >= 128 {
      VarintFits(v / 128, n - 1);
    }
  }

  /** A number and where what follows it starts. */
  datatype Parsed = Parsed(value: nat, next: nat)

  /** Reads a varint of at most `budget` bytes before `limit`. */
  function ReadVarint(s: Bytes, p: nat, limit: nat, budget: nat): (r: Option<Parsed>)
    requires limit <= |s|
    ensures r.Some? ==> p < r.value.next <= limit
    decreases budget
  {
    if budget == 0 || p >= limit then None
    else if s[p] < 128 then Some(Parsed(s[p], p + 1))
    else
      match ReadVarint(s, p + 1, limit, budget - 1)
      case None => None
      case Some(rest) => Some(Parsed((s[p] as int) - 128 + 128 * rest.value, rest.next))
  }

  /** GetVarint32Ptr: five bytes, of which 32 bits are kept. */
  function GetVarint32(s: Bytes, p: nat, limit: nat): (r: Option<Parsed>)
    requires limit <= |s|
    ensures r.Some? ==> p < r.value.next <= limit && r.value.value < 0x1_0000_0000
  {
    match ReadVarint(s, p, limit, 5)
    case None => None
    case Some(n) => Some(Parsed(n.value % 0x1_0000_0000, n.next))
  }

  /** GetVarint64Ptr */
  function GetVarint64(s: Bytes, p: nat, limit: nat): (r: Option<Parsed>)
    requires limit <= |s|
    ensures r.Some? ==> p < r.value.next <= limit && r.value.value < 0x1_0000_0000_0000_0000
  {
    match ReadVarint(s, p, limit, 10)
    case None => None
    case Some(n) => Some(Parsed(n.value % 0x1_0000_0000_0000_0000, n.next))
  }

  /** `s` holds `w` at `p`. */
  predicate HoldsAt(s: Bytes, p: nat, w: Bytes) {
    p + |w| <= |s| && s[p..p + |w|] == w
  }

  lemma HoldsEnds(s: Bytes, p: nat, w: Bytes)
    requires HoldsAt(s, p, w)
    ensures p + |w| <= |s|
  {
  }

  lemma HoldsParts(s: Bytes, p: nat, a: Bytes, b: Bytes)
    ensures HoldsAt(s, p, a + b) <==> HoldsAt(s, p, a) && HoldsAt(s, p + |a|, b)
  {
    if HoldsAt(s, p, a + b) {
      var w := s[p..p + |a + b|];
      assert s[p..p + |a|] == w[..|a|] && s[p + |a|..p + |a| + |b|] == w[|a|..];
    }
  }

  lemma {:induction false} VarintRoundTrip(v: nat, s: Bytes, p: nat, limit: nat, budget: nat)
    requires HoldsAt(s, p, Varint(v)) && p + |Varint(v)| <= limit <= |s|
    requires 0 < budget && v < Power(128, budget)
    ensures ReadVarint(s, p, limit, budget) == Some(Parsed(v, p + |Varint(v)|))
  {
    if v >= 128 {
      HoldsParts(s, p, [v % 128 + 128], Varint(v / 128));
      VarintRoundTrip(v / 128, s, p + 1, limit, budget - 1);
      assert s[p] == s[p..p + |Varint(v)|][0];
    } else {
      assert s[p] == s[p..p + 1][0];
    }
  }

  /** What PutVarint32 appends is what GetVarint32 takes. */
  lemma Varint32RoundTrip(v: nat, s: Bytes, p: nat, limit: nat)
    requires v < 0x1_0000_0000 && HoldsAt(s, p, Varint(v)) && p + |Varint(v)| <= limit <= |s|
    ensures GetVarint32(s, p, limit) == Some(Parsed(v, p + |Varint(v)|))
  {
    Powers();
    VarintRoundTrip(v, s, p, limit, 5);
  }

  lemma Varint64RoundTrip(v: nat, s: Bytes, p: nat, limit: nat)
    requires v < 0x1_0000_0000_0000_0000 && HoldsAt(s, p, Varint(v)) && p + |Varint(v)| <= limit <= |s|
    ensures GetVarint64(s, p, limit) == Some(Parsed(v, p + |Varint(v)|))
  {
    Powers();
    VarintRoundTrip(v, s, p, limit, 10);
  }

  // ----- Places in a byte sequence -----

  lemma DecodeAt(data: Bytes, p: nat, v: nat)
    requires v < 0x1_0000_0000 && HoldsAt(data, p, EncodeFixed32(v))
    ensures p + 4 <= |data| && DecodeFixed32(data[p..]) == v
  {
    hide EncodeFixed32, DecodeFixed32;
    Fixed32RoundTrip(v, data[p + 4..]);
    assert data[p..] == data[p..p + 4] + data[p + 4..];
  }

  lemma PartOfPart(s: Bytes, p: nat, w: Bytes, q: nat, u: Bytes)
    requires HoldsAt(s, p, w) && HoldsAt(w, q, u)
    ensures HoldsAt(s, p + q, u)
  {
    var x := s[p..p + |w|];
    forall i | 0 <= i < |u|
      ensures s[p + q..p + q + |u|][i] == u[i]
    {
      assert u[i] == x[q..q + |u|][i] == x[q + i];
    }
  }

  lemma Whole(s: Bytes)
    ensures HoldsAt(s, 0, s)
  {
  }

  function Fixed32s(numbers: seq<nat>): (r: Bytes)
    ensures |r| == 4 * |numbers|
  {
    if numbers == [] then [] else Fixed32s(numbers[..|numbers| - 1]) + EncodeFixed32(numbers[|numbers| - 1])
  }

  lemma {:induction false} Fixed32At(numbers: seq<nat>, k: nat)
    requires k < |numbers|
    ensures HoldsAt(Fixed32s(numbers), 4 * k, EncodeFixed32(numbers[k]))
  {
    hide EncodeFixed32;
    var init := numbers[..|numbers| - 1];
    var before, last := Fixed32s(init), EncodeFixed32(numbers[|numbers| - 1]);
    if k < |init| {
      Fixed32At(init, k);
      assert (before + last)[4 * k..4 * k + 4] == before[4 * k..4 * k + 4];
    } else {
      assert (before + last)[4 * k..4 * k + 4] == last;
    }
  }

  lemma NoNumbers()
    ensures Fixed32s([]) == []
  {
  }

  lemma Fixed32sGrows(numbers: seq<nat>, i: nat)
    requires i < |numbers|
    ensures Fixed32s(numbers[..i + 1]) == Fixed32s(numbers[..i]) + EncodeFixed32(numbers[i])
  {
    assert numbers[..i + 1][..i] == numbers[..i];
  }

  // ----- The code -----

  /** EncodeVarint32: one branch for each length. */
  method EncodeVarint32(v: nat) returns (dst: Bytes)
    requires v < 0x1_0000_0000
    ensures dst == Varint(v)
  {
    if v < 0x80 {
      dst := [v];
    } else if v < 0x4000 {
      dst := [v % 128 + 128, v / 128];
      assert Varint(v / 128) == [v / 128];
    } else if v < 0x20_0000 {
      dst := [v % 128 + 128, v / 128 % 128 + 128, v / 128 / 128];
      assert Varint(v / 128 / 128) == [v / 128 / 128];
    } else if v < 0x1000_0000 {
      dst := [v % 128 + 128, v / 128 % 128 + 128, v / 128 / 128 % 128 + 128, v / 128 / 128 / 128];
      assert Varint(v / 128 / 128 / 128) == [v / 128 / 128 / 128];
      assert Varint(v / 128 / 128) == [v / 128 / 128 % 128 + 128] + Varint(v / 128 / 128 / 128);
    } else {
      dst := [v % 128 + 128, v / 128 % 128 + 128, v / 128 / 128 % 128 + 128, v / 128 / 128 / 128 % 128 + 128,
              v / 128 / 128 / 128 / 128];
      assert Varint(v / 128 / 128 / 128 / 128) == [v / 128 / 128 / 128 / 128];
      assert Varint(v / 128 / 128 / 128) == [v / 128 / 128 / 128 % 128 + 128] + Varint(v / 128 / 128 / 128 / 128);
      assert Varint(v / 128 / 128) == [v / 128 / 128 % 128 + 128] + Varint(v / 128 / 128 / 128);
    }
  }

  /** EncodeVarint64 */
  method EncodeVarint64(v: nat) returns (dst: Bytes)
    ensures dst == Varint(v)
  {
    dst := [];
    var left := v;
    while left >= 128
      invariant dst + Varint(left) == Varint(v)
    {
      assert dst + ([left % 128 + 128] + Varint(left / 128)) == dst + [left % 128 + 128] + Varint(left / 128);
      dst := dst + [left % 128 + 128];
      left := left / 128;
    }
    dst := dst + [left];
  }

  /** A byte shifted into its place. */
  function Shifted(byte: nat, unit: nat): nat {
    byte * unit
  }

  lemma MoreBytes(byte: Byte, unit: nat, rest: nat)
    requires byte >= 128
    ensures Shifted((byte as int) - 128 + 128 * rest, unit) == Shifted(byte - 128, unit) + Shifted(rest, unit * 128)
  {
  }

  /** GetVarint32PtrFallback: the shifts, and the limit on them. */
  method GetVarint32PtrFallback(s: Bytes, p: nat, limit: nat) returns (r: Option<Parsed>)
    requires limit <= |s|
    ensures r == GetVarint32(s, p, limit)
  {
    hide Shifted, ReadVarint, VarintContinues;
    var result: nat, q: nat, unit: nat, shift: nat := 0, p, 1, 0;
    ghost var whole := ReadVarint(s, p, limit, 5);
    ghost var budget := 5;
    VarintStarts(s, p, limit, 5);
    while shift <= 28 && q < limit
      invariant 0 <= budget <= 5 && shift + 7 * budget == 35 && VarintContinues(s, q, limit, budget, whole, result, unit)
      decreases budget
    {
      VarintGoesOn(s, q, limit, budget, whole, result, unit);
      var byte := s[q];
      q := q + 1;
      if byte >= 128 {
        result := result + Shifted(byte - 128, unit);
      } else {
        result := result + Shifted(byte, unit);
        return Some(Parsed(result % 0x1_0000_0000, q));
      }
      unit := unit * 128;
      shift := shift + 7;
      budget := budget - 1;
    }
    VarintStops(s, q, limit, budget, whole, result, unit);
    return None;
  }

  /** What is left to read completes `result` to the whole. */
  ghost predicate VarintContinues(s: Bytes, q: nat, limit: nat, budget: nat, whole: Option<Parsed>, result: nat, unit: nat)
    requires limit <= |s|
  {
    var rest := ReadVarint(s, q, limit, budget);
    if whole.None? then rest.None?
    else rest.Some? && whole.value.value == result + Shifted(rest.value.value, unit) && whole.value.next == rest.value.next
  }

  lemma VarintStarts(s: Bytes, p: nat, limit: nat, budget: nat)
    requires limit <= |s|
    ensures VarintContinues(s, p, limit, budget, ReadVarint(s, p, limit, budget), 0, 1)
  {
    hide ReadVarint;
    OneUnit(ReadVarint(s, p, limit, budget));
  }

  lemma VarintGoesOn(s: Bytes, q: nat, limit: nat, budget: nat, whole: Option<Parsed>, result: nat, unit: nat)
    requires q < limit <= |s| && budget > 0 && VarintContinues(s, q, limit, budget, whole, result, unit)
    ensures if s[q] >= 128
            then VarintContinues(s, q + 1, limit, budget - 1, whole, result + Shifted(s[q] - 128, unit), unit * 128)
            else whole == Some(Parsed(result + Shifted(s[q], unit), q + 1))
  {
    hide Shifted;
    if s[q] >= 128 && whole.Some? {
      MoreBytes(s[q], unit, ReadVarint(s, q + 1, limit, budget - 1).value.value);
    }
  }

  lemma VarintStops(s: Bytes, q: nat, limit: nat, budget: nat, whole: Option<Parsed>, result: nat, unit: nat)
    requires limit <= |s| && (budget == 0 || q >= limit) && VarintContinues(s, q, limit, budget, whole, result, unit)
    ensures whole.None?
  {
  }

  lemma OneUnit(whole: Option<Parsed>)
    ensures whole.Some? ==> Shifted(whole.value.value, 1) == whole.value.value
  {
  }

  // ----- Length-prefixed slices -----

  function LengthPrefixed(s: Bytes): Bytes {
    Varint(|s|) + s
  }

  datatype Slice = Slice(data: Bytes, next: nat)

  function GetLengthPrefixed(s: Bytes, p: nat, limit: nat): (r: Option<Slice>)
    requires limit <= |s|
    ensures r.Some? ==> p < r.value.next <= limit
  {
    match GetVarint32(s, p, limit)
    case None => None
    case Some(n) => if n.next + n.value > limit then None else Some(Slice(s[n.next..n.next + n.value], n.next + n.value))
  }

  lemma LengthPrefixedRoundTrip(data: Bytes, s: Bytes, p: nat, limit: nat)
    requires |data| < 0x1_0000_0000 && HoldsAt(s, p, LengthPrefixed(data)) && p + |LengthPrefixed(data)| <= limit <= |s|
    ensures GetLengthPrefixed(s, p, limit) == Some(Slice(data, p + |LengthPrefixed(data)|))
  {
    HoldsParts(s, p, Varint(|data|), data);
    Varint32RoundTrip(|data|, s, p, limit);
  }

  // ----- What is cut off is missed -----

  /** `s` holds the first part of `w` at `p`, up to its own end. */
  ghost predicate CutAt(s: Bytes, p: nat, w: Bytes) {
    p <= |s| < p + |w| && forall i :: p <= i < |s| ==> s[i] == w[i - p]
  }

  lemma {:induction false} CutVarint(v: nat, s: Bytes, p: nat, budget: nat)
    requires CutAt(s, p, Varint(v))
    ensures ReadVarint(s, p, |s|, budget).None?
    decreases budget
  {
    if p < |s| && budget > 0 {
      var rest := Varint(v / 128);
      assert Varint(v) == [v % 128 + 128] + rest;
      forall i | p + 1 <= i < |s|
        ensures s[i] == rest[i - (p + 1)]
      {
        assert Varint(v)[i - p] == rest[i - p - 1];
      }
      CutVarint(v / 128, s, p + 1, budget - 1);
    }
  }

  /** A length-prefixed slice that was cut anywhere is not taken. */
  lemma CutPrefixed(data: Bytes, s: Bytes, p: nat)
    requires |data| < 0x1_0000_0000 && CutAt(s, p, LengthPrefixed(data))
    ensures GetLengthPrefixed(s, p, |s|).None?
  {
    hide ReadVarint;
    var size, w := Varint(|data|), LengthPrefixed(data);
    if |s| < p + |size| {
      forall i | p <= i < |s|
        ensures s[i] == size[i - p]
      {
        assert w[i - p] == size[i - p];
      }
      CutVarint(|data|, s, p, 5);
    } else {
      forall i | 0 <= i < |size|
        ensures s[p..p + |size|][i] == size[i]
      {
        assert w[i] == size[i];
      }
      assert s[p..p + |size|] == size;
      Varint32RoundTrip(|data|, s, p, |s|);
    }
  }
}

/** Checksums of byte sequences, and how files store them (util/crc32c.h). */
module Checksums {
  import opened InternalKey
  import Coding
  import Crc32c

  function Bits(data: Bytes): seq<bv8> {
    seq(|data|, i requires 0 <= i < |data| => data[i] as bv8)
  }

  function ToBits(x: Byte): bv8 {
    x as bv8
  }

  function OfBits(b: bv8): int {
    b as int
  }

  function Next(b: bv8): bv8 {
    b + 1
  }

  lemma NextIsMore(b: bv8)
    requires OfBits(b) < 255
    ensures OfBits(Next(b)) == OfBits(b) + 1
  {
  }

  lemma BitsAgain(b: bv8)
    ensures 0 <= OfBits(b) < 256 && ToBits(OfBits(b)) == b
  {
  }

  lemma ZeroAgain()
    ensures OfBits(ToBits(0)) == 0
  {
  }

  /** The bits of a byte are those of its number. */
  lemma {:induction false} ByteAgain(x: Byte)
    ensures OfBits(ToBits(x)) == x
    decreases x as int
  {
    hide ToBits, OfBits, Next;
    if x == 0 {
      ZeroAgain();
    } else {
      ByteAgain(x - 1);
      NextIsMore(ToBits(x - 1));
      BitsAgain(Next(ToBits(x - 1)));
    }
  }

  lemma BytesDiffer(x: Byte, y: Byte)
    requires x != y
    ensures x as bv8 != y as bv8
  {
    hide OfBits;
    ByteAgain(x);
    ByteAgain(y);
    assert ToBits(x) == x as bv8 && ToBits(y) == y as bv8;
  }

  lemma BitsSplit(data: Bytes, i: nat)
    requires i < |data|
    ensures Bits(data) == Bits(data[..i]) + [data[i] as bv8] + Bits(data[i + 1..])
  {
    BitsConcat(data[..i], [data[i]]);
    BitsConcat(data[..i] + [data[i]], data[i + 1..]);
    assert data == data[..i] + [data[i]] + data[i + 1..];
  }

  /** One byte that changed changes the checksum. */
  lemma ChangeIsSeen(data: Bytes, damaged: Bytes, i: nat)
    requires |damaged| == |data| && i < |data| && damaged[i] != data[i]
    requires forall j :: 0 <= j < |data| && j != i ==> damaged[j] == data[j]
    ensures Crc32c.Checksum(0, Bits(damaged)) != Crc32c.Checksum(0, Bits(data))
  {
    hide Crc32c.Checksum, Bits;
    BytesDiffer(data[i], damaged[i]);
    BitsSplit(data, i);
    BitsSplit(damaged, i);
    assert damaged[..i] == data[..i] && damaged[i + 1..] == data[i + 1..];
    Crc32c.OneByteChangeIsSeen(0, Bits(data[..i]), data[i] as bv8, damaged[i] as bv8, Bits(data[i + 1..]));
  }

  lemma BitsConcat(a: Bytes, b: Bytes)
    ensures Bits(a + b) == Bits(a) + Bits(b)
  {
  }

  /** A checksum is masked and stored as a fixed32. */
  function Stored(crc: bv32): (r: Bytes)
    ensures |r| == 4
  {
    Coding.EncodeFixed32(Crc32c.Mask(crc) as int)
  }

  function UnmaskStored(stored: nat): bv32
    requires stored < 0x1_0000_0000
  {
    Crc32c.Unmask(stored as bv32)
  }

  lemma StoredRoundTrip(crc: bv32, rest: Bytes)
    ensures UnmaskStored(Coding.DecodeFixed32(Stored(crc) + rest)) == crc
  {
    hide Crc32c.Mask, Crc32c.Unmask, Coding.EncodeFixed32, Coding.DecodeFixed32;
    Coding.Fixed32RoundTrip(Crc32c.Mask(crc) as int, rest);
    Crc32c.UnmaskMask(crc);
  }
}

/** CRC32C (util/crc32c.cc, util/crc32c.h): the checksum of section 12.1 of RFC 3720, taken a
    byte at a time and in four interleaved strides of words. */
module Crc32c {

  const POLYNOMIAL: bv32 := 0x82f63b78  // bit-reversed
  const CRC32_XOR: bv32 := 0xffff_ffff
  const MASK_DELTA: bv32 := 0xa282_ead8

  /** Exclusive or: the sum of two polynomials over GF(2). */
  function Plus(a: bv32, b: bv32): bv32 {
    a ^ b
  }

  /** One bit of input: division by the polynomial. */
  function ShiftBit(x: bv32): bv32 {
    if x & 1 == 1 then (x >> 1) ^ POLYNOMIAL else x >> 1
  }

  function ShiftByte(x: bv32): bv32 {
    ShiftBit(ShiftBit(ShiftBit(ShiftBit(ShiftBit(ShiftBit(ShiftBit(ShiftBit(x))))))))
  }

  /** `n` zero bytes. */
  function Advance(n: nat, x: bv32): bv32 {
    if n == 0 then x else Advance(n - 1, ShiftByte(x))
  }

  function Widen(b: bv8): bv32 {
    b as bv32
  }

  /** The running word after all of `data`, bit by bit: the definition of the checksum. */
  function Update(l: bv32, data: seq<bv8>): bv32 {
    if data == [] then l
    else ShiftByte(Plus(Update(l, data[..|data| - 1]), Widen(data[|data| - 1])))
  }

  function Checksum(crc: bv32, data: seq<bv8>): bv32 {
    Plus(Update(Plus(crc, CRC32_XOR), data), CRC32_XOR)
  }

  // ----- Sums -----

  lemma PlusAssociates(a: bv32, b: bv32, c: bv32)
    ensures Plus(Plus(a, b), c) == Plus(a, Plus(b, c))
  {
  }

  lemma PlusRegroups(a: bv32, b: bv32, c: bv32)
    ensures Plus(Plus(a, b), c) == Plus(Plus(a, c), b)
    ensures Plus(Plus(a, b), c) == Plus(a, Plus(b, c))
  {
    hide Plus;
    PlusAssociates(a, b, c);
    PlusCommutes(b, c);
    PlusAssociates(a, c, b);
  }

  lemma PlusCancels(a: bv32, b: bv32, c: bv32)
    ensures Plus(Plus(a, c), Plus(b, c)) == Plus(a, b)
  {
    hide Plus;
    PlusCommutes(b, c);
    PlusAssociates(Plus(a, c), c, b);
    PlusTwice(a, c);
  }

  lemma PlusCommutes(a: bv32, b: bv32)
    ensures Plus(a, b) == Plus(b, a)
  {
  }

  lemma PlusTwice(a: bv32, b: bv32)
    ensures Plus(Plus(a, b), b) == a
  {
  }

  lemma PlusZero(a: bv32)
    ensures Plus(a, 0) == a && Plus(0, a) == a
  {
  }

  function Sum(a: bv32, b: bv32, c: bv32, d: bv32): bv32 {
    Plus(Plus(Plus(a, b), c), d)
  }

  lemma SumMovesFirst(a: bv32, b: bv32, c: bv32, d: bv32, w: bv32)
    ensures Plus(Sum(a, b, c, d), w) == Sum(b, c, d, Plus(a, w))
  {
    hide Plus;
    var rest := Plus(Plus(b, c), d);
    PlusRegroups(a, b, c);
    PlusRegroups(a, Plus(b, c), d);
    PlusCommutes(a, rest);
    PlusRegroups(rest, a, w);
  }

  lemma SumOnTheRight(w: bv32, a: bv32, b: bv32, c: bv32, d: bv32)
    ensures Plus(Plus(Plus(Plus(w, a), b), c), d) == Plus(Sum(a, b, c, d), w)
  {
  }

  // ----- Linearity -----

  lemma PlusIsXor(a: bv32, b: bv32)
    ensures Plus(a, b) == a ^ b
  {
  }

  lemma HalfOfXor(x: bv32, y: bv32)
    ensures (x ^ y) >> 1 == (x >> 1) ^ (y >> 1)
  {
  }

  lemma HalfOfSum(x: bv32, y: bv32)
    ensures Plus(x, y) >> 1 == Plus(x >> 1, y >> 1)
  {
    hide Plus;
    PlusIsXor(x, y);
    PlusIsXor(x >> 1, y >> 1);
    HalfOfXor(x, y);
  }

  lemma ParityOfSum(x: bv32, y: bv32)
    ensures (Plus(x, y) & 1 == 1) <==> ((x & 1 == 1) != (y & 1 == 1))
  {
  }

  lemma ShiftBitIsSum(x: bv32)
    ensures ShiftBit(x) == if x & 1 == 1 then Plus(x >> 1, POLYNOMIAL) else x >> 1
  {
  }

  lemma ShiftBitIsLinear(x: bv32, y: bv32)
    ensures ShiftBit(Plus(x, y)) == Plus(ShiftBit(x), ShiftBit(y))
  {
    hide Plus, ShiftBit;
    HalfOfSum(x, y);
    ParityOfSum(x, y);
    ShiftBitIsSum(x);
    ShiftBitIsSum(y);
    ShiftBitIsSum(Plus(x, y));
    var a, b := x >> 1, y >> 1;
    PlusRegroups(a, b, POLYNOMIAL);
    PlusCancels(a, b, POLYNOMIAL);
  }

  lemma ShiftByteIsLinear(x: bv32, y: bv32)
    ensures ShiftByte(Plus(x, y)) == Plus(ShiftByte(x), ShiftByte(y))
  {
    hide ShiftBit, Plus;
    var a1, b1 := ShiftBit(x), ShiftBit(y);
    var a2, b2 := ShiftBit(a1), ShiftBit(b1);
    var a3, b3 := ShiftBit(a2), ShiftBit(b2);
    var a4, b4 := ShiftBit(a3), ShiftBit(b3);
    var a5, b5 := ShiftBit(a4), ShiftBit(b4);
    var a6, b6 := ShiftBit(a5), ShiftBit(b5);
    ShiftBitIsLinear(x, y);
    ShiftBitIsLinear(a1, b1);
    ShiftBitIsLinear(a2, b2);
    ShiftBitIsLinear(a3, b3);
    ShiftBitIsLinear(a4, b4);
    ShiftBitIsLinear(a5, b5);
    ShiftBitIsLinear(a6, b6);
    ShiftBitIsLinear(ShiftBit(a6), ShiftBit(b6));
  }

  lemma {:induction false} AdvanceIsLinear(n: nat, x: bv32, y: bv32)
    ensures Advance(n, Plus(x, y)) == Plus(Advance(n, x), Advance(n, y))
  {
    hide ShiftByte, Plus;
    if n > 0 {
      ShiftByteIsLinear(x, y);
      AdvanceIsLinear(n - 1, ShiftByte(x), ShiftByte(y));
    }
  }

  lemma AdvanceOfSum(n: nat, a: bv32, b: bv32, c: bv32, d: bv32)
    ensures Advance(n, Sum(a, b, c, d)) == Sum(Advance(n, a), Advance(n, b), Advance(n, c), Advance(n, d))
  {
    hide Advance, Plus;
    AdvanceIsLinear(n, Plus(Plus(a, b), c), d);
    AdvanceIsLinear(n, Plus(a, b), c);
    AdvanceIsLinear(n, a, b);
  }

  lemma {:induction false} AdvanceAdds(m: nat, n: nat, x: bv32)
    ensures Advance(m, Advance(n, x)) == Advance(n + m, x)
  {
    hide ShiftByte;
    if n > 0 {
      AdvanceAdds(m, n - 1, ShiftByte(x));
    }
  }

  lemma AdvanceFour(x: bv32)
    ensures Advance(4, x) == ShiftByte(ShiftByte(ShiftByte(ShiftByte(x))))
  {
    hide ShiftByte;
    assert Advance(1, ShiftByte(ShiftByte(ShiftByte(x)))) == ShiftByte(ShiftByte(ShiftByte(ShiftByte(x))));
    assert Advance(2, ShiftByte(ShiftByte(x))) == Advance(1, ShiftByte(ShiftByte(ShiftByte(x))));
    assert Advance(3, ShiftByte(x)) == Advance(2, ShiftByte(ShiftByte(x)));
  }

  // ----- Bytes and words -----

  function LowByte(x: bv32): bv32 {
    x & 0xff
  }

  predicate IsByte(x: bv32) {
    x & 0xff == x
  }

  lemma WidenIsByte(b: bv8)
    ensures IsByte(Widen(b))
  {
  }

  lemma LowByteIsShifted(x: bv32)
    requires x & 0xff == 0
    ensures ShiftByte(x) == x >> 8
  {
  }

  function HighBytes(x: bv32): bv32 {
    x & 0xffff_ff00
  }

  lemma HighBytesSplit(l: bv32)
    ensures l == Plus(LowByte(l), HighBytes(l))
  {
  }

  lemma HighBytesAreHigh(l: bv32)
    ensures HighBytes(l) & 0xff == 0
  {
  }

  lemma HighBytesMoveDown(l: bv32)
    ensures HighBytes(l) >> 8 == l >> 8
  {
  }

  lemma HighBytesShift(l: bv32)
    ensures ShiftByte(HighBytes(l)) == l >> 8
  {
    hide ShiftByte, HighBytes;
    HighBytesAreHigh(l);
    HighBytesMoveDown(l);
    LowByteIsShifted(HighBytes(l));
  }

  /** kByteExtensionTable */
  function ByteTable(c: bv32): bv32 {
    ShiftByte(c)
  }

  /** The table step: only the low byte meets the table. */
  lemma TableStep(l: bv32, b: bv32)
    ensures Plus(ByteTable(Plus(LowByte(l), b)), l >> 8) == ShiftByte(Plus(l, b))
  {
    hide ShiftByte, Plus, LowByte, HighBytes;
    HighBytesSplit(l);
    HighBytesShift(l);
    PlusRegroups(LowByte(l), HighBytes(l), b);
    ShiftByteIsLinear(Plus(LowByte(l), b), HighBytes(l));
  }

  /** `b` below the bytes of `rest`. */
  function Below(b: bv32, rest: bv32): bv32 {
    b | (rest << 8)
  }

  /** Four bytes, least significant first. */
  function Word(b0: bv32, b1: bv32, b2: bv32, b3: bv32): bv32 {
    Below(b0, Below(b1, Below(b2, b3)))
  }

  predicate Fits(x: bv32) {
    x & 0x00ff_ffff == x
  }

  predicate FitsTwice(x: bv32) {
    x & 0xffff == x
  }

  lemma BelowIsSum(b: bv32, rest: bv32)
    requires IsByte(b)
    ensures Below(b, rest) == Plus(b, rest << 8)
  {
  }

  lemma UpIsHigh(rest: bv32)
    ensures (rest << 8) & 0xff == 0
  {
  }

  lemma UpAndDown(rest: bv32)
    requires Fits(rest)
    ensures (rest << 8) >> 8 == rest
  {
  }

  lemma AboveShifts(rest: bv32)
    requires Fits(rest)
    ensures ShiftByte(rest << 8) == rest
  {
    hide ShiftByte, Fits;
    UpIsHigh(rest);
    UpAndDown(rest);
    LowByteIsShifted(rest << 8);
  }

  lemma TwoBytesFit(b2: bv32, b3: bv32)
    requires IsByte(b2) && IsByte(b3)
    ensures FitsTwice(Below(b2, b3))
  {
  }

  lemma ByteFits(b: bv32)
    requires IsByte(b)
    ensures Fits(b)
  {
  }

  lemma TwiceFits(x: bv32)
    requires FitsTwice(x)
    ensures Fits(x)
  {
  }

  lemma ThreeBytesFit(b: bv32, rest: bv32)
    requires IsByte(b) && FitsTwice(rest)
    ensures Fits(Below(b, rest))
  {
  }

  lemma ShiftOfWord(l: bv32, b: bv32, rest: bv32)
    requires IsByte(b) && Fits(rest)
    ensures ShiftByte(Plus(l, Below(b, rest))) == Plus(ShiftByte(Plus(l, b)), rest)
  {
    hide ShiftByte, Plus, IsByte, Fits, Below;
    BelowIsSum(b, rest);
    var top := rest << 8;
    PlusRegroups(l, b, top);
    ShiftByteIsLinear(Plus(l, b), top);
    AboveShifts(rest);
  }

  /** A word folded in at once, or its four bytes one after the other. */
  lemma WordStep(l: bv32, b0: bv32, b1: bv32, b2: bv32, b3: bv32)
    requires IsByte(b0) && IsByte(b1) && IsByte(b2) && IsByte(b3)
    ensures ShiftByte(Plus(ShiftByte(Plus(ShiftByte(Plus(ShiftByte(Plus(l, b0)), b1)), b2)), b3))
         == Advance(4, Plus(l, Word(b0, b1, b2, b3)))
  {
    hide ShiftByte, Plus, Advance, Below, IsByte, Fits, FitsTwice;
    TwoBytesFit(b2, b3);
    ByteFits(b3);
    var w2 := Below(b2, b3);
    TwiceFits(w2);
    ThreeBytesFit(b1, w2);
    var w1 := Below(b1, w2);
    ShiftOfWord(l, b0, w1);
    var l1 := ShiftByte(Plus(l, b0));
    ShiftOfWord(l1, b1, w2);
    var l2 := ShiftByte(Plus(l1, b1));
    ShiftOfWord(l2, b2, b3);
    AdvanceFour(Plus(l, Below(b0, w1)));
  }

  /** ReadUint32LE */
  function ReadUint32LE(data: seq<bv8>, p: nat): bv32
    requires p + 4 <= |data|
  {
    Word(Widen(data[p]), Widen(data[p + 1]), Widen(data[p + 2]), Widen(data[p + 3]))
  }

  lemma UpdateByte(l: bv32, data: seq<bv8>, p: nat)
    requires p < |data|
    ensures Update(l, data[..p + 1]) == ShiftByte(Plus(Update(l, data[..p]), Widen(data[p])))
  {
    hide ShiftByte, Plus, Widen;
    assert data[..p + 1][..p] == data[..p];
  }

  lemma UpdateWord(l: bv32, data: seq<bv8>, p: nat)
    requires p + 4 <= |data|
    ensures Update(l, data[..p + 4]) == Advance(4, Plus(Update(l, data[..p]), ReadUint32LE(data, p)))
  {
    hide ShiftByte, Plus, Advance, Word, Update, Widen, IsByte;
    WidenIsByte(data[p]);
    WidenIsByte(data[p + 1]);
    WidenIsByte(data[p + 2]);
    WidenIsByte(data[p + 3]);
    UpdateByte(l, data, p);
    UpdateByte(l, data, p + 1);
    UpdateByte(l, data, p + 2);
    UpdateByte(l, data, p + 3);
    WordStep(Update(l, data[..p]), Widen(data[p]), Widen(data[p + 1]), Widen(data[p + 2]), Widen(data[p + 3]));
  }

  // ----- Four strides -----

  /** kStrideExtensionTable0 to 3: byte `k` from the top of a word, moved on by sixteen zero bytes. */
  function StrideTable(k: nat, c: bv32): bv32
    requires k < 4
  {
    Advance(16, if k == 3 then c else if k == 2 then c << 8 else if k == 1 then c << 16 else c << 24)
  }

  lemma SplitWord(x: bv32)
    ensures x == Sum(x & 0xff, ((x >> 8) & 0xff) << 8, ((x >> 16) & 0xff) << 16, (x >> 24) << 24)
  {
  }

  lemma StrideStep(x: bv32)
    ensures Sum(StrideTable(3, x & 0xff), StrideTable(2, (x >> 8) & 0xff), StrideTable(1, (x >> 16) & 0xff),
                StrideTable(0, x >> 24)) == Advance(16, x)
  {
    hide Advance, Sum;
    SplitWord(x);
    AdvanceOfSum(16, x & 0xff, ((x >> 8) & 0xff) << 8, ((x >> 16) & 0xff) << 16, (x >> 24) << 24);
  }

  /** The running word that the four partial results stand for. */
  function Combine(c0: bv32, c1: bv32, c2: bv32, c3: bv32): bv32 {
    Advance(4, Plus(Advance(4, Plus(Advance(4, Plus(Advance(4, c0), c1)), c2)), c3))
  }

  lemma CombineIsSum(c0: bv32, c1: bv32, c2: bv32, c3: bv32)
    ensures Combine(c0, c1, c2, c3) == Sum(Advance(16, c0), Advance(12, c1), Advance(8, c2), Advance(4, c3))
  {
    hide Advance, Plus;
    AdvanceIsLinear(4, Advance(4, c0), c1);
    AdvanceAdds(4, 4, c0);
    AdvanceIsLinear(4, Plus(Advance(8, c0), Advance(4, c1)), c2);
    AdvanceIsLinear(4, Advance(8, c0), Advance(4, c1));
    AdvanceAdds(4, 8, c0);
    AdvanceAdds(4, 4, c1);
    AdvanceOfSum(4, Advance(12, c0), Advance(8, c1), Advance(4, c2), c3);
    AdvanceAdds(4, 12, c0);
    AdvanceAdds(4, 8, c1);
    AdvanceAdds(4, 4, c2);
  }

  /** A word into the first stride, and the strides rotated. */
  lemma RotateStep(c0: bv32, c1: bv32, c2: bv32, c3: bv32, w: bv32)
    ensures Combine(c1, c2, c3, Plus(Advance(16, c0), w)) == Advance(4, Plus(Combine(c0, c1, c2, c3), w))
  {
    hide Advance, Combine, Plus, Sum;
    CombineIsSum(c0, c1, c2, c3);
    CombineIsSum(c1, c2, c3, Plus(Advance(16, c0), w));
    SumMovesFirst(Advance(16, c0), Advance(12, c1), Advance(8, c2), Advance(4, c3), w);
    AdvanceOfSum(4, Advance(12, c1), Advance(8, c2), Advance(4, c3), Plus(Advance(16, c0), w));
    AdvanceAdds(4, 12, c1);
    AdvanceAdds(4, 8, c2);
    AdvanceAdds(4, 4, c3);
  }

  /** A word into each stride is four rotations. */
  lemma SwathStep(c0: bv32, c1: bv32, c2: bv32, c3: bv32, w0: bv32, w1: bv32, w2: bv32, w3: bv32)
    ensures Combine(Plus(Advance(16, c0), w0), Plus(Advance(16, c1), w1), Plus(Advance(16, c2), w2),
                    Plus(Advance(16, c3), w3))
         == Advance(4, Plus(Advance(4, Plus(Advance(4, Plus(Advance(4, Plus(Combine(c0, c1, c2, c3), w0)), w1)), w2)), w3))
  {
    hide Advance, Combine, Plus;
    var d0, d1, d2 := Plus(Advance(16, c0), w0), Plus(Advance(16, c1), w1), Plus(Advance(16, c2), w2);
    RotateStep(c0, c1, c2, c3, w0);
    RotateStep(c1, c2, c3, d0, w1);
    RotateStep(c2, c3, d0, d1, w2);
    RotateStep(c3, d0, d1, d2, w3);
  }

  // ----- The code -----

  /** STEP1 */
  method Step1(l: bv32, b: bv8) returns (r: bv32)
    ensures r == ShiftByte(Plus(l, Widen(b)))
  {
    hide ShiftByte, ByteTable, Plus, Widen, LowByte;
    TableStep(l, Widen(b));
    r := Plus(ByteTable(Plus(LowByte(l), Widen(b))), l >> 8);
  }

  /** STEP4 */
  method Step4(crc: bv32, w: bv32) returns (r: bv32)
    ensures r == Plus(Advance(16, crc), w)
  {
    hide Advance, StrideTable, Plus, Sum;
    StrideStep(crc);
    r := Plus(Plus(Plus(Plus(w, StrideTable(3, crc & 0xff)), StrideTable(2, (crc >> 8) & 0xff)),
                   StrideTable(1, (crc >> 16) & 0xff)),
              StrideTable(0, crc >> 24));
    SumOnTheRight(w, StrideTable(3, crc & 0xff), StrideTable(2, (crc >> 8) & 0xff), StrideTable(1, (crc >> 16) & 0xff),
                  StrideTable(0, crc >> 24));
  }

  lemma StepWithoutInput(w: bv32)
    ensures Plus(w >> 8, ByteTable(LowByte(w))) == ShiftByte(w)
  {
    hide ShiftByte, ByteTable, Plus, LowByte;
    TableStep(w, 0);
    PlusZero(LowByte(w));
    PlusZero(w);
    PlusCommutes(w >> 8, ByteTable(LowByte(w)));
  }

  /** STEP4W */
  method Step4W(l: bv32, word: bv32) returns (r: bv32)
    ensures r == Advance(4, Plus(l, word))
  {
    hide ShiftByte, ByteTable, Plus, LowByte;
    PlusCommutes(l, word);
    r := Plus(word, l);
    for i := 0 to 4
      invariant Advance(4 - i, r) == Advance(4, Plus(l, word))
    {
      StepWithoutInput(r);
      r := Plus(r >> 8, ByteTable(LowByte(r)));
    }
  }

  lemma FirstSwath(l0: bv32, l: bv32, data: seq<bv8>, p: nat)
    requires p + 16 <= |data| && l == Update(l0, data[..p])
    ensures Combine(Plus(ReadUint32LE(data, p), l), ReadUint32LE(data, p + 4), ReadUint32LE(data, p + 8),
                    ReadUint32LE(data, p + 12)) == Update(l0, data[..p + 16])
  {
    hide Advance, Update, ReadUint32LE, Plus;
    UpdateWord(l0, data, p);
    UpdateWord(l0, data, p + 4);
    UpdateWord(l0, data, p + 8);
    UpdateWord(l0, data, p + 12);
    PlusCommutes(l, ReadUint32LE(data, p));
  }

  lemma NextSwath(l0: bv32, data: seq<bv8>, p: nat, c0: bv32, c1: bv32, c2: bv32, c3: bv32)
    requires p + 16 <= |data| && Combine(c0, c1, c2, c3) == Update(l0, data[..p])
    ensures Combine(Plus(Advance(16, c0), ReadUint32LE(data, p)), Plus(Advance(16, c1), ReadUint32LE(data, p + 4)),
                    Plus(Advance(16, c2), ReadUint32LE(data, p + 8)), Plus(Advance(16, c3), ReadUint32LE(data, p + 12)))
         == Update(l0, data[..p + 16])
  {
    hide Advance, Update, ReadUint32LE, Plus, Combine;
    UpdateWord(l0, data, p);
    UpdateWord(l0, data, p + 4);
    UpdateWord(l0, data, p + 8);
    UpdateWord(l0, data, p + 12);
    SwathStep(c0, c1, c2, c3, ReadUint32LE(data, p), ReadUint32LE(data, p + 4), ReadUint32LE(data, p + 8),
              ReadUint32LE(data, p + 12));
  }

  lemma CombineUnfolds(c0: bv32, c1: bv32, c2: bv32, c3: bv32)
    ensures Combine(c0, c1, c2, c3)
         == Advance(4, Plus(Advance(4, Plus(Advance(4, Plus(Advance(4, Plus(0, c0)), c1)), c2)), c3))
  {
    hide Advance, Plus;
    PlusZero(c0);
  }

  /** The part of Extend that works on words. */
  method Strides(ghost l0: bv32, l: bv32, data: seq<bv8>, start: nat) returns (r: bv32, p: nat)
    requires start + 16 <= |data| && l == Update(l0, data[..start])
    ensures p <= |data| && r == Update(l0, data[..p])
  {
    hide Advance, Update, ReadUint32LE, Plus, Combine;
    p := start;
    FirstSwath(l0, l, data, p);
    var crc0 := Plus(ReadUint32LE(data, p), l);
    var crc1, crc2, crc3 := ReadUint32LE(data, p + 4), ReadUint32LE(data, p + 8), ReadUint32LE(data, p + 12);
    p := p + 16;
    while |data| - p >= 16
      invariant p <= |data| && Combine(crc0, crc1, crc2, crc3) == Update(l0, data[..p])
    {
      NextSwath(l0, data, p, crc0, crc1, crc2, crc3);
      crc0 := Step4(crc0, ReadUint32LE(data, p));
      crc1 := Step4(crc1, ReadUint32LE(data, p + 4));
      crc2 := Step4(crc2, ReadUint32LE(data, p + 8));
      crc3 := Step4(crc3, ReadUint32LE(data, p + 12));
      p := p + 16;
    }
    while |data| - p >= 4
      invariant p <= |data| && Combine(crc0, crc1, crc2, crc3) == Update(l0, data[..p])
    {
      UpdateWord(l0, data, p);
      RotateStep(crc0, crc1, crc2, crc3, ReadUint32LE(data, p));
      crc0 := Step4(crc0, ReadUint32LE(data, p));
      crc0, crc1, crc2, crc3 := crc1, crc2, crc3, crc0;
      p := p + 4;
    }
    CombineUnfolds(crc0, crc1, crc2, crc3);
    r := 0;
    r := Step4W(r, crc0);
    r := Step4W(r, crc1);
    r := Step4W(r, crc2);
    r := Step4W(r, crc3);
  }

  /** Extend, for a buffer that starts at `address`: whatever its alignment and length, the
      strides give the checksum. */
  method Extend(crc: bv32, data: seq<bv8>, address: nat) returns (r: bv32)
    ensures r == Checksum(crc, data)
  {
    hide ShiftByte, Plus, Widen;
    ghost var l0 := Plus(crc, CRC32_XOR);
    var l := Plus(crc, CRC32_XOR);
    var p, e := 0, |data|;
    assert data[..0] == [];
    var x := (4 - address % 4) % 4;  // the first aligned byte
    if x <= e {
      while p != x
        invariant p <= x && l == Update(l0, data[..p])
      {
        UpdateByte(l0, data, p);
        l := Step1(l, data[p]);
        p := p + 1;
      }
    }
    if e - p >= 16 {
      l, p := Strides(l0, l, data, p);
    }
    while p != e
      invariant p <= e && l == Update(l0, data[..p])
    {
      UpdateByte(l0, data, p);
      l := Step1(l, data[p]);
      p := p + 1;
    }
    assert data[..e] == data;
    r := Plus(l, CRC32_XOR);
  }

  // ----- What the checksum promises -----

  lemma {:induction false} UpdateConcat(l: bv32, a: seq<bv8>, b: seq<bv8>)
    ensures Update(l, a + b) == Update(Update(l, a), b)
  {
    hide ShiftByte, Plus, Widen;
    if b == [] {
      assert a + b == a;
    } else {
      var n := |b| - 1;
      UpdateConcat(l, a, b[..n]);
      assert (a + b)[..|a + b| - 1] == a + b[..n];
    }
  }

  /** A checksum can be extended piece by piece. */
  lemma ExtendConcat(crc: bv32, a: seq<bv8>, b: seq<bv8>)
    ensures Checksum(Checksum(crc, a), b) == Checksum(crc, a + b)
  {
    hide Update, Plus;
    UpdateConcat(Plus(crc, CRC32_XOR), a, b);
    PlusTwice(Update(Plus(crc, CRC32_XOR), a), CRC32_XOR);
  }

  // ----- Published values -----

  /** The entries of kByteExtensionTable for single bits; the others are their sums. */
  lemma TableEntries()
    ensures ByteTable(0x01) == 0xf26b_8303 && ByteTable(0x02) == 0xe13b_70f7 && ByteTable(0x04) == 0xc79a_971f
    ensures ByteTable(0x08) == 0x8ad9_58cf && ByteTable(0x10) == 0x105e_c76f && ByteTable(0x20) == 0x20bd_8ede
    ensures ByteTable(0x40) == 0x417b_1dbc && ByteTable(0x80) == 0x82f6_3b78
  {
  }

  lemma {:induction false} UpdateZeros(l: bv32, n: nat)
    ensures Update(l, seq(n, _ => 0)) == Advance(n, l)
  {
    hide ShiftByte;
    if n > 0 {
      var zeros: seq<bv8> := seq(n, _ => 0);
      assert zeros[..n - 1] == seq(n - 1, _ => 0);
      UpdateZeros(l, n - 1);
      PlusZero(Advance(n - 1, l));
      AdvanceAdds(1, n - 1, l);
      AdvanceOne(Advance(n - 1, l));
    }
  }

  lemma AdvanceOne(x: bv32)
    ensures Advance(1, x) == ShiftByte(x)
  {
    hide ShiftByte;
  }

  lemma FourZeros(x: bv32, y: bv32, n: nat)
    requires ShiftByte(ShiftByte(ShiftByte(ShiftByte(x)))) == y
    ensures Advance(n + 4, x) == Advance(n, y)
  {
    hide ShiftByte;
    AdvanceFour(x);
    AdvanceAdds(n, 4, x);
  }

  lemma FirstSixteen()
    ensures Advance(32, 0xffff_ffff) == Advance(16, 0xbd8f_6515)
  {
    hide Advance;
    FourZeros(0xffff_ffff, 0xb798_b438, 28);
    FourZeros(0xb798_b438, 0x73d7_4d75, 24);
    FourZeros(0x73d7_4d75, 0xd49f_4aa2, 20);
    FourZeros(0xd49f_4aa2, 0xbd8f_6515, 16);
  }

  lemma LastSixteen()
    ensures Advance(16, 0xbd8f_6515) == 0x756e_c955
  {
    hide Advance;
    FourZeros(0xbd8f_6515, 0x433a_a9c1, 12);
    FourZeros(0x433a_a9c1, 0x7b04_1311, 8);
    FourZeros(0x7b04_1311, 0x0836_3896, 4);
    FourZeros(0x0836_3896, 0x756e_c955, 0);
    NoZeros(0x756e_c955);
  }

  /** The checksum of 32 zero bytes (section B.4 of RFC 3720). */
  lemma ThirtyTwoZeros()
    ensures Checksum(0, seq(32, _ => 0)) == 0x8a91_36aa
  {
    hide Advance, Update;
    UpdateZeros(0xffff_ffff, 32);
    FirstSixteen();
    LastSixteen();
  }

  lemma NoZeros(x: bv32)
    ensures Advance(0, x) == x
  {
  }

  lemma ShiftBitIsInjective(x: bv32, y: bv32)
    ensures ShiftBit(x) == ShiftBit(y) ==> x == y
  {
  }

  lemma ShiftByteIsInjective(x: bv32, y: bv32)
    ensures ShiftByte(x) == ShiftByte(y) ==> x == y
  {
    hide ShiftBit;
    var a1, b1 := ShiftBit(x), ShiftBit(y);
    var a2, b2 := ShiftBit(a1), ShiftBit(b1);
    var a3, b3 := ShiftBit(a2), ShiftBit(b2);
    var a4, b4 := ShiftBit(a3), ShiftBit(b3);
    var a5, b5 := ShiftBit(a4), ShiftBit(b4);
    var a6, b6 := ShiftBit(a5), ShiftBit(b5);
    ShiftBitIsInjective(ShiftBit(a6), ShiftBit(b6));
    ShiftBitIsInjective(a6, b6);
    ShiftBitIsInjective(a5, b5);
    ShiftBitIsInjective(a4, b4);
    ShiftBitIsInjective(a3, b3);
    ShiftBitIsInjective(a2, b2);
    ShiftBitIsInjective(a1, b1);
    ShiftBitIsInjective(x, y);
  }

  lemma PlusIsInjective(a: bv32, a': bv32, b: bv32)
    ensures Plus(a, b) == Plus(a', b) ==> a == a'
    ensures Plus(b, a) == Plus(b, a') ==> a == a'
  {
  }

  lemma WidenIsInjective(b: bv8, b': bv8)
    ensures Widen(b) == Widen(b') ==> b == b'
  {
  }

  lemma {:induction false} UpdateIsInjective(l: bv32, l': bv32, data: seq<bv8>)
    requires l != l'
    ensures Update(l, data) != Update(l', data)
  {
    hide ShiftByte, Plus, Widen;
    if data != [] {
      var n := |data| - 1;
      var b := Widen(data[n]);
      UpdateIsInjective(l, l', data[..n]);
      PlusIsInjective(Update(l, data[..n]), Update(l', data[..n]), b);
      ShiftByteIsInjective(Plus(Update(l, data[..n]), b), Plus(Update(l', data[..n]), b));
    }
  }

  /** A change of a single byte is always noticed. */
  lemma OneByteChangeIsSeen(crc: bv32, before: seq<bv8>, b: bv8, b': bv8, after: seq<bv8>)
    requires b != b'
    ensures Checksum(crc, before + [b] + after) != Checksum(crc, before + [b'] + after)
  {
    hide ShiftByte, Update, Plus, Widen;
    var l0 := Plus(crc, CRC32_XOR);
    var l := Update(l0, before);
    UpdateByte(l0, before + [b], |before|);
    UpdateByte(l0, before + [b'], |before|);
    assert (before + [b])[..|before|] == before && (before + [b'])[..|before|] == before;
    assert (before + [b])[..|before| + 1] == before + [b] && (before + [b'])[..|before| + 1] == before + [b'];
    WidenIsInjective(b, b');
    PlusIsInjective(Widen(b), Widen(b'), l);
    ShiftByteIsInjective(Plus(l, Widen(b)), Plus(l, Widen(b')));
    var m, m' := Update(l0, before + [b]), Update(l0, before + [b']);
    UpdateIsInjective(m, m', after);
    UpdateConcat(l0, before + [b], after);
    UpdateConcat(l0, before + [b'], after);
    PlusIsInjective(Update(m, after), Update(m', after), CRC32_XOR);
  }

  // ----- Masked checksums -----

  function RotateRight15(x: bv32): bv32 {
    (x >> 15) | (x << 17)
  }

  function RotateLeft15(x: bv32): bv32 {
    (x >> 17) | (x << 15)
  }

  /** Mask */
  function Mask(crc: bv32): bv32 {
    RotateRight15(crc) + MASK_DELTA
  }

  /** Unmask */
  function Unmask(masked: bv32): bv32 {
    RotateLeft15(masked - MASK_DELTA)
  }

  lemma AddSubtract(a: bv32, b: bv32)
    ensures a + b - b == a
  {
  }

  lemma RotateBack(crc: bv32)
    ensures RotateLeft15(RotateRight15(crc)) == crc
  {
  }

  lemma RotateForth(masked: bv32)
    ensures RotateRight15(RotateLeft15(masked)) == masked
  {
  }

  lemma SubtractAdd(a: bv32, b: bv32)
    ensures a - b + b == a
  {
  }

  lemma MaskUnmask(masked: bv32)
    ensures Mask(Unmask(masked)) == masked
  {
    hide RotateRight15, RotateLeft15;
    RotateForth(masked - MASK_DELTA);
    SubtractAdd(masked, MASK_DELTA);
  }

  /** A stored checksum is read back. */
  lemma UnmaskMask(crc: bv32)
    ensures Unmask(Mask(crc)) == crc
  {
    hide RotateRight15, RotateLeft15;
    AddSubtract(RotateRight15(crc), MASK_DELTA);
    RotateBack(crc);
  }
}

/** What numbers the 32-bit varint decoder of nanopb takes (pb_decode_varint32), and which. */
module PbVarints {
  import opened InternalKey
  import opened Coding
  import opened Pb
  import opened PbDecoding

  /** The low 32 bits, when `count` bytes gave `result` and the bytes that are left give `rest`. */
  function Low(result: nat, rest: nat, count: nat): nat {
    if count >= 5 then result else (result + Shifted(rest, Power(128, count))) % TWO32
  }

  function NextResult(result: nat, byte: Byte, count: nat): nat {
    Low(result, byte % 128, count)
  }

  lemma AddModulo(a: nat, b: nat)
    ensures (a % TWO32 + b) % TWO32 == (a + b) % TWO32
  {
  }

  lemma EightTimes(a: nat, b: nat)
    ensures (a + Shifted(b, 8 * TWO32)) % TWO32 == a % TWO32
  {
    assert Shifted(b, 8 * TWO32) == TWO32 * (8 * b);
    Multiples(a, 8 * b);
  }

  /** One more byte leaves the low bits of the whole as they are. */
  lemma LowStep(result: nat, byte: Byte, rest: nat, count: nat)
    requires byte >= 128
    ensures Low(NextResult(result, byte, count), rest, count + 1) == Low(result, byte - 128 + 128 * rest, count)
  {
    hide Shifted;
    if count < 5 {
      var unit := Power(128, count);
      MoreBytes(byte, unit, rest);
      AddModulo(result + Shifted(byte - 128, unit), Shifted(rest, unit * 128));
      if count == 4 {
        Powers();
        assert unit * 128 == 8 * TWO32;
        EightTimes(result + Shifted(byte - 128, unit), rest);
      }
    }
  }

  /** A number that is taken is the low 32 bits of the one that the 64-bit decoder finds, and
      ends at the same byte. */
  lemma Varint32IsLow(s: Bytes, p: nat, limit: nat)
    requires limit <= |s| && ReadVarint32(s, p, limit).Some? && GetVarint64(s, p, limit).Some?
    ensures var whole := GetVarint64(s, p, limit).value;
      ReadVarint32(s, p, limit) == Some(Parsed(whole.value % TWO32, whole.next))
  {
    hide Low, ReadVarint, ReadVarint32From;
    TakenIsLow(s, p, limit, 0, 0);
    LowOfAll(ReadVarint(s, p, limit, 10).value.value);
  }

  lemma LowOfAll(n: nat)
    ensures Low(0, n, 0) == n % TWO64 % TWO32
  {
    assert Shifted(n, Power(128, 0)) == n;
    var q := n / TWO64;
    assert n == n % TWO64 + TWO32 * (TWO32 * q);
    Multiples(n % TWO64, TWO32 * q);
  }

  lemma Multiples(a: nat, q: nat)
    ensures (a + TWO32 * q) % TWO32 == a % TWO32
  {
  }

  lemma {:induction false} TakenIsLow(s: Bytes, p: nat, limit: nat, count: nat, result: nat)
    requires limit <= |s| && result < TWO32 && count <= 10
    requires ReadVarint32From(s, p, limit, count, result).Some? && ReadVarint(s, p, limit, 10 - count).Some?
    ensures var n := ReadVarint(s, p, limit, 10 - count).value;
      ReadVarint32From(s, p, limit, count, result) == Some(Parsed(Low(result, n.value, count), n.next))
    decreases 10 - count
  {
    hide Shifted;
    if s[p] >= 128 {
      LowStep(result, s[p], ReadVarint(s, p + 1, limit, 9 - count).value.value, count);
      TakenIsLow(s, p + 1, limit, count + 1, NextResult(result, s[p], count));
    }
  }

  /** A varint of at most five bytes is taken just when it is below 2^32. */
  lemma ShortVarint32(s: Bytes, p: nat, limit: nat)
    requires limit <= |s| && ReadVarint(s, p, limit, 5).Some?
    ensures var n := ReadVarint(s, p, limit, 5);
      ReadVarint32(s, p, limit) == if n.value.value < TWO32 then n else None
  {
    hide Shifted;
    ShortFrom(s, p, limit, 0, 0);
    OneUnit(ReadVarint(s, p, limit, 5));
  }

  lemma {:induction false} ShortFrom(s: Bytes, p: nat, limit: nat, count: nat, result: nat)
    requires limit <= |s| && count <= 4 && result < Power(128, count) <= 0x1000_0000
    requires ReadVarint(s, p, limit, 5 - count).Some?
    ensures var n := ReadVarint(s, p, limit, 5 - count).value;
      var whole := result + Shifted(n.value, Power(128, count));
      ReadVarint32From(s, p, limit, count, result) == if whole < TWO32 then Some(Parsed(whole, n.next)) else None
    decreases 5 - count
  {
    hide Shifted, Power, ReadVarint32From;
    if s[p] >= 128 {
      ShortStep(s, p, limit, count, result);
      MoreBytes(s[p], Power(128, count), ReadVarint(s, p + 1, limit, 4 - count).value.value);
      ShortFrom(s, p + 1, limit, count + 1, result + Shifted(s[p] % 128, Power(128, count)));
    } else {
      ShortEnd(s, p, limit, count, result);
    }
  }

  lemma ShortEnd(s: Bytes, p: nat, limit: nat, count: nat, result: nat)
    requires p < limit <= |s| && s[p] < 128 && count <= 4 && result < Power(128, count) <= 0x1000_0000
    ensures var whole := result + Shifted(s[p], Power(128, count));
      ReadVarint32From(s, p, limit, count, result) == if whole < TWO32 then Some(Parsed(whole, p + 1)) else None
  {
    ByteFits(result, s[p], count);
    hide Shifted, Power;
  }

  lemma ShortStep(s: Bytes, p: nat, limit: nat, count: nat, result: nat)
    requires p < limit <= |s| && s[p] >= 128 && count < 4 && result < Power(128, count) <= 0x1000_0000
    ensures var next := result + Shifted(s[p] % 128, Power(128, count));
      && next < Power(128, count + 1) <= 0x1000_0000 && Power(128, count + 1) == Power(128, count) * 128
      && ReadVarint32From(s, p, limit, count, result) == ReadVarint32From(s, p + 1, limit, count + 1, next)
  {
    hide Shifted;
    ByteFits(result, s[p] % 128, count);
  }

  lemma ByteFits(result: nat, byte: nat, count: nat)
    requires count <= 4 && result < Power(128, count) && byte < 128
    ensures result + Shifted(byte, Power(128, count)) < Power(128, count + 1)
    ensures count < 4 ==> Power(128, count + 1) <= 0x1000_0000
    ensures count == 4 ==> (result + Shifted(byte, Power(128, count)) < TWO32 <==> byte < 16)
  {
    Powers();
    assert Power(128, 4) == 0x1000_0000;
    assert Power(128, 3) == 0x20_0000;
    assert Power(128, 2) == 0x4000;
    assert Power(128, 1) == 0x80;
    assert Power(128, 0) == 1;
  }

  /** The bytes from the sixth on are empty, or extend the sign of a negative number. */
  predicate Pads(s: Bytes, p: nat, n: Parsed)
    requires n.next <= |s|
  {
    forall i :: p + 5 <= i < n.next ==> s[i] % 128 == 0 || ExtendsSign(s[i], i - p, n.value % TWO32)
  }

  /** A varint of more than five bytes is taken just when what comes after the fifth pads it;
      what the fifth byte holds beyond bit 31 is not looked at. */
  lemma LongVarint32(s: Bytes, p: nat, limit: nat)
    requires limit <= |s| && ReadVarint(s, p, limit, 10).Some? && ReadVarint(s, p, limit, 10).value.next > p + 5
    ensures ReadVarint32(s, p, limit).Some? <==> Pads(s, p, ReadVarint(s, p, limit, 10).value)
  {
    hide Shifted;
    LongFrom(s, p, p, limit, 0);
    OneUnit(ReadVarint(s, p, limit, 10));
  }

  lemma {:induction false} LongFrom(s: Bytes, start: nat, p: nat, limit: nat, result: nat)
    requires limit <= |s| && result < TWO32 && start <= p <= start + 10
    requires var n := ReadVarint(s, p, limit, 10 - (p - start)); n.Some? && n.value.next > start + 5
    ensures var n := ReadVarint(s, p, limit, 10 - (p - start)).value;
      var low := Low(result, n.value, p - start);
      ReadVarint32From(s, p, limit, p - start, result).Some?
      <==> forall i :: p <= i < n.next && start + 5 <= i ==> s[i] % 128 == 0 || ExtendsSign(s[i], i - start, low)
    decreases start + 10 - p
  {
    hide Shifted, ExtendsSign;
    var count := p - start;
    if s[p] >= 128 {
      LowStep(result, s[p], ReadVarint(s, p + 1, limit, 9 - count).value.value, count);
      LongFrom(s, start, p + 1, limit, NextResult(result, s[p], count));
    }
  }

  /** A number that fits 32 bits: unsigned, or negative and extended to 64 bits. */
  predicate FitsIn32(n: nat) {
    n < TWO32 || TWO64 - Half(4) <= n < TWO64
  }

  /** What comes after the fourth byte is uniform: nothing beyond bit 31, or the sign of a
      negative number, in every byte up to the tenth. */
  predicate EvenlyPadded(s: Bytes, p: nat, n: Parsed)
    requires p + 5 < n.next <= |s|
  {
    || (s[p + 4] % 128 < 16 && forall i :: p + 5 <= i < n.next ==> s[i] % 128 == 0)
    || (s[p + 4] % 128 >= 120 && n.next == p + 10 && s[p + 9] == 1 && forall i :: p + 5 <= i < p + 9 ==> s[i] == 255)
  }

  /** A number in more than five bytes fits just when it is evenly padded. */
  lemma LongFits(s: Bytes, p: nat, limit: nat)
    requires limit <= |s| && ReadVarint(s, p, limit, 10).Some? && ReadVarint(s, p, limit, 10).value.next > p + 5
    ensures var n := ReadVarint(s, p, limit, 10).value; FitsIn32(n.value) <==> EvenlyPadded(s, p, n)
  {
    hide ReadVarint;
    AfterFive(s, p, limit);
    var n, m := ReadVarint(s, p, limit, 10).value, ReadVarint(s, p + 5, limit, 5).value;
    ZeroRest(s, p + 5, limit, 5);
    OnesRest(s, p, limit, 5);
    HighBits(n.value, s[p + 4] % 128, m.value);
  }

  lemma HighBits(n: nat, fifth: nat, m: nat)
    requires fifth < 128 && 0x1000_0000 * (fifth + 128 * m) <= n < 0x1000_0000 * (fifth + 128 * m + 1)
    ensures FitsIn32(n) <==> (m == 0 && fifth < 16) || (m == Ones(5) && fifth >= 120)
  {
    assert Ones(8) == 255 && Ones(7) == 0x7fff && Ones(6) == 0x3f_ffff && Ones(5) == 0x1fff_ffff;
  }

  lemma {:induction false} ZeroRest(s: Bytes, p: nat, limit: nat, budget: nat)
    requires limit <= |s| && ReadVarint(s, p, limit, budget).Some?
    ensures var n := ReadVarint(s, p, limit, budget).value;
      n.value == 0 <==> forall i :: p <= i < n.next ==> s[i] % 128 == 0
    decreases budget
  {
    if s[p] >= 128 {
      ZeroRest(s, p + 1, limit, budget - 1);
    }
  }

  lemma {:induction false} OnesRest(s: Bytes, p: nat, limit: nat, count: nat)
    requires limit <= |s| && count < 10 && ReadVarint(s, p + count, limit, 10 - count).Some?
    ensures var n := ReadVarint(s, p + count, limit, 10 - count).value;
      n.value == Ones(count) <==> n.next == p + 10 && s[p + 9] == 1 && forall i :: p + count <= i < p + 9 ==> s[i] == 255
    decreases 10 - count
  {
    Ends(s, p + count, limit, 10 - count);
    if s[p + count] >= 128 {
      OnesRest(s, p, limit, count + 1);
    }
  }

  lemma {:induction false} Ends(s: Bytes, p: nat, limit: nat, budget: nat)
    requires limit <= |s| && ReadVarint(s, p, limit, budget).Some?
    ensures ReadVarint(s, p, limit, budget).value.next <= p + budget
    decreases budget
  {
    if s[p] >= 128 {
      Ends(s, p + 1, limit, budget - 1);
    }
  }

  /** Every number that fits is taken. */
  lemma FittingIsTaken(s: Bytes, p: nat, limit: nat)
    requires limit <= |s| && ReadVarint(s, p, limit, 10).Some? && FitsIn32(ReadVarint(s, p, limit, 10).value.value)
    ensures ReadVarint32(s, p, limit).Some?
  {
    hide ReadVarint, ReadVarint32From;
    var n := ReadVarint(s, p, limit, 10).value;
    if n.next <= p + 5 {
      ShortIsShort(s, p, limit, 5, 10);
      ShortIsSmall(s, p, limit, 5);
      Powers();
      ShortVarint32(s, p, limit);
    } else {
      LongFits(s, p, limit);
      AfterFive(s, p, limit);
      LowOfFitting(n.value);
      EvenPads(s, p, n);
      LongVarint32(s, p, limit);
    }
  }

  lemma EvenPads(s: Bytes, p: nat, n: Parsed)
    requires p + 5 < n.next <= |s| && EvenlyPadded(s, p, n) && s[p + 4] % 128 * 0x1000_0000 <= n.value
    requires n.value < TWO32 || n.value % TWO32 >= Half(4)
    ensures Pads(s, p, n)
  {
    forall i | p + 5 <= i < n.next
      ensures s[i] % 128 == 0 || ExtendsSign(s[i], i - p, n.value % TWO32)
    {
    }
  }

  /** A number that is taken fits just when its varint has at most five bytes or is evenly padded. */
  lemma TakenFitsIff(s: Bytes, p: nat, limit: nat)
    requires limit <= |s| && ReadVarint(s, p, limit, 10).Some? && ReadVarint32(s, p, limit).Some?
    ensures var n := ReadVarint(s, p, limit, 10).value;
      FitsIn32(n.value) <==> n.next <= p + 5 || EvenlyPadded(s, p, n)
  {
    hide ReadVarint, ReadVarint32From;
    var n := ReadVarint(s, p, limit, 10).value;
    if n.next <= p + 5 {
      ShortIsShort(s, p, limit, 5, 10);
      ShortVarint32(s, p, limit);
    } else {
      LongFits(s, p, limit);
    }
  }

  /** A varint that ends within the smaller budget. */
  lemma {:induction false} ShortIsShort(s: Bytes, p: nat, limit: nat, budget: nat, more: nat)
    requires limit <= |s| && budget <= more && ReadVarint(s, p, limit, more).Some?
    requires ReadVarint(s, p, limit, more).value.next <= p + budget
    ensures ReadVarint(s, p, limit, budget) == ReadVarint(s, p, limit, more)
    decreases budget
  {
    if s[p] >= 128 {
      ShortIsShort(s, p + 1, limit, budget - 1, more - 1);
    }
  }

  lemma {:induction false} ShortIsSmall(s: Bytes, p: nat, limit: nat, budget: nat)
    requires limit <= |s| && ReadVarint(s, p, limit, budget).Some?
    ensures ReadVarint(s, p, limit, budget).value.value < Power(128, budget)
    decreases budget
  {
    if s[p] >= 128 {
      ShortIsSmall(s, p + 1, limit, budget - 1);
    } else {
      assert Power(128, budget) == 128 * Power(128, budget - 1);
    }
  }

  /** What the bytes from the fifth on add to the number. */
  lemma AfterFive(s: Bytes, p: nat, limit: nat)
    requires limit <= |s| && ReadVarint(s, p, limit, 10).Some? && ReadVarint(s, p, limit, 10).value.next > p + 5
    ensures ReadVarint(s, p + 5, limit, 5).Some?
    ensures var n, m := ReadVarint(s, p, limit, 10).value, ReadVarint(s, p + 5, limit, 5).value;
      && n.next == m.next > p + 5
      && 0x1000_0000 * (s[p + 4] % 128 + 128 * m.value) <= n.value < 0x1000_0000 * (s[p + 4] % 128 + 128 * m.value + 1)
  {
    var m := ReadVarint(s, p + 5, limit, 5).value;
    var n4 := ReadVarint(s, p + 4, limit, 6).value;
    var n3 := ReadVarint(s, p + 3, limit, 7).value;
    var n2 := ReadVarint(s, p + 2, limit, 8).value;
    var n1 := ReadVarint(s, p + 1, limit, 9).value;
    assert n4.value == s[p + 4] % 128 + 128 * m.value;
    assert 0 <= n3.value - 128 * n4.value < 128;
    assert 0 <= n2.value - 128 * n3.value < 128;
    assert 0 <= n1.value - 128 * n2.value < 128;
  }

  /** The bits from the byte `count` up to bit 63, all set. */
  function Ones(count: nat): nat
    decreases 9 - count
  {
    if count >= 9 then 1 else 127 + 128 * Ones(count + 1)
  }

  lemma LowOfFitting(n: nat)
    requires FitsIn32(n)
    ensures n < TWO32 || n % TWO32 >= Half(4)
  {
    if n >= TWO32 {
      assert n == n - (TWO64 - TWO32) + TWO32 * (TWO32 - 1);
      Multiples(n - (TWO64 - TWO32), TWO32 - 1);
    }
  }

  /** Not every number that is taken fits: what the fifth byte holds beyond bit 31 is not looked at. */
  lemma LostBits()
    ensures var s: Bytes := [255, 255, 255, 255, 255, 0];
      && GetVarint64(s, 0, 6) == Some(Parsed(0x7_ffff_ffff, 6)) && !FitsIn32(0x7_ffff_ffff)
      && ReadVarint32(s, 0, 6) == Some(Parsed(0xffff_ffff, 6))
  {
    var s: Bytes := [255, 255, 255, 255, 255, 0];
    assert ReadVarint(s, 5, 6, 5) == Some(Parsed(0, 6));
    assert ReadVarint(s, 4, 6, 6) == Some(Parsed(127, 6));
    assert ReadVarint(s, 3, 6, 7) == Some(Parsed(0x3fff, 6));
    assert ReadVarint(s, 2, 6, 8) == Some(Parsed(0x1f_ffff, 6));
    assert ReadVarint(s, 1, 6, 9) == Some(Parsed(0xfff_ffff, 6));
    assert ReadVarint(s, 0, 6, 10) == Some(Parsed(0x7_ffff_ffff, 6));
    LongVarint32(s, 0, 6);
    Varint32IsLow(s, 0, 6);
  }

  /** Nor need the padding be of one kind: here the fifth byte is within bit 31, the sixth
      extends the sign, and the seventh is empty. */
  lemma MixedPadding()
    ensures var s: Bytes := [255, 255, 255, 255, 143, 255, 0];
      && GetVarint64(s, 0, 7) == Some(Parsed(0x3f8_ffff_ffff, 7)) && !FitsIn32(0x3f8_ffff_ffff)
      && ReadVarint32(s, 0, 7) == Some(Parsed(0xffff_ffff, 7))
  {
    var s: Bytes := [255, 255, 255, 255, 143, 255, 0];
    assert ReadVarint(s, 6, 7, 4) == Some(Parsed(0, 7));
    assert ReadVarint(s, 5, 7, 5) == Some(Parsed(127, 7));
    assert ReadVarint(s, 4, 7, 6) == Some(Parsed(0x3f8f, 7));
    assert ReadVarint(s, 3, 7, 7) == Some(Parsed(0x1f_c7ff, 7));
    assert ReadVarint(s, 2, 7, 8) == Some(Parsed(0xfe3_ffff, 7));
    assert ReadVarint(s, 1, 7, 9) == Some(Parsed(0x7_f1ff_ffff, 7));
    assert ReadVarint(s, 0, 7, 10) == Some(Parsed(0x3f8_ffff_ffff, 7));
    LongVarint32(s, 0, 7);
    Varint32IsLow(s, 0, 7);
  }
}

/** The Bloom filter (util/bloom.cc): a key that was put in is never missed. */
module Bloom {
  import opened InternalKey

  const WORD: nat := 0x1_0000_0000

  // ----- Bits of a byte -----

  function Mask(k: nat): bv8
    requires k < 8
  {
    if k == 0 then 1 else if k == 1 then 2 else if k == 2 then 4 else if k == 3 then 8
    else if k == 4 then 16 else if k == 5 then 32 else if k == 6 then 64 else 128
  }

  /** Bit `k` counts from the least significant one. */
  lemma MaskIsShift(k: nat)
    requires k < 8
    ensures Mask(k) == 1 << k
  {
  }

  /** They have a bit in common. */
  predicate Meet(x: bv8, m: bv8) {
    x & m != 0
  }

  function Or(x: bv8, n: bv8): bv8 {
    x | n
  }

  function ToBits(b: Byte): bv8 {
    b as bv8
  }

  function OfBits(x: bv8): Byte {
    x as int
  }

  predicate HasBit(b: Byte, k: nat)
    requires k < 8
  {
    Meet(ToBits(b), Mask(k))
  }

  function SetBit(b: Byte, k: nat): Byte
    requires k < 8
  {
    OfBits(Or(ToBits(b), Mask(k)))
  }

  lemma BackAgain(x: bv8)
    ensures ToBits(OfBits(x)) == x
  {
  }

  lemma OrMeets(x: bv8, n: bv8, m: bv8)
    ensures Meet(Or(x, n), m) <==> Meet(x, m) || Meet(n, m)
  {
  }

  lemma MasksMeet(k: nat, j: nat)
    requires k < 8 && j < 8
    ensures Meet(Mask(k), Mask(j)) <==> j == k
  {
  }

  lemma NoneMeets(m: bv8)
    ensures ToBits(0) == 0 && !Meet(0, m)
  {
  }

  lemma SetBitSets(b: Byte, k: nat, j: nat)
    requires k < 8 && j < 8
    ensures HasBit(SetBit(b, k), j) <==> j == k || HasBit(b, j)
  {
    hide ToBits, OfBits, Mask, Meet, Or;
    BackAgain(Or(ToBits(b), Mask(k)));
    OrMeets(ToBits(b), Mask(k), Mask(j));
    MasksMeet(k, j);
  }

  // ----- A bit array -----

  predicate HasBitAt(bytes: Bytes, p: nat)
    requires p < 8 * |bytes|
  {
    HasBit(bytes[p / 8], p % 8)
  }

  function SetBitAt(bytes: Bytes, p: nat): (r: Bytes)
    requires p < 8 * |bytes|
    ensures |r| == |bytes|
  {
    bytes[p / 8 := SetBit(bytes[p / 8], p % 8)]
  }

  lemma SetBitAtSets(bytes: Bytes, p: nat, q: nat)
    requires p < 8 * |bytes| && q < 8 * |bytes|
    ensures HasBitAt(SetBitAt(bytes, p), q) <==> q == p || HasBitAt(bytes, q)
  {
    hide HasBit, SetBit;
    SetBitSets(bytes[p / 8], p % 8, q % 8);
  }

  // ----- Probes -----

  /** Rotate right 17 bits. */
  function Delta(h: nat): nat
    requires h < WORD
  {
    h / 0x2_0000 + h % 0x2_0000 * 0x8000
  }

  /** The low 17 bits become the high ones. */
  lemma DeltaRotates(h: nat)
    requires h < WORD
    ensures Delta(h) < WORD && Delta(h) / 32768 == h % 131072 && Delta(h) % 32768 == h / 131072
  {
  }

  /** The `j`-th hash value of double hashing. */
  function Probe(h: nat, delta: nat, j: nat): (r: nat)
    requires h < WORD
    ensures r < WORD
  {
    if j == 0 then h else (Probe(h, delta, j - 1) + delta) % WORD
  }

  /** Hash values are 32 bits wide: each probe is that much further, and wraps around. */
  lemma ProbeWraps(h: nat, j: nat)
    requires h < 4294967296
    ensures Probe(h, Delta(h), 0) == h
    ensures Probe(h, Delta(h), j + 1) == (Probe(h, Delta(h), j) + Delta(h)) % 4294967296
  {
    hide Delta;
  }

  /** The first `k` probes of `h` all hit. */
  ghost predicate Hits(bytes: Bytes, h: nat, k: nat)
    requires h < WORD && bytes != []
  {
    forall j :: 0 <= j < k ==> HasBitAt(bytes, Probe(h, Delta(h), j) % (8 * |bytes|))
  }

  /** Probe `j` of `h` is bit `q`. */
  predicate Probes(h: nat, j: nat, bits: nat, q: nat)
    requires h < WORD && bits > 0
  {
    Probe(h, Delta(h), j) % bits == q
  }

  /** One of the first `k` probes of `h` is bit `q`. */
  ghost predicate Probed(h: nat, k: nat, bits: nat, q: nat)
    requires h < WORD && bits > 0
  {
    exists j: nat :: j < k && Probes(h, j, bits, q)
  }

  /** BloomFilterPolicy, with the hash that it uses. */
  class BloomFilterPolicy {
    const bitsPerKey: nat
    const k: nat
    const hash: Bytes -> nat

    ghost predicate Inv() {
      1 <= k <= 30 && forall key :: hash(key) < WORD
    }

    constructor (bitsPerKey: nat, hash: Bytes -> nat)
      requires forall key :: hash(key) < WORD
      ensures Inv() && this.bitsPerKey == bitsPerKey && this.hash == hash
      ensures 2 <= bitsPerKey <= 43 ==> k as real <= bitsPerKey as real * 0.69 < k as real + 1.0
      ensures (bitsPerKey < 2 ==> k == 1) && (bitsPerKey > 43 ==> k == 30)
    {
      this.bitsPerKey, this.hash := bitsPerKey, hash;
      var rounded := (bitsPerKey as real * 0.69).Floor;
      k := if rounded < 1 then 1 else if rounded > 30 then 30 else rounded;
    }

    /** What KeyMayMatch answers. */
    ghost predicate MayMatch(key: Bytes, filter: Bytes)
      requires Inv()
    {
      |filter| >= 2 && (filter[|filter| - 1] > 30 || Hits(filter[..|filter| - 1], hash(key), filter[|filter| - 1]))
    }

    /** How long the bit array for `n` keys is, in bytes. */
    function ArraySize(n: nat): (r: nat)
      ensures 8 <= r && n * bitsPerKey <= 8 * r
      ensures 64 <= n * bitsPerKey ==> 8 * r < n * bitsPerKey + 8
      ensures n * bitsPerKey <= 64 ==> r == 8
    {
      var bits := n * bitsPerKey;
      ((if bits < 64 then 64 else bits) + 7) / 8
    }

    /** How long filters for `n` keys in all can be together. */
    function MostBytes(n: nat): nat {
      n * (bitsPerKey + 10)
    }

    lemma FilterIsSmall(n: nat)
      requires n > 0
      ensures ArraySize(n) + 1 <= MostBytes(n)
    {
      assert MostBytes(n) == n * bitsPerKey + 10 * n;
    }

    lemma MostAdds(m: nat, n: nat)
      ensures MostBytes(m + n) == MostBytes(m) + MostBytes(n)
    {
    }

    /** Bit `q` is a probe of one of the first `n` keys. */
    ghost predicate ProbedByOne(keys: seq<Bytes>, n: nat, bits: nat, q: nat)
      requires Inv() && n <= |keys| && bits > 0
    {
      exists a :: 0 <= a < n && Probed(hash(keys[a]), k, bits, q)
    }

    /** A bit array in which exactly the probes of the keys are set, and the number of probes. */
    ghost predicate IsFilterOf(keys: seq<Bytes>, filter: Bytes)
      requires Inv()
    {
      && |filter| == ArraySize(|keys|) + 1 && (filter[|filter| - 1] as int) == k
      && forall q :: 0 <= q < 8 * ArraySize(|keys|) ==>
           (HasBitAt(filter[..|filter| - 1], q) <==> ProbedByOne(keys, |keys|, 8 * ArraySize(|keys|), q))
    }

    /** The filter matches every one of its keys. */
    lemma FilterMatches(keys: seq<Bytes>, filter: Bytes)
      requires Inv() && IsFilterOf(keys, filter)
      ensures forall key :: key in keys ==> MayMatch(key, filter)
    {
      hide HasBitAt;
      forall key | key in keys
        ensures MayMatch(key, filter)
      {
        AllHit(keys, key, filter[..|filter| - 1]);
      }
    }

    /** A filter without bits matches nothing; one with more than 30 probes is of an encoding that is
        not known, and matches everything. */
    lemma OddFilters(key: Bytes, filter: Bytes)
      requires Inv()
      ensures |filter| < 2 ==> !MayMatch(key, filter)
      ensures |filter| >= 2 && filter[|filter| - 1] > 30 ==> MayMatch(key, filter)
    {
    }

    /** CreateFilter */
    method CreateFilter(keys: seq<Bytes>, dst: Bytes) returns (r: Bytes)
      requires Inv()
      ensures dst <= r && IsFilterOf(keys, r[|dst|..])
    {
      hide HasBitAt, Probed;
      var bits := |keys| * bitsPerKey;
      if bits < 64 {
        bits := 64;
      }
      var bytes := (bits + 7) / 8;
      bits := bytes * 8;
      var bitArray: Bytes := seq(bytes, _ => 0);
      NoBits(bitArray);
      for i := 0 to |keys|
        invariant |bitArray| == bytes == ArraySize(|keys|)
        invariant forall q :: 0 <= q < bits ==> (HasBitAt(bitArray, q) <==> ProbedByOne(keys, i, bits, q))
      {
        bitArray := AddKey(keys[i], bitArray, bits);
        OneMoreKey(keys, i, bits);
      }
      r := dst + (bitArray + [k]);
      ghost var filter := bitArray + [k];
      assert r[|dst|..] == filter && filter[..|filter| - 1] == bitArray == r[|dst|..|r| - 1];
    }

    lemma OneMoreKey(keys: seq<Bytes>, i: nat, bits: nat)
      requires Inv() && i < |keys| && bits > 0
      ensures forall q :: ProbedByOne(keys, i + 1, bits, q) <==> ProbedByOne(keys, i, bits, q) || Probed(hash(keys[i]), k, bits, q)
    {
      hide Probed;
    }

    lemma AllHit(keys: seq<Bytes>, key: Bytes, bytes: Bytes)
      requires Inv() && bytes != [] && key in keys
      requires forall q :: 0 <= q < 8 * |bytes| ==> (HasBitAt(bytes, q) <==> ProbedByOne(keys, |keys|, 8 * |bytes|, q))
      ensures Hits(bytes, hash(key), k)
    {
      hide HasBitAt;
      var a :| 0 <= a < |keys| && keys[a] == key;
      var h := hash(key);
      forall j | 0 <= j < k
        ensures HasBitAt(bytes, Probe(h, Delta(h), j) % (8 * |bytes|))
      {
        var q := Probe(h, Delta(h), j) % (8 * |bytes|);
        assert Probes(h, j, 8 * |bytes|, q);
        assert Probed(hash(keys[a]), k, 8 * |bytes|, q);
      }
    }

    /** The probes of one key are set, and no other bits. */
    method AddKey(key: Bytes, bytes: Bytes, bits: nat) returns (r: Bytes)
      requires Inv() && bytes != [] && bits == 8 * |bytes|
      ensures |r| == |bytes|
      ensures forall q :: 0 <= q < bits ==> (HasBitAt(r, q) <==> HasBitAt(bytes, q) || Probed(hash(key), k, bits, q))
    {
      hide Delta, HasBitAt, SetBitAt, Probed;
      r := bytes;
      var h := hash(key);
      var delta := Delta(h);
      NoProbes(h, bits);
      for j := 0 to k
        invariant |r| == |bytes| && h == Probe(hash(key), delta, j)
        invariant forall q :: 0 <= q < bits ==> (HasBitAt(r, q) <==> HasBitAt(bytes, q) || Probed(hash(key), j, bits, q))
      {
        var bitpos := h % bits;
        forall q | 0 <= q < bits
          ensures HasBitAt(SetBitAt(r, bitpos), q) <==> q == bitpos || HasBitAt(r, q)
        {
          SetBitAtSets(r, bitpos, q);
        }
        OneMoreProbe(hash(key), j, bits);
        r := SetBitAt(r, bitpos);
        h := (h + delta) % WORD;
      }
    }

    /** KeyMayMatch */
    method KeyMayMatch(key: Bytes, filter: Bytes) returns (r: bool)
      requires Inv()
      ensures r == MayMatch(key, filter)
    {
      hide Delta, HasBitAt;
      if |filter| < 2 {
        return false;
      }
      var bytes := filter[..|filter| - 1];
      var bits := |bytes| * 8;
      var probes: nat := filter[|filter| - 1];
      if probes > 30 {
        return true;
      }
      var h := hash(key);
      var delta := Delta(h);
      for j := 0 to probes
        invariant h == Probe(hash(key), delta, j)
        invariant Hits(bytes, hash(key), j)
      {
        if !HasBitAt(bytes, h % bits) {
          return false;
        }
        h := (h + delta) % WORD;
      }
      return true;
    }
  }

  lemma NoBits(bytes: Bytes)
    requires forall i :: 0 <= i < |bytes| ==> bytes[i] == 0
    ensures forall q :: 0 <= q < 8 * |bytes| ==> !HasBitAt(bytes, q)
  {
    forall q | 0 <= q < 8 * |bytes|
      ensures !HasBitAt(bytes, q)
    {
      NoBit(q % 8);
    }
  }

  lemma NoBit(k: nat)
    requires k < 8
    ensures !HasBit(0, k)
  {
    hide ToBits, Mask, Meet;
    NoneMeets(Mask(k));
    assert HasBit(0, k) == Meet(ToBits(0), Mask(k));
  }

  lemma NoProbes(h: nat, bits: nat)
    requires h < WORD && bits > 0
    ensures forall q :: !Probed(h, 0, bits, q)
  {
  }

  lemma OneMoreProbe(h: nat, j: nat, bits: nat)
    requires h < WORD && bits > 0
    ensures forall q :: Probed(h, j + 1, bits, q) <==> Probed(h, j, bits, q) || q == Probe(h, Delta(h), j) % bits
  {
    hide Probes;
    forall q
      ensures Probed(h, j + 1, bits, q) <==> Probed(h, j, bits, q) || q == Probe(h, Delta(h), j) % bits
    {
      ProbesIs(h, j, bits, q);
      if Probed(h, j, bits, q) {
        var i: nat :| i < j && Probes(h, i, bits, q);
        assert Probed(h, j + 1, bits, q);
      }
      if Probed(h, j + 1, bits, q) {
        var i: nat :| i < j + 1 && Probes(h, i, bits, q);
        assert i == j || Probed(h, j, bits, q);
      }
    }
  }

  lemma ProbesIs(h: nat, j: nat, bits: nat, q: nat)
    requires h < WORD && bits > 0
    ensures Probes(h, j, bits, q) <==> q == Probe(h, Delta(h), j) % bits
  {
    hide Delta, Probe;
  }
}

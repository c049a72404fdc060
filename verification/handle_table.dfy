/** The entries of the cache and the hash table over them (util/cache.cc): buckets of chained
    entries, and a table that grows. */
module HandleTables {
  import opened InternalKey
  import opened Arithmetic

  /** LRUHandle; `value` stands for the cached object. */
  class LRUHandle {
    const key: Bytes
    const hash: nat
    const value: nat
    const charge: nat
    var nextHash: LRUHandle?
    var next: LRUHandle?
    var prev: LRUHandle?
    var inCache: bool
    var refs: nat

    constructor (key: Bytes, hash: nat, value: nat, charge: nat)
      ensures this.key == key && this.hash == hash && this.value == value && this.charge == charge
      ensures !inCache && refs == 1 && nextHash == null && next == null && prev == null
    {
      this.key, this.hash, this.value, this.charge := key, hash, value, charge;
      nextHash, next, prev, inCache, refs := null, null, null, false, 1;
    }
  }

  predicate Matches(h: LRUHandle, key: Bytes, hash: nat) {
    h.hash == hash && h.key == key
  }

  predicate SameId(g: LRUHandle, h: LRUHandle) {
    Matches(g, h.key, h.hash)
  }

  // ----- One bucket -----

  ghost function HandleOrNull(nodes: seq<LRUHandle>, j: nat): LRUHandle?
    requires j <= |nodes|
  {
    if j < |nodes| then nodes[j] else null
  }

  /** The chain from `head` on is `nodes`. */
  ghost predicate Chain(nodes: seq<LRUHandle>, head: LRUHandle?)
    reads nodes`nextHash
  {
    && head == HandleOrNull(nodes, 0)
    && forall j {:trigger nodes[j].nextHash} :: 0 <= j < |nodes| ==> nodes[j].nextHash == HandleOrNull(nodes, j + 1)
  }

  ghost predicate Apart(nodes: seq<LRUHandle>) {
    forall i, j :: 0 <= i < j < |nodes| ==> !SameId(nodes[i], nodes[j])
  }

  /** The bucket of a hash value. */
  function Bucket(hash: nat, length: nat): nat {
    if length == 0 then 0 else hash % length
  }

  predicate IsPowerOfTwo(n: nat) {
    n == 1 || (n > 1 && n % 2 == 0 && IsPowerOfTwo(n / 2))
  }

  /** The bits of `hash` that the mask `length - 1` keeps, from the lowest on. */
  function Masked(hash: nat, length: nat): nat
    requires IsPowerOfTwo(length)
  {
    if length == 1 then 0 else hash % 2 + 2 * Masked(hash / 2, length / 2)
  }

  lemma {:induction false} MaskIsRemainder(hash: nat, length: nat)
    requires IsPowerOfTwo(length)
    ensures Masked(hash, length) == hash % length
  {
    if length > 1 {
      MaskIsRemainder(hash / 2, length / 2);
      OneMoreBit(hash, hash / 2, length / 2);
    }
  }

  lemma OneMoreBit(hash: nat, half: nat, m: nat)
    requires m > 0 && half == hash / 2
    ensures hash % (2 * m) == hash % 2 + 2 * (half % m)
  {
    var q, r := half / m, half % m;
    assert half == q * m + r;
    Doubled(q, m);
    Remainder(hash, 2 * m, q, hash % 2 + 2 * r);
  }

  lemma Doubled(q: nat, m: nat)
    ensures q * (2 * m) == 2 * (q * m)
  {
  }

  /** The handles of a chain belong in bucket `b` and are known. */
  ghost predicate Belong(nodes: seq<LRUHandle>, elements: set<LRUHandle>, b: nat, length: nat) {
    Apart(nodes) && forall h :: h in nodes ==> h in elements && Bucket(h.hash, length) == b
  }

  /** The chains have exactly the elements. */
  ghost predicate Holds(chains: seq<seq<LRUHandle>>, elements: set<LRUHandle>) {
    && (forall b :: 0 <= b < |chains| ==> Belong(chains[b], elements, b, |chains|))
    && forall h :: h in elements ==> Bucket(h.hash, |chains|) < |chains| && h in chains[Bucket(h.hash, |chains|)]
  }

  /** No two elements have the same key and hash. */
  lemma ElementsApart(chains: seq<seq<LRUHandle>>, elements: set<LRUHandle>, g: LRUHandle, h: LRUHandle)
    requires Holds(chains, elements) && g in elements && h in elements && SameId(g, h)
    ensures g == h
  {
    var b := Bucket(g.hash, |chains|);
    assert Belong(chains[b], elements, b, |chains|);
    var i :| 0 <= i < |chains[b]| && chains[b][i] == g;
    var j :| 0 <= j < |chains[b]| && chains[b][j] == h;
    assert SameId(chains[b][j], chains[b][i]);
  }

  // ----- Chains as they change -----

  /** One entry of bucket `b` put in place of another, or at the end. */
  ghost function Put(nodes: seq<LRUHandle>, k: nat, h: LRUHandle): seq<LRUHandle>
    requires k <= |nodes|
  {
    nodes[..k] + ([h] + Rest(nodes, k))
  }

  /** What follows entry `k`. */
  ghost function Rest(nodes: seq<LRUHandle>, k: nat): seq<LRUHandle>
    requires k <= |nodes|
  {
    if k < |nodes| then nodes[k + 1..] else []
  }

  /** One chain changes, and the elements of its bucket with it. */
  lemma HoldsUpdate(chains: seq<seq<LRUHandle>>, elements: set<LRUHandle>, b: nat, r: seq<LRUHandle>, more: set<LRUHandle>)
    requires Holds(chains, elements) && b < |chains| && Apart(r)
    requires forall g :: g in r <==> g in more && Bucket(g.hash, |chains|) == b
    requires forall g: LRUHandle :: Bucket(g.hash, |chains|) != b ==> (g in more <==> g in elements)
    ensures Holds(chains[b := r], more)
  {
    hide Bucket, Apart;
    var chains' := chains[b := r];
    forall a | 0 <= a < |chains'|
      ensures Belong(chains'[a], more, a, |chains'|)
    {
      assert Belong(chains[a], elements, a, |chains|);
    }
  }

  /** A new entry takes the place of the one with its key, or is added. */
  lemma HoldsPut(chains: seq<seq<LRUHandle>>, elements: set<LRUHandle>, b: nat, k: nat, h: LRUHandle)
    requires Holds(chains, elements) && b < |chains| && b == Bucket(h.hash, |chains|) && h !in elements
    requires k <= |chains[b]| && if k < |chains[b]| then SameId(chains[b][k], h) else forall g :: g in elements ==> !SameId(g, h)
    ensures Holds(chains[b := Put(chains[b], k, h)],
                  (if k < |chains[b]| then elements - {chains[b][k]} else elements) + {h})
  {
    hide SameId, Bucket, Apart, Put;
    var nodes, r := chains[b], Put(chains[b], k, h);
    var more := (if k < |nodes| then elements - {nodes[k]} else elements) + {h};
    assert Belong(nodes, elements, b, |chains|);
    PutIsApart(nodes, k, h);
    forall g
      ensures g in r <==> g == h || (g in nodes && (k < |nodes| ==> g != nodes[k]))
    {
      PutHas(nodes, k, h, g);
    }
    BucketHas(chains, elements, b);
    HoldsUpdate(chains, elements, b, r, more);
  }

  lemma BucketHas(chains: seq<seq<LRUHandle>>, elements: set<LRUHandle>, b: nat)
    requires Holds(chains, elements) && b < |chains|
    ensures forall g :: g in chains[b] <==> g in elements && Bucket(g.hash, |chains|) == b
  {
    hide Bucket, Apart;
    assert Belong(chains[b], elements, b, |chains|);
  }

  lemma PutAt(nodes: seq<LRUHandle>, k: nat, h: LRUHandle, i: nat)
    requires k <= |nodes| && i < |Put(nodes, k, h)|
    ensures |Put(nodes, k, h)| == if k < |nodes| then |nodes| else k + 1
    ensures Put(nodes, k, h)[i] == if i == k then h else nodes[i]
  {
  }

  /** An entry with the key of `e` is apart from what `e` was apart from. */
  lemma SameAs(g: LRUHandle, g': LRUHandle, e: LRUHandle, h: LRUHandle, first: bool, second: bool)
    requires !SameId(g, g') && SameId(e, h) && (first ==> g == e) && (second ==> g' == e) && !(first && second)
    ensures !SameId(if first then h else g, if second then h else g')
  {
  }

  lemma PutIsApart(nodes: seq<LRUHandle>, k: nat, h: LRUHandle)
    requires Apart(nodes) && k <= |nodes|
    requires if k < |nodes| then SameId(nodes[k], h) else forall g :: g in nodes ==> !SameId(g, h)
    ensures Apart(Put(nodes, k, h))
  {
    var r := Put(nodes, k, h);
    forall i, j | 0 <= i < j < |r|
      ensures !SameId(r[i], r[j])
    {
      PutAt(nodes, k, h, i);
      PutAt(nodes, k, h, j);
      if j == |nodes| {
        assert nodes[i] in nodes;
      } else if k < |nodes| {
        SameAs(nodes[i], nodes[j], nodes[k], h, i == k, j == k);
      }
    }
  }

  lemma PutHas(nodes: seq<LRUHandle>, k: nat, h: LRUHandle, g: LRUHandle)
    requires Apart(nodes) && k <= |nodes|
    ensures g in Put(nodes, k, h) <==> g == h || (g in nodes && (k < |nodes| ==> g != nodes[k]))
  {
    var r := Put(nodes, k, h);
    assert r[k] == h;
    if g in nodes && (k < |nodes| ==> g != nodes[k]) {
      var i :| 0 <= i < |nodes| && nodes[i] == g;
      assert r[i] == g;
    }
    if g in r && g != h {
      var i :| 0 <= i < |r| && r[i] == g;
      assert g == nodes[i] && (k < |nodes| ==> if i < k then !SameId(nodes[i], nodes[k]) else !SameId(nodes[k], nodes[i]));
    }
  }

  /** Entry `k` of bucket `b` taken out. */
  lemma HoldsRemoved(chains: seq<seq<LRUHandle>>, elements: set<LRUHandle>, b: nat, k: nat)
    requires Holds(chains, elements) && b < |chains| && k < |chains[b]|
    ensures Holds(chains[b := chains[b][..k] + chains[b][k + 1..]], elements - {chains[b][k]})
  {
    hide Bucket;
    var nodes := chains[b];
    var r, e := nodes[..k] + nodes[k + 1..], nodes[k];
    assert Belong(nodes, elements, b, |chains|);
    RemovedIsApart(nodes, k);
    forall g
      ensures g in r <==> g in nodes && g != e
    {
      RemovedHas(nodes, k, g);
    }
    BucketHas(chains, elements, b);
    HoldsUpdate(chains, elements, b, r, elements - {e});
  }

  lemma RemovedIsApart(nodes: seq<LRUHandle>, k: nat)
    requires Apart(nodes) && k < |nodes|
    ensures Apart(nodes[..k] + nodes[k + 1..])
  {
    hide SameId;
    var r := nodes[..k] + nodes[k + 1..];
    forall i, j | 0 <= i < j < |r|
      ensures !SameId(r[i], r[j])
    {
      assert r[i] == nodes[if i < k then i else i + 1] && r[j] == nodes[if j < k then j else j + 1];
    }
  }

  lemma RemovedHas(nodes: seq<LRUHandle>, k: nat, g: LRUHandle)
    requires Apart(nodes) && k < |nodes|
    ensures g in nodes[..k] + nodes[k + 1..] <==> g in nodes && g != nodes[k]
  {
    var r := nodes[..k] + nodes[k + 1..];
    if g in r {
      var i :| 0 <= i < |r| && r[i] == g;
      var j := if i < k then i else i + 1;
      assert nodes[j] == g && if j < k then !SameId(nodes[j], nodes[k]) else !SameId(nodes[k], nodes[j]);
    }
    if g in nodes && g != nodes[k] {
      var j :| 0 <= j < |nodes| && nodes[j] == g;
      assert r[if j < k then j else j - 1] == g;
    }
  }

  lemma PutParts(nodes: seq<LRUHandle>, k: nat, h: LRUHandle)
    requires k <= |nodes| && h !in nodes && (k > 0 ==> nodes[k - 1] !in nodes[k..])
    ensures Put(nodes, k, h) == nodes[..k] + ([h] + Rest(nodes, k))
    ensures h !in Rest(nodes, k) && (k > 0 ==> nodes[k - 1] !in Rest(nodes, k))
  {
    assert k < |nodes| ==> nodes[k..] == [nodes[k]] + Rest(nodes, k);
  }

  lemma LinkedBehind(h: LRUHandle, rest: seq<LRUHandle>)
    requires h !in rest && Chain(rest, h.nextHash)
    ensures Chain([h] + rest, h)
  {
    var r := [h] + rest;
    forall j {:trigger r[j].nextHash} | 0 <= j < |r|
      ensures r[j].nextHash == HandleOrNull(r, j + 1)
    {
      assert j > 0 ==> r[j] == rest[j - 1];
    }
  }

  /** An entry is in one chain only, and there once. */
  lemma OnlyOnce(chains: seq<seq<LRUHandle>>, elements: set<LRUHandle>, b: nat, i: nat)
    requires Holds(chains, elements) && b < |chains| && i < |chains[b]|
    ensures var g := chains[b][i];
      && g in elements && g !in chains[b][..i] && g !in chains[b][i + 1..]
      && forall a :: 0 <= a < |chains| && a != b ==> g !in chains[a]
  {
    var nodes, g := chains[b], chains[b][i];
    assert Belong(nodes, elements, b, |chains|) && g in nodes;
    forall j | 0 <= j < |nodes| && j != i
      ensures nodes[j] != g
    {
      assert if j < i then !SameId(nodes[j], nodes[i]) else !SameId(nodes[i], nodes[j]);
    }
    forall a | 0 <= a < |chains| && a != b
      ensures g !in chains[a]
    {
      assert Belong(chains[a], elements, a, |chains|);
    }
  }

  /** An entry that is not an element is in no chain. */
  lemma InNoChain(chains: seq<seq<LRUHandle>>, elements: set<LRUHandle>, h: LRUHandle)
    requires Holds(chains, elements) && h !in elements
    ensures forall a :: 0 <= a < |chains| ==> h !in chains[a]
  {
    forall a | 0 <= a < |chains|
      ensures h !in chains[a]
    {
      assert Belong(chains[a], elements, a, |chains|);
    }
  }

  // ----- The table -----

  /** The least power of two from 4 on that is not below `n`. */
  predicate JustEnough(length: nat, n: nat) {
    IsPowerOfTwo(length) && n <= length && 4 <= length && (length == 4 || length / 2 < n)
  }

  class HandleTable {
    var length: nat
    var elems: nat
    var list: array<LRUHandle?>
    ghost var chains: seq<seq<LRUHandle>>
    ghost var elements: set<LRUHandle>

    /** The chains are right, and no longer than one entry on average. */
    ghost predicate Inv()
      reads `length, `elems, `list, `chains, `elements, list, elements`nextHash
    {
      Whole() && |elements| <= length
    }

    ghost predicate Whole()
      reads `length, `elems, `list, `chains, `elements, list, elements`nextHash
    {
      IsPowerOfTwo(length) && Good()
    }

    /** All but the length of a table that was not made yet. */
    ghost predicate Good()
      reads `length, `elems, `list, `chains, `elements, list, elements`nextHash
    {
      && list.Length == length == |chains| && elems == |elements| && Holds(chains, elements)
      && forall b :: 0 <= b < length ==> Belong(chains[b], elements, b, length) && Chain(chains[b], list[b])
    }

    constructor ()
      ensures Inv() && elements == {} && fresh(list)
    {
      length, elems, chains, elements := 0, 0, [], {};
      list := new LRUHandle?[0];
      new;
      Resize();
    }

    /** FindPointer: the slot in bucket `b` that is after `prev`, or the first; it has the matching
        entry, or ends the chain. */
    method FindPointer(key: Bytes, hash: nat) returns (b: nat, prev: LRUHandle?, e: LRUHandle?, ghost k: nat)
      requires Inv()
      ensures b == Bucket(hash, length) < |chains| && k <= |chains[b]| && e == HandleOrNull(chains[b], k)
      ensures if k == 0 then prev == null else prev == chains[b][k - 1]
      ensures e != null ==> Matches(e, key, hash)
      ensures e == null ==> forall h :: h in elements ==> !Matches(h, key, hash)
    {
      hide Matches;
      b := Masked(hash, length);  // hash & (length - 1)
      MaskIsRemainder(hash, length);
      assert Belong(chains[b], elements, b, length) && Chain(chains[b], list[b]);
      prev, e, k := null, list[b], 0;
      while e != null && !Matches(e, key, hash)
        invariant k <= |chains[b]| && e == HandleOrNull(chains[b], k)
        invariant if k == 0 then prev == null else prev == chains[b][k - 1]
        invariant forall j :: 0 <= j < k ==> !Matches(chains[b][j], key, hash)
        decreases |chains[b]| - k
      {
        prev, e, k := e, e.nextHash, k + 1;
      }
      if e == null {
        NoneMatches(key, hash);
      }
    }

    lemma ChainsAreLinked(b: nat, k: nat)
      requires Good() && b < |chains| && k <= |chains[b]|
      ensures list.Length == |chains| && forall a :: 0 <= a < |chains| ==> Chain(chains[a], list[a])
      ensures Before(chains[b], k, list[b]) && Chain(Rest(chains[b], k), if k < |chains[b]| then chains[b][k].nextHash else null)
    {
    }

    lemma NoneMatches(key: Bytes, hash: nat)
      requires Inv() && forall h :: h in chains[Bucket(hash, length)] ==> !Matches(h, key, hash)
      ensures forall h :: h in elements ==> !Matches(h, key, hash)
    {
    }

    method Lookup(key: Bytes, hash: nat) returns (e: LRUHandle?)
      requires Inv()
      ensures if e == null then forall h :: h in elements ==> !Matches(h, key, hash)
              else e in elements && Matches(e, key, hash)
    {
      var b, prev;
      ghost var k;
      b, prev, e, k := FindPointer(key, hash);
      if e != null {
        assert Belong(chains[b], elements, b, length);
      }
    }

    /** Insert, up to the question whether the table must grow: puts `h` in the place of the entry
        with its key, if there is one. */
    method Place(h: LRUHandle) returns (e: LRUHandle?)
      requires Inv() && h !in elements
      modifies `chains, `elements, `elems, list, elements`nextHash, h`nextHash
      ensures Whole() && PlacedIs(old(elements), elements, e, h) && elems == old(elems) + if e == null then 1 else 0
    {
      var b, prev;
      ghost var k;
      b, prev, e, k := FindPointer(h.key, h.hash);
      HoldsPut(chains, elements, b, k, h);
      PutSlot(b, prev, e, h, k);
    }

    method PutSlot(b: nat, prev: LRUHandle?, e: LRUHandle?, h: LRUHandle, ghost k: nat)
      requires Inv() && h !in elements && b < |chains| && k <= |chains[b]| && e == HandleOrNull(chains[b], k)
      requires if k == 0 then prev == null else prev == chains[b][k - 1]
      requires Holds(chains[b := Put(chains[b], k, h)], (if e != null then elements - {e} else elements) + {h})
      modifies `chains, `elements, `elems, list, elements`nextHash, h`nextHash
      ensures Whole() && elements == (if e != null then old(elements) - {e} else old(elements)) + {h}
      ensures elems == old(elems) + if e == null then 1 else 0
    {
      hide Holds, Belong, IsPowerOfTwo, Chain, Before, Rest, Put;
      ghost var nodes := chains[b];
      ghost var rest := [h] + Rest(nodes, k);
      ChainsAreLinked(b, k);
      InNoChain(chains, elements, h);
      if k > 0 {
        OnlyOnce(chains, elements, b, k - 1);
      }
      if k < |nodes| {
        OnlyOnce(chains, elements, b, k);
      }
      PutParts(nodes, k, h);
      SetNextHash(h, if e == null then null else e.nextHash, Rest(nodes, k));
      SetSlot(b, prev, h, k, rest);
      Count(e, h);
    }

    method Count(e: LRUHandle?, h: LRUHandle)
      requires list.Length == length == |chains| && IsPowerOfTwo(length) && elems == |elements| && h !in elements
      requires e != null ==> e in elements
      requires Holds(chains, (if e != null then elements - {e} else elements) + {h})
      requires forall b :: 0 <= b < |chains| ==> Chain(chains[b], list[b])
      modifies `elements, `elems
      ensures Whole() && elements == (if e != null then old(elements) - {e} else old(elements)) + {h}
      ensures elems == old(elems) + if e == null then 1 else 0
    {
      hide IsPowerOfTwo, Chain;
      elements := (if e != null then elements - {e} else elements) + {h};
      elems := if e == null then elems + 1 else elems;
      AllParts();
    }

    /** The entry comes before the chain `rest`; the chains of the table are not touched. */
    method SetNextHash(h: LRUHandle, x: LRUHandle?, ghost rest: seq<LRUHandle>)
      requires Chain(rest, x) && h !in rest && list.Length == |chains|
      requires forall a :: 0 <= a < |chains| ==> h !in chains[a] && Chain(chains[a], list[a])
      modifies h`nextHash
      ensures Chain([h] + rest, h) && forall a :: 0 <= a < |chains| ==> Chain(chains[a], list[a])
    {
      h.nextHash := x;
      LinkedBehind(h, rest);
    }

    lemma AllParts()
      requires list.Length == length == |chains| && IsPowerOfTwo(length) && elems == |elements| && Holds(chains, elements)
      requires forall b :: 0 <= b < |chains| ==> Chain(chains[b], list[b])
      ensures Whole()
    {
    }

    /** Insert: returns the entry that had the key of `h` before. */
    method Insert(h: LRUHandle) returns (e: LRUHandle?)
      requires Inv() && h !in elements
      modifies this, list, elements`nextHash, h`nextHash
      ensures Inv() && PlacedIs(old(elements), elements, e, h) && (list == old(list) || fresh(list))
      ensures if e == null && |elements| > old(length) then JustEnough(length, |elements|) else length == old(length)
    {
      e := Place(h);
      if e == null {
        if elems > length {
          Resize();
        }
      }
    }

    method Remove(key: Bytes, hash: nat) returns (e: LRUHandle?)
      requires Inv()
      modifies `chains, `elements, `elems, list, elements`nextHash
      ensures Inv()
      ensures if e == null then elements == old(elements) && forall h :: h in elements ==> !Matches(h, key, hash)
              else e in old(elements) && Matches(e, key, hash) && elements == old(elements) - {e}
    {
      var b, prev;
      ghost var k;
      b, prev, e, k := FindPointer(key, hash);
      if e != null {
        OnlyOnce(chains, elements, b, k);
        HoldsRemoved(chains, elements, b, k);
        ClearSlot(b, prev, e, k);
      }
    }

    method ClearSlot(b: nat, prev: LRUHandle?, e: LRUHandle, ghost k: nat)
      requires Inv() && b < |chains| && k < |chains[b]| && e == chains[b][k] && e in elements
      requires if k == 0 then prev == null else prev == chains[b][k - 1]
      requires Holds(chains[b := chains[b][..k] + chains[b][k + 1..]], elements - {e})
      modifies `chains, `elements, `elems, list, elements`nextHash
      ensures Inv() && elements == old(elements) - {e}
    {
      hide Holds, Belong, IsPowerOfTwo, Chain, Before;
      ghost var nodes := chains[b];
      ChainsAreLinked(b, k);
      if k > 0 {
        OnlyOnce(chains, elements, b, k - 1);
        assert nodes[k - 1] !in nodes[k + 1..] by { LaterPart(nodes, k); }
      }
      SetSlot(b, prev, e.nextHash, k, nodes[k + 1..]);
      elements := elements - {e};
      elems := elems - 1;
      AllParts();
    }

    /** Resize: every entry is pushed on its bucket of a table that is large enough. */
    method Resize()
      requires Good()
      modifies `list, `length, `chains, elements`nextHash
      ensures Inv() && fresh(list) && JustEnough(length, |elements|)
    {
      hide Holds, Belong, Bucket;
      var newLength := 4;
      while newLength < elems
        invariant newLength >= 4 && IsPowerOfTwo(newLength) && (newLength == 4 || newLength / 2 < elems)
      {
        newLength := newLength * 2;
      }
      var newList := new LRUHandle?[newLength](_ => null);
      ghost var newChains: seq<seq<LRUHandle>>, moved: set<LRUHandle> := seq(newLength, _ => []), {};
      var count := 0;
      NothingMoved(newList, newChains);
      AllOld();
      for i := 0 to length
        modifies newList, elements`nextHash
        invariant Old(list, chains, elements, i) && New(newList, newChains, moved) && |newChains| == newLength
        invariant forall g :: g in moved <==> g in elements && Bucket(g.hash, |chains|) < i
        invariant |moved| == count
      {
        var n;
        n, newChains, moved := MoveBucket(list[i], list, newList, i, chains, elements, newChains, moved);
        count := count + n;
      }
      AllMoved(chains, elements, moved);
      assert elems == count;
      AllLinked(newList, newChains, moved);
      list, length, chains := newList, newLength, newChains;
      AllParts();
    }

    lemma AllOld()
      requires Good()
      ensures Old(list, chains, elements, 0)
    {
    }

    /** Stores `x` in the slot after `prev`, behind which comes the chain `rest`. */
    method SetSlot(b: nat, prev: LRUHandle?, x: LRUHandle?, ghost k: nat, ghost rest: seq<LRUHandle>)
      requires list.Length == |chains| && b < |chains| && k <= |chains[b]|
      requires if k == 0 then prev == null else prev == chains[b][k - 1]
      requires forall a :: 0 <= a < |chains| && a != b ==> Chain(chains[a], list[a]) && prev !in chains[a]
      requires Before(chains[b], k, list[b]) && Chain(rest, x) && prev !in rest && prev !in chains[b][..if k == 0 then 0 else k - 1]
      modifies `chains, list, (if prev == null then {} else {prev})`nextHash
      ensures chains == old(chains)[b := old(chains)[b][..k] + rest]
      ensures forall a :: 0 <= a < |chains| ==> Chain(chains[a], list[a])
    {
      if prev == null {
        list[b] := x;
      } else {
        prev.nextHash := x;
      }
      ghost var nodes, r := chains[b], chains[b][..k] + rest;
      chains := chains[b := r];
      forall j {:trigger r[j].nextHash} | 0 <= j < |r|
        ensures r[j].nextHash == HandleOrNull(r, j + 1)
      {
        if j < k {
          assert r[j] == nodes[j];
          assert j < k - 1 ==> nodes[j] in nodes[..k - 1];
        } else {
          assert r[j] == rest[j - k] && rest[j - k] in rest;
        }
      }
    }
  }

  lemma LaterPart(nodes: seq<LRUHandle>, k: nat)
    requires 0 < k < |nodes| && nodes[k - 1] !in nodes[k..]
    ensures nodes[k - 1] !in nodes[k + 1..]
  {
    assert nodes[k..] == [nodes[k]] + nodes[k + 1..];
  }

  // ----- Growing -----

  /** The chains from bucket `i` on. */
  ghost predicate Old(list: array<LRUHandle?>, chains: seq<seq<LRUHandle>>, elements: set<LRUHandle>, i: nat)
    reads list, elements`nextHash
  {
    && list.Length == |chains| && Holds(chains, elements)
    && forall b :: i <= b < |chains| ==> Belong(chains[b], elements, b, |chains|) && Chain(chains[b], list[b])
  }

  /** The chains of the new table, with what was moved so far. */
  ghost predicate New(list: array<LRUHandle?>, chains: seq<seq<LRUHandle>>, moved: set<LRUHandle>)
    reads list, moved`nextHash
  {
    Old(list, chains, moved, 0)
  }

  /** What is moved when `nodes` is left of bucket `i`. */
  ghost predicate IsMoved(g: LRUHandle, elements: set<LRUHandle>, length: nat, i: nat, nodes: seq<LRUHandle>) {
    g in elements && (Bucket(g.hash, length) < i || (Bucket(g.hash, length) == i && g !in nodes))
  }

  lemma HoldsPushed(chains: seq<seq<LRUHandle>>, moved: set<LRUHandle>, h: LRUHandle)
    requires Holds(chains, moved) && |chains| > 0 && h !in moved && forall g :: g in moved ==> !SameId(h, g)
    ensures var b := Bucket(h.hash, |chains|); b < |chains| && Holds(chains[b := [h] + chains[b]], moved + {h})
  {
    hide SameId;
    var b := Bucket(h.hash, |chains|);
    var nodes, r := chains[b], [h] + chains[b];
    assert Belong(nodes, moved, b, |chains|);
    forall i, j | 0 <= i < j < |r|
      ensures !SameId(r[i], r[j])
    {
      assert r[j] == nodes[j - 1] && r[j] in nodes && (i > 0 ==> r[i] == nodes[i - 1]);
    }
    BucketHas(chains, moved, b);
    HoldsUpdate(chains, moved, b, r, moved + {h});
  }

  /** Puts `h` at the head of its new bucket. */
  method MoveOne(h: LRUHandle, newList: array<LRUHandle?>, ghost newChains: seq<seq<LRUHandle>>, ghost moved: set<LRUHandle>)
      returns (ghost chains: seq<seq<LRUHandle>>)
    requires New(newList, newChains, moved) && IsPowerOfTwo(newList.Length) && h !in moved && forall g :: g in moved ==> !SameId(h, g)
    modifies newList, h`nextHash
    ensures New(newList, chains, moved + {h}) && |chains| == |newChains|
  {
    hide SameId, Holds, Belong;
    HoldsPushed(newChains, moved, h);
    var b := Masked(h.hash, newList.Length);  // hash & (newLength - 1)
    MaskIsRemainder(h.hash, newList.Length);
    InNoChain(newChains, moved, h);
    AllLinked(newList, newChains, moved);
    h.nextHash := newList[b];
    LinkedBehind(h, newChains[b]);
    newList[b] := h;
    chains := newChains[b := [h] + newChains[b]];
    MakesNew(newList, chains, moved + {h});
  }

  lemma AllMoved(chains: seq<seq<LRUHandle>>, elements: set<LRUHandle>, moved: set<LRUHandle>)
    requires Holds(chains, elements) && forall g :: g in moved <==> g in elements && Bucket(g.hash, |chains|) < |chains|
    ensures moved == elements
  {
  }

  lemma NothingMoved(list: array<LRUHandle?>, chains: seq<seq<LRUHandle>>)
    requires list.Length == |chains| && forall b :: 0 <= b < |chains| ==> chains[b] == [] && list[b] == null
    ensures New(list, chains, {})
  {
  }

  lemma AllLinked(list: array<LRUHandle?>, chains: seq<seq<LRUHandle>>, moved: set<LRUHandle>)
    requires New(list, chains, moved)
    ensures list.Length == |chains| && Holds(chains, moved) && forall b :: 0 <= b < |chains| ==> Chain(chains[b], list[b])
  {
  }

  lemma MakesNew(list: array<LRUHandle?>, chains: seq<seq<LRUHandle>>, moved: set<LRUHandle>)
    requires list.Length == |chains| && Holds(chains, moved) && forall b :: 0 <= b < |chains| ==> Chain(chains[b], list[b])
    ensures New(list, chains, moved)
  {
  }

  /** Moves the entries of bucket `i`, of which `nodes` are left from `h` on. */
  method MoveBucket(head: LRUHandle?, list: array<LRUHandle?>, newList: array<LRUHandle?>, i: nat,
                    ghost chains: seq<seq<LRUHandle>>, ghost elements: set<LRUHandle>,
                    ghost before: seq<seq<LRUHandle>>, ghost was: set<LRUHandle>)
      returns (count: nat, ghost newChains: seq<seq<LRUHandle>>, ghost moved: set<LRUHandle>)
    requires Old(list, chains, elements, i) && i < |chains| && head == list[i] && list != newList
    requires New(newList, before, was) && IsPowerOfTwo(newList.Length)
    requires forall g :: g in was <==> g in elements && Bucket(g.hash, |chains|) < i
    modifies newList, elements`nextHash
    ensures Old(list, chains, elements, i + 1) && New(newList, newChains, moved) && |newChains| == |before|
    ensures forall g :: g in moved <==> g in elements && Bucket(g.hash, |chains|) < i + 1
    ensures |moved| == |was| + count
  {
    hide Holds, Belong, SameId, Bucket, New;
    var h := head;
    ghost var nodes := chains[i];
    count, newChains, moved := 0, before, was;
    StartOfBucket(list, chains, elements, i);
    while h != null
      invariant Old(list, chains, elements, i + 1) && New(newList, newChains, moved) && |newChains| == |before|
      invariant Chain(nodes, h) && Suffix(chains[i], nodes)
      invariant forall g :: g in moved <==> IsMoved(g, elements, |chains|, i, nodes)
      invariant |moved| == |was| + count
      decreases |nodes|
    {
      var next := h.nextHash;
      NextOfBucket(chains, elements, i, nodes, h);
      newChains := MoveOne(h, newList, newChains, moved);
      moved := moved + {h};
      h := next;
      nodes := nodes[1..];
      count := count + 1;
    }
  }

  lemma StartOfBucket(list: array<LRUHandle?>, chains: seq<seq<LRUHandle>>, elements: set<LRUHandle>, i: nat)
    requires Old(list, chains, elements, i) && i < |chains|
    ensures Old(list, chains, elements, i + 1) && Chain(chains[i], list[i]) && Suffix(chains[i], chains[i])
    ensures forall g :: IsMoved(g, elements, |chains|, i, chains[i]) <==> g in elements && Bucket(g.hash, |chains|) < i
  {
    hide Bucket;
    BucketHas(chains, elements, i);
  }

  lemma NextOfBucket(chains: seq<seq<LRUHandle>>, elements: set<LRUHandle>, i: nat, nodes: seq<LRUHandle>, h: LRUHandle)
    requires Holds(chains, elements) && i < |chains| && Suffix(chains[i], nodes) && Chain(nodes, h)
    ensures nodes != [] && h == nodes[0] && h in elements && h !in nodes[1..] && Suffix(chains[i], nodes[1..])
    ensures Chain(nodes[1..], h.nextHash) && forall a :: 0 <= a < |chains| && a != i ==> h !in chains[a]
    ensures forall g :: IsMoved(g, elements, |chains|, i, nodes[1..]) <==> g == h || IsMoved(g, elements, |chains|, i, nodes)
    ensures !IsMoved(h, elements, |chains|, i, nodes)
    ensures forall g :: IsMoved(g, elements, |chains|, i, nodes) ==> !SameId(h, g)
  {
    hide Bucket, SameId;
    var k := |chains[i]| - |nodes|;
    assert nodes != [];
    OnlyOnce(chains, elements, i, k);
    assert nodes[1..] == chains[i][k + 1..] && nodes == [h] + nodes[1..];
    BucketHas(chains, elements, i);
    assert h in nodes;
    forall g | IsMoved(g, elements, |chains|, i, nodes)
      ensures !SameId(h, g)
    {
      if SameId(h, g) {
        ElementsApart(chains, elements, h, g);
      }
    }
    forall j {:trigger nodes[1..][j].nextHash} | 0 <= j < |nodes[1..]|
      ensures nodes[1..][j].nextHash == HandleOrNull(nodes[1..], j + 1)
    {
      assert nodes[1..][j] == nodes[j + 1];
    }
  }

  ghost predicate Suffix(all: seq<LRUHandle>, nodes: seq<LRUHandle>) {
    |nodes| <= |all| && nodes == all[|all| - |nodes|..]
  }

  /** What placing `h` does to the elements: `e` had its key before. */
  ghost predicate PlacedIs(before: set<LRUHandle>, after: set<LRUHandle>, e: LRUHandle?, h: LRUHandle) {
    if e == null then after == before + {h} && forall g :: g in before ==> !SameId(g, h)
    else e in before && SameId(e, h) && after == before - {e} + {h}
  }

  /** The first `k` entries of a chain are linked, but for what the last of them points to. */
  ghost predicate Before(nodes: seq<LRUHandle>, k: nat, head: LRUHandle?)
    requires k <= |nodes|
    reads nodes`nextHash
  {
    && (k > 0 ==> head == nodes[0])
    && forall j {:trigger nodes[j].nextHash} :: 0 <= j < k - 1 ==> nodes[j].nextHash == nodes[j + 1]
  }
}

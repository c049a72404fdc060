/** The cache (util/cache.cc, LRUCache): entries that clients hold are in one ring, those that they
    do not in another, from the least to the most recently used; a hash table finds both. */
module LRUCaches {
  import opened InternalKey
  import opened HandleTables

  // ----- Rings -----

  ghost predicate Distinct(all: seq<LRUHandle>) {
    forall i, j :: 0 <= i < j < |all| ==> all[i] != all[j]
  }

  function NextAt(n: nat, i: nat): (r: nat)
    requires i < n
    ensures r < n
  {
    if i + 1 < n then i + 1 else 0
  }

  function PrevAt(n: nat, i: nat): (r: nat)
    requires i < n
    ensures r < n
  {
    if i == 0 then n - 1 else i - 1
  }

  /** The entries form a circle in both directions; the first is the dummy head. */
  ghost predicate Ring(all: seq<LRUHandle>)
    reads all`next, all`prev
  {
    && all != [] && Distinct(all)
    && (forall i {:trigger all[i].next} :: 0 <= i < |all| ==> all[i].next == all[NextAt(|all|, i)])
    && forall i {:trigger all[i].prev} :: 0 <= i < |all| ==> all[i].prev == all[PrevAt(|all|, i)]
  }

  ghost predicate Separate(a: seq<LRUHandle>, b: seq<LRUHandle>) {
    forall i :: 0 <= i < |a| ==> a[i] !in b
  }

  function Without(all: seq<LRUHandle>, k: nat): (r: seq<LRUHandle>)
    requires k < |all|
    ensures |r| == |all| - 1
  {
    all[..k] + all[k + 1..]
  }

  /** A ring in which the neighbours of entry `k` are linked to each other. */
  lemma TakenOut(all: seq<LRUHandle>, k: nat)
    requires Distinct(all) && 0 < k < |all|
    requires all[NextAt(|all|, k)].prev == all[PrevAt(|all|, k)] && all[PrevAt(|all|, k)].next == all[NextAt(|all|, k)]
    requires forall i {:trigger all[i].next} :: 0 <= i < |all| && i != PrevAt(|all|, k) ==> all[i].next == all[NextAt(|all|, i)]
    requires forall i {:trigger all[i].prev} :: 0 <= i < |all| && i != NextAt(|all|, k) ==> all[i].prev == all[PrevAt(|all|, i)]
    ensures Ring(Without(all, k))
  {
    var r := Without(all, k);
    forall i {:trigger r[i].next} | 0 <= i < |r|
      ensures r[i].next == r[NextAt(|r|, i)]
    {
      assert r[i] == all[if i < k then i else i + 1];
    }
    forall i {:trigger r[i].prev} | 0 <= i < |r|
      ensures r[i].prev == r[PrevAt(|r|, i)]
    {
      assert r[i] == all[if i < k then i else i + 1];
    }
  }

  /** LRU_Remove */
  method LruRemove(e: LRUHandle, ghost all: seq<LRUHandle>, ghost k: nat)
    requires Ring(all) && 0 < k < |all| && e == all[k]
    modifies all`next, all`prev
    ensures Ring(Without(all, k))
  {
    ghost var n := |all|;
    e.next.prev := e.prev;
    e.prev.next := e.next;
    assert all[NextAt(n, k)].prev == all[PrevAt(n, k)] && all[PrevAt(n, k)].next == all[NextAt(n, k)];
    assert forall i {:trigger all[i].next} :: 0 <= i < n && i != PrevAt(n, k) ==> all[i].next == all[NextAt(n, i)];
    assert forall i {:trigger all[i].prev} :: 0 <= i < n && i != NextAt(n, k) ==> all[i].prev == all[PrevAt(n, i)];
    TakenOut(all, k);
  }

  /** LRU_Append: makes `e` the newest entry of the ring. */
  method LruAppend(list: LRUHandle, e: LRUHandle, ghost all: seq<LRUHandle>)
    requires Ring(all) && list == all[0] && e !in all
    modifies all`next, all`prev, e`next, e`prev
    ensures Ring(all + [e])
  {
    ghost var r := all + [e];
    e.next := list;
    e.prev := list.prev;
    e.prev.next := e;
    e.next.prev := e;
    forall i {:trigger r[i].next} | 0 <= i < |r|
      ensures r[i].next == r[NextAt(|r|, i)]
    {
      assert i < |all| ==> r[i] == all[i];
    }
    forall i {:trigger r[i].prev} | 0 <= i < |r|
      ensures r[i].prev == r[PrevAt(|r|, i)]
    {
      assert i < |all| ==> r[i] == all[i];
    }
  }

  /** An empty circular list, beside another ring or none. */
  method EmptyRing(head: LRUHandle, ghost other: seq<LRUHandle>)
    requires head !in other && (other != [] ==> Ring(other))
    modifies head`next, head`prev
    ensures Ring([head]) && (other != [] ==> Ring(other))
  {
    head.next, head.prev := head, head;
  }

  /** LRU_Remove beside another ring, which stays as it is. */
  method RemoveBeside(e: LRUHandle, ghost all: seq<LRUHandle>, ghost k: nat, ghost other: seq<LRUHandle>)
    requires Ring(all) && 0 < k < |all| && e == all[k] && Ring(other) && Separate(other, all)
    modifies all`next, all`prev
    ensures Ring(Without(all, k)) && Ring(other)
  {
    LruRemove(e, all, k);
  }

  /** LRU_Append beside another ring, which stays as it is. */
  method AppendBeside(list: LRUHandle, e: LRUHandle, ghost all: seq<LRUHandle>, ghost other: seq<LRUHandle>)
    requires Ring(all) && list == all[0] && e !in all && Ring(other) && e !in other && Separate(other, all)
    modifies all`next, all`prev, e`next, e`prev
    ensures Ring(all + [e]) && Ring(other)
  {
    LruAppend(list, e, all);
  }

  // ----- Lists of entries -----

  function Minus(items: seq<LRUHandle>, e: LRUHandle): seq<LRUHandle> {
    if items == [] then [] else if items[0] == e then items[1..] else [items[0]] + Minus(items[1..], e)
  }

  lemma {:induction false} MinusIsWithout(items: seq<LRUHandle>, k: nat)
    requires Distinct(items) && k < |items|
    ensures Minus(items, items[k]) == Without(items, k)
  {
    if k > 0 {
      MinusIsWithout(items[1..], k - 1);
      assert [items[0]] + Without(items[1..], k - 1) == Without(items, k);
    }
  }

  lemma {:induction false} MinusOther(items: seq<LRUHandle>, e: LRUHandle)
    requires e !in items
    ensures Minus(items, e) == items
  {
    if items != [] {
      MinusOther(items[1..], e);
    }
  }

  lemma WithoutHas(items: seq<LRUHandle>, k: nat)
    requires Distinct(items) && k < |items|
    ensures forall g :: g in Without(items, k) <==> g in items && g != items[k]
    ensures Distinct(Without(items, k))
  {
    var r := Without(items, k);
    forall g
      ensures g in r <==> g in items && g != items[k]
    {
      if g in items && g != items[k] {
        var j :| 0 <= j < |items| && items[j] == g;
        assert r[if j < k then j else j - 1] == g;
      }
      if g in r {
        var i :| 0 <= i < |r| && r[i] == g;
        assert g == items[if i < k then i else i + 1];
      }
    }
    forall i, j | 0 <= i < j < |r|
      ensures r[i] != r[j]
    {
      assert r[i] == items[if i < k then i else i + 1] && r[j] == items[if j < k then j else j + 1];
    }
  }

  ghost function Set(items: seq<LRUHandle>): set<LRUHandle> {
    set e | e in items
  }

  lemma SetAppend(items: seq<LRUHandle>, e: LRUHandle)
    ensures Set(items + [e]) == Set(items) + {e}
  {
  }

  lemma DistinctAppend(items: seq<LRUHandle>, e: LRUHandle)
    requires Distinct(items) && e !in items
    ensures Distinct(items + [e])
  {
  }

  lemma MinusFacts(items: seq<LRUHandle>, e: LRUHandle)
    requires Distinct(items)
    ensures forall g :: g in Minus(items, e) <==> g in items && g != e
    ensures Charges(items) == Charges(Minus(items, e)) + if e in items then e.charge else 0
    ensures e !in items ==> Minus(items, e) == items
  {
    hide Minus, Charges, Without;
    if e in items {
      var k: nat :| k < |items| && items[k] == e;
      MinusIsWithout(items, k);
      WithoutHas(items, k);
      ChargesWithout(items, k);
    } else {
      MinusOther(items, e);
    }
  }

  function Charges(items: seq<LRUHandle>): nat {
    if items == [] then 0 else items[0].charge + Charges(items[1..])
  }

  lemma {:induction false} ChargesWithout(items: seq<LRUHandle>, k: nat)
    requires k < |items|
    ensures Charges(items) == Charges(Without(items, k)) + items[k].charge
  {
    if k == 0 {
      assert Without(items, 0) == items[1..];
    } else {
      ChargesWithout(items[1..], k - 1);
      assert Without(items, k) == [items[0]] + Without(items[1..], k - 1);
    }
  }

  lemma {:induction false} ChargesAppend(items: seq<LRUHandle>, e: LRUHandle)
    ensures Charges(items + [e]) == Charges(items) + e.charge
  {
    if items == [] {
      assert items + [e] == [e] && [e][1..] == [];
    } else {
      ChargesAppend(items[1..], e);
      assert (items + [e])[1..] == items[1..] + [e];
    }
  }

  // ----- The cache -----

  /** The entries of a ring, from the oldest to the newest. */
  ghost function Items(ring: seq<LRUHandle>): seq<LRUHandle> {
    if ring == [] then [] else ring[1..]
  }

  /** The entries of a ring are in the cache, and have the references that the ring is for. */
  ghost predicate OnRing(items: seq<LRUHandle>, cached: set<LRUHandle>, used: bool)
    reads items`refs, items`inCache
  {
    forall e :: e in items ==> e in cached && e.inCache && (if used then e.refs >= 2 else e.refs == 1)
  }

  lemma RingItems(ring: seq<LRUHandle>)
    requires ring != [] && Distinct(ring)
    ensures Distinct(Items(ring)) && ring[0] !in Items(ring) && ring == [ring[0]] + Items(ring)
  {
    var items := Items(ring);
    forall i, j | 0 <= i < j < |items|
      ensures items[i] != items[j]
    {
      assert items[i] == ring[i + 1] && items[j] == ring[j + 1];
    }
    forall e | e in items
      ensures e != ring[0]
    {
      var i :| 0 <= i < |items| && items[i] == e;
      assert ring[i + 1] == e;
    }
  }

  lemma OnRingMinus(items: seq<LRUHandle>, cached: set<LRUHandle>, used: bool, e: LRUHandle)
    requires Distinct(items)
    requires forall g :: g in items && g != e ==> g in cached && g.inCache && (if used then g.refs >= 2 else g.refs == 1)
    ensures OnRing(Minus(items, e), cached, used)
  {
    MinusFacts(items, e);
  }

  class LRUCache {
    var capacity: nat
    var usage: nat
    const lru: LRUHandle
    const inUse: LRUHandle
    const table: HandleTable
    ghost var lruRing: seq<LRUHandle>
    ghost var inUseRing: seq<LRUHandle>
    ghost var entries: set<LRUHandle>  // every one that was ever inserted
    ghost var erased: set<LRUHandle>  // no longer in the cache, but held by clients
    var deleted: seq<LRUHandle>  // every call of a deleter, in order

    ghost function Nodes(): set<LRUHandle>
      reads `lruRing, `inUseRing
    {
      (set n | n in lruRing) + (set n | n in inUseRing)
    }

    ghost predicate Shape()
      reads `lruRing, `inUseRing, lruRing`next, lruRing`prev, inUseRing`next, inUseRing`prev
    {
      && Ring(lruRing) && Ring(inUseRing) && lruRing[0] == lru && inUseRing[0] == inUse
      && Separate(lruRing, inUseRing) && Separate(inUseRing, lruRing)
    }

    /** The cached entries are on the two rings: those with one reference, which is the cache's, and
        those with more; and what they charge is what is used. */
    ghost predicate Rings(cached: set<LRUHandle>)
      reads `usage, `lruRing, `inUseRing, lruRing`next, lruRing`prev, inUseRing`next, inUseRing`prev
      reads lruRing`refs, lruRing`inCache, inUseRing`refs, inUseRing`inCache
    {
      && Shape() && lru !in cached && inUse !in cached
      && OnRing(Items(lruRing), cached, false) && OnRing(Items(inUseRing), cached, true)
      && (forall e :: e in cached ==> e in Items(lruRing) || e in Items(inUseRing))
      && usage == Charges(Items(lruRing)) + Charges(Items(inUseRing))
    }

    /** What is erased is held by a client; what was deleted is gone, and was deleted once.  Every
        entry that there was is cached, erased or deleted. */
    ghost predicate Outside(cached: set<LRUHandle>)
      reads `erased, `deleted, `entries, erased`refs, erased`inCache
    {
      entries == cached + erased + Set(deleted) && Gone(cached)
    }

    ghost predicate Gone(cached: set<LRUHandle>)
      reads `erased, `deleted, erased`refs, erased`inCache
    {
      && (forall e :: e in erased ==> e !in cached && !e.inCache && e.refs >= 1 && e != lru && e != inUse)
      && (forall e :: e in deleted ==> e !in cached && e !in erased && e != lru && e != inUse) && Distinct(deleted)
    }

    ghost predicate Inv()
      reads this, table, table.list, table.elements, erased, lruRing, inUseRing
    {
      table.Inv() && Rings(table.elements) && Outside(table.elements)
    }

    constructor ()
      ensures Inv() && capacity == 0 && Items(lruRing) == Items(inUseRing) == deleted == [] && erased == {}
      ensures fresh(table) && fresh(table.list) && fresh(lru) && fresh(inUse)
    {
      hide HandleTable.Inv, Rings, Outside;
      capacity, usage := 0, 0;
      lru := new LRUHandle([], 0, 0, 0);
      inUse := new LRUHandle([], 0, 0, 0);
      table := new HandleTable();
      lruRing, inUseRing, entries, erased, deleted := [lru], [inUse], {}, {}, [];
      new;
      Start();
    }

    /** Two empty circular lists. */
    method Start()
      requires lru != inUse && usage == 0 && lruRing == [lru] && inUseRing == [inUse] && entries == erased == {} && deleted == []
      modifies lru`next, lru`prev, inUse`next, inUse`prev
      ensures Rings({}) && Outside({})
    {
      hide Ring;
      EmptyRing(lru, []);
      EmptyRing(inUse, [lru]);
    }

    lemma WhichRing(cached: set<LRUHandle>, e: LRUHandle)
      requires Rings(cached) && e in cached
      ensures e.inCache && (e in Items(lruRing) <==> e.refs == 1) && (e in Items(inUseRing) <==> e.refs >= 2)
      ensures e in Items(lruRing) || e in Items(inUseRing)
      ensures Distinct(Items(lruRing)) && Distinct(Items(inUseRing))
    {
      hide Charges, NextAt, PrevAt;
      RingItems(lruRing);
      RingItems(inUseRing);
    }

    /** Takes `e` off the ring that it is on. */
    method TakeOff(e: LRUHandle, used: bool)
      requires Shape() && e in (if used then Items(inUseRing) else Items(lruRing))
      modifies `lruRing, `inUseRing, Nodes()`next, Nodes()`prev
      ensures Nodes() <= old(Nodes())
      ensures e !in lruRing && e !in inUseRing
      ensures Shape() && Items(lruRing) == Minus(old(Items(lruRing)), e) && Items(inUseRing) == Minus(old(Items(inUseRing)), e)
    {
      if used {
        TakeOffUsed(e);
      } else {
        TakeOffUnused(e);
      }
    }

    method TakeOffUsed(e: LRUHandle)
      requires Shape() && e in Items(inUseRing)
      modifies `inUseRing, Nodes()`next, Nodes()`prev
      ensures Nodes() <= old(Nodes())
      ensures e !in lruRing && e !in inUseRing
      ensures Shape() && Items(lruRing) == Minus(old(Items(lruRing)), e) && Items(inUseRing) == Minus(old(Items(inUseRing)), e)
    {
      hide Ring, Minus, Items, Without, Separate;
      ghost var k: nat :| k < |Items(inUseRing)| && Items(inUseRing)[k] == e;
      RingIsDistinct(inUseRing);
      NotEmpty();
      TakenOff(inUseRing, lruRing, k);
      RemoveBeside(e, inUseRing, k + 1, lruRing);
      inUseRing := Without(inUseRing, k + 1);
    }

    method TakeOffUnused(e: LRUHandle)
      requires Shape() && e in Items(lruRing)
      modifies `lruRing, Nodes()`next, Nodes()`prev
      ensures Nodes() <= old(Nodes())
      ensures e !in lruRing && e !in inUseRing
      ensures Shape() && Items(lruRing) == Minus(old(Items(lruRing)), e) && Items(inUseRing) == Minus(old(Items(inUseRing)), e)
    {
      hide Ring, Minus, Items, Without, Separate;
      ghost var k: nat :| k < |Items(lruRing)| && Items(lruRing)[k] == e;
      RingIsDistinct(lruRing);
      NotEmpty();
      TakenOff(lruRing, inUseRing, k);
      RemoveBeside(e, lruRing, k + 1, inUseRing);
      lruRing := Without(lruRing, k + 1);
    }

    /** Puts `e` at the newest end of a ring. */
    method PutOn(e: LRUHandle, used: bool)
      requires Shape() && e !in lruRing && e !in inUseRing
      modifies `lruRing, `inUseRing, Nodes()`next, Nodes()`prev, e`next, e`prev
      ensures Shape() && Items(lruRing) == (if used then old(Items(lruRing)) else old(Items(lruRing)) + [e])
      ensures Items(inUseRing) == if used then old(Items(inUseRing)) + [e] else old(Items(inUseRing))
    {
      hide Ring;
      NotEmpty();
      if used {
        AppendBeside(inUse, e, inUseRing, lruRing);
        inUseRing := inUseRing + [e];
      } else {
        AppendBeside(lru, e, lruRing, inUseRing);
        lruRing := lruRing + [e];
      }
    }

    /** Moves `e` from one ring to the newest end of the other. */
    method Move(e: LRUHandle, used: bool)
      requires Shape() && e in (if used then Items(lruRing) else Items(inUseRing))
      modifies `lruRing, `inUseRing, Nodes()`next, Nodes()`prev
      ensures Shape() && Items(lruRing) == (if used then Minus(old(Items(lruRing)), e) else old(Items(lruRing)) + [e])
      ensures Items(inUseRing) == if used then old(Items(inUseRing)) + [e] else Minus(old(Items(inUseRing)), e)
    {
      hide Shape, Minus;
      InNodes(e);
      NotInOther(e, used);
      TakeOff(e, !used);
      PutOn(e, used);
    }

    lemma NotInOther(e: LRUHandle, used: bool)
      requires Shape() && e in (if used then Items(lruRing) else Items(inUseRing))
      ensures if used then Minus(Items(inUseRing), e) == Items(inUseRing) else Minus(Items(lruRing), e) == Items(lruRing)
    {
      hide Ring;
      NotEmpty();
      if used {
        AbsentFrom(lruRing, inUseRing, e);
      } else {
        AbsentFrom(inUseRing, lruRing, e);
      }
    }

    lemma InNodes(e: LRUHandle)
      requires e in Items(lruRing) || e in Items(inUseRing)
      ensures e in Nodes()
    {
    }

    /** A client takes a reference to a cached entry. */
    method Ref(e: LRUHandle, ghost cached: set<LRUHandle>)
      requires Rings(cached) && Outside(cached) && e in cached
      modifies `lruRing, `inUseRing, Nodes()`next, Nodes()`prev, e`refs
      ensures Rings(cached) && Outside(cached) && e.refs == old(e.refs) + 1
      ensures Items(lruRing) == Minus(old(Items(lruRing)), e)
      ensures Items(inUseRing) == if old(e.refs) == 1 then old(Items(inUseRing)) + [e] else old(Items(inUseRing))
    {
      hide Ring, Minus, Charges, Separate, Distinct, Gone;
      WhichRing(cached, e);
      MinusFacts(Items(inUseRing), e);
      ChargesAppend(Items(inUseRing), e);
      ghost var before := Items(lruRing);
      MinusFacts(before, e);
      assert OnRing(before, cached, false);
      if e.refs == 1 && e.inCache {
        hide Shape;
        Move(e, true);
      }
      MinusFacts(before, e);
      Raise(e, cached);
    }

    /** One reference more to an entry that clients hold. */
    method Raise(e: LRUHandle, ghost cached: set<LRUHandle>)
      requires Shape() && entries == cached + erased + Set(deleted) && Gone(cached) && e in cached
      requires lru !in cached && inUse !in cached && e in Items(inUseRing) && e !in Items(lruRing) && e.refs >= 1
      requires OnRing(Items(lruRing), cached, false)
      requires forall x :: x in Items(inUseRing) ==> x in cached && x.inCache && (x == e || x.refs >= 2)
      requires forall x :: x in cached ==> x in Items(lruRing) || x in Items(inUseRing)
      requires usage == Charges(Items(lruRing)) + Charges(Items(inUseRing))
      modifies e`refs
      ensures Rings(cached) && Outside(cached) && e.refs == old(e.refs) + 1
    {
      hide Shape, Items, Charges, Set, Gone;
      StillThere(cached, e);
      e.refs := e.refs + 1;
    }

    /** A reference is given back: by a client, or by the cache to an entry that it has erased. */
    method Unref(e: LRUHandle, ghost cached: set<LRUHandle>)
      requires Rings(cached) && Outside(cached) && (e in erased || e in Items(inUseRing))
      modifies `lruRing, `inUseRing, `erased, `deleted, Nodes()`next, Nodes()`prev, e`refs
      ensures Rings(cached) && Outside(cached) && e.refs == old(e.refs) - 1
      ensures e in old(erased) ==> lruRing == old(lruRing) && inUseRing == old(inUseRing)
      ensures e in old(erased) && e.refs == 0 ==> deleted == old(deleted) + [e] && erased == old(erased) - {e}
      ensures e !in old(erased) || e.refs > 0 ==> deleted == old(deleted) && erased == old(erased)
      ensures e !in old(erased) && e.refs == 1 ==>
        Items(lruRing) == old(Items(lruRing)) + [e] && Items(inUseRing) == Minus(old(Items(inUseRing)), e)
      ensures e !in old(erased) && e.refs > 1 ==> lruRing == old(lruRing) && inUseRing == old(inUseRing)
    {
      hide Rings, Outside, RingsBut, HeldBut;
      UnrefKinds(e, cached);
      Lower(e, cached);
      if e.refs == 0 {
        hide Set, Distinct;
        AboutToGo(e, cached);
        Deallocate(e, cached);
      } else if e.inCache && e.refs == 1 {
        hide OnRing, Shape, Charges;
        AboutToRest(e, cached);
        MakeUnused(e, cached);
      } else {
        StillHeld(e, cached);
      }
    }

    /** What holds while the references of an erased entry, or of a cached one, are counted anew. */
    ghost predicate HeldBut(cached: set<LRUHandle>, e: LRUHandle)
      reads `erased, `deleted, `entries, erased`refs, erased`inCache
    {
      && entries == cached + erased + Set(deleted) && e in erased
      && (forall g :: g in erased ==> g !in cached && !g.inCache && (g == e || g.refs >= 1) && g != lru && g != inUse)
      && (forall g :: g in deleted ==> g !in cached && g !in erased && g != lru && g != inUse) && Distinct(deleted)
    }

    ghost predicate RingsBut(cached: set<LRUHandle>, e: LRUHandle)
      reads `usage, `lruRing, `inUseRing, lruRing`next, lruRing`prev, inUseRing`next, inUseRing`prev
      reads lruRing`refs, lruRing`inCache, inUseRing`refs, inUseRing`inCache
    {
      && Shape() && lru !in cached && inUse !in cached && e in cached && e in Items(inUseRing)
      && OnRing(Items(lruRing), cached, false)
      && (forall x :: x in Items(inUseRing) ==> x in cached && x.inCache && (x == e || x.refs >= 2))
      && (forall x :: x in cached ==> x in Items(lruRing) || x in Items(inUseRing))
      && usage == Charges(Items(lruRing)) + Charges(Items(inUseRing))
    }

    lemma OffTheRings(e: LRUHandle, cached: set<LRUHandle>)
      requires Rings(cached) && Outside(cached) && e in erased
      ensures e !in Nodes()
    {
      hide Charges, Shape, Ring, Distinct;
      NodesAreCached(cached);
    }

    lemma OnlyOnUsed(e: LRUHandle, cached: set<LRUHandle>)
      requires Rings(cached) && Outside(cached) && e in Items(inUseRing)
      ensures e in cached && e !in Items(lruRing) && e !in erased
    {
      hide Charges, Shape, Ring, Distinct, Items;
    }

    method Lower(e: LRUHandle, ghost cached: set<LRUHandle>)
      requires Rings(cached) && Outside(cached) && (e in erased || e in Items(inUseRing)) && e.refs >= 1
      modifies e`refs
      ensures e.refs == old(e.refs) - 1
      ensures if e in erased then Rings(cached) && HeldBut(cached, e) else Outside(cached) && RingsBut(cached, e)
    {
      hide Shape, Charges, Distinct, Set, Items, Rings, Outside;
      BeforeLower(e, cached);
      e.refs := e.refs - 1;
    }

    lemma BeforeLower(e: LRUHandle, cached: set<LRUHandle>)
      requires Rings(cached) && Outside(cached) && (e in erased || e in Items(inUseRing))
      ensures if e in erased then Rings(cached) && HeldBut(cached, e) && e !in Nodes()
              else Outside(cached) && RingsBut(cached, e) && e !in Items(lruRing)
    {
      hide Shape, Charges, Distinct, Set, Items;
      if e in erased {
        OffTheRings(e, cached);
      } else {
        OnlyOnUsed(e, cached);
      }
    }

    lemma AboutToGo(e: LRUHandle, cached: set<LRUHandle>)
      requires HeldBut(cached, e) && e.refs == 0
      ensures e !in cached && e != lru && e != inUse && e !in deleted && Distinct(deleted)
      ensures entries == cached + erased + Set(deleted)
      ensures forall g :: g in erased && g != e ==> g !in cached && !g.inCache && g.refs >= 1 && g != lru && g != inUse
      ensures forall g :: g in deleted ==> g !in cached && g !in erased && g != lru && g != inUse
    {
      hide Set, Distinct;
    }

    lemma AboutToRest(e: LRUHandle, cached: set<LRUHandle>)
      requires RingsBut(cached, e) && e.refs == 1
      ensures Shape() && e in Items(inUseRing) && lru !in cached && inUse !in cached
      ensures OnRing(Items(lruRing), cached, false) && OnRing(Minus(Items(inUseRing), e), cached, true) && e in cached
      ensures forall g :: g in cached ==> g in Items(lruRing) || g in Items(inUseRing)
      ensures usage == Charges(Items(lruRing)) + Charges(Items(inUseRing))
    {
      UsedIsDistinct();
      hide Shape, Charges, Items;
      OnRingMinus(Items(inUseRing), cached, true, e);
    }

    lemma StillHeld(e: LRUHandle, cached: set<LRUHandle>)
      requires if e in erased then Rings(cached) && HeldBut(cached, e) else Outside(cached) && RingsBut(cached, e)
      requires e.refs >= 1 && (e.inCache ==> e.refs >= 2)
      ensures Rings(cached) && Outside(cached)
    {
      hide Shape, Charges, Items, Distinct, Set;
    }

    /** The first case of Unref: nobody refers to the entry any more, and its deleter runs. */
    method Deallocate(e: LRUHandle, ghost cached: set<LRUHandle>)
      requires e in erased && e !in cached && e != lru && e != inUse && e !in deleted && Distinct(deleted)
      requires entries == cached + erased + Set(deleted)
      requires forall g :: g in erased && g != e ==> g !in cached && !g.inCache && g.refs >= 1 && g != lru && g != inUse
      requires forall g :: g in deleted ==> g !in cached && g !in erased && g != lru && g != inUse
      modifies `erased, `deleted
      ensures Outside(cached) && deleted == old(deleted) + [e] && erased == old(erased) - {e}
    {
      hide Distinct, Set;
      DistinctAppend(deleted, e);
      SetAppend(deleted, e);
      deleted := deleted + [e];
      erased := erased - {e};
    }

    /** The second case of Unref: no client holds the entry any more. */
    method MakeUnused(e: LRUHandle, ghost cached: set<LRUHandle>)
      requires Shape() && e in Items(inUseRing) && e.refs == 1 && e.inCache && lru !in cached && inUse !in cached
      requires OnRing(Items(lruRing), cached, false) && OnRing(Minus(Items(inUseRing), e), cached, true) && e in cached
      requires (forall g :: g in cached ==> g in Items(lruRing) || g in Items(inUseRing))
      requires usage == Charges(Items(lruRing)) + Charges(Items(inUseRing))
      modifies `lruRing, `inUseRing, Nodes()`next, Nodes()`prev
      ensures Rings(cached)
      ensures Items(lruRing) == old(Items(lruRing)) + [e] && Items(inUseRing) == Minus(old(Items(inUseRing)), e)
    {
      hide Ring, Minus, Charges, Separate, Distinct;
      ghost var unused, used := Items(lruRing), Items(inUseRing);
      UsedIsDistinct();
      ChargesAppend(unused, e);
      MinusFacts(used, e);
      Move(e, false);
      MinusFacts(used, e);
    }

    lemma UsedIsDistinct()
      requires Shape()
      ensures Distinct(Items(inUseRing)) && Distinct(Items(lruRing))
    {
      hide NextAt, PrevAt;
      RingItems(inUseRing);
      RingItems(lruRing);
    }

    lemma UnrefKinds(e: LRUHandle, cached: set<LRUHandle>)
      requires Rings(cached) && Outside(cached) && (e in erased || e in Items(inUseRing))
      ensures if e in erased then e !in cached && !e.inCache && e.refs >= 1 else e in cached && e.inCache && e.refs >= 2
    {
      hide Ring, Charges, Items;
    }

    /** Finishes the removal of an entry that the table no longer has. */
    method FinishErase(e: LRUHandle, ghost cached: set<LRUHandle>)
      requires Rings(cached + {e}) && Outside(cached + {e}) && e !in cached
      modifies `lruRing, `inUseRing, `usage, `erased, `deleted, Nodes()`next, Nodes()`prev, e`refs, e`inCache
      ensures Rings(cached) && Outside(cached) && e.refs == old(e.refs) - 1
      ensures Items(lruRing) == Minus(old(Items(lruRing)), e) && Items(inUseRing) == Minus(old(Items(inUseRing)), e)
      ensures usage + e.charge == old(usage)
      ensures e.refs == 0 ==> deleted == old(deleted) + [e] && erased == old(erased)
      ensures e.refs > 0 ==> deleted == old(deleted) && erased == old(erased) + {e}
    {
      hide Ring, Minus, Charges, Separate, Distinct, NextAt, PrevAt;
      TakeOut(e, cached);
      Unref(e, cached);
    }

    /** The first part of FinishErase: the entry is off its ring, and only clients hold it. */
    method TakeOut(e: LRUHandle, ghost cached: set<LRUHandle>)
      requires Rings(cached + {e}) && Outside(cached + {e}) && e !in cached
      modifies `lruRing, `inUseRing, `usage, `erased, Nodes()`next, Nodes()`prev, e`inCache
      ensures Rings(cached) && Outside(cached)
      ensures Items(lruRing) == Minus(old(Items(lruRing)), e) && Items(inUseRing) == Minus(old(Items(inUseRing)), e)
      ensures usage + e.charge == old(usage) && erased == old(erased) + {e} && Nodes() <= old(Nodes())
    {
      hide Ring, Minus, Charges, Separate, Distinct;
      WhichRing(cached + {e}, e);
      ghost var unused, used := Items(lruRing), Items(inUseRing);
      MinusFacts(unused, e);
      MinusFacts(used, e);
      TakeOff(e, e.refs >= 2);
      MinusFacts(unused, e);
      MinusFacts(used, e);
      Discard(e, cached);
    }

    method Discard(e: LRUHandle, ghost cached: set<LRUHandle>)
      requires Shape() && e !in lruRing && e !in inUseRing && e !in cached && lru !in cached && inUse !in cached
      requires OnRing(Items(lruRing), cached, false) && OnRing(Items(inUseRing), cached, true) && e.refs >= 1
      requires (forall g :: g in cached ==> g in Items(lruRing) || g in Items(inUseRing)) && Outside(cached + {e})
      requires usage == Charges(Items(lruRing)) + Charges(Items(inUseRing)) + e.charge
      modifies `usage, `erased, e`inCache
      ensures Rings(cached) && Outside(cached) && usage + e.charge == old(usage) && erased == old(erased) + {e}
    {
      hide Ring, Charges, Separate, Distinct;
      NotEmpty();
      e.inCache := false;
      usage := usage - e.charge;
      erased := erased + {e};
    }

    /** The table's part of a removal; the entry is still on its ring. */
    method TakeFromTable(key: Bytes, hash: nat) returns (e: LRUHandle?)
      requires table.Inv() && Rings(table.elements) && Outside(table.elements)
      modifies table, table.list, table.elements`nextHash
      ensures table.Inv() && table.list == old(table.list) && Rings(old(table.elements)) && Outside(old(table.elements))
      ensures e == null ==> table.elements == old(table.elements) && forall g :: g in table.elements ==> !Matches(g, key, hash)
      ensures e != null ==> e in old(table.elements) && Matches(e, key, hash) && table.elements == old(table.elements) - {e}
    {
      hide Rings, Outside, HandleTable.Inv;
      Known();
      e := table.Remove(key, hash);
    }

    lemma OnlyOneMatches(key: Bytes, hash: nat)
      requires table.Inv()
      ensures forall g, h :: g in table.elements && h in table.elements && Matches(g, key, hash) && Matches(h, key, hash) ==> g == h
    {
      hide Holds, Belong;
      forall g, h | g in table.elements && h in table.elements && Matches(g, key, hash) && Matches(h, key, hash)
        ensures g == h
      {
        ElementsApart(table.chains, table.elements, g, h);
      }
    }

    lemma StillThere(cached: set<LRUHandle>, e: LRUHandle)
      requires Gone(cached) && e in cached
      ensures e !in erased && e !in deleted
    {
    }

    lemma StillGone(cached: set<LRUHandle>, e: LRUHandle)
      requires Gone(cached) && e !in erased && e !in deleted
      ensures Gone(cached + {e})
    {
    }

    lemma Known()
      ensures forall i :: 0 <= i < |lruRing| ==> allocated(lruRing[i])
      ensures forall i :: 0 <= i < |inUseRing| ==> allocated(inUseRing[i])
      ensures forall e :: e in erased ==> allocated(e)
      ensures forall e :: e in table.elements ==> allocated(e)
    {
    }

    lemma NodesAreCached(cached: set<LRUHandle>)
      requires Rings(cached)
      ensures Nodes() <= cached + {lru, inUse}
    {
      hide Charges, NextAt, PrevAt;
      RingItems(lruRing);
      RingItems(inUseRing);
    }

    /** The list head leads to the oldest entry, or to itself. */
    lemma Oldest(cached: set<LRUHandle>)
      requires Rings(cached)
      ensures if Items(lruRing) == [] then lru.next == lru
              else lru.next == Items(lruRing)[0] && lru.next != lru && lru.next in cached && lru.next.refs == 1
      ensures Items(lruRing) != [] ==>
        var e := Items(lruRing)[0];
        Minus(Items(lruRing), e) == Items(lruRing)[1..] && Minus(Items(inUseRing), e) == Items(inUseRing)
    {
      hide Charges;
      if Items(lruRing) != [] {
        var e := Items(lruRing)[0];
        assert e in Items(lruRing) && e in cached;
        WhichRing(cached, e);
        MinusOther(Items(inUseRing), e);
      }
    }

    /** The oldest entry that no client holds leaves the cache. */
    method EvictOldest()
      requires Inv() && Items(lruRing) != []
      modifies `lruRing, `inUseRing, `usage, `erased, `deleted, table, table.list, table.elements, lru, inUse
      ensures Inv() && table.list == old(table.list)
      ensures var e := old(Items(lruRing))[0];
        && Items(lruRing) == old(Items(lruRing))[1..] && Items(inUseRing) == old(Items(inUseRing))
        && table.elements == old(table.elements) - {e} && deleted == old(deleted) + [e] && erased == old(erased)
        && usage + e.charge == old(usage)
      ensures forall g :: g in table.elements ==> g.refs == old(g.refs)
    {
      hide Rings, Outside, HandleTable.Inv, Minus;
      Oldest(table.elements);
      NodesAreCached(table.elements);
      var e := lru.next;
      OnlyOneMatches(e.key, e.hash);
      var removed := TakeFromTable(e.key, e.hash);
      assert table.elements + {e} == old(table.elements);
      Known();
      FinishErase(e, table.elements);
    }

    method Prune()
      requires Inv()
      modifies `lruRing, `inUseRing, `usage, `erased, `deleted, table, table.list, table.elements, lru, inUse
      ensures Inv() && Items(lruRing) == [] && Items(inUseRing) == old(Items(inUseRing)) && erased == old(erased)
      ensures deleted == old(deleted) + old(Items(lruRing))
      ensures forall e :: e in table.elements <==> e in old(table.elements) && e !in old(Items(lruRing))
    {
      hide Rings, Outside, HandleTable.Inv, Minus, Items;
      ghost var all, n := Items(lruRing), 0;
      Oldest(table.elements);
      while lru.next != lru
        invariant Inv() && n <= |all| && Items(lruRing) == all[n..] && (lru.next != lru <==> n < |all|)
        invariant Items(inUseRing) == old(Items(inUseRing)) && erased == old(erased) && deleted == old(deleted) + all[..n]
        invariant table.elements <= old(table.elements) && table.list == old(table.list)
        invariant forall e :: e in table.elements <==> e in old(table.elements) && e !in all[..n]
        decreases |all| - n
      {
        EvictOldest();
        Oldest(table.elements);
        assert all[..n + 1] == all[..n] + [all[n]];
        n := n + 1;
      }
      assert all[..n] == all;
    }

    /** The loop of Insert: the oldest entries leave, as long as too much is used. */
    method EvictUntilFits() returns (ghost n: nat)
      requires Inv()
      modifies `lruRing, `inUseRing, `usage, `erased, `deleted, table, table.list, table.elements, lru, inUse
      ensures Inv() && n <= |old(Items(lruRing))| && (usage <= capacity || Items(lruRing) == [])
      ensures Items(lruRing) == old(Items(lruRing))[n..] && Items(inUseRing) == old(Items(inUseRing))
      ensures deleted == old(deleted) + old(Items(lruRing))[..n] && erased == old(erased)
      ensures n > 0 ==> usage + old(Items(lruRing))[n - 1].charge > capacity
      ensures forall e :: e in table.elements <==> e in old(table.elements) && e !in old(Items(lruRing))[..n]
      ensures forall g :: g in table.elements ==> g.refs == old(g.refs)
    {
      hide Rings, Outside, HandleTable.Inv, Minus, Items;
      ghost var all := Items(lruRing);
      n := 0;
      Oldest(table.elements);
      while usage > capacity && lru.next != lru
        invariant Inv() && n <= |all| && Items(lruRing) == all[n..] && (lru.next != lru <==> n < |all|)
        invariant Items(inUseRing) == old(Items(inUseRing)) && erased == old(erased) && deleted == old(deleted) + all[..n]
        invariant table.elements <= old(table.elements) && table.list == old(table.list)
        invariant forall e :: e in table.elements <==> e in old(table.elements) && e !in all[..n]
        invariant n > 0 ==> usage + all[n - 1].charge > capacity
        invariant forall g :: g in table.elements ==> g.refs == old(g.refs)
        decreases |all| - n
      {
        EvictOldest();
        Oldest(table.elements);
        assert all[..n + 1] == all[..n] + [all[n]];
        n := n + 1;
      }
    }

    /** The handle that a client gets counts as one more reference. */
    method Lookup(key: Bytes, hash: nat) returns (e: LRUHandle?)
      requires Inv()
      modifies `lruRing, `inUseRing, table.elements, lru, inUse
      ensures Inv() && table.elements == old(table.elements)
      ensures e == null ==> (forall g :: g in table.elements ==> !Matches(g, key, hash))
      ensures e == null ==> lruRing == old(lruRing) && inUseRing == old(inUseRing)
      ensures e != null ==> e in table.elements && Matches(e, key, hash) && e.refs == old(e.refs) + 1
      ensures e != null ==> Items(lruRing) == Minus(old(Items(lruRing)), e)
      ensures e != null && old(e.refs) == 1 ==> Items(inUseRing) == old(Items(inUseRing)) + [e]
      ensures e != null && old(e.refs) > 1 ==> Items(inUseRing) == old(Items(inUseRing))
    {
      hide Rings, Outside, HandleTable.Inv, Minus;
      NodesAreCached(table.elements);
      e := table.Lookup(key, hash);
      if e != null {
        Known();
        Ref(e, table.elements);
      }
    }

    /** A client gives a handle back. */
    method Release(e: LRUHandle)
      requires Inv() && (e in erased || e in Items(inUseRing))
      modifies `lruRing, `inUseRing, `erased, `deleted, table.elements, lru, inUse, e
      ensures Inv() && table.elements == old(table.elements) && e.refs == old(e.refs) - 1
      ensures e in old(erased) ==> lruRing == old(lruRing) && inUseRing == old(inUseRing)
      ensures e in old(erased) && e.refs == 0 ==> deleted == old(deleted) + [e] && erased == old(erased) - {e}
      ensures e !in old(erased) || e.refs > 0 ==> deleted == old(deleted) && erased == old(erased)
      ensures e !in old(erased) && e.refs == 1 ==>
        Items(lruRing) == old(Items(lruRing)) + [e] && Items(inUseRing) == Minus(old(Items(inUseRing)), e)
      ensures e !in old(erased) && e.refs > 1 ==> lruRing == old(lruRing) && inUseRing == old(inUseRing)
    {
      hide Rings, Outside, HandleTable.Inv, Minus;
      NodesAreCached(table.elements);
      Known();
      Unref(e, table.elements);
    }

    method Erase(key: Bytes, hash: nat) returns (ghost e: LRUHandle?)
      requires Inv()
      modifies `lruRing, `inUseRing, `usage, `erased, `deleted, table, table.list, table.elements, lru, inUse
      ensures Inv() && forall g :: g in table.elements ==> !Matches(g, key, hash)
      ensures e == null ==> table.elements == old(table.elements) && lruRing == old(lruRing) && inUseRing == old(inUseRing)
      ensures e == null ==> deleted == old(deleted) && erased == old(erased)
      ensures e != null ==> e in old(table.elements) && Matches(e, key, hash) && IsErased(e, old(table.elements), old(e.refs),
        old(Items(lruRing)), old(Items(inUseRing)), old(deleted), old(erased))
    {
      hide Rings, Outside, HandleTable.Inv, Minus, Matches;
      NodesAreCached(table.elements);
      OnlyOneMatches(key, hash);
      var found := TakeFromTable(key, hash);
      e := found;
      if found != null {
        assert table.elements + {found} == old(table.elements);
        EraseTaken(found);
      }
    }

    /** An entry left the cache: its deleter ran if no client held it. */
    ghost predicate IsErased(e: LRUHandle, elements: set<LRUHandle>, refs: nat, unused: seq<LRUHandle>, used: seq<LRUHandle>,
                             before: seq<LRUHandle>, held: set<LRUHandle>)
      reads `lruRing, `inUseRing, `deleted, `erased, table`elements
    {
      && table.elements == elements - {e} && Items(lruRing) == Minus(unused, e) && Items(inUseRing) == Minus(used, e)
      && if refs == 1 then deleted == before + [e] && erased == held else deleted == before && erased == held + {e}
    }

    method EraseTaken(e: LRUHandle)
      requires table.Inv() && e !in table.elements && Rings(table.elements + {e}) && Outside(table.elements + {e})
      modifies `lruRing, `inUseRing, `usage, `erased, `deleted, Nodes()`next, Nodes()`prev, e`refs, e`inCache
      ensures Inv() && IsErased(e, table.elements + {e}, old(e.refs), old(Items(lruRing)), old(Items(inUseRing)), old(deleted), old(erased))
      ensures usage + e.charge == old(usage)
    {
      hide Rings, Outside, HandleTable.Inv, Minus;
      Known();
      FinishErase(e, table.elements);
    }

    /** The cache takes its own reference to a new entry, which a client holds as well. */
    method Enter(e: LRUHandle, ghost cached: set<LRUHandle>)
      requires Rings(cached) && Outside(cached) && e !in cached && e !in erased && e !in deleted && e != lru && e != inUse
      requires e.refs == 1
      modifies `lruRing, `inUseRing, `usage, `entries, Nodes()`next, Nodes()`prev, e`next, e`prev, e`refs, e`inCache
      ensures Rings(cached + {e}) && Outside(cached + {e}) && e.refs == 2 && usage == old(usage) + e.charge
      ensures entries == old(entries) + {e}
      ensures Items(lruRing) == old(Items(lruRing)) && Items(inUseRing) == old(Items(inUseRing)) + [e]
    {
      hide Shape, Charges, Distinct, Set, Gone, Items;
      NotOnRings(cached, e);
      StillGone(cached, e);
      ghost var unused, used := Items(lruRing), Items(inUseRing);
      e.refs := e.refs + 1;
      e.inCache := true;
      PutOn(e, true);
      usage := usage + e.charge;
      entries := entries + {e};
      Entered(e, cached, used);
    }

    lemma NotOnRings(cached: set<LRUHandle>, e: LRUHandle)
      requires Rings(cached) && e !in cached && e != lru && e != inUse
      ensures e !in lruRing && e !in inUseRing && e !in Items(lruRing) && e !in Items(inUseRing)
    {
      hide Charges, Ring, Distinct;
      NodesAreCached(cached);
      assert Nodes() <= cached + {lru, inUse};
    }

    lemma Entered(e: LRUHandle, cached: set<LRUHandle>, used: seq<LRUHandle>)
      requires Shape() && lru !in cached && inUse !in cached && e != lru && e != inUse && e.inCache && e.refs == 2
      requires Items(inUseRing) == used + [e] && OnRing(Items(lruRing), cached, false) && OnRing(used, cached, true)
      requires forall g :: g in cached ==> g in Items(lruRing) || g in used
      requires usage == Charges(Items(lruRing)) + Charges(used) + e.charge
      ensures Rings(cached + {e})
    {
      hide Shape, Charges, Items;
      ChargesAppend(used, e);
    }

    /** The table's part of an insertion; what it replaces is still on its ring. */
    method PutInTable(e: LRUHandle, ghost cached: set<LRUHandle>) returns (o: LRUHandle?)
      requires table.Inv() && e !in table.elements && cached == table.elements + {e} && Rings(cached) && Outside(cached)
      modifies table, table.list, table.elements`nextHash, e`nextHash
      ensures table.Inv() && Rings(cached) && Outside(cached) && PlacedIs(old(table.elements), table.elements, o, e)
      ensures table.list == old(table.list) || fresh(table.list)
    {
      hide Rings, Outside, HandleTable.Inv, PlacedIs;
      Known();
      o := table.Insert(e);
    }

    function WithoutIt(items: seq<LRUHandle>, o: LRUHandle?): seq<LRUHandle> {
      if o == null then items else Minus(items, o)
    }

    /** Adds `e` to the cache, in the place of the entry `o` with its key, if there is one. */
    method AddToCache(e: LRUHandle) returns (o: LRUHandle?)
      requires Inv() && e !in table.elements && e !in erased && e !in deleted && e != lru && e != inUse && e.refs == 1
      modifies `lruRing, `inUseRing, `usage, `entries, `erased, `deleted, table, table.list, table.elements, lru, inUse, e
      ensures Inv() && e.refs == 2 && (table.list == old(table.list) || fresh(table.list))
      ensures PlacedIs(old(table.elements), table.elements, o, e)
      ensures Items(lruRing) == WithoutIt(old(Items(lruRing)), o) && Items(inUseRing) == WithoutIt(old(Items(inUseRing)) + [e], o)
      ensures deleted == old(deleted) + (if o != null && old(o.refs) == 1 then [o] else [])
      ensures erased == old(erased) + (if o != null && old(o.refs) > 1 then {o} else {})
      ensures e in table.elements && e !in Items(lruRing) && entries == old(entries) + {e}
    {
      hide Rings, Outside, HandleTable.Inv, Minus, SameId;
      ghost var cached := table.elements + {e};
      NodesAreCached(table.elements);
      RefsArePositive();
      Known();
      Enter(e, table.elements);
      NodesAreCached(cached);
      o := PutInTable(e, cached);
      if o != null {
        assert table.elements + {o} == cached && o !in table.elements;
        Known();
        FinishErase(o, table.elements);
      } else {
        assert table.elements == cached;
      }
      NotUnused(e);
    }

    lemma NotUnused(e: LRUHandle)
      requires Rings(table.elements) && e in table.elements && e.refs == 2
      ensures e !in Items(lruRing)
    {
      hide Ring, Charges;
    }

    lemma RefsArePositive()
      requires Rings(table.elements)
      ensures forall e :: e in table.elements ==> e.refs >= 1
    {
      hide Ring, Charges;
    }

    /** The caller gets a handle to a new entry; with no capacity, nothing else has one. */
    method Insert(key: Bytes, hash: nat, value: nat, charge: nat) returns (e: LRUHandle, ghost o: LRUHandle?, ghost n: nat)
      requires Inv()
      modifies this, table, table.list, table.elements, lru, inUse
      ensures Inv() && fresh(e) && e.key == key && e.hash == hash && e.value == value && e.charge == charge
      ensures entries == old(entries) + {e} && capacity == old(capacity) && (usage <= capacity || Items(lruRing) == [])
      ensures capacity > 0 ==> e in table.elements && e.refs == 2 && (o != null ==> o in old(table.elements) && SameId(o, e))
      ensures capacity == 0 ==> o == null && e in erased && e.refs == 1 && Items(inUseRing) == old(Items(inUseRing))
      ensures capacity > 0 ==> Items(inUseRing) == WithoutIt(old(Items(inUseRing)) + [e], o)
      ensures var unused := WithoutIt(old(Items(lruRing)), o);
        && n <= |unused| && Items(lruRing) == unused[n..]
        && deleted == old(deleted) + (if o != null && old(o.refs) == 1 then [o] else []) + unused[..n]
        && (n > 0 ==> usage + unused[n - 1].charge > capacity)
    {
      hide Rings, Outside, HandleTable.Inv, Minus, SameId, Items, WithoutIt;
      e := NewEntry(key, hash, value, charge);
      o := null;
      if capacity > 0 {
        o := AddToCache(e);
      } else {
        Hand(e);
        NothingReplaced(Items(lruRing));
      }
      n := EvictUntilFits();
    }

    lemma NothingReplaced(items: seq<LRUHandle>)
      ensures WithoutIt(items, null) == items
    {
    }

    method NewEntry(key: Bytes, hash: nat, value: nat, charge: nat) returns (e: LRUHandle)
      requires Inv()
      ensures Inv() && fresh(e) && e.key == key && e.hash == hash && e.value == value && e.charge == charge
      ensures !e.inCache && e.refs == 1
    {
      hide Rings, Outside, HandleTable.Inv;
      Known();
      e := new LRUHandle(key, hash, value, charge);
    }

    /** With no capacity a new entry is only the client's. */
    method Hand(e: LRUHandle)
      requires Inv() && e !in table.elements && e !in erased && e !in deleted && e != lru && e != inUse && e.refs == 1 && !e.inCache
      modifies `erased, `entries
      ensures Inv() && erased == old(erased) + {e} && entries == old(entries) + {e}
    {
      hide Rings, HandleTable.Inv;
      erased, entries := erased + {e}, entries + {e};
    }

    lemma NotEmpty()
      requires Shape()
      ensures lruRing != [] && inUseRing != []
    {
    }
  }

  lemma RingIsDistinct(ring: seq<LRUHandle>)
    requires Ring(ring)
    ensures ring != [] && Distinct(ring)
  {
  }

  lemma TakenOff(ring: seq<LRUHandle>, other: seq<LRUHandle>, k: nat)
    requires ring != [] && Distinct(ring) && other != [] && k < |Items(ring)|
    requires Separate(ring, other) && Separate(other, ring)
    ensures k + 1 < |ring| && ring[k + 1] == Items(ring)[k]
    ensures Without(ring, k + 1)[0] == ring[0] && Items(Without(ring, k + 1)) == Minus(Items(ring), Items(ring)[k])
    ensures Items(other) == Minus(Items(other), Items(ring)[k])
    ensures ring[k + 1] !in Without(ring, k + 1) && ring[k + 1] !in other && forall n :: n in Without(ring, k + 1) ==> n in ring
    ensures Separate(Without(ring, k + 1), other) && Separate(other, Without(ring, k + 1))
  {
    hide Minus, Separate, Distinct;
    RingItems(ring);
    MinusIsWithout(Items(ring), k);
    assert Items(Without(ring, k + 1)) == Without(Items(ring), k);
    assert Items(ring)[k] !in Items(other) by { NotInOther(ring, other, k + 1); }
    MinusOther(Items(other), Items(ring)[k]);
    WithoutIsSeparate(ring, other, k + 1);
    WithoutHas(ring, k + 1);
    assert ring[k + 1] !in other by { InSeparate(ring, other, k + 1); }
  }

  lemma InSeparate(ring: seq<LRUHandle>, other: seq<LRUHandle>, k: nat)
    requires k < |ring| && Separate(ring, other)
    ensures ring[k] !in other
  {
  }

  lemma AbsentFrom(ring: seq<LRUHandle>, other: seq<LRUHandle>, e: LRUHandle)
    requires ring != [] && other != [] && Separate(ring, other) && e in Items(ring)
    ensures Minus(Items(other), e) == Items(other)
  {
    hide Minus, Separate;
    var k: nat :| k < |Items(ring)| && Items(ring)[k] == e;
    NotInOther(ring, other, k + 1);
    MinusOther(Items(other), e);
  }

  lemma NotInOther(ring: seq<LRUHandle>, other: seq<LRUHandle>, k: nat)
    requires k < |ring| && other != [] && Separate(ring, other)
    ensures ring[k] !in Items(other)
  {
    assert other == [other[0]] + Items(other);
  }

  lemma WithoutIsSeparate(ring: seq<LRUHandle>, other: seq<LRUHandle>, k: nat)
    requires Distinct(ring) && k < |ring| && Separate(ring, other) && Separate(other, ring)
    ensures Separate(Without(ring, k), other) && Separate(other, Without(ring, k))
  {
    hide Distinct;
    WithoutHas(ring, k);
    var less := Without(ring, k);
    forall i | 0 <= i < |less|
      ensures less[i] !in other
    {
      assert less[i] == ring[if i < k then i else i + 1];
    }
  }
}

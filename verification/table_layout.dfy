/** What a table holds: sorted blocks, and an index key between each block and the next.  A
    search of the index and then of one block finds the newest visible entry of a user key. */
module TableLayout {
  import opened InternalKey
  import opened Sequences
  import opened ByteKeys
  import opened BlockFormat
  import opened Blocks
  import opened TableFormat

  /** The data blocks, in order, with the handle and the index key of each. */
  datatype Layout = Layout(blocks: seq<seq<KeyValue>>, handles: seq<BlockHandle>, separators: seq<Bytes>)

  const KEY_ORDER: Order := (a, b) => KeyLess(a, b)

  lemma KeyOrderIsTransitive()
    ensures Transitive(KEY_ORDER)
  {
    forall a, b, c | KeyLess(a, b) && KeyLess(b, c)
      ensures KeyLess(a, c)
    {
      KeyLessChains(a, b, c);
    }
  }

  /** All keys are internal keys. */
  ghost predicate AllKeys(entries: seq<KeyValue>) {
    forall e :: e in entries ==> IsKey(e.key)
  }

  /** `sep` is not before the block. */
  ghost predicate Covers(block: seq<KeyValue>, sep: Bytes) {
    IsKey(sep) && forall e :: e in block ==> IsKey(e.key) && !KeyLess(sep, e.key)
  }

  /** `sep` is before a later key; unless it is a key of the block, even its user key is. */
  ghost predicate SepBefore(block: seq<KeyValue>, sep: Bytes, key: Bytes) {
    && IsKey(sep) && IsKey(key) && KeyLess(sep, key)
    && ((exists l :: l in block && l.key == sep) || Less(UserPart(sep), UserPart(key)))
  }

  ghost predicate EndsBefore(block: seq<KeyValue>, sep: Bytes, later: seq<KeyValue>) {
    forall e :: e in later ==> SepBefore(block, sep, e.key)
  }

  ghost predicate WellFormed(t: Layout) {
    && |t.handles| == |t.blocks| == |t.separators|
    && (forall i :: 0 <= i < |t.blocks| ==> SortedBy(t.blocks[i], KEY_ORDER) && Covers(t.blocks[i], t.separators[i]))
    && forall i, j :: 0 <= i < j < |t.blocks| ==>
         EndsBefore(t.blocks[i], t.separators[i], t.blocks[j]) && KeyLess(t.separators[i], t.separators[j])
  }

  function IndexEntries(t: Layout): (r: seq<KeyValue>)
    requires |t.handles| == |t.separators|
    ensures |r| == |t.separators|
  {
    seq(|t.separators|, i requires 0 <= i < |t.separators| => KeyValue(t.separators[i], EncodeHandle(t.handles[i])))
  }

  // ----- The search -----

  /** The block of the index entry at or after `k`, and the place in it. */
  ghost predicate Searches(t: Layout, k: Bytes, i: nat, at: nat)
    requires |t.handles| == |t.separators| == |t.blocks|
  {
    && IsFirstFrom(IndexEntries(t), KEY_ORDER, k, i)
    && (i < |t.blocks| ==> IsFirstFrom(t.blocks[i], KEY_ORDER, k, at))
  }

  lemma {:induction false} InFlat(blocks: seq<seq<KeyValue>>, e: KeyValue) returns (i: nat)
    requires e in Flatten(blocks)
    ensures i < |blocks| && e in blocks[i]
  {
    var init := blocks[..|blocks| - 1];
    if e in Flatten(init) {
      i := InFlat(init, e);
    } else {
      i := |blocks| - 1;
    }
  }

  lemma {:induction false} FlatHas(blocks: seq<seq<KeyValue>>, i: nat, e: KeyValue)
    requires i < |blocks| && e in blocks[i]
    ensures e in Flatten(blocks)
  {
    var init := blocks[..|blocks| - 1];
    if i < |init| {
      FlatHas(init, i, e);
    }
  }

  /** An entry of the user key of `k`, not before `k`, is in the block that the index leads to. */
  lemma InSearchedBlock(t: Layout, k: Bytes, i: nat, j: nat, e: KeyValue)
    requires WellFormed(t) && IsKey(k) && IsFirstFrom(IndexEntries(t), KEY_ORDER, k, i)
    requires j < |t.blocks| && e in t.blocks[j] && !KeyLess(e.key, k) && UserPart(e.key) == UserPart(k)
    ensures i <= j
    ensures i < j ==> exists l :: l in t.blocks[i] && l.key == t.separators[i] && !KeyLess(l.key, k)
  {
    hide KeyLess, Covers, EndsBefore;
    var index := IndexEntries(t);
    assert Covers(t.blocks[j], t.separators[j]);
    assert !KeyLess(t.separators[j], e.key) && IsKey(e.key) && IsKey(t.separators[j]) by { CoversEach(t.blocks[j], t.separators[j], e); }
    if j < i {
      assert index[j].key == t.separators[j] && KeyLess(t.separators[j], k);
      Sandwich(t.separators[j], e.key, k);
    } else if i < j {
      assert EndsBefore(t.blocks[i], t.separators[i], t.blocks[j]);
      assert index[i].key == t.separators[i] && !KeyLess(t.separators[i], k);
      SameUserThrough(t.blocks[i], t.separators[i], t.blocks[j], e, k);
    }
  }

  lemma CoversEach(block: seq<KeyValue>, sep: Bytes, e: KeyValue)
    requires Covers(block, sep) && e in block
    ensures !KeyLess(sep, e.key) && IsKey(e.key) && IsKey(sep)
  {
  }

  /** Keys that are not after each other in a circle cannot be. */
  lemma Sandwich(sep: Bytes, e: Bytes, k: Bytes)
    requires IsKey(sep) && IsKey(e) && IsKey(k) && !KeyLess(sep, e) && !KeyLess(e, k)
    ensures !KeyLess(sep, k)
  {
    KeyLessChains(e, sep, k);
  }

  lemma SameUserThrough(block: seq<KeyValue>, sep: Bytes, later: seq<KeyValue>, e: KeyValue, k: Bytes)
    requires EndsBefore(block, sep, later) && e in later && IsKey(k) && !KeyLess(sep, k) && UserPart(e.key) == UserPart(k)
    ensures exists l :: l in block && l.key == sep && !KeyLess(l.key, k)
  {
    hide TagOf;
    if Less(UserPart(sep), UserPart(e.key)) {
      assert false;
    }
  }

  /** An entry that a lookup of `k` may return: of its user key, with no greater tag. */
  ghost predicate Sees(k: Bytes, e: KeyValue)
    requires IsKey(k)
  {
    IsKey(e.key) && UserPart(e.key) == UserPart(k) && TagOf(e.key) <= TagOf(k)
  }

  ghost predicate Finds(t: Layout, k: Bytes, i: nat, at: nat)
    requires IsKey(k)
  {
    i < |t.blocks| && at < |t.blocks[i]| && IsKey(t.blocks[i][at].key) && UserPart(t.blocks[i][at].key) == UserPart(k)
  }

  /** `r` is the newest entry that a lookup of `k` may return. */
  ghost predicate IsNewest(entries: seq<KeyValue>, k: Bytes, r: KeyValue)
    requires IsKey(k)
  {
    r in entries && Sees(k, r) && forall e :: e in entries && Sees(k, e) ==> TagOf(e.key) <= TagOf(r.key)
  }

  /** What is not before `k`, and not after an entry of its user key, is of that user key. */
  lemma Between(r: Bytes, e: Bytes, k: Bytes)
    requires IsKey(r) && IsKey(e) && IsKey(k) && !KeyLess(r, k) && (r == e || KeyLess(r, e)) && UserPart(e) == UserPart(k)
    ensures UserPart(r) == UserPart(k) && TagOf(e) <= TagOf(r)
  {
    hide TagOf;
    LessIsTotal(UserPart(r), UserPart(k));
  }

  /** In one block: the first entry from `k` on is at or before any other. */
  lemma FirstIsBefore(block: seq<KeyValue>, k: Bytes, at: nat, e: KeyValue)
    requires SortedBy(block, KEY_ORDER) && IsFirstFrom(block, KEY_ORDER, k, at) && e in block && !KeyLess(e.key, k)
    ensures at < |block| && !KeyLess(block[at].key, k) && (block[at].key == e.key || KeyLess(block[at].key, e.key))
  {
    hide KeyLess;
    var x :| 0 <= x < |block| && block[x] == e;
  }

  lemma SeenIsNotBefore(k: Bytes, e: KeyValue)
    requires IsKey(k) && IsKey(e.key) && UserPart(e.key) == UserPart(k)
    ensures Sees(k, e) <==> !KeyLess(e.key, k)
  {
    hide TagOf;
    LessIsStrict(UserPart(k));
  }

  lemma SeenIsFound(t: Layout, k: Bytes, i: nat, at: nat, e: KeyValue)
    requires WellFormed(t) && IsKey(k) && Searches(t, k, i, at) && e in Flatten(t.blocks) && Sees(k, e)
    ensures Finds(t, k, i, at) && TagOf(e.key) <= TagOf(t.blocks[i][at].key)
  {
    hide KeyLess, Covers, EndsBefore, TagOf, Flatten;
    SeenIsNotBefore(k, e);
    var j := InFlat(t.blocks, e);
    InSearchedBlock(t, k, i, j, e);
    assert SortedBy(t.blocks[i], KEY_ORDER);
    var l := e;
    if i < j {
      l :| l in t.blocks[i] && l.key == t.separators[i] && !KeyLess(l.key, k);
      EarlierBlock(t, i, j, l, e);
    }
    FirstIsBefore(t.blocks[i], k, at, l);
    var r := t.blocks[i][at];
    CoversEach(t.blocks[i], t.separators[i], r);
    KeyLessChains(r.key, l.key, e.key);
    Between(r.key, e.key, k);
  }

  lemma EarlierBlock(t: Layout, i: nat, j: nat, l: KeyValue, e: KeyValue)
    requires WellFormed(t) && i < j < |t.blocks| && l.key == t.separators[i] && e in t.blocks[j]
    ensures KeyLess(l.key, e.key)
  {
    hide KeyLess, Covers;
    assert EndsBefore(t.blocks[i], t.separators[i], t.blocks[j]);
  }

  /** The search finds an entry of the user key just when there is one that is not after the
      snapshot, and then the newest of those. */
  lemma SearchIsNewest(t: Layout, k: Bytes, i: nat, at: nat)
    requires WellFormed(t) && IsKey(k) && Searches(t, k, i, at)
    ensures Finds(t, k, i, at) <==> exists e :: e in Flatten(t.blocks) && Sees(k, e)
    ensures Finds(t, k, i, at) ==> IsNewest(Flatten(t.blocks), k, t.blocks[i][at])
  {
    hide KeyLess, Covers, EndsBefore, TagOf, Flatten;
    forall e | e in Flatten(t.blocks) && Sees(k, e)
      ensures Finds(t, k, i, at) && TagOf(e.key) <= TagOf(t.blocks[i][at].key)
    {
      SeenIsFound(t, k, i, at, e);
    }
    if Finds(t, k, i, at) {
      FlatHas(t.blocks, i, t.blocks[i][at]);
      SeenIsNotBefore(k, t.blocks[i][at]);
    }
  }

  /** There is a place where the keys not before `k` start. */
  lemma {:induction false} FirstExists(block: seq<KeyValue>, less: Order, k: Bytes) returns (at: nat)
    ensures IsFirstFrom(block, less, k, at)
  {
    at := 0;
    while at < |block| && less(block[at].key, k)
      invariant at <= |block| && forall i :: 0 <= i < at ==> less(block[i].key, k)
    {
      at := at + 1;
    }
  }
}

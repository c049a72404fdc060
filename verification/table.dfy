/** Reading a table (table/table.cc): a lookup searches the index, asks the filter and searches
    one block. */
module Tables {
  import opened InternalKey
  import opened Sequences
  import opened Coding
  import opened ByteKeys
  import opened BlockFormat
  import opened Blocks
  import opened Bloom
  import opened TableFormat
  import TableLayout
  import opened TableBuilders
  import opened TableSizes
  import FilterBlock

  const BYTEWISE: Order := (a, b) => Less(a, b)

  lemma BytewiseIsTransitive()
    ensures Transitive(BYTEWISE)
  {
    forall a, b, c | Less(a, b) && Less(b, c)
      ensures Less(a, c)
    {
      LessChains(a, b, c);
    }
  }

  /** No block is too large for its restart points, which are 32 bits wide. */
  ghost predicate Small(p: Parts) {
    && p.index.size < 0x1_0000_0000 && p.metaindex.size < 0x1_0000_0000
    && forall h :: h in p.layout.handles ==> h.size < 0x1_0000_0000
  }

  /** The filter that a reader with this policy finds. */
  ghost function FilterFound(p: Parts, tableName: Bytes, name: Bytes): Option<Bytes> {
    if name == tableName then p.filter else None
  }

  lemma FilterKeyIsInjective(a: Bytes, b: Bytes)
    ensures FilterKey(a) == FilterKey(b) ==> a == b
  {
    assert FilterKey(a)[7..] == a && FilterKey(b)[7..] == b;
  }

  /** A block that is in the file, with its checksum checked or not. */
  lemma IsReadBack(file: Bytes, h: BlockHandle, contents: Bytes)
    requires StoredAt(file, h, contents)
    ensures |contents| == h.size && forall verify: bool :: ReadBlock(file, h, verify) == Some(contents)
  {
    forall verify: bool
      ensures ReadBlock(file, h, verify) == Some(contents)
    {
      ReadWritten(file, h, contents, verify);
    }
  }

  lemma HandleValue(file: Bytes, h: BlockHandle, contents: Bytes)
    requires StoredAt(file, h, contents) && |file| < 0x1_0000_0000_0000_0000
    ensures DecodeHandle(EncodeHandle(h), 0) == Some((h, |EncodeHandle(h)|))
  {
    hide StoredAt, EncodeHandle, DecodeHandle;
    FitsInFile(file, h, contents);
    Whole(EncodeHandle(h));
    HandleRoundTrip(h, EncodeHandle(h), 0);
  }

  /** ReadFilter */
  method ReadFilter(file: Bytes, filterHandleValue: Bytes, paranoidChecks: bool, ghost p: Parts, ghost tableName: Bytes)
      returns (filter: Option<Bytes>)
    requires IsTable(file, p, tableName) && p.filter.Some? && filterHandleValue == EncodeHandle(p.filterHandle)
    ensures filter == p.filter
  {
    hide StoredAt, BlockBytes, ReadBlock, InFile, DecodeHandle, EncodeHandle;
    HandleValue(file, p.filterHandle, p.filter.value);
    var h := DecodeHandle(filterHandleValue, 0);
    if h.None? {
      assert false;
    }
    IsReadBack(file, p.filterHandle, p.filter.value);
    filter := ReadBlock(file, h.value.0, paranoidChecks);
  }

  /** A search of the metaindex, which has one entry or none. */
  lemma MetaPlace(meta: seq<KeyValue>, key: Bytes, at: nat)
    requires |meta| <= 1 && IsFirstFrom(meta, BYTEWISE, key, at) && meta != [] && meta[0].key == key
    ensures at == 0
  {
    LessIsStrict(key);
  }

  /** ReadMeta: the entry of the metaindex under the name of the policy leads to the filter. */
  method ReadMeta(file: Bytes, name: Bytes, paranoidChecks: bool, metaindex: BlockHandle, ghost p: Parts, ghost tableName: Bytes)
      returns (filter: Option<Bytes>)
    requires IsTable(file, p, tableName) && Small(p) && metaindex == p.metaindex
    ensures filter == FilterFound(p, tableName, name)
  {
    hide StoredAt, BlockBytes, ReadBlock, InFile, TableLayout.WellFormed, Less, EncodeHandle, DecodeFooter, FilterKey;
    filter := None;
    IsReadBack(file, metaindex, BlockBytes(p.meta, p.interval));
    var contents := ReadBlock(file, metaindex, paranoidChecks);
    if contents.None? {
      assert false;
    }
    var iter := new Iter(contents.value, BYTEWISE, p.meta, p.interval);
    var key := FilterKey(name);
    BytewiseIsTransitive();
    iter.Seek(key);
    FilterKeyIsInjective(name, tableName);
    if p.meta != [] && p.meta[0].key == key {
      MetaPlace(p.meta, key, iter.at);
    }
    iter.ValidIsAt();
    if iter.Valid() {
      var e := iter.Current();
      if e.key == key {
        filter := ReadFilter(file, e.value, paranoidChecks, p, tableName);
      }
    }
  }

  class Table {
    const file: Bytes
    const policy: BloomFilterPolicy?
    const indexBlock: Bytes
    const filter: Option<Bytes>
    ghost const p: Parts
    ghost const name: Bytes

    ghost predicate Inv() {
      && IsTable(file, p, name) && Small(p) && indexBlock == BlockBytes(TableLayout.IndexEntries(p.layout), 1)
      && (filter.Some? ==> policy != null && FilterCovers(policy, p.layout.blocks, p.layout.handles, filter.value))
    }

    /** Every entry of the table. */
    ghost function Entries(): seq<KeyValue> {
      Flatten(p.layout.blocks)
    }

    constructor (file: Bytes, policy: BloomFilterPolicy?, indexBlock: Bytes, filter: Option<Bytes>, ghost p: Parts, ghost name: Bytes)
      ensures this.file == file && this.policy == policy && this.indexBlock == indexBlock && this.filter == filter
      ensures this.p == p && this.name == name
    {
      this.file, this.policy, this.indexBlock, this.filter, this.p, this.name := file, policy, indexBlock, filter, p, name;
    }

    /** The iterator over the block that an index entry leads to. */
    method BlockReader(indexValue: Bytes, verifyChecksums: bool, ghost i: nat) returns (iter: Iter)
      requires Inv() && i < |p.layout.blocks| && indexValue == EncodeHandle(p.layout.handles[i])
      ensures iter.Inv() && iter.entries == p.layout.blocks[i] && iter.less == TableLayout.KEY_ORDER && fresh(iter)
    {
      hide StoredAt, BlockBytes, ReadBlock, TableLayout.WellFormed, EncodeHandle, DecodeHandle, DecodeFooter, FilterCovers;
      BlockIsStored(i);
      var handle := DecodeHandle(indexValue, 0);
      if handle.None? {
        assert false;
      }
      var contents := ReadBlock(file, handle.value.0, verifyChecksums);
      if contents.None? {
        assert false;
      }
      iter := new Iter(contents.value, TableLayout.KEY_ORDER, p.layout.blocks[i], p.interval);
    }

    lemma BlockIsStored(i: nat)
      requires Inv() && i < |p.layout.blocks|
      ensures p.interval >= 1 && i < |p.layout.handles|
      ensures var h := p.layout.handles[i];
        && DecodeHandle(EncodeHandle(h), 0) == Some((h, |EncodeHandle(h)|))
        && |BlockBytes(p.layout.blocks[i], p.interval)| == h.size < 0x1_0000_0000
        && forall verify: bool :: ReadBlock(file, h, verify) == Some(BlockBytes(p.layout.blocks[i], p.interval))
    {
      hide StoredAt, BlockBytes, ReadBlock, TableLayout.WellFormed, EncodeHandle, DecodeHandle, DecodeFooter, FilterCovers;
      var h, contents := p.layout.handles[i], BlockBytes(p.layout.blocks[i], p.interval);
      assert StoredAt(file, h, contents);
      HandleValue(file, h, contents);
      IsReadBack(file, h, contents);
    }

    /** The index, searched for `k`. */
    method SeekIndex(k: Bytes) returns (iiter: Iter)
      requires Inv() && IsKey(k)
      ensures iiter.Inv() && fresh(iiter) && iiter.entries == TableLayout.IndexEntries(p.layout)
      ensures IsFirstFrom(TableLayout.IndexEntries(p.layout), TableLayout.KEY_ORDER, k, iiter.at)
    {
      hide StoredAt, BlockBytes, ReadBlock, EncodeHandle, DecodeHandle, DecodeFooter, FilterCovers, KeyLess;
      IsReadBack(file, p.index, BlockBytes(TableLayout.IndexEntries(p.layout), 1));
      iiter := new Iter(indexBlock, TableLayout.KEY_ORDER, TableLayout.IndexEntries(p.layout), 1);
      TableLayout.KeyOrderIsTransitive();
      iiter.Seek(k);
    }

    /** Hands over an entry; it is for the user key of `k` just when the table has one that a
        lookup of `k` may return, and then it is the newest of those. */
    method InternalGet(k: Bytes, verifyChecksums: bool) returns (handed: Option<KeyValue>)
      requires Inv() && IsKey(k)
      ensures IsLookup(Entries(), k, handed)
    {
      hide StoredAt, BlockBytes, ReadBlock, EncodeHandle, DecodeHandle, DecodeFooter, FilterCovers, KeyLess, IsTable;
      hide InFile, TableLayout.WellFormed, Flatten, IsLookup, TagOf;
      var iiter := SeekIndex(k);
      ghost var i := iiter.at;
      iiter.ValidIsAt();
      if !iiter.Valid() {
        EndOfIndex(k, i);
        return None;
      }
      var e := iiter.Current();
      IndexValue(i);
      var denied := Denies(e.value, k, i);
      if denied {
        NotInBlock(k, i);
        return None;
      }
      var blockIter := BlockReader(e.value, verifyChecksums, i);
      assert InKeyOrder(p.layout.blocks[i]) by { BlockIsSorted(i); }
      TableLayout.KeyOrderIsTransitive();
      blockIter.Seek(k);
      blockIter.ValidIsAt();
      handed := None;
      if blockIter.Valid() {
        var r := blockIter.Current();
        handed := Some(r);
      }
      InBlock(k, i, blockIter.at);
    }

    lemma IndexValue(i: nat)
      requires Inv() && i < |TableLayout.IndexEntries(p.layout)|
      ensures i < |p.layout.handles| == |p.layout.blocks|
      ensures TableLayout.IndexEntries(p.layout)[i].value == EncodeHandle(p.layout.handles[i])
    {
      hide StoredAt, BlockBytes, EncodeHandle;
    }

    lemma BlockIsSorted(i: nat)
      requires Inv() && i < |p.layout.blocks|
      ensures InKeyOrder(p.layout.blocks[i])
    {
      hide StoredAt, BlockBytes, KeyLess;
    }

    /** The filter, if there is one, excludes the user key from block `i`. */
    method Denies(handleValue: Bytes, k: Bytes, ghost i: nat) returns (denied: bool)
      requires Inv() && IsKey(k) && i < |p.layout.handles| == |p.layout.blocks| && handleValue == EncodeHandle(p.layout.handles[i])
      ensures denied ==> forall e :: e in p.layout.blocks[i] && IsKey(e.key) ==> UserPart(e.key) != UserPart(k)
      ensures denied <==> filter.Some? && !FilterBlock.BlockMayMatch(policy, filter.value, p.layout.handles[i].offset, k)
    {
      hide StoredAt, BlockBytes, ReadBlock, EncodeHandle, DecodeHandle, DecodeFooter, KeyLess, IsTable;
      hide FilterBlock.BlockMayMatch;
      denied := false;
      if filter.Some? {
        var handle := DecodeHandle(handleValue, 0);
        BlockIsStored(i);
        if handle.Some? {
          var mayMatch := FilterBlock.KeyMayMatch(policy, filter.value, handle.value.0.offset, k);
          denied := !mayMatch;
          forall e | e in p.layout.blocks[i] && IsKey(e.key) && UserPart(e.key) == UserPart(k)
            ensures mayMatch
          {
            SameUserMatches(policy, filter.value, p.layout.handles[i].offset, e.key, k);
          }
        }
      }
    }

    lemma EndOfIndex(k: Bytes, i: nat)
      requires Inv() && IsKey(k) && IsFirstFrom(TableLayout.IndexEntries(p.layout), TableLayout.KEY_ORDER, k, i)
      requires i == |TableLayout.IndexEntries(p.layout)|
      ensures IsLookup(Entries(), k, None)
    {
      hide StoredAt, BlockBytes, KeyLess, Flatten, TagOf;
      TableLayout.SearchIsNewest(p.layout, k, i, 0);
    }

    lemma InBlock(k: Bytes, i: nat, at: nat)
      requires Inv() && IsKey(k) && IsFirstFrom(TableLayout.IndexEntries(p.layout), TableLayout.KEY_ORDER, k, i)
      requires i < |p.layout.blocks| && IsFirstFrom(p.layout.blocks[i], TableLayout.KEY_ORDER, k, at)
      ensures IsLookup(Entries(), k, if at < |p.layout.blocks[i]| then Some(p.layout.blocks[i][at]) else None)
    {
      hide StoredAt, BlockBytes, KeyLess, Flatten, TagOf;
      TableLayout.SearchIsNewest(p.layout, k, i, at);
    }

    lemma NotInBlock(k: Bytes, i: nat)
      requires Inv() && IsKey(k) && IsFirstFrom(TableLayout.IndexEntries(p.layout), TableLayout.KEY_ORDER, k, i)
      requires i < |p.layout.blocks|
      requires forall e :: e in p.layout.blocks[i] && IsKey(e.key) ==> UserPart(e.key) != UserPart(k)
      ensures IsLookup(Entries(), k, None)
    {
      hide StoredAt, BlockBytes, KeyLess, Flatten, TagOf;
      var at := TableLayout.FirstExists(p.layout.blocks[i], TableLayout.KEY_ORDER, k);
      TableLayout.SearchIsNewest(p.layout, k, i, at);
    }
  }

  /** What a lookup of `k` among `entries` may hand over. */
  ghost predicate IsLookup(entries: seq<KeyValue>, k: Bytes, handed: Option<KeyValue>)
    requires IsKey(k)
  {
    if handed.Some? && IsKey(handed.value.key) && UserPart(handed.value.key) == UserPart(k)
    then TableLayout.IsNewest(entries, k, handed.value)
    else forall e :: e in entries ==> !TableLayout.Sees(k, e)
  }

  lemma SameUserMatches(policy: BloomFilterPolicy, filter: Bytes, offset: nat, a: Bytes, b: Bytes)
    requires policy.Inv() && IsKey(a) && IsKey(b) && UserPart(a) == UserPart(b)
    ensures FilterBlock.BlockMayMatch(policy, filter, offset, a) == FilterBlock.BlockMayMatch(policy, filter, offset, b)
  {
    hide Power;
  }

  /** Open, on a file that a builder made; a reader that knows the filter's policy uses it. */
  method Open(file: Bytes, policy: BloomFilterPolicy?, name: Bytes, paranoidChecks: bool, ghost p: Parts, ghost tableName: Bytes)
      returns (table: Table)
    requires IsTable(file, p, tableName) && Small(p)
    requires policy != null && FilterFound(p, tableName, name).Some? ==>
      FilterCovers(policy, p.layout.blocks, p.layout.handles, p.filter.value)
    ensures table.Inv() && table.p == p && fresh(table)
    ensures table.filter == if policy != null then FilterFound(p, tableName, name) else None
  {
    hide StoredAt, BlockBytes, ReadBlock, InFile, EncodeHandle, DecodeFooter, FilterCovers, KeyLess;
    var footer := DecodeFooter(file);
    if footer.None? {
      assert false;
    }
    IsReadBack(file, p.index, BlockBytes(TableLayout.IndexEntries(p.layout), 1));
    var contents := ReadBlock(file, footer.value.1, paranoidChecks);
    if contents.None? {
      assert false;
    }
    var filter := None;
    if policy != null {
      filter := ReadMeta(file, name, paranoidChecks, footer.value.0, p, tableName);
    }
    table := new Table(file, policy, contents.value, filter, p, tableName);
  }

  // ----- Building and then looking up -----

  /** A file below 4 GiB has no block that is too large. */
  lemma SmallFile(file: Bytes, p: Parts, name: Bytes)
    requires IsTable(file, p, name) && |file| < 0x1_0000_0000
    ensures Small(p) && (p.filter.Some? ==> |p.filter.value| < 0x1_0000_0000)
  {
    hide StoredAt, BlockBytes, KeyLess;
    var entries := TableLayout.IndexEntries(p.layout);
    StoredStays(file, file, p.index, BlockBytes(entries, 1));
    StoredStays(file, file, p.metaindex, BlockBytes(p.meta, p.interval));
    forall h | h in p.layout.handles
      ensures h.size < 0x1_0000_0000
    {
      var i :| 0 <= i < |p.layout.handles| && p.layout.handles[i] == h;
      StoredStays(file, file, h, BlockBytes(p.layout.blocks[i], p.interval));
    }
    if p.filter.Some? {
      StoredStays(file, file, p.filterHandle, p.filter.value);
      IsReadBack(file, p.filterHandle, p.filter.value);
    }
  }

  ghost predicate CanBeBuilt(entries: seq<KeyValue>) {
    && InKeyOrder(entries)
    && forall e :: e in entries ==> IsKey(e.key) && |e.key| < 0x1_0000_0000 && |e.value| < 0x1_0000_0000
  }

  /** BuildTable (db/builder.cc): adds the entries in order. */
  method BuildTable(entries: seq<KeyValue>, interval: nat, blockSize: nat, policy: BloomFilterPolicy?, name: Bytes, capacity: nat)
      returns (built: bool, file: Bytes, ghost p: Parts)
    requires CanBeBuilt(entries) && interval >= 1 && capacity <= 0x1_0000_0000_0000_0000 && |name| + 7 < 0x1_0000_0000
    requires policy != null ==> policy.Inv()
    ensures built ==> IsTable(file, p, name) && Flatten(p.layout.blocks) == entries
    ensures built ==> |file| < capacity && (p.filter.Some? <==> policy != null)
    ensures built && policy != null && p.filter.Some? && |p.filter.value| < 0x1_0000_0000 ==>
      FilterCovers(policy, p.layout.blocks, p.layout.handles, p.filter.value)
    ensures Bound(entries, policy, name) < capacity ==> built
    ensures built ==> p.interval == interval && CutRight(p.layout.blocks, interval, blockSize)
  {
    hide IsTable, FilterCovers, KeyLess, Flatten, TableBuilder.Inv, TableBuilder.Settled, TableBuilder.Sized, InKeyOrder;
    hide CutWhenFull, CutRight;
    hide Cost, MetaCost;
    BoundCovers(entries, policy, name, 0);
    var builder := new TableBuilder(interval, blockSize, policy, name, capacity);
    for n := 0 to |entries|
      invariant fresh(builder) && fresh(builder.dataBlock) && fresh(builder.indexBlock)
      invariant builder.filterBlock != null ==> fresh(builder.filterBlock)
      invariant !builder.closed && builder.name == name && builder.capacity == capacity && (builder.ok ==> Building(builder, entries[..n]))
      invariant builder.interval == interval && builder.blockSize == blockSize
      invariant builder.Policy() == policy && (Bound(entries, policy, name) < capacity ==> builder.ok)
    {
      PartIsCheaper(entries, n + 1);
      NextKey(builder, entries, n);
      builder.Add(entries[n].key, entries[n].value);
    }
    assert entries[..|entries|] == entries;
    assert builder.ok ==> builder.added == entries;
    p := builder.Finish();
    built, file := builder.ok, builder.file;
  }

  ghost predicate Building(builder: TableBuilder, entries: seq<KeyValue>)
    reads builder, builder.dataBlock, builder.indexBlock, builder.filterBlock
  {
    builder.Inv() && builder.Settled() && builder.Sized() && builder.Cut() && builder.added == entries
  }

  lemma PartIsCheaper(entries: seq<KeyValue>, n: nat)
    requires n <= |entries|
    ensures Cost(entries[..n]) <= Cost(entries)
  {
    hide Cost;
    CostAdds(entries[..n], entries[n..]);
    assert entries[..n] + entries[n..] == entries;
  }

  lemma NextKey(builder: TableBuilder, entries: seq<KeyValue>, n: nat)
    requires CanBeBuilt(entries) && n < |entries| && (builder.ok ==> Building(builder, entries[..n]))
    ensures builder.ok && builder.numEntries > 0 ==> KeyLess(builder.lastKey, entries[n].key)
    ensures entries[n] in entries && entries[..n] + [entries[n]] == entries[..n + 1] && KeyValue(entries[n].key, entries[n].value) == entries[n]
  {
    hide KeyLess, Ordered, InFile, Flatten;
  }

  /** A table that was built, of any size, answers every lookup from the entries it was built from,
      when none of its blocks has 4 GiB or more: its filter and index alike. */
  method OpenThenGet(file: Bytes, policy: BloomFilterPolicy?, name: Bytes, useFilter: bool, k: Bytes, verifyChecksums: bool,
                     ghost entries: seq<KeyValue>, ghost p: Parts)
      returns (handed: Option<KeyValue>)
    requires IsTable(file, p, name) && Flatten(p.layout.blocks) == entries && Small(p) && IsKey(k)
    requires policy != null && p.filter.Some? ==> FilterCovers(policy, p.layout.blocks, p.layout.handles, p.filter.value)
    ensures IsLookup(entries, k, handed)
  {
    hide IsTable, FilterCovers, Flatten, Small;
    var table := Open(file, if useFilter then policy else null, name, verifyChecksums, p, name);
    handed := table.InternalGet(k, verifyChecksums);
  }

  /** BuildTable and a lookup, with any block size and restart interval, with a filter or without. */
  method BuildThenGet(entries: seq<KeyValue>, interval: nat, blockSize: nat, policy: BloomFilterPolicy?, name: Bytes,
                      capacity: nat, useFilter: bool, k: Bytes, verifyChecksums: bool)
      returns (built: bool, file: Bytes, handed: Option<KeyValue>)
    requires CanBeBuilt(entries) && interval >= 1 && capacity <= 0x1_0000_0000 && |name| + 7 < 0x1_0000_0000
    requires IsKey(k) && (policy != null ==> policy.Inv())
    ensures built ==> IsLookup(entries, k, handed)
    ensures Bound(entries, policy, name) < capacity ==> built
  {
    hide IsTable, FilterCovers, Flatten, Small;
    ghost var p;
    built, file, p := BuildTable(entries, interval, blockSize, policy, name, capacity);
    handed := None;
    if built {
      SmallFile(file, p, name);
      handed := OpenThenGet(file, policy, name, useFilter, k, verifyChecksums, entries, p);
    }
  }

  /** In terms of sequence numbers: a lookup of a snapshot sees what is not newer. */
  lemma SeesSnapshot(user: Bytes, snapshot: nat, e: KeyValue)
    requires snapshot <= MAX_SEQUENCE_NUMBER && IsKey(e.key) && TagOf(e.key) % 256 <= 1
    ensures TableLayout.Sees(MakeKey(user, snapshot * 256 + 1), e)
       <==> UserPart(e.key) == user && TagOf(e.key) / 256 <= snapshot
  {
    hide TagOf, MakeKey;
    KeyParts(user, snapshot * 256 + 1);
  }
}

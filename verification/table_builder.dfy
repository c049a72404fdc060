/** Building a table (table/table_builder.cc): data blocks, then the filter, the metaindex, the
    index and the footer.  The index entry of a block waits for the first key of the next block. */
module TableBuilders {
  import opened InternalKey
  import opened Sequences
  import opened ByteKeys
  import opened BlockFormat
  import opened BlockBuilders
  import opened TableFormat
  import opened TableLayout
  import opened Checksums
  import opened TableSizes
  import Blocks
  import Bloom
  import Crc32c
  import FilterBlock

  // ----- What a table file holds -----

  /** The parts of a file: the data blocks, and what the metaindex says of a filter. */
  datatype Parts = Parts(layout: Layout, interval: nat, meta: seq<KeyValue>, filter: Option<Bytes>,
                         filterHandle: BlockHandle, metaindex: BlockHandle, index: BlockHandle)

  ghost predicate InFile(file: Bytes, blocks: seq<seq<KeyValue>>, handles: seq<BlockHandle>, interval: nat)
    requires interval >= 1
  {
    |handles| == |blocks| && forall i :: 0 <= i < |blocks| ==> StoredAt(file, handles[i], BlockBytes(blocks[i], interval))
  }

  function IndexOf(separators: seq<Bytes>, handles: seq<BlockHandle>): (r: seq<KeyValue>)
    requires |separators| <= |handles|
    ensures |r| == |separators|
  {
    seq(|separators|, i requires 0 <= i < |separators| => KeyValue(separators[i], EncodeHandle(handles[i])))
  }

  /** "filter." and the name of the policy. */
  function FilterKey(name: Bytes): Bytes {
    [102, 105, 108, 116, 101, 114, 46] + name
  }

  ghost predicate IsTable(file: Bytes, p: Parts, name: Bytes) {
    && p.interval >= 1 && WellFormed(p.layout) && |file| < 0x1_0000_0000_0000_0000
    && InFile(file, p.layout.blocks, p.layout.handles, p.interval)
    && StoredAt(file, p.index, BlockBytes(IndexEntries(p.layout), 1))
    && StoredAt(file, p.metaindex, BlockBytes(p.meta, p.interval))
    && DecodeFooter(file) == Some((p.metaindex, p.index))
    && (p.filter.None? ==> p.meta == [])
    && (p.filter.Some? ==>
          && StoredAt(file, p.filterHandle, p.filter.value)
          && p.meta == [KeyValue(FilterKey(name), EncodeHandle(p.filterHandle))])
  }

  /** No key of a block is missed by the filter, under the offset of the block. */
  ghost predicate FilterCovers(policy: Bloom.BloomFilterPolicy, blocks: seq<seq<KeyValue>>, handles: seq<BlockHandle>,
                               filter: Bytes) {
    policy.Inv() && |handles| == |blocks| && forall i, e :: 0 <= i < |blocks| && e in blocks[i] ==>
      FilterBlock.BlockMayMatch(policy, filter, handles[i].offset, e.key)
  }

  // ----- The order of blocks and index keys -----

  /** Between the index keys so far, the blocks so far and the entries of the next block. */
  ghost predicate Ordered(blocks: seq<seq<KeyValue>>, separators: seq<Bytes>, tail: seq<KeyValue>) {
    && |separators| <= |blocks| && AllKeys(tail) && InKeyOrder(tail)
    && (forall i :: 0 <= i < |blocks| ==> blocks[i] != [] && AllKeys(blocks[i]) && InKeyOrder(blocks[i]))
    && (forall i :: 0 <= i < |separators| ==> Covers(blocks[i], separators[i]) && EndsBefore(blocks[i], separators[i], tail))
    && forall i, j :: 0 <= i < |separators| && i < j < |blocks| ==> EndsBefore(blocks[i], separators[i], blocks[j])
  }

  ghost predicate InKeyOrder(entries: seq<KeyValue>) {
    Blocks.SortedBy(entries, KEY_ORDER)
  }

  /** A key may come next. */
  ghost predicate Follows(blocks: seq<seq<KeyValue>>, separators: seq<Bytes>, key: Bytes)
    requires |separators| <= |blocks|
  {
    IsKey(key) && forall i :: 0 <= i < |separators| ==> SepBefore(blocks[i], separators[i], key)
  }

  lemma SortedGrows(entries: seq<KeyValue>, e: KeyValue)
    requires InKeyOrder(entries) && (entries != [] ==> KeyLess(entries[|entries| - 1].key, e.key))
    ensures InKeyOrder(entries + [e])
  {
    hide KeyLess;
    forall i | 0 <= i < |entries|
      ensures KeyLess(entries[i].key, e.key)
    {
      KeyLessChains(entries[i].key, entries[|entries| - 1].key, e.key);
    }
  }

  lemma LastIsGreatest(block: seq<KeyValue>, e: KeyValue)
    requires InKeyOrder(block) && e in block
    ensures !KeyLess(block[|block| - 1].key, e.key)
  {
    hide KeyLess;
    var x :| 0 <= x < |block| && block[x] == e;
    KeyLessIsStrict(block[x].key, block[|block| - 1].key);
  }

  lemma SepBeforeLater(block: seq<KeyValue>, sep: Bytes, key: Bytes, later: Bytes)
    requires SepBefore(block, sep, key) && KeyLess(key, later)
    ensures SepBefore(block, sep, later)
  {
    hide TagOf;
    KeyLessChains(sep, key, later);
    LessChains(UserPart(sep), UserPart(key), UserPart(later));
  }

  /** A key after the last one of the block being built may follow. */
  lemma TailFollows(blocks: seq<seq<KeyValue>>, separators: seq<Bytes>, tail: seq<KeyValue>, key: Bytes)
    requires Ordered(blocks, separators, tail) && IsKey(key)
    requires if tail == [] then separators == [] else KeyLess(tail[|tail| - 1].key, key)
    ensures Follows(blocks, separators, key)
  {
    hide KeyLess, SepBefore, InKeyOrder, Covers;
    forall i | 0 <= i < |separators|
      ensures SepBefore(blocks[i], separators[i], key)
    {
      SepBeforeLater(blocks[i], separators[i], tail[|tail| - 1].key, key);
    }
  }

  /** A separator found for the last block and the next key. */
  lemma SeparatorFits(blocks: seq<seq<KeyValue>>, separators: seq<Bytes>, sep: Bytes, key: Bytes)
    requires Ordered(blocks, separators, []) && |blocks| == |separators| + 1
    requires var block := blocks[|separators|];
      var last := block[|block| - 1].key;
      && KeyLess(last, key) && IsKey(key) && IsKey(sep) && !KeyLess(sep, last) && KeyLess(sep, key)
      && (sep == last || Less(UserPart(sep), UserPart(key)))
    ensures Ordered(blocks, separators + [sep], []) && Follows(blocks, separators + [sep], key)
  {
    hide KeyLess, SepBefore, InKeyOrder, Covers, TagOf;
    var block := blocks[|separators|];
    var last := block[|block| - 1];
    LastBlockCovered(block, sep);
    assert SepBefore(block, sep, key) by { SepBeforeKey(block, sep, key); }
    forall i | 0 <= i < |separators|
      ensures SepBefore(blocks[i], separators[i], key)
    {
      assert EndsBefore(blocks[i], separators[i], block);
      SepBeforeLater(blocks[i], separators[i], last.key, key);
    }
  }

  lemma SepBeforeKey(block: seq<KeyValue>, sep: Bytes, key: Bytes)
    requires block != [] && IsKey(sep) && KeyLess(sep, key)
    requires sep == block[|block| - 1].key || Less(UserPart(sep), UserPart(key))
    ensures SepBefore(block, sep, key)
  {
    hide TagOf;
    if sep == block[|block| - 1].key {
      assert block[|block| - 1] in block;
    }
  }

  lemma LastBlockCovered(block: seq<KeyValue>, sep: Bytes)
    requires block != [] && InKeyOrder(block) && AllKeys(block) && IsKey(sep) && !KeyLess(sep, block[|block| - 1].key)
    ensures Covers(block, sep)
  {
    hide KeyLess;
    forall e | e in block
      ensures !KeyLess(sep, e.key)
    {
      LastIsGreatest(block, e);
      assert block[|block| - 1] in block;
      KeyLessChains(sep, e.key, block[|block| - 1].key);
    }
  }

  /** One more entry in the block being built. */
  lemma TailGrows(blocks: seq<seq<KeyValue>>, separators: seq<Bytes>, tail: seq<KeyValue>, e: KeyValue)
    requires Ordered(blocks, separators, tail) && Follows(blocks, separators, e.key)
    requires tail != [] ==> KeyLess(tail[|tail| - 1].key, e.key)
    ensures Ordered(blocks, separators, tail + [e])
  {
    hide KeyLess, SepBefore, Covers;
    SortedGrows(tail, e);
  }

  lemma TailBecomesBlock(blocks: seq<seq<KeyValue>>, separators: seq<Bytes>, tail: seq<KeyValue>)
    requires Ordered(blocks, separators, tail) && tail != [] && |separators| == |blocks|
    ensures Ordered(blocks + [tail], separators, [])
  {
    hide KeyLess, SepBefore, Covers;
  }

  /** The last index key is only not before its block. */
  lemma LastSeparator(blocks: seq<seq<KeyValue>>, separators: seq<Bytes>, sep: Bytes)
    requires Ordered(blocks, separators, []) && |blocks| == |separators| + 1 && IsKey(sep)
    requires var block := blocks[|separators|]; !KeyLess(sep, block[|block| - 1].key)
    ensures Ordered(blocks, separators + [sep], [])
  {
    hide KeyLess, SepBefore, InKeyOrder, Covers;
    LastBlockCovered(blocks[|separators|], sep);
  }

  lemma SeparatorsAscend(blocks: seq<seq<KeyValue>>, separators: seq<Bytes>, i: nat, j: nat)
    requires Ordered(blocks, separators, []) && i < j < |separators|
    ensures KeyLess(separators[i], separators[j])
  {
    hide KeyLess, InKeyOrder;
    var e := blocks[j][0];
    assert EndsBefore(blocks[i], separators[i], blocks[j]) && Covers(blocks[j], separators[j]) && e in blocks[j];
    KeyLessChains(separators[i], e.key, separators[j]);
  }

  lemma LayoutIsWellFormed(t: Layout)
    requires Ordered(t.blocks, t.separators, []) && |t.handles| == |t.separators| == |t.blocks|
    ensures WellFormed(t)
  {
    hide KeyLess, SepBefore, Covers;
    forall i, j | 0 <= i < j < |t.blocks|
      ensures KeyLess(t.separators[i], t.separators[j])
    {
      SeparatorsAscend(t.blocks, t.separators, i, j);
    }
  }

  /** The last entry of the blocks is the last of the last block. */
  lemma LastOfFlat(blocks: seq<seq<KeyValue>>)
    requires blocks != [] && blocks[|blocks| - 1] != []
    ensures var block := blocks[|blocks| - 1];
      Flatten(blocks) != [] && Flatten(blocks)[|Flatten(blocks)| - 1] == block[|block| - 1]
  {
  }

  lemma FlatGrows(blocks: seq<seq<KeyValue>>, tail: seq<KeyValue>)
    ensures Flatten(blocks + [tail]) == Flatten(blocks) + tail
  {
    assert (blocks + [tail])[..|blocks|] == blocks;
  }

  lemma InLongerFile(file: Bytes, longer: Bytes, blocks: seq<seq<KeyValue>>, handles: seq<BlockHandle>, interval: nat)
    requires interval >= 1 && InFile(file, blocks, handles, interval) && file <= longer
    ensures InFile(longer, blocks, handles, interval)
  {
    hide StoredAt, BlockBytes;
    forall i | 0 <= i < |blocks|
      ensures StoredAt(longer, handles[i], BlockBytes(blocks[i], interval))
    {
      StoredStays(file, longer, handles[i], BlockBytes(blocks[i], interval));
    }
  }

  lemma BlockInFile(file: Bytes, blocks: seq<seq<KeyValue>>, handles: seq<BlockHandle>, interval: nat, block: seq<KeyValue>)
    requires interval >= 1 && InFile(file, blocks, handles, interval)
    ensures var contents := BlockBytes(block, interval);
      InFile(file + contents + Trailer(contents), blocks + [block], handles + [BlockHandle(|file|, |contents|)], interval)
  {
    hide StoredAt, Trailer, BlockBytes;
    var contents := BlockBytes(block, interval);
    StoredNow(file, contents);
    InLongerFile(file, file + contents + Trailer(contents), blocks, handles, interval);
  }

  lemma NothingYet(interval: nat)
    requires interval >= 1
    ensures InFile([], [], [], interval) && Ordered([], [], []) && InKeyOrder([]) && IndexOf([], []) == []
    ensures Flatten<KeyValue>([]) == [] && FilterHolds({}, 0, [], [], [])
    ensures DataSize([], interval) == 0 && Small([]) && Short([], [])
  {
  }

  /** Every key is in the filter block under the offset of its block. */
  ghost predicate FilterHolds(keys: set<(nat, Bytes)>, offset: nat, blocks: seq<seq<KeyValue>>, handles: seq<BlockHandle>,
                              tail: seq<KeyValue>) {
    && |handles| == |blocks|
    && (forall i, e :: 0 <= i < |blocks| && e in blocks[i] ==> (handles[i].offset, e.key) in keys)
    && forall e :: e in tail ==> (offset, e.key) in keys
  }

  /** The block has just reached the size: it has, and without its last entry it had not. */
  ghost predicate JustFull(block: seq<KeyValue>, interval: nat, blockSize: nat)
    requires interval >= 1
  {
    block != [] && |BlockBytes(block, interval)| >= blockSize && NotFull(block[..|block| - 1], interval, blockSize)
  }

  ghost predicate NotFull(block: seq<KeyValue>, interval: nat, blockSize: nat)
    requires interval >= 1
  {
    block != [] ==> |BlockBytes(block, interval)| < blockSize
  }

  /** Where the entries are cut into blocks: each but the last is cut as soon as it is full. */
  ghost predicate CutWhenFull(blocks: seq<seq<KeyValue>>, tail: seq<KeyValue>, interval: nat, blockSize: nat)
    requires interval >= 1
  {
    (forall i :: 0 <= i < |blocks| ==> JustFull(blocks[i], interval, blockSize)) && NotFull(tail, interval, blockSize)
  }

  /** The blocks of a whole table: all but the last are just full, and the last may be. */
  ghost predicate CutRight(blocks: seq<seq<KeyValue>>, interval: nat, blockSize: nat)
    requires interval >= 1
  {
    blocks == [] || CutWhenFull(blocks, [], interval, blockSize)
    || CutWhenFull(blocks[..|blocks| - 1], blocks[|blocks| - 1], interval, blockSize)
  }

  lemma CutGrows(blocks: seq<seq<KeyValue>>, tail: seq<KeyValue>, e: KeyValue, interval: nat, blockSize: nat)
    requires interval >= 1 && CutWhenFull(blocks, tail, interval, blockSize)
    ensures if |BlockBytes(tail + [e], interval)| >= blockSize
            then CutWhenFull(blocks + [tail + [e]], [], interval, blockSize)
            else CutWhenFull(blocks, tail + [e], interval, blockSize)
  {
    hide BlockBytes;
    assert (tail + [e])[..|tail|] == tail;
  }

  lemma CutAtEnd(blocks: seq<seq<KeyValue>>, tail: seq<KeyValue>, interval: nat, blockSize: nat)
    requires interval >= 1 && CutWhenFull(blocks, tail, interval, blockSize)
    ensures CutRight(blocks + if tail == [] then [] else [tail], interval, blockSize)
  {
    hide CutWhenFull;
    if tail == [] {
      assert blocks + [] == blocks;
    } else {
      assert (blocks + [tail])[..|blocks|] == blocks;
    }
  }

  lemma FitsInFile(file: Bytes, h: BlockHandle, contents: Bytes)
    requires StoredAt(file, h, contents) && |file| < 0x1_0000_0000_0000_0000
    ensures HandleFits(h) && |EncodeHandle(h)| <= MAX_HANDLE
  {
    hide StoredAt, EncodeHandle;
    StoredStays(file, file, h, contents);
    HandleIsShort(h);
  }

  // ----- The builder -----

  class TableBuilder {
    const interval: nat  // block_restart_interval
    const blockSize: nat
    const name: Bytes  // of the filter policy
    const capacity: nat  // how large the file may get
    const dataBlock: BlockBuilder
    const indexBlock: BlockBuilder
    const filterBlock: FilterBlock.FilterBlockBuilder?
    var file: Bytes
    var offset: nat
    var ok: bool  // status
    var lastKey: Bytes
    var numEntries: nat
    var closed: bool
    var pendingIndexEntry: bool
    var pendingHandle: BlockHandle
    ghost var blocks: seq<seq<KeyValue>>  // the data blocks in the file
    ghost var handles: seq<BlockHandle>
    ghost var separators: seq<Bytes>  // the index keys so far
    ghost var added: seq<KeyValue>

    ghost predicate Frame() {
      dataBlock != indexBlock && interval >= 1 && capacity <= 0x1_0000_0000_0000_0000 && |name| + 7 < 0x1_0000_0000
    }

    ghost predicate Builders()
      reads dataBlock, indexBlock
    {
      && dataBlock.Inv() && dataBlock.interval == interval && indexBlock.Inv() && indexBlock.interval == 1
    }

    ghost predicate Index()
      reads this, dataBlock, indexBlock
    {
      && |separators| <= |handles| && indexBlock.entries == IndexOf(separators, handles)
      && if pendingIndexEntry
         then dataBlock.entries == [] && |blocks| == |handles| == |separators| + 1 && pendingHandle == handles[|separators|]
         else |blocks| == |handles| == |separators|
    }

    ghost predicate Filter()
      reads this, dataBlock, filterBlock
    {
      filterBlock != null ==>
        && filterBlock.Inv() && |filterBlock.filterOffsets| == offset / FilterBlock.FILTER_BASE
        && FilterHolds(filterBlock.added, offset, blocks, handles, dataBlock.entries)
    }

    ghost predicate Entries()
      reads this, dataBlock
    {
      added == Flatten(blocks) + dataBlock.entries && InKeyOrder(added) && numEntries == |added|
    }

    ghost predicate LastKey()
      reads this
    {
      added != [] ==> lastKey == added[|added| - 1].key && IsKey(lastKey) && |lastKey| < 0x1_0000_0000
    }

    ghost predicate File()
      reads this
    {
      Frame() && InFile(file, blocks, handles, interval) && offset == |file| && (file == [] || |file| < capacity)
    }

    /** Holds while the status is good. */
    ghost predicate Inv()
      reads this, dataBlock, indexBlock, filterBlock
    {
      && File() && Builders() && Index() && Filter() && Entries() && LastKey()
      && Ordered(blocks, separators, dataBlock.entries)
    }

    /** The file is as large as its blocks, and index keys are short. */
    ghost predicate Sized()
      reads this, filterBlock
    {
      && interval >= 1 && |file| == DataSize(blocks, interval) && Small(added) && Short(blocks, separators)
      && (filterBlock != null ==> filterBlock.count == |added|)
    }

    /** The blocks so far are just full, and the one being built is not. */
    ghost predicate Cut()
      reads this, dataBlock
    {
      interval >= 1 && CutWhenFull(blocks, dataBlock.entries, interval, blockSize)
    }

    /** An index entry is pending whenever a block is finished and the next is empty. */
    ghost predicate Settled()
      reads this, dataBlock
    {
      dataBlock.entries == [] && blocks != [] ==> pendingIndexEntry
    }

    constructor (interval: nat, blockSize: nat, policy: Bloom.BloomFilterPolicy?, name: Bytes, capacity: nat)
      requires interval >= 1 && capacity <= 0x1_0000_0000_0000_0000 && |name| + 7 < 0x1_0000_0000
      requires policy != null ==> policy.Inv()
      ensures Inv() && Settled() && Sized() && Cut() && ok && !closed && added == [] && fresh(dataBlock) && fresh(indexBlock)
      ensures this.name == name && this.capacity == capacity && this.interval == interval && this.blockSize == blockSize
      ensures (filterBlock == null <==> policy == null)
      ensures filterBlock != null ==> fresh(filterBlock) && filterBlock.policy == policy
    {
      hide Ordered, InFile, InKeyOrder, Flatten, FilterHolds, IndexOf, BlockBuilder.Inv, FilterBlock.FilterBlockBuilder.Inv,
        DataSize, Small, Short;
      NothingYet(interval);
      this.interval, this.blockSize, this.name, this.capacity := interval, blockSize, name, capacity;
      dataBlock := new BlockBuilder(interval);
      indexBlock := new BlockBuilder(1);
      filterBlock := null;
      file, offset, ok, lastKey, numEntries, closed := [], 0, true, [], 0, false;
      pendingIndexEntry, pendingHandle := false, BlockHandle(0, 0);
      blocks, handles, separators, added := [], [], [], [];
      if policy != null {
        var filters := new FilterBlock.FilterBlockBuilder(policy);
        filters.StartBlock(0);
        filterBlock := filters;
      }
    }

    /** WritableFile::Append, which fails when there is no room. */
    method Append(data: Bytes)
      requires ok
      modifies `file, `ok
      ensures ok <==> |old(file)| + |data| < capacity
      ensures file == if ok then old(file) + data else old(file)
    {
      if |file| + |data| < capacity {
        file := file + data;
      } else {
        ok := false;
      }
    }

    method WriteRawBlock(contents: Bytes) returns (handle: BlockHandle)
      requires ok && offset == |file|
      modifies `file, `ok, `offset
      ensures handle == BlockHandle(old(offset), |contents|)
      ensures ok <==> |old(file)| + |contents| + TRAILER_SIZE < capacity
      ensures ok ==> file == old(file) + contents + Trailer(contents) && offset == |file|
      ensures !ok ==> offset == old(offset)
    {
      handle := BlockHandle(offset, |contents|);
      Append(contents);
      if ok {
        var crc := Crc32c.Extend(0, Bits(contents), 0);
        crc := Crc32c.Extend(crc, Bits([NO_COMPRESSION]), 0);
        assert crc == BlockCrc(contents) by {
          hide Crc32c.Checksum;
          Crc32c.ExtendConcat(0, Bits(contents), Bits([NO_COMPRESSION]));
          BitsConcat(contents, [NO_COMPRESSION]);
        }
        Append([NO_COMPRESSION] + Stored(crc));
        if ok {
          offset := offset + |contents| + TRAILER_SIZE;
        }
      }
    }

    /** Without compression, the contents are stored as they are. */
    method WriteBlock(block: BlockBuilder) returns (handle: BlockHandle)
      requires ok && offset == |file| && block.Inv()
      modifies `file, `ok, `offset, block
      ensures var contents := old(BlockBytes(block.entries, block.interval));
        && handle == BlockHandle(old(offset), |contents|)
        && (ok <==> |old(file)| + |contents| + TRAILER_SIZE < capacity)
        && (ok ==> file == old(file) + contents + Trailer(contents) && offset == |file|)
      ensures !ok ==> offset == old(offset)
      ensures block.Inv() && block.entries == []
    {
      hide BlockBytes, Trailer;
      var raw := block.Finish();
      handle := WriteRawBlock(raw);
      block.Reset();
    }

    /** lastKey, while an index entry is pending, is the last key of the last block. */
    lemma LastKeyIsOfBlock()
      requires Inv() && pendingIndexEntry
      ensures |separators| < |blocks| && var block := blocks[|separators|];
        block != [] && lastKey == block[|block| - 1].key && IsKey(lastKey) && |lastKey| < 0x1_0000_0000
    {
      hide KeyLess, InFile, InKeyOrder, FilterHolds;
      var block := blocks[|separators|];
      LastOfFlat(blocks);
      assert added == Flatten(blocks);
    }

    /** The part of Add that was put off until a key is known that the last block is before. */
    method PutIndexEntry(key: Bytes)
      requires Inv() && Short(blocks, separators) && pendingIndexEntry && IsKey(key) && KeyLess(lastKey, key)
      modifies `lastKey, `pendingIndexEntry, `separators, indexBlock
      ensures File() && Builders() && Index() && Filter() && Entries() && !pendingIndexEntry
      ensures Ordered(blocks, separators, dataBlock.entries) && Follows(blocks, separators, key)
      ensures Short(blocks, separators) && dataBlock.entries == old(dataBlock.entries)
    {
      hide BlockBuilder.Inv, FilterBlock.FilterBlockBuilder.Inv, KeyLess, Ordered, Follows, InFile, InKeyOrder, Flatten, FilterHolds;
      LastKeyIsOfBlock();
      var sep := FindKeySeparator(lastKey, key);
      lastKey := sep;
      AddToIndex();
      SeparatorFits(blocks, separators, sep, key);
      separators := separators + [sep];
    }

    /** Adds the index entry of the last block under `lastKey`. */
    method AddToIndex()
      requires File() && Builders() && Index() && pendingIndexEntry && |lastKey| < 0x1_0000_0000
      modifies `pendingIndexEntry, indexBlock
      ensures indexBlock.Inv() && !pendingIndexEntry && indexBlock.entries == IndexOf(separators + [lastKey], handles)
    {
      hide BlockBytes, Trailer, StoredAt;
      var handleEncoding := EncodeHandle(pendingHandle);
      FitsInFile(file, pendingHandle, BlockBytes(blocks[|separators|], interval));
      indexBlock.Add(lastKey, handleEncoding);
      pendingIndexEntry := false;
    }

    lemma KeyIsLast(key: Bytes)
      requires Inv() && (numEntries > 0 ==> KeyLess(lastKey, key))
      ensures numEntries == |added| && (added != [] ==> KeyLess(added[|added| - 1].key, key))
      ensures pendingIndexEntry ==> numEntries > 0
    {
      hide KeyLess, Ordered, InFile, InKeyOrder, FilterHolds, BlockBuilder.Inv, FilterBlock.FilterBlockBuilder.Inv;
      if pendingIndexEntry {
        LastKeyIsOfBlock();
        LastOfFlat(blocks);
      }
    }

    lemma KeyFollowsTail(key: Bytes)
      requires Inv() && Settled() && !pendingIndexEntry && IsKey(key) && (added != [] ==> KeyLess(lastKey, key))
      ensures Follows(blocks, separators, key)
    {
      hide BlockBuilder.Inv, FilterBlock.FilterBlockBuilder.Inv, KeyLess, Ordered, Follows, InFile, InKeyOrder, FilterHolds;
      TailFollows(blocks, separators, dataBlock.entries, key);
    }

    method Add(key: Bytes, value: Bytes)
      requires !closed && IsKey(key) && |key| < 0x1_0000_0000 && |value| < 0x1_0000_0000
      requires ok ==> Inv() && Settled() && Sized() && Cut() && (numEntries > 0 ==> KeyLess(lastKey, key))
      modifies this, dataBlock, indexBlock, filterBlock
      ensures ok ==> Cut()
      ensures ok ==> old(ok) && Inv() && Settled() && Sized() && added == old(added) + [KeyValue(key, value)] && lastKey == key
      ensures old(ok) && Cost(old(added) + [KeyValue(key, value)]) < capacity ==> ok
      ensures closed == old(closed)
    {
      hide BlockBuilder.Inv, FilterBlock.FilterBlockBuilder.Inv, KeyLess, Ordered, Follows, File, InKeyOrder, Flatten;
      hide Index, Filter, Entries, LastKey, Settled, BlockBytes, Cost, DataSize, Short, Small, CutWhenFull;
      if !ok {
        return;
      }
      KeyIsLast(key);
      CutGrows(blocks, dataBlock.entries, KeyValue(key, value), interval, blockSize);
      if pendingIndexEntry {
        PutIndexEntry(key);
      } else {
        KeyFollowsTail(key);
      }
      AddEntry(key, value);
      var estimatedBlockSize := dataBlock.CurrentSizeEstimate();
      if estimatedBlockSize >= blockSize {
        Flush();
      }
    }

    /** The rest of Add: the filter, the last key and the data block. */
    method AddEntry(key: Bytes, value: Bytes)
      requires IsKey(key) && |key| < 0x1_0000_0000 && |value| < 0x1_0000_0000
      requires File() && Builders() && Index() && Filter() && Entries() && !pendingIndexEntry
      requires Ordered(blocks, separators, dataBlock.entries) && Follows(blocks, separators, key)
      requires added != [] ==> KeyLess(added[|added| - 1].key, key)
      requires Sized()
      modifies `lastKey, `numEntries, `added, dataBlock, filterBlock
      ensures Inv() && Settled() && Sized() && added == old(added) + [KeyValue(key, value)] && lastKey == key
      ensures dataBlock.entries == old(dataBlock.entries) + [KeyValue(key, value)]
    {
      hide BlockBuilder.Inv, FilterBlock.FilterBlockBuilder.Inv, KeyLess, Ordered, Follows, InFile, InKeyOrder, Flatten,
        DataSize, Short;
      ghost var e := KeyValue(key, value);
      if filterBlock != null {
        filterBlock.AddKey(key, offset);
      }
      lastKey := key;
      numEntries := numEntries + 1;
      SortedGrows(added, e);
      TailGrows(blocks, separators, dataBlock.entries, e);
      dataBlock.Add(key, value);
      added := added + [e];
    }

    method Flush()
      requires !closed && ok && Inv() && Settled() && Sized()
      modifies `file, `offset, `ok, `pendingIndexEntry, `pendingHandle, `blocks, `handles, dataBlock, filterBlock
      ensures ok ==> Inv() && Settled() && Sized() && dataBlock.entries == []
      ensures ok ==> blocks == old(blocks) + if old(dataBlock.entries) == [] then [] else [old(dataBlock.entries)]
      ensures Cost(added) < capacity ==> ok
    {
      hide Cost, DataSize, Short, Small, IndexOf, BlockBuilder.Inv, FilterBlock.FilterBlockBuilder.Inv, Ordered, InFile,
        InKeyOrder, Flatten, FilterHolds;
      var empty := dataBlock.Empty();
      if empty {
        return;
      }
      WriteDataBlock();
      if filterBlock != null {
        filterBlock.StartBlock(offset);
      }
    }

    /** Flush without what it does to the filter. */
    method WriteDataBlock()
      requires !closed && ok && Inv() && Settled() && Sized() && dataBlock.entries != []
      modifies `file, `offset, `ok, `pendingIndexEntry, `pendingHandle, `blocks, `handles, dataBlock
      ensures Cost(added) < capacity ==> ok
      ensures ok ==> File() && Builders() && Index() && Entries() && LastKey() && Sized() && Ordered(blocks, separators, [])
      ensures ok ==> dataBlock.entries == [] && pendingIndexEntry && blocks == old(blocks) + [old(dataBlock.entries)]
      ensures ok && filterBlock != null ==> FilterHolds(filterBlock.added, offset, blocks, handles, [])
      ensures offset >= old(offset)
    {
      hide Cost, DataSize, Short, Small, IndexOf, IsKey, BlockBuilder.Inv, FilterBlock.FilterBlockBuilder.Inv, KeyLess, Ordered,
        InFile, InKeyOrder, Flatten, Trailer, BlockBytes, FilterHolds;
      ghost var tail, was, start := dataBlock.entries, file, offset;
      BlockIsAffordable(blocks, separators, tail, interval);
      pendingHandle := WriteBlock(dataBlock);
      if ok {
        pendingIndexEntry := true;
        BlockInFile(was, blocks, handles, interval, tail);
        TailBecomesBlock(blocks, separators, tail);
        FlatGrows(blocks, tail);
        IndexStays(separators, handles, pendingHandle);
        if filterBlock != null {
          FilterHoldsBlock(filterBlock.added, start, offset, blocks, handles, tail, pendingHandle);
        }
        blocks, handles := blocks + [tail], handles + [pendingHandle];
      }
    }

    // ----- Finish -----

    /** All data blocks and their index entries, but perhaps the last, are written. */
    ghost predicate DataDone(t: seq<seq<KeyValue>>, hs: seq<BlockHandle>)
      reads this, dataBlock, indexBlock
    {
      && File() && Builders() && Index() && blocks == t && handles == hs && dataBlock.entries == []
      && Ordered(blocks, separators, [])
      && (pendingIndexEntry ==> var block := blocks[|separators|];
            block != [] && lastKey == block[|block| - 1].key && IsKey(lastKey) && |lastKey| < 0x1_0000_0000)
    }

    method WriteFilter() returns (handle: BlockHandle, ghost filter: Option<Bytes>)
      requires ok && File() && Filter() && dataBlock.entries == []
      modifies `file, `offset, `ok, filterBlock
      ensures ok ==> File() && old(file) <= file && (filter.Some? ==> StoredAt(file, handle, filter.value))
      ensures filter.Some? <==> filterBlock != null
      ensures filter.Some? ==>
        |filter.value| <= filterBlock.policy.MostBytes(old(filterBlock.count)) + 4 * (old(offset) / 2048) + 9
      ensures var more := if filter.Some? then |filter.value| + TRAILER_SIZE else 0;
        && (old(|file|) + more < capacity ==> ok) && (ok ==> |file| == old(|file|) + more)
      ensures filterBlock != null && |filter.value| < 0x1_0000_0000 ==>
        FilterCovers(filterBlock.policy, blocks, handles, filter.value)
    {
      hide InFile, Trailer, FilterBlock.BlockMayMatch, Bloom.BloomFilterPolicy.MostBytes;
      handle, filter := BlockHandle(0, 0), None;
      if filterBlock != null {
        var contents := filterBlock.Finish();
        ghost var was := file;
        handle := WriteRawBlock(contents);
        filter := Some(contents);
        if ok {
          StoredNow(was, contents);
          InLongerFile(was, file, blocks, handles, interval);
        }
      }
    }

    method WriteMetaindex(filterHandle: BlockHandle, ghost filter: Option<Bytes>)
        returns (handle: BlockHandle, ghost meta: seq<KeyValue>)
      requires ok && File() && (filter.Some? <==> filterBlock != null)
      requires filter.Some? ==> StoredAt(file, filterHandle, filter.value)
      modifies `file, `offset, `ok
      ensures ok ==> File() && old(file) <= file && StoredAt(file, handle, BlockBytes(meta, interval))
      ensures old(|file|) + |name| + 60 < capacity ==> ok
      ensures ok ==> |file| <= old(|file|) + |name| + 60
      ensures meta == if filter.Some? then [KeyValue(FilterKey(name), EncodeHandle(filterHandle))] else []
    {
      hide InFile, Trailer, BlockBytes, StoredAt;
      var metaIndexBlock := new BlockBuilder(interval);
      if filterBlock != null {
        var key := FilterKey(name);
        var handleEncoding := EncodeHandle(filterHandle);
        FitsInFile(file, filterHandle, filter.value);
        metaIndexBlock.Add(key, handleEncoding);
        assert metaIndexBlock.entries == [KeyValue(key, handleEncoding)];
      }
      meta := metaIndexBlock.entries;
      MetaIsSmall(meta, interval, name);
      ghost var was := file;
      handle := WriteBlock(metaIndexBlock);
      if ok {
        StoredNow(was, BlockBytes(meta, interval));
        InLongerFile(was, file, blocks, handles, interval);
      }
    }

    method WriteIndex() returns (handle: BlockHandle)
      requires ok && DataDone(blocks, handles) && Short(blocks, separators) && Small(Flatten(blocks))
      modifies `file, `offset, `ok, `lastKey, `pendingIndexEntry, `separators, indexBlock
      ensures |separators| == |handles| == |blocks| && Ordered(blocks, separators, [])
      ensures ok ==> File() && old(file) <= file && StoredAt(file, handle, BlockBytes(IndexOf(separators, handles), 1))
      ensures old(|file|) + IndexCost(Flatten(blocks)) + 13 < capacity ==> ok
      ensures ok ==> |file| <= old(|file|) + IndexCost(Flatten(blocks)) + 13
    {
      hide IndexCost, Flatten, Small, BlockBuilder.Inv, FilterBlock.FilterBlockBuilder.Inv, KeyLess, Ordered, InFile, Trailer, BlockBytes, StoredAt;
      if pendingIndexEntry {
        var sep := FindKeySuccessor(lastKey);
        LastSeparator(blocks, separators, sep);
        lastKey := sep;
        AddToIndex();
        separators := separators + [sep];
      }
      IndexIsAffordable(file, blocks, separators, handles, interval);
      ghost var was := file;
      handle := WriteBlock(indexBlock);
      if ok {
        StoredNow(was, BlockBytes(IndexOf(separators, handles), 1));
        InLongerFile(was, file, blocks, handles, interval);
      }
    }

    ghost function Policy(): Bloom.BloomFilterPolicy? {
      if filterBlock == null then null else filterBlock.policy
    }

    /** All entries are in the file, which their cost pays for. */
    lemma DataIsDone()
      requires Inv() && Settled() && Sized() && dataBlock.entries == []
      ensures DataDone(blocks, handles) && Filter() && added == Flatten(blocks) && Short(blocks, separators)
      ensures Small(Flatten(blocks)) && |file| <= Cost(added) && (filterBlock != null ==> filterBlock.count == |added|)
    {
      hide BlockBuilder.Inv, FilterBlock.FilterBlockBuilder.Inv, KeyLess, Ordered, InFile, InKeyOrder, Flatten, FilterHolds, Cost,
        DataSize, Small, Short;
      assert added == Flatten(blocks);
      DataIsAffordable(blocks, separators, interval);
      if pendingIndexEntry {
        LastKeyIsOfBlock();
      }
    }

    method SetClosed()
      modifies `closed
      ensures closed && (old(Inv() && Settled() && Sized()) ==> Inv() && Settled() && Sized())
    {
      hide BlockBuilder.Inv, FilterBlock.FilterBlockBuilder.Inv, Ordered, InFile, InKeyOrder, Flatten, FilterHolds, IndexOf,
        DataSize, Small, Short;
      closed := true;
    }

    method Finish() returns (ghost p: Parts)
      requires !closed && (ok ==> Inv() && Settled() && Sized() && Cut())
      modifies this, dataBlock, indexBlock, filterBlock
      ensures ok ==> interval >= 1 && p.interval == interval && CutRight(p.layout.blocks, interval, blockSize)
      ensures closed && (ok ==> old(ok)) && (ok ==> IsTable(file, p, name) && Flatten(p.layout.blocks) == added == old(added))
      ensures ok ==> offset == |file| < capacity && (p.filter.Some? <==> filterBlock != null)
      ensures ok && filterBlock != null && p.filter.Some? && |p.filter.value| < 0x1_0000_0000 ==>
        FilterCovers(filterBlock.policy, p.layout.blocks, p.layout.handles, p.filter.value)
      ensures old(ok) && Bound(old(added), Policy(), name) < capacity ==> ok
    {
      hide FilterCovers, IsTable, Flatten, Inv, Settled, Sized, DataDone, Filter, Cost, IndexCost, Short, Small;
      hide FilterCost, CutWhenFull, CutRight;
      p := Parts(Layout([], [], []), 1, [], None, BlockHandle(0, 0), BlockHandle(0, 0), BlockHandle(0, 0));
      if ok {
        BoundCovers(added, Policy(), name, 0);
        CutAtEnd(blocks, dataBlock.entries, interval, blockSize);
        Flush();
      }
      SetClosed();
      if !ok {
        return;
      }
      DataIsDone();
      BoundCovers(added, Policy(), name, |file|);
      p := WriteMeta();
    }

    /** The filter, the metaindex, the index and the footer. */
    method WriteMeta() returns (ghost p: Parts)
      requires ok && DataDone(blocks, handles) && Filter() && Short(blocks, separators) && Small(Flatten(blocks))
      requires filterBlock != null ==> filterBlock.count == |Flatten(blocks)|
      modifies `file, `offset, `ok, `lastKey, `pendingIndexEntry, `separators, indexBlock, filterBlock
      ensures ok ==> IsTable(file, p, name) && p.layout.blocks == blocks && p.interval == interval
      ensures ok ==> offset == |file| < capacity && (p.filter.Some? <==> filterBlock != null)
      ensures ok && filterBlock != null && p.filter.Some? && |p.filter.value| < 0x1_0000_0000 ==>
        FilterCovers(filterBlock.policy, p.layout.blocks, p.layout.handles, p.filter.value)
      ensures |old(file)| + MetaCost(Flatten(blocks), |old(file)|, Policy(), name) < capacity ==> ok
    {
      hide FilterCovers, BlockBuilder.Inv, FilterBlock.FilterBlockBuilder.Inv, Ordered, InFile, Flatten, BlockBytes, StoredAt,
        FilterHolds, FilterBlock.BlockMayMatch, Short, Small, IndexCost, Bloom.BloomFilterPolicy.MostBytes, IsTable, Footer,
        EncodeHandle, FilterKey;
      p := Parts(Layout([], [], []), 1, [], None, BlockHandle(0, 0), BlockHandle(0, 0), BlockHandle(0, 0));
      ghost var filter, meta;
      var filterHandle, metaindexHandle, indexHandle := BlockHandle(0, 0), BlockHandle(0, 0), BlockHandle(0, 0);
      filterHandle, filter := WriteFilter();
      if !ok {
        return;
      }
      ghost var f1 := file;
      metaindexHandle, meta := WriteMetaindex(filterHandle, filter);
      if !ok {
        return;
      }
      ghost var f2 := file;
      indexHandle := WriteIndex();
      if !ok {
        return;
      }
      ghost var f3 := file;
      var footer := Footer(metaindexHandle, indexHandle);
      FooterIsSmall(file, metaindexHandle, BlockBytes(meta, interval), f2, indexHandle,
                    BlockBytes(IndexOf(separators, handles), 1));
      Append(footer);
      if ok {
        offset := offset + |footer|;
        p := Parts(Layout(blocks, handles, separators), interval, meta, filter, filterHandle, metaindexHandle, indexHandle);
        WholeTable(f1, f2, f3, p, name);
      }
    }
  }

  lemma IndexStays(separators: seq<Bytes>, handles: seq<BlockHandle>, h: BlockHandle)
    requires |separators| <= |handles|
    ensures IndexOf(separators, handles + [h]) == IndexOf(separators, handles)
  {
    hide EncodeHandle;
  }

  lemma DataIsAffordable(blocks: seq<seq<KeyValue>>, separators: seq<Bytes>, interval: nat)
    requires interval >= 1 && Ordered(blocks, separators, []) && Small(Flatten(blocks))
    ensures DataSize(blocks, interval) <= Cost(Flatten(blocks))
  {
    hide Cost, DataSize, KeyLess, SepBefore, Covers, InKeyOrder, Flatten;
    DataIsPaid(blocks, interval);
  }

  lemma FooterIsSmall(file: Bytes, metaindex: BlockHandle, meta: Bytes, f2: Bytes, index: BlockHandle, entries: Bytes)
    requires f2 <= file && |file| < 0x1_0000_0000_0000_0000
    requires StoredAt(f2, metaindex, meta) && StoredAt(file, index, entries)
    ensures |Footer(metaindex, index)| == FOOTER_SIZE
  {
    hide StoredAt, Footer;
    FitsInFile(f2, metaindex, meta);
    FitsInFile(file, index, entries);
    FooterLength(metaindex, index);
  }

  lemma MetaIsSmall(meta: seq<KeyValue>, interval: nat, name: Bytes)
    requires interval >= 1 && |meta| <= 1 && |name| + 7 < 0x1_0000_0000
    requires meta != [] ==> |meta[0].key| == |name| + 7 && |meta[0].value| <= MAX_HANDLE
    ensures |BlockBytes(meta, interval)| + TRAILER_SIZE <= |name| + 60
  {
    hide BlockBytes;
    BlockIsSmall(meta, interval);
    if meta != [] {
      assert meta[..0] == [];
    }
  }

  /** The index is paid for by the last entries of the blocks. */
  lemma IndexIsAffordable(file: Bytes, blocks: seq<seq<KeyValue>>, separators: seq<Bytes>, handles: seq<BlockHandle>, interval: nat)
    requires interval >= 1 && |file| < 0x1_0000_0000_0000_0000 && InFile(file, blocks, handles, interval)
    requires |separators| == |blocks| == |handles| && Short(blocks, separators) && Small(Flatten(blocks))
    ensures |BlockBytes(IndexOf(separators, handles), 1)| + TRAILER_SIZE <= IndexCost(Flatten(blocks)) + 13
  {
    hide BlockBytes, EncodeHandle, StoredAt, IndexCost, Flatten;
    var values := seq(|handles|, i requires 0 <= i < |handles| => EncodeHandle(handles[i]));
    forall i | 0 <= i < |handles|
      ensures |values[i]| <= MAX_HANDLE
    {
      FitsInFile(file, handles[i], BlockBytes(blocks[i], interval));
    }
    IndexIsPaid(blocks, separators, values);
    var index := IndexOf(separators, handles);
    assert index == Indexed(separators, values);
    forall e | e in index
      ensures |e.key| < 0x1_0000_0000 && |e.value| < 0x1_0000_0000
    {
      var i :| 0 <= i < |index| && index[i] == e;
      LastIsIn(blocks, i);
    }
    BlockIsSmall(index, 1);
  }

  lemma LastIsIn(blocks: seq<seq<KeyValue>>, i: nat)
    requires i < |blocks| && blocks[i] != []
    ensures blocks[i][|blocks[i]| - 1] in Flatten(blocks)
  {
    FlatHas(blocks, i, blocks[i][|blocks[i]| - 1]);
  }

  /** What one more block does to the size of the file, and that its entries pay for it. */
  lemma BlockIsAffordable(blocks: seq<seq<KeyValue>>, separators: seq<Bytes>, tail: seq<KeyValue>, interval: nat)
    requires interval >= 1 && tail != [] && Ordered(blocks, separators, tail) && Small(Flatten(blocks) + tail)
    requires Short(blocks, separators)
    ensures DataSize(blocks, interval) + |BlockBytes(tail, interval)| + TRAILER_SIZE <= Cost(Flatten(blocks) + tail)
    ensures DataSize(blocks + [tail], interval) == DataSize(blocks, interval) + |BlockBytes(tail, interval)| + TRAILER_SIZE
    ensures Short(blocks + [tail], separators)
  {
    hide Cost, DataSize, KeyLess, SepBefore, Covers, InKeyOrder, BlockBytes, Flatten;
    DataIsPaid(blocks, interval);
    BlockIsPaid(tail, interval);
    CostAdds(Flatten(blocks), tail);
    DataGrows(blocks, tail, interval);
  }

  lemma FilterHoldsBlock(keys: set<(nat, Bytes)>, start: nat, next: nat, blocks: seq<seq<KeyValue>>,
                         handles: seq<BlockHandle>, tail: seq<KeyValue>, h: BlockHandle)
    requires FilterHolds(keys, start, blocks, handles, tail) && h.offset == start
    ensures FilterHolds(keys, next, blocks + [tail], handles + [h], [])
  {
  }

  /** The parts stay in the file as it grows, and the footer leads to them. */
  lemma WholeTable(f1: Bytes, f2: Bytes, f3: Bytes, p: Parts, name: Bytes)
    requires p.interval >= 1 && |p.layout.handles| == |p.layout.separators| == |p.layout.blocks|
    requires Ordered(p.layout.blocks, p.layout.separators, []) && InFile(f3, p.layout.blocks, p.layout.handles, p.interval)
    requires f1 <= f2 <= f3 && |f3 + Footer(p.metaindex, p.index)| < 0x1_0000_0000_0000_0000
    requires p.filter.Some? ==> StoredAt(f1, p.filterHandle, p.filter.value)
    requires p.meta == if p.filter.Some? then [KeyValue(FilterKey(name), EncodeHandle(p.filterHandle))] else []
    requires StoredAt(f2, p.metaindex, BlockBytes(p.meta, p.interval))
    requires StoredAt(f3, p.index, BlockBytes(IndexOf(p.layout.separators, p.layout.handles), 1))
    ensures IsTable(f3 + Footer(p.metaindex, p.index), p, name)
  {
    hide Ordered, InFile, WellFormed, StoredAt, BlockBytes, Trailer, EncodeHandle, Footer, DecodeFooter;
    var file := f3 + Footer(p.metaindex, p.index);
    LayoutIsWellFormed(p.layout);
    assert IndexEntries(p.layout) == IndexOf(p.layout.separators, p.layout.handles);
    InLongerFile(f3, file, p.layout.blocks, p.layout.handles, p.interval);
    StoredStays(f3, file, p.index, BlockBytes(IndexEntries(p.layout), 1));
    StoredStays(f2, file, p.metaindex, BlockBytes(p.meta, p.interval));
    if p.filter.Some? {
      StoredStays(f1, file, p.filterHandle, p.filter.value);
    }
    FitsInFile(file, p.index, BlockBytes(IndexEntries(p.layout), 1));
    FitsInFile(file, p.metaindex, BlockBytes(p.meta, p.interval));
    FooterRoundTrip(f3, p.metaindex, p.index);
  }
}

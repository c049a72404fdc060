/** How large a table can get: a bound told from its entries, so that a builder with that much room
    never fails for want of it. */
module TableSizes {
  import opened InternalKey
  import opened Sequences
  import opened BlockFormat
  import opened BlockBuilders
  import opened TableFormat
  import Bloom

  /** The data blocks in the file, each with its trailer. */
  function DataSize(blocks: seq<seq<KeyValue>>, interval: nat): nat
    requires interval >= 1
  {
    if blocks == [] then 0
    else
      var n := |blocks| - 1;
      DataSize(blocks[..n], interval) + |BlockBytes(blocks[n], interval)| + TRAILER_SIZE
  }

  /** An entry, when it may be alone in its block. */
  function Cost(entries: seq<KeyValue>): nat {
    if entries == [] then 0
    else
      var last := entries[|entries| - 1];
      Cost(entries[..|entries| - 1]) + |last.key| + |last.value| + 32
  }

  /** An index entry for each entry, with a key that is no longer. */
  function IndexCost(entries: seq<KeyValue>): nat {
    if entries == [] then 0 else IndexCost(entries[..|entries| - 1]) + |entries[|entries| - 1].key| + 39
  }

  /** Filters, their offsets, where those start, the base and the trailer. */
  function FilterCost(n: nat, data: nat, policy: Bloom.BloomFilterPolicy?): nat {
    if policy == null then 0 else policy.MostBytes(n) + 4 * (data / 2048) + 14
  }

  /** All that comes after the data: filter, metaindex, index and footer. */
  function MetaCost(entries: seq<KeyValue>, data: nat, policy: Bloom.BloomFilterPolicy?, name: Bytes): nat {
    FilterCost(|entries|, data, policy) + (|name| + 60) + (IndexCost(entries) + 13) + FOOTER_SIZE
  }

  /** A file is never larger than this, however its entries are cut into blocks. */
  function Bound(entries: seq<KeyValue>, policy: Bloom.BloomFilterPolicy?, name: Bytes): nat {
    Cost(entries) + MetaCost(entries, Cost(entries), policy, name)
  }

  lemma BoundCovers(entries: seq<KeyValue>, policy: Bloom.BloomFilterPolicy?, name: Bytes, data: nat)
    ensures Cost(entries) <= Bound(entries, policy, name)
    ensures data <= Cost(entries) ==> data + MetaCost(entries, data, policy, name) <= Bound(entries, policy, name)
  {
    hide Cost, IndexCost, Bloom.BloomFilterPolicy.MostBytes;
  }

  lemma {:induction false} CostAdds(a: seq<KeyValue>, b: seq<KeyValue>)
    ensures Cost(a + b) == Cost(a) + Cost(b) && IndexCost(a + b) == IndexCost(a) + IndexCost(b)
    ensures EntriesSize(a + b) == EntriesSize(a) + EntriesSize(b)
    decreases |b|
  {
    if b == [] {
      assert a + b == a;
    } else {
      CostAdds(a, b[..|b| - 1]);
      assert (a + b)[..|a + b| - 1] == a + b[..|b| - 1];
    }
  }

  /** A block and its trailer, for the entries that pay for them. */
  lemma {:induction false} PaysForBlock(block: seq<KeyValue>)
    requires block != []
    ensures EntriesSize(block) + 8 + TRAILER_SIZE <= Cost(block)
  {
    var n := |block| - 1;
    if n > 0 {
      PaysForBlock(block[..n]);
    } else {
      assert EntriesSize(block[..0]) == 0 && Cost(block[..0]) == 0;
    }
  }

  lemma BlockIsPaid(block: seq<KeyValue>, interval: nat)
    requires interval >= 1 && block != [] && BlockBuilders.Small(block)
    ensures |BlockBytes(block, interval)| + TRAILER_SIZE <= Cost(block)
  {
    hide BlockBytes;
    BlockIsSmall(block, interval);
    PaysForBlock(block);
  }

  /** The last entry of a block pays for its index entry. */
  lemma {:induction false} PaysForIndex(block: seq<KeyValue>)
    requires block != []
    ensures |block[|block| - 1].key| + 39 <= IndexCost(block)
  {
  }

  ghost predicate NoneEmpty(blocks: seq<seq<KeyValue>>) {
    forall i :: 0 <= i < |blocks| ==> blocks[i] != []
  }

  /** No index key is longer than the last key of its block. */
  ghost predicate Short(blocks: seq<seq<KeyValue>>, separators: seq<Bytes>) {
    && |separators| <= |blocks|
    && forall i :: 0 <= i < |separators| ==> blocks[i] != [] && |separators[i]| <= |blocks[i][|blocks[i]| - 1].key|
  }

  /** All data blocks together. */
  lemma {:induction false} DataIsPaid(blocks: seq<seq<KeyValue>>, interval: nat)
    requires interval >= 1 && NoneEmpty(blocks) && BlockBuilders.Small(Flatten(blocks))
    ensures DataSize(blocks, interval) <= Cost(Flatten(blocks))
  {
    hide BlockBytes, Cost;
    if blocks != [] {
      var n := |blocks| - 1;
      DataIsPaid(blocks[..n], interval);
      BlockIsPaid(blocks[n], interval);
      CostAdds(Flatten(blocks[..n]), blocks[n]);
    }
  }

  /** One more block at the end of the file. */
  lemma DataGrows(blocks: seq<seq<KeyValue>>, block: seq<KeyValue>, interval: nat)
    requires interval >= 1
    ensures DataSize(blocks + [block], interval) == DataSize(blocks, interval) + |BlockBytes(block, interval)| + TRAILER_SIZE
  {
    hide BlockBytes;
    assert (blocks + [block])[..|blocks|] == blocks;
  }

  function Indexed(separators: seq<Bytes>, values: seq<Bytes>): (r: seq<KeyValue>)
    requires |separators| == |values|
    ensures |r| == |separators|
  {
    seq(|separators|, i requires 0 <= i < |separators| => KeyValue(separators[i], values[i]))
  }

  /** The index, with one entry for each block. */
  lemma {:induction false} IndexIsPaid(blocks: seq<seq<KeyValue>>, separators: seq<Bytes>, values: seq<Bytes>)
    requires Short(blocks, separators) && |blocks| == |separators| == |values|
    requires forall i :: 0 <= i < |values| ==> |values[i]| <= MAX_HANDLE
    ensures EntriesSize(Indexed(separators, values)) <= IndexCost(Flatten(blocks))
  {
    hide IndexCost;
    if blocks != [] {
      var n := |blocks| - 1;
      IndexIsPaid(blocks[..n], separators[..n], values[..n]);
      assert Indexed(separators, values)[..n] == Indexed(separators[..n], values[..n]);
      PaysForIndex(blocks[n]);
      CostAdds(Flatten(blocks[..n]), blocks[n]);
    }
  }
}

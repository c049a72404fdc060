/** The two-level iterator (table/two_level_iterator.cc): an index whose values name blocks,
    some of which may be empty, read as one run. */
module TwoLevel {
  import opened InternalKey
  import opened Sequences
  import opened Iterators

  // ----- The flat run -----

  /** The blocks that the index names, in order. */
  function BlocksOf(index: seq<Entry>, blocks: map<Bytes, seq<Entry>>): seq<seq<Entry>>
    requires forall i :: 0 <= i < |index| ==> index[i].value in blocks
  {
    seq(|index|, i requires 0 <= i < |index| => blocks[index[i].value])
  }

  /** Where block `i` starts. */
  function Offset(blocks: seq<seq<Entry>>, i: nat): nat
    requires i <= |blocks|
  {
    |Flatten(blocks[..i])|
  }

  /** Each index key is at or after its block and before all later ones. */
  ghost predicate Separates(index: seq<Entry>, blocks: seq<seq<Entry>>) {
    && |index| == |blocks|
    && (forall i, j :: 0 <= i < |blocks| && 0 <= j < |blocks[i]| ==> Compare(blocks[i][j].key, index[i].key) <= 0)
    && forall i, k, j :: 0 <= i < k < |blocks| && 0 <= j < |blocks[k]| ==> Compare(index[i].key, blocks[k][j].key) < 0
  }

  lemma OffsetSteps(blocks: seq<seq<Entry>>, i: nat)
    requires i < |blocks|
    ensures Offset(blocks, i + 1) == Offset(blocks, i) + |blocks[i]|
  {
    assert blocks[..i + 1][..i] == blocks[..i];
  }

  lemma {:induction false} FlattenPrefix(blocks: seq<seq<Entry>>, i: nat, j: nat)
    requires i <= j <= |blocks|
    ensures Flatten(blocks[..i]) <= Flatten(blocks[..j])
    decreases j
  {
    if i < j {
      FlattenPrefix(blocks, i, j - 1);
      assert blocks[..j][..j - 1] == blocks[..j - 1];
    }
  }

  /** Entry `j` of block `i` in the flat run. */
  lemma PlaceInFlat(blocks: seq<seq<Entry>>, i: nat, j: nat)
    requires i < |blocks| && j < |blocks[i]|
    ensures Offset(blocks, i) + j < |Flatten(blocks)| && Flatten(blocks)[Offset(blocks, i) + j] == blocks[i][j]
  {
    assert blocks[..i + 1][..i] == blocks[..i];
    FlattenPrefix(blocks, i + 1, |blocks|);
    assert blocks[..|blocks|] == blocks;
  }

  /** Every place in the flat run before block `n` is in some block. */
  lemma {:induction false} PlaceIn(blocks: seq<seq<Entry>>, n: nat, p: nat) returns (i: nat, j: nat)
    requires n <= |blocks| && p < Offset(blocks, n)
    ensures i < n && j < |blocks[i]| && p == Offset(blocks, i) + j
  {
    OffsetSteps(blocks, n - 1);
    if p >= Offset(blocks, n - 1) {
      i, j := n - 1, p - Offset(blocks, n - 1);
    } else {
      i, j := PlaceIn(blocks, n - 1, p);
    }
  }

  lemma OffsetsGrow(blocks: seq<seq<Entry>>, i: nat, k: nat)
    requires i <= k <= |blocks|
    ensures Offset(blocks, i) <= Offset(blocks, k)
    ensures Offset(blocks, |blocks|) == |Flatten(blocks)|
  {
    FlattenPrefix(blocks, i, k);
    assert blocks[..|blocks|] == blocks;
  }

  lemma CompareChains(a: Key, b: Key, c: Key)
    ensures Compare(a, b) <= 0 && Compare(b, c) < 0 ==> Compare(a, c) < 0
    ensures Compare(a, b) < 0 && Compare(a, c) >= 0 ==> Compare(b, c) >= 0
  {
  }

  lemma SeekBefore(index: seq<Entry>, blocks: seq<seq<Entry>>, target: Key, i: nat, j: nat, p: nat)
    requires Separates(index, blocks) && IsFirstFrom(index, target, i)
    requires if i < |blocks| then IsFirstFrom(blocks[i], target, j) else j == 0
    requires p < |Flatten(blocks)| && p < Offset(blocks, i) + j
    ensures Compare(Flatten(blocks)[p].key, target) < 0
  {
    hide Offset, Flatten;
    OffsetsGrow(blocks, 0, |blocks|);
    var k, l := PlaceIn(blocks, |blocks|, p);
    PlaceInFlat(blocks, k, l);
    if k > i {
      OffsetSteps(blocks, i);
      OffsetsGrow(blocks, i + 1, k);
    } else if k < i {
      CompareChains(blocks[k][l].key, index[k].key, target);
    }
  }

  lemma SeekAfter(index: seq<Entry>, blocks: seq<seq<Entry>>, target: Key, i: nat, j: nat)
    requires Separates(index, blocks) && IsFirstFrom(index, target, i)
    requires if i < |blocks| then IsFirstFrom(blocks[i], target, j) else j == 0
    requires Offset(blocks, i) + j < |Flatten(blocks)|
    ensures Compare(Flatten(blocks)[Offset(blocks, i) + j].key, target) >= 0
  {
    hide Offset, Flatten;
    OffsetsGrow(blocks, i, |blocks|);
    var p := Offset(blocks, i) + j;
    var k, l := PlaceIn(blocks, |blocks|, p);
    PlaceInFlat(blocks, k, l);
    if k < i {
      OffsetSteps(blocks, k);
      OffsetsGrow(blocks, k + 1, i);
    } else if k > i {
      CompareChains(index[i].key, blocks[k][l].key, target);
    }
  }

  /** Where a seek in the index and then in the block lands. */
  lemma SeekLands(index: seq<Entry>, blocks: seq<seq<Entry>>, target: Key, i: nat, j: nat)
    requires Separates(index, blocks) && IsFirstFrom(index, target, i)
    requires i <= |blocks| && if i < |blocks| then IsFirstFrom(blocks[i], target, j) else j == 0
    ensures IsFirstFrom(Flatten(blocks), target, Offset(blocks, i) + j)
  {
    hide Offset, Flatten, Separates;
    var flat, p := Flatten(blocks), Offset(blocks, i) + j;
    OffsetsGrow(blocks, i, |blocks|);
    if i < |blocks| {
      OffsetSteps(blocks, i);
      OffsetsGrow(blocks, i + 1, |blocks|);
    }
    forall q | 0 <= q < p
      ensures Compare(flat[q].key, target) < 0
    {
      SeekBefore(index, blocks, target, i, j, q);
    }
    if p < |flat| {
      SeekAfter(index, blocks, target, i, j);
    }
  }

  // ----- The iterator -----

  class TwoLevelIterator {
    const index: Cursor
    const blocks: map<Bytes, seq<Entry>>  // what the block function reads
    var data: Cursor?
    var dataBlockHandle: Bytes

    ghost function Repr(): set<object>
      reads this
    {
      {this, index} + if data == null then {} else {data}
    }

    ghost predicate Names() {
      && (forall i :: 0 <= i < |index.entries| ==> index.entries[i].value in blocks)
      && (forall handle :: handle in blocks ==> Sorted(blocks[handle]))
      && Separates(index.entries, BlocksOf(index.entries, blocks))
    }

    ghost function Blocks(): (r: seq<seq<Entry>>)
      requires Names()
      ensures |r| == |index.entries|
    {
      BlocksOf(index.entries, blocks)
    }

    ghost function Flat(): seq<Entry>
      requires Names()
    {
      Flatten(Blocks())
    }

    ghost predicate Shape()
      reads Repr()
    {
      && Names() && index.Inv()
      && (data != null ==> data != index && data.Inv() && dataBlockHandle in blocks && data.entries == blocks[dataBlockHandle])
    }

    /** The data iterator is on the block that the index names. */
    ghost predicate InBlock()
      reads Repr()
    {
      && Shape() && (data == null <==> !index.Valid())
      && (data != null ==> data.entries == Blocks()[index.at])
    }

    predicate Valid()
      reads Repr()
    {
      data != null && data.Valid()
    }

    ghost predicate Inv()
      reads Repr()
    {
      Shape() && (Valid() ==> InBlock())
    }

    /** Where in the flat run the iterator is. */
    ghost function At(): (p: nat)
      requires Inv()
      reads Repr()
    {
      if Valid() then Offset(Blocks(), index.at) + data.at else |Flat()|
    }

    lemma Within()
      requires Inv() && Valid()
      ensures At() < |Flat()| && Flat()[At()] == data.Current()
    {
      PlaceInFlat(Blocks(), index.at, data.at);
    }

    method Current() returns (e: Entry)
      requires Inv() && Valid()
      ensures At() < |Flat()| && e == Flat()[At()]
    {
      Within();
      e := data.Current();
    }

    constructor (index: Cursor, blocks: map<Bytes, seq<Entry>>)
      requires index.Inv()
      requires forall i :: 0 <= i < |index.entries| ==> index.entries[i].value in blocks
      requires forall handle :: handle in blocks ==> Sorted(blocks[handle])
      requires Separates(index.entries, BlocksOf(index.entries, blocks))
      ensures Inv() && !Valid() && this.index == index && this.blocks == blocks && data == null
    {
      this.index, this.blocks, data, dataBlockHandle := index, blocks, null, [];
    }

    method InitDataBlock()
      requires Shape()
      modifies this
      ensures InBlock() && (data == null || data == old(data) || fresh(data))
    {
      if !index.Valid() {
        data := null;
      } else {
        var handle := index.Current().value;
        if data != null && handle == dataBlockHandle {
          // already on this block
        } else {
          var iter := new Cursor(blocks[handle]);
          dataBlockHandle := handle;
          data := iter;
        }
      }
    }

    /** The place that a forward skip is to end at. */
    ghost function Pending(): nat
      requires InBlock()
      reads Repr()
    {
      if Valid() then Offset(Blocks(), index.at) + data.at
      else if index.Valid() then Offset(Blocks(), index.at + 1)
      else |Flat()|
    }

    /** The place that a backward skip is to end before. */
    ghost function Remaining(): nat
      requires InBlock()
      reads Repr()
    {
      if Valid() then Offset(Blocks(), index.at) + data.at + 1
      else if index.Valid() then Offset(Blocks(), index.at)
      else 0
    }

    /** Moves to the start of the next block, if there is one. */
    method NextBlock()
      requires InBlock() && !Valid() && index.Valid()
      modifies Repr()
      ensures InBlock() && Pending() == old(Pending()) && index.at == old(index.at) + 1 && fresh(Repr() - old(Repr()))
    {
      hide Names, Offset, Flatten, BlocksOf;
      ghost var i := index.at;
      index.Next();
      InitDataBlock();
      if data != null {
        data.SeekToFirst();
      }
      OffsetsGrow(Blocks(), i + 1, |Blocks()|);
      if i + 1 < |Blocks()| {
        OffsetSteps(Blocks(), i + 1);
      }
    }

    /** Moves to the end of the previous block, if there is one. */
    method PrevBlock()
      requires InBlock() && !Valid() && index.Valid()
      modifies Repr()
      ensures InBlock() && Remaining() == old(Remaining()) && fresh(Repr() - old(Repr()))
      ensures if old(index.at) == 0 then !index.Valid() else index.at == old(index.at) - 1
    {
      hide Names, Offset, Flatten, BlocksOf;
      ghost var i := index.at;
      index.Prev();
      InitDataBlock();
      if data != null {
        data.SeekToLast();
      }
      if i > 0 {
        OffsetSteps(Blocks(), i - 1);
      }
      OffsetOfFirst(Blocks());
    }

    method SkipEmptyDataBlocksForward()
      requires InBlock()
      modifies Repr()
      ensures Inv() && At() == old(Pending()) && fresh(Repr() - old(Repr()))
    {
      hide Names, Offset, Flatten, BlocksOf;
      while data == null || !data.Valid()
        invariant InBlock() && Pending() == old(Pending()) && fresh(Repr() - old(Repr()))
        decreases data != null, |index.entries| - index.at
      {
        if !index.Valid() {
          data := null;
          return;
        }
        NextBlock();
      }
    }

    method SkipEmptyDataBlocksBackward()
      requires InBlock()
      modifies Repr()
      ensures Inv() && fresh(Repr() - old(Repr()))
      ensures At() == if old(Remaining()) == 0 then |Flat()| else old(Remaining()) - 1
    {
      hide Names, Offset, Flatten, BlocksOf;
      while data == null || !data.Valid()
        invariant InBlock() && Remaining() == old(Remaining()) && fresh(Repr() - old(Repr()))
        decreases data != null, if index.Valid() then index.at + 1 else 0
      {
        if !index.Valid() {
          data := null;
          return;
        }
        PrevBlock();
      }
    }

    method SeekToFirst()
      requires Inv()
      modifies Repr()
      ensures Inv() && At() == 0 && fresh(Repr() - old(Repr()))
    {
      hide Names, Offset, Flatten, BlocksOf;
      index.SeekToFirst();
      InitDataBlock();
      if data != null {
        data.SeekToFirst();
      }
      OffsetOfFirst(Blocks());
      OffsetsGrow(Blocks(), 0, |Blocks()|);
      if index.Valid() {
        OffsetSteps(Blocks(), 0);
      }
      SkipEmptyDataBlocksForward();
    }

    method SeekToLast()
      requires Inv()
      modifies Repr()
      ensures Inv() && At() == (if Flat() == [] then 0 else |Flat()| - 1) && fresh(Repr() - old(Repr()))
    {
      hide Names, Offset, Flatten, BlocksOf;
      index.SeekToLast();
      InitDataBlock();
      if data != null {
        data.SeekToLast();
      }
      OffsetOfFirst(Blocks());
      OffsetsGrow(Blocks(), 0, |Blocks()|);
      if index.Valid() {
        OffsetSteps(Blocks(), index.at);
      }
      SkipEmptyDataBlocksBackward();
    }

    method Seek(target: Key)
      requires Inv()
      modifies Repr()
      ensures Inv() && IsFirstFrom(Flat(), target, At()) && fresh(Repr() - old(Repr()))
    {
      hide Offset, Flatten, BlocksOf, IsFirstFrom, Separates;
      index.Seek(target);
      FirstFromWithin(index.entries, target, index.at);
      InitDataBlock();
      if data != null {
        data.Seek(target);
      }
      SeekLands(index.entries, Blocks(), target, index.at, if data == null then 0 else data.at);
      OffsetsGrow(Blocks(), 0, |Blocks()|);
      if index.Valid() {
        OffsetSteps(Blocks(), index.at);
      }
      SkipEmptyDataBlocksForward();
    }

    method Next()
      requires Inv() && Valid()
      modifies Repr()
      ensures Inv() && At() == old(At()) + 1 && fresh(Repr() - old(Repr()))
    {
      hide Names, Offset, Flatten, BlocksOf;
      OffsetSteps(Blocks(), index.at);
      data.Next();
      SkipEmptyDataBlocksForward();
    }

    method Prev()
      requires Inv() && Valid()
      modifies Repr()
      ensures Inv() && fresh(Repr() - old(Repr()))
      ensures At() == if old(At()) == 0 then |Flat()| else old(At()) - 1
    {
      hide Names, Offset, Flatten, BlocksOf;
      data.Prev();
      SkipEmptyDataBlocksBackward();
    }
  }

  lemma OffsetOfFirst(blocks: seq<seq<Entry>>)
    ensures Offset(blocks, 0) == 0
  {
    assert blocks[..0] == [];
  }

  lemma FirstFromWithin(entries: seq<Entry>, target: Key, at: nat)
    requires IsFirstFrom(entries, target, at)
    ensures at <= |entries|
  {
  }
}

/** The filter block of a table (table/filter_block.cc), over the filter policy for internal keys
    (db/dbformat.cc): no key is missed under the offset of its block. */
module FilterBlock {
  import opened InternalKey
  import opened Sequences
  import opened Coding
  import opened ByteKeys
  import opened Bloom

  const FILTER_BASE_LG := 11
  const FILTER_BASE := 2048

  function UserParts(keys: seq<Bytes>): (r: seq<Bytes>)
    requires forall k :: k in keys ==> IsKey(k)
    ensures |r| == |keys|
  {
    seq(|keys|, i requires 0 <= i < |keys| => assert keys[i] in keys; UserPart(keys[i]))
  }

  /** InternalFilterPolicy::KeyMayMatch */
  ghost predicate MayMatch(policy: BloomFilterPolicy, key: Bytes, filter: Bytes)
    requires policy.Inv()
  {
    IsKey(key) && policy.MayMatch(UserPart(key), filter)
  }

  /** InternalFilterPolicy::CreateFilter: the filter of the user keys. */
  method CreateFilter(policy: BloomFilterPolicy, keys: seq<Bytes>, dst: Bytes) returns (r: Bytes)
    requires policy.Inv() && forall k :: k in keys ==> IsKey(k)
    ensures dst <= r && policy.IsFilterOf(UserParts(keys), r[|dst|..])
  {
    var users := UserParts(keys);
    r := policy.CreateFilter(users, dst);
  }

  // ----- Flattened keys -----

  /** Where each key starts in the flattened keys. */
  function Starts(keys: seq<Bytes>): (r: seq<nat>)
    ensures |r| == |keys|
  {
    if keys == [] then [] else Starts(keys[..|keys| - 1]) + [|Flatten(keys[..|keys| - 1])|]
  }

  lemma {:induction false} KeyAt(keys: seq<Bytes>, i: nat)
    requires i < |keys|
    ensures var limit := if i + 1 < |keys| then Starts(keys)[i + 1] else |Flatten(keys)|;
      Starts(keys)[i] <= limit <= |Flatten(keys)| && Flatten(keys)[Starts(keys)[i]..limit] == keys[i]
  {
    var init := keys[..|keys| - 1];
    if i < |init| {
      KeyAt(init, i);
      assert init[i] == keys[i];
      var limit := if i + 1 < |keys| then Starts(keys)[i + 1] else |Flatten(keys)|;
      assert limit == if i + 1 < |init| then Starts(init)[i + 1] else |Flatten(init)|;
      assert Flatten(keys)[Starts(keys)[i]..limit] == Flatten(init)[Starts(init)[i]..limit];
    }
  }

  // ----- The filters of a block -----

  /** Filter `i` of `data`. */
  function LimitOf(offsets: seq<nat>, size: nat, i: nat): nat
    requires i < |offsets|
  {
    if i + 1 < |offsets| then offsets[i + 1] else size
  }

  /** The bytes are the filter of the keys; without keys there are none. */
  ghost predicate IsFilter(policy: BloomFilterPolicy, keys: seq<Bytes>, filter: Bytes)
    requires policy.Inv()
  {
    (forall k :: k in keys ==> IsKey(k)) && if keys == [] then filter == [] else policy.IsFilterOf(UserParts(keys), filter)
  }

  /** Filter `i` is that of its keys. */
  ghost predicate FilterIsRight(policy: BloomFilterPolicy, data: Bytes, offsets: seq<nat>, i: nat, keys: seq<Bytes>)
    requires policy.Inv() && i < |offsets|
  {
    var limit := LimitOf(offsets, |data|, i);
    offsets[i] <= limit <= |data| && IsFilter(policy, keys, data[offsets[i]..limit])
  }

  lemma FilterMade(policy: BloomFilterPolicy, keys: seq<Bytes>, filter: Bytes)
    requires policy.Inv() && forall k :: k in keys ==> IsKey(k)
    requires if keys == [] then filter == [] else policy.IsFilterOf(UserParts(keys), filter)
    ensures IsFilter(policy, keys, filter)
  {
  }

  /** A filter matches all of its keys. */
  lemma FilterMatches(policy: BloomFilterPolicy, keys: seq<Bytes>, filter: Bytes, key: Bytes)
    requires policy.Inv() && IsFilter(policy, keys, filter) && key in keys
    ensures MayMatch(policy, key, filter)
  {
    hide BloomFilterPolicy.IsFilterOf;
    var users := UserParts(keys);
    policy.FilterMatches(users, filter);
    var i :| 0 <= i < |keys| && keys[i] == key;
    assert users[i] in users;
  }

  /** The key was added for a block whose filter is the `i`-th. */
  ghost predicate AddedFor(added: set<(nat, Bytes)>, i: nat, key: Bytes) {
    exists a :: a in added && a.0 / FILTER_BASE == i && a.1 == key
  }

  /** The keys of each filter are those that were added for its blocks. */
  ghost predicate Booked(added: set<(nat, Bytes)>, filterKeys: seq<seq<Bytes>>) {
    && (forall a :: a in added ==> a.0 / FILTER_BASE < |filterKeys| && a.1 in filterKeys[a.0 / FILTER_BASE])
    && (forall i, key :: 0 <= i < |filterKeys| && key in filterKeys[i] ==> AddedFor(added, i, key))
  }

  lemma BookedKey(added: set<(nat, Bytes)>, filterKeys: seq<seq<Bytes>>, pending: seq<Bytes>, offset: nat, key: Bytes)
    requires Booked(added, filterKeys + [pending]) && |filterKeys| == offset / FILTER_BASE
    ensures Booked(added + {(offset, key)}, filterKeys + [pending + [key]])
  {
    var before, after, more := filterKeys + [pending], filterKeys + [pending + [key]], added + {(offset, key)};
    assert (offset, key) in more && AddedFor(more, |filterKeys|, key);
    forall i, x | 0 <= i < |after| && x in after[i]
      ensures AddedFor(more, i, x)
    {
      if !(i == |filterKeys| && x == key) {
        assert x in before[i] && AddedFor(added, i, x);
      }
    }
  }

  lemma BookedFilter(added: set<(nat, Bytes)>, filterKeys: seq<seq<Bytes>>)
    requires Booked(added, filterKeys)
    ensures Booked(added, filterKeys + [[]])
  {
    hide AddedFor;
    assert forall i :: 0 <= i < |filterKeys| ==> (filterKeys + [[]])[i] == filterKeys[i];
  }

  lemma BookedLast(added: set<(nat, Bytes)>, filterKeys: seq<seq<Bytes>>)
    requires Booked(added, filterKeys + [[]])
    ensures Booked(added, filterKeys)
  {
    hide AddedFor;
    assert forall i :: 0 <= i < |filterKeys| ==> (filterKeys + [[]])[i] == filterKeys[i];
  }

  class FilterBlockBuilder {
    const policy: BloomFilterPolicy
    var keys: Bytes  // flattened
    var start: seq<nat>
    var result: Bytes
    var filterOffsets: seq<nat>
    ghost var pending: seq<Bytes>  // keys of the filter that comes next
    ghost var filterKeys: seq<seq<Bytes>>  // keys of the filters there are
    ghost var added: set<(nat, Bytes)>  // every key with the offset of its block
    ghost var count: nat  // how many keys were added

    ghost predicate Inv()
      reads this
    {
      && policy.Inv() && keys == Flatten(pending) && start == Starts(pending)
      && |filterKeys| == |filterOffsets| && (forall k :: k in pending ==> IsKey(k))
      && (forall i :: 0 <= i < |filterOffsets| ==> FilterIsRight(policy, result, filterOffsets, i, filterKeys[i]))
      && Booked(added, filterKeys + [pending])
      && |result| + policy.MostBytes(|pending|) <= policy.MostBytes(count)
    }

    constructor (policy: BloomFilterPolicy)
      requires policy.Inv()
      ensures Inv() && added == {} && filterOffsets == [] && this.policy == policy && count == 0
    {
      this.policy := policy;
      keys, start, result, filterOffsets := [], [], [], [];
      pending, filterKeys, added, count := [], [], {}, 0;
    }

    /** GenerateFilter */
    method GenerateFilter()
      requires Inv()
      modifies this
      ensures Inv() && added == old(added) && |filterOffsets| == old(|filterOffsets|) + 1 && start == [] && count == old(count)
    {
      hide IsFilter, Flatten, Starts, Booked, BloomFilterPolicy.MostBytes, BloomFilterPolicy.ArraySize;
      NoBytes(policy);
      if start != [] {
        NoStarts(pending);
        policy.FilterIsSmall(|pending|);
      }
      BookedFilter(added, filterKeys + [pending]);
      ghost var was, offsets := result, filterOffsets;
      filterOffsets := filterOffsets + [|result|];
      if start != [] {
        var tmpKeys := Unflatten();
        result := CreateFilter(policy, tmpKeys, result);
      }
      forall i | 0 <= i < |offsets|
        ensures FilterIsRight(policy, result, filterOffsets, i, filterKeys[i])
      {
        assert FilterIsRight(policy, was, offsets, i, filterKeys[i]);
        ghost var limit := LimitOf(offsets, |was|, i);
        assert LimitOf(filterOffsets, |result|, i) == limit;
        assert result[filterOffsets[i]..limit] == was[offsets[i]..limit];
      }
      ghost var now := filterKeys + [pending];
      assert FilterIsRight(policy, result, filterOffsets, |offsets|, pending) by {
        assert result[filterOffsets[|offsets|]..|result|] == result[|was|..];
        NoStarts(pending);
        FilterMade(policy, pending, result[|was|..]);
      }
      filterKeys, pending := now, [];
      NoKeys();
      keys, start := [], [];
    }

    lemma NoKeys()
      ensures Flatten<Byte>([]) == [] && Starts([]) == []
    {
    }

    /** The list of keys from the flattened structure. */
    method Unflatten() returns (tmpKeys: seq<Bytes>)
      requires keys == Flatten(pending) && start == Starts(pending)
      ensures tmpKeys == pending
    {
      hide Flatten, Starts;
      tmpKeys := [];
      var bounds := start + [|keys|];
      for i := 0 to |start|
        invariant tmpKeys == pending[..i]
      {
        KeyAt(pending, i);
        tmpKeys := tmpKeys + [keys[bounds[i]..bounds[i + 1]]];
      }
      assert pending[..|pending|] == pending;
    }

    /** StartBlock: the blocks come in the order of their offsets. */
    method StartBlock(blockOffset: nat)
      requires Inv() && blockOffset / FILTER_BASE >= |filterOffsets|
      modifies this
      ensures Inv() && added == old(added) && |filterOffsets| == blockOffset / FILTER_BASE && count == old(count)
    {
      var filterIndex := blockOffset / FILTER_BASE;
      while filterIndex > |filterOffsets|
        invariant Inv() && added == old(added) && |filterOffsets| <= filterIndex && count == old(count)
        decreases filterIndex - |filterOffsets|
      {
        GenerateFilter();
      }
    }

    /** AddKey, in the block that was started at `blockOffset`. */
    method AddKey(key: Bytes, ghost blockOffset: nat)
      requires Inv() && IsKey(key) && |filterOffsets| == blockOffset / FILTER_BASE
      modifies this
      ensures Inv() && added == old(added) + {(blockOffset, key)} && filterOffsets == old(filterOffsets)
      ensures count == old(count) + 1
    {
      hide FilterIsRight, Booked, BloomFilterPolicy.MostBytes;
      policy.MostAdds(|pending|, 1);
      policy.MostAdds(count, 1);
      count := count + 1;
      BookedKey(added, filterKeys, pending, blockOffset, key);
      start := start + [|keys|];
      keys := keys + key;
      ghost var more := pending + [key];
      assert more[..|pending|] == pending;
      pending := more;
      added := added + {(blockOffset, key)};
    }

    lemma OffsetsFit()
      requires Inv()
      ensures forall o :: o in filterOffsets ==> o <= |result|
    {
      forall o | o in filterOffsets
        ensures o <= |result|
      {
        var i :| 0 <= i < |filterOffsets| && filterOffsets[i] == o;
        assert FilterIsRight(policy, result, filterOffsets, i, filterKeys[i]);
      }
    }

    /** Finish */
    method Finish() returns (contents: Bytes)
      requires Inv()
      modifies this
      ensures added == old(added)
      ensures |contents| <= policy.MostBytes(count) + 4 * old(|filterOffsets|) + 9 && count == old(count)
      ensures |contents| < 0x1_0000_0000 ==>
        forall a :: a in added ==> BlockMayMatch(policy, contents, a.0, a.1)
      ensures |contents| < 0x1_0000_0000 ==> FindsFilters(policy, contents, filterKeys)
      ensures Booked(added, filterKeys)
    {
      hide FilterIsRight, EncodeFixed32, Flatten, Starts, Fixed32s, BlockMayMatch, FindsFilters, IsFilter,
        AddedFor, BloomFilterPolicy.MostBytes;
      if start != [] {
        GenerateFilter();
      }
      NoStarts(pending);
      BookedLast(added, filterKeys);
      OffsetsFit();
      var data, offsets := result, filterOffsets;
      contents := AppendOffsets(data, offsets);
      result := contents;
      if |contents| < 0x1_0000_0000 {
        forall a | a in added
          ensures BlockMayMatch(policy, contents, a.0, a.1)
        {
          NeverMissed(policy, data, offsets, a.0, a.1, filterKeys[a.0 / FILTER_BASE]);
        }
        FiltersAreFound(policy, data, offsets, filterKeys);
      }
    }
  }

  lemma NoBytes(policy: BloomFilterPolicy)
    ensures policy.MostBytes(0) == 0
  {
  }

  lemma NoStarts(keys: seq<Bytes>)
    ensures Starts(keys) == [] ==> keys == []
  {
  }

  /** The array of per-filter offsets, where it starts, and the base. */
  method AppendOffsets(data: Bytes, offsets: seq<nat>) returns (contents: Bytes)
    ensures contents == Contents(data, offsets)
  {
    hide Fixed32s, EncodeFixed32;
    assert offsets[..0] == [];
    NoNumbers();
    contents := data;
    for i := 0 to |offsets|
      invariant contents == data + Fixed32s(offsets[..i])
    {
      Fixed32sGrows(offsets, i);
      contents := contents + EncodeFixed32(offsets[i]);
    }
    assert offsets[..|offsets|] == offsets;
    contents := contents + EncodeFixed32(|data|);
    contents := contents + [FILTER_BASE_LG];
  }

  // ----- The reader -----

  function Contents(data: Bytes, offsets: seq<nat>): Bytes {
    data + Fixed32s(offsets) + EncodeFixed32(|data|) + [FILTER_BASE_LG]
  }

  /** FilterBlockReader: where the offset array is, how many filters there are, and the base. */
  datatype Reader = Reader(offsetAt: nat, num: nat, baseLg: nat)

  function Open(contents: Bytes): (r: Reader)
    ensures r.num > 0 ==> r.offsetAt + 4 * r.num + 5 <= |contents|
  {
    var n := |contents|;
    if n < 5 then Reader(0, 0, 0)
    else
      var lastWord := DecodeFixed32(contents[n - 5..]);
      if lastWord > n - 5 then Reader(0, 0, contents[n - 1])
      else Reader(lastWord, (n - 5 - lastWord) / 4, contents[n - 1])
  }

  function OffsetAt(contents: Bytes, r: Reader, i: nat): nat
    requires r.offsetAt + 4 * i + 4 <= |contents|
  {
    DecodeFixed32(contents[r.offsetAt + 4 * i..])
  }

  /** What KeyMayMatch answers. */
  ghost predicate BlockMayMatch(policy: BloomFilterPolicy, contents: Bytes, blockOffset: nat, key: Bytes)
    requires policy.Inv()
  {
    var r := Open(contents);
    var index := blockOffset / Power(2, r.baseLg);
    if index >= r.num then true
    else
      var start, limit := OffsetAt(contents, r, index), OffsetAt(contents, r, index + 1);
      if start <= limit <= r.offsetAt then MayMatch(policy, key, contents[start..limit]) else start != limit
  }

  /** FilterBlockReader::KeyMayMatch */
  method KeyMayMatch(policy: BloomFilterPolicy, contents: Bytes, blockOffset: nat, key: Bytes) returns (match': bool)
    requires policy.Inv() && IsKey(key)
    ensures match' == BlockMayMatch(policy, contents, blockOffset, key)
  {
    hide Power;
    var r := Open(contents);
    var index := blockOffset / Power(2, r.baseLg);
    if index < r.num {
      var start, limit := OffsetAt(contents, r, index), OffsetAt(contents, r, index + 1);
      if start <= limit <= r.offsetAt {
        match' := policy.KeyMayMatch(UserPart(key), contents[start..limit]);
        return;
      } else if start == limit {
        return false;
      }
    }
    return true;
  }

  lemma BaseIsPower()
    ensures Power(2, FILTER_BASE_LG) == FILTER_BASE
  {
    assert Power(2, 3) == 8 && Power(2, 5) == 2 * (2 * Power(2, 3));
    assert Power(2, 7) == 2 * (2 * Power(2, 5)) && Power(2, 9) == 2 * (2 * Power(2, 7));
    assert Power(2, 11) == 2 * (2 * Power(2, 9));
  }

  lemma OpenContents(data: Bytes, offsets: seq<nat>)
    requires |Contents(data, offsets)| < 0x1_0000_0000
    ensures Open(Contents(data, offsets)) == Reader(|data|, |offsets|, FILTER_BASE_LG)
  {
    hide EncodeFixed32, DecodeFixed32, Fixed32s;
    var contents := Contents(data, offsets);
    Fixed32RoundTrip(|data|, [FILTER_BASE_LG]);
    assert contents[|contents| - 5..] == EncodeFixed32(|data|) + [FILTER_BASE_LG];
  }

  /** The offset array ends where the word after it tells where it starts. */
  lemma OffsetOf(data: Bytes, offsets: seq<nat>, i: nat)
    requires |Contents(data, offsets)| < 0x1_0000_0000 && i <= |offsets| && forall o :: o in offsets ==> o <= |data|
    ensures OffsetAt(Contents(data, offsets), Reader(|data|, |offsets|, FILTER_BASE_LG), i)
         == if i < |offsets| then offsets[i] else |data|
  {
    hide EncodeFixed32, DecodeFixed32, Fixed32s, HoldsAt;
    var contents, array' := Contents(data, offsets), Fixed32s(offsets);
    Whole(contents);
    HoldsParts(contents, 0, data + array' + EncodeFixed32(|data|), [FILTER_BASE_LG]);
    HoldsParts(contents, 0, data + array', EncodeFixed32(|data|));
    HoldsParts(contents, 0, data, array');
    if i < |offsets| {
      Fixed32At(offsets, i);
      PartOfPart(contents, |data|, array', 4 * i, EncodeFixed32(offsets[i]));
      assert offsets[i] in offsets;
      DecodeAt(contents, |data| + 4 * i, offsets[i]);
    } else {
      DecodeAt(contents, |data| + 4 * i, |data|);
    }
  }

  /** What the reader takes as filter `i`. */
  function FilterAt(contents: Bytes, i: nat): Bytes
    requires i < Open(contents).num
  {
    var r := Open(contents);
    var start, limit := OffsetAt(contents, r, i), OffsetAt(contents, r, i + 1);
    if start <= limit <= r.offsetAt then contents[start..limit] else []
  }

  /** The reader finds one filter for each list of keys, and it is the filter of just these keys. */
  ghost predicate FindsFilters(policy: BloomFilterPolicy, contents: Bytes, keys: seq<seq<Bytes>>)
    requires policy.Inv()
  {
    && Open(contents).num == |keys| && Open(contents).baseLg == 11
    && forall i :: 0 <= i < |keys| ==> IsFilter(policy, keys[i], FilterAt(contents, i))
  }

  lemma FilterIsFound(policy: BloomFilterPolicy, data: Bytes, offsets: seq<nat>, i: nat, keys: seq<Bytes>)
    requires policy.Inv() && |Contents(data, offsets)| < 0x1_0000_0000 && i < |offsets|
    requires (forall o :: o in offsets ==> o <= |data|) && FilterIsRight(policy, data, offsets, i, keys)
    ensures Open(Contents(data, offsets)) == Reader(|data|, |offsets|, FILTER_BASE_LG)
    ensures IsFilter(policy, keys, FilterAt(Contents(data, offsets), i))
    ensures var r := Open(Contents(data, offsets));
      OffsetAt(Contents(data, offsets), r, i) <= OffsetAt(Contents(data, offsets), r, i + 1) <= r.offsetAt
  {
    hide EncodeFixed32, DecodeFixed32, Fixed32s, Power, Contents, OffsetAt, IsFilter, Open;
    OpenContents(data, offsets);
    OffsetOf(data, offsets, i);
    OffsetOf(data, offsets, i + 1);
    var limit := LimitOf(offsets, |data|, i);
    assert Contents(data, offsets)[offsets[i]..limit] == data[offsets[i]..limit] by {
      ContentsStart(data, offsets);
    }
  }

  lemma FiltersAreFound(policy: BloomFilterPolicy, data: Bytes, offsets: seq<nat>, keys: seq<seq<Bytes>>)
    requires policy.Inv() && |Contents(data, offsets)| < 0x1_0000_0000 && |keys| == |offsets|
    requires forall o :: o in offsets ==> o <= |data|
    requires forall i :: 0 <= i < |offsets| ==> FilterIsRight(policy, data, offsets, i, keys[i])
    ensures FindsFilters(policy, Contents(data, offsets), keys)
  {
    hide Contents, Open, IsFilter, FilterIsRight, FilterAt;
    OpenContents(data, offsets);
    forall i | 0 <= i < |keys|
      ensures i < Open(Contents(data, offsets)).num && IsFilter(policy, keys[i], FilterAt(Contents(data, offsets), i))
    {
      FilterIsFound(policy, data, offsets, i, keys[i]);
    }
  }

  /** A key that was added is matched, through the offset array. */
  lemma NeverMissed(policy: BloomFilterPolicy, data: Bytes, offsets: seq<nat>, blockOffset: nat, key: Bytes, keys: seq<Bytes>)
    requires policy.Inv() && |Contents(data, offsets)| < 0x1_0000_0000 && key in keys
    requires blockOffset / FILTER_BASE < |offsets| && forall o :: o in offsets ==> o <= |data|
    requires FilterIsRight(policy, data, offsets, blockOffset / FILTER_BASE, keys)
    ensures BlockMayMatch(policy, Contents(data, offsets), blockOffset, key)
  {
    hide Power, Contents, OffsetAt, MayMatch, Open, IsFilter, FilterIsRight;
    var index := blockOffset / FILTER_BASE;
    BaseIsPower();
    FilterIsFound(policy, data, offsets, index, keys);
    FilterMatches(policy, keys, FilterAt(Contents(data, offsets), index), key);
  }

  lemma ContentsStart(data: Bytes, offsets: seq<nat>)
    ensures data <= Contents(data, offsets)
  {
  }

  /** Where there is no filter to ask, everything matches: in a block too short to have any, for an
      offset beyond the last filter, and when the offsets make no sense. */
  lemma NothingToAsk(policy: BloomFilterPolicy, contents: Bytes, blockOffset: nat, key: Bytes)
    requires policy.Inv()
    ensures |contents| < 5 ==> BlockMayMatch(policy, contents, blockOffset, key)
    ensures blockOffset / Power(2, Open(contents).baseLg) >= Open(contents).num ==>
      BlockMayMatch(policy, contents, blockOffset, key)
    ensures var r := Open(contents);
      var i := blockOffset / Power(2, r.baseLg);
      i < r.num && OffsetAt(contents, r, i) > OffsetAt(contents, r, i + 1) ==> BlockMayMatch(policy, contents, blockOffset, key)
  {
    hide Power, OffsetAt, MayMatch;
  }
}

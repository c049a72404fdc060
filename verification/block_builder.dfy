/** The block builder (table/block_builder.cc). */
module BlockBuilders {
  import opened InternalKey
  import opened Coding
  import opened BlockFormat
  import opened Arithmetic

  /** How many entries there are since the last restart point, among the first `n`. */
  function Counter(n: nat, interval: nat): nat
    requires interval >= 1
  {
    if n == 0 then 0 else (n - 1) % interval + 1
  }

  class BlockBuilder {
    const interval: nat  // block_restart_interval
    var buffer: Bytes
    var restarts: seq<nat>
    var counter: nat
    var finished: bool
    var lastKey: Bytes
    ghost var entries: seq<KeyValue>

    /** What was added so far is in the buffer. */
    ghost predicate Inv()
      reads this
    {
      && interval >= 1 && !finished
      && buffer == Data(entries, interval, |entries|)
      && restarts == Restarts(entries, interval, |entries|)
      && lastKey == (if entries == [] then [] else entries[|entries| - 1].key)
      && counter == Counter(|entries|, interval)
    }

    constructor (interval: nat)
      requires interval >= 1
      ensures Inv() && entries == [] && this.interval == interval
    {
      this.interval, entries := interval, [];
      buffer, restarts, counter, finished, lastKey := [], [0], 0, false, [];
      new;
      FirstRestart(interval);
    }

    method Reset()
      requires interval >= 1
      modifies this
      ensures Inv() && entries == []
    {
      buffer, restarts, counter, finished, lastKey, entries := [], [0], 0, false, [], [];
      FirstRestart(interval);
    }

    method Empty() returns (r: bool)
      requires Inv()
      ensures r <==> entries == []
    {
      if entries != [] {
        DataPrefix(entries, interval, 0, |entries|);
      }
      r := buffer == [];
    }

    method CurrentSizeEstimate() returns (r: nat)
      requires Inv()
      ensures r == |BlockBytes(entries, interval)|
    {
      r := |buffer| + |restarts| * 4 + 4;
    }

    method Add(key: Bytes, value: Bytes)
      requires Inv() && |key| < 0x1_0000_0000 && |value| < 0x1_0000_0000
      modifies this
      ensures Inv() && entries == old(entries) + [KeyValue(key, value)]
    {
      hide EntryBytes, Data, Restarts, Common, Shared, IsRestart, Counter;
      ghost var n := |entries|;
      CounterIsRestart(n, interval, counter);
      NextShared(entries, interval, KeyValue(key, value), counter, lastKey);
      var shared: nat := 0;
      if counter < interval {
        shared := SharedPrefix(lastKey, key);
      } else {
        restarts := restarts + [|buffer|];
        counter := 0;
      }
      ghost var more := entries + [KeyValue(key, value)];
      EntryAppends(entries, interval, KeyValue(key, value), shared);
      AppendEntry(shared, key, value);
      lastKey := lastKey[..shared] + key[shared..];
      counter := counter + 1;
      entries := more;
    }

    /** The lengths, the rest of the key, and the value. */
    method AppendEntry(shared: nat, key: Bytes, value: Bytes)
      requires shared <= |key| < 0x1_0000_0000 && |value| < 0x1_0000_0000
      modifies `buffer
      ensures buffer == old(buffer) + EntryBytes(shared, KeyValue(key, value))
    {
      hide EntryBytes;
      AppendsEntry(buffer, shared, KeyValue(key, value));
      var header0 := EncodeVarint32(shared);
      var header1 := EncodeVarint32(|key| - shared);
      var header2 := EncodeVarint32(|value|);
      buffer := buffer + (header0 + header1 + header2);
      buffer := buffer + key[shared..];
      buffer := buffer + value;
    }

    method Finish() returns (contents: Bytes)
      requires Inv()
      modifies `buffer, `finished
      ensures contents == BlockBytes(entries, interval)
    {
      contents := AppendRestarts(buffer, restarts);
      buffer, finished := contents, true;
    }
  }

  /** The array of restart points and its length. */
  method AppendRestarts(data: Bytes, restarts: seq<nat>) returns (contents: Bytes)
    ensures contents == data + Fixed32s(restarts) + EncodeFixed32(|restarts|)
  {
    hide Fixed32s, EncodeFixed32;
    assert restarts[..0] == [];
    NoNumbers();
    contents := data;
    for i := 0 to |restarts|
      invariant contents == data + Fixed32s(restarts[..i])
    {
      Fixed32sGrows(restarts, i);
      contents := contents + EncodeFixed32(restarts[i]);
    }
    assert restarts[..|restarts|] == restarts;
    contents := contents + EncodeFixed32(|restarts|);
  }

  lemma FirstRestart(interval: nat)
    requires interval >= 1
    ensures Restarts([], interval, 0) == [0] && Data([], interval, 0) == []
  {
  }

  lemma NextRemainder(n: nat, interval: nat)
    requires interval >= 1
    ensures (n + 1) % interval == if n % interval + 1 == interval then 0 else n % interval + 1
  {
    var q, r := n / interval, n % interval;
    assert n == q * interval + r;
    if r + 1 == interval {
      assert n + 1 == (q + 1) * interval + 0;
      Remainder(n + 1, interval, q + 1, 0);
    } else {
      Remainder(n + 1, interval, q, r + 1);
    }
  }

  /** The counter reaches the interval just before a restart. */
  lemma CounterIsRestart(n: nat, interval: nat, counter: nat)
    requires interval >= 1 && counter == Counter(n, interval)
    ensures counter <= interval
    ensures n > 0 ==> (counter == interval <==> IsRestart(interval, n))
    ensures n % interval == if counter == interval then 0 else counter
    ensures n == 0 ==> IsRestart(interval, n) && counter < interval
  {
    if n > 0 {
      NextRemainder(n - 1, interval);
    }
  }

  /** How much the next entry shares with the last. */
  lemma NextShared(entries: seq<KeyValue>, interval: nat, e: KeyValue, counter: nat, lastKey: Bytes)
    requires interval >= 1 && counter == Counter(|entries|, interval)
    requires lastKey == if entries == [] then [] else entries[|entries| - 1].key
    ensures Shared(entries + [e], interval, |entries|) == if counter < interval then Common(lastKey, e.key) else 0
    ensures Counter(|entries| + 1, interval) == if counter < interval then counter + 1 else 1
  {
    CounterIsRestart(|entries|, interval, counter);
  }

  /** The loop of Add. */
  method SharedPrefix(lastKey: Bytes, key: Bytes) returns (shared: nat)
    ensures shared == Common(lastKey, key)
  {
    shared := 0;
    var minLength := if |lastKey| < |key| then |lastKey| else |key|;
    while shared < minLength && lastKey[shared] == key[shared]
      invariant shared <= minLength && Common(lastKey, key) == shared + Common(lastKey[shared..], key[shared..])
    {
      assert lastKey[shared..][1..] == lastKey[shared + 1..] && key[shared..][1..] == key[shared + 1..];
      shared := shared + 1;
    }
  }

  lemma AppendsEntry(buffer: Bytes, shared: nat, e: KeyValue)
    requires shared <= |e.key|
    ensures buffer + (Varint(shared) + Varint(|e.key| - shared) + Varint(|e.value|)) + e.key[shared..] + e.value
         == buffer + EntryBytes(shared, e)
  {
    hide Varint;
  }

  lemma RestartsAreStable(entries: seq<KeyValue>, interval: nat, e: KeyValue)
    requires interval >= 1
    ensures Restarts(entries + [e], interval, |entries|) == Restarts(entries, interval, |entries|)
  {
    hide Data, RestartIndexes;
    var n := |entries|;
    var indexes := RestartIndexes(interval, n);
    forall k | 0 <= k < |indexes|
      ensures Offset(entries + [e], interval, indexes[k]) == Offset(entries, interval, indexes[k])
    {
      DataIsStable(entries, [e], interval, indexes[k]);
    }
  }

  lemma RestartAppends(entries: seq<KeyValue>, interval: nat, n: nat)
    requires interval >= 1 && n < |entries|
    ensures Restarts(entries, interval, n + 1)
         == Restarts(entries, interval, n) + if n > 0 && IsRestart(interval, n) then [Offset(entries, interval, n)] else []
  {
    hide Data, IsRestart;
  }

  /** What one more entry does to the bytes and to the restart points. */
  lemma EntryAppends(entries: seq<KeyValue>, interval: nat, e: KeyValue, shared: nat)
    requires interval >= 1
    requires shared <= |e.key| && shared == Shared(entries + [e], interval, |entries|)
    ensures var n, more := |entries|, entries + [e];
      && Data(more, interval, n + 1) == Data(entries, interval, n) + EntryBytes(shared, e)
      && Restarts(more, interval, n + 1)
           == Restarts(entries, interval, n) + if n > 0 && IsRestart(interval, n) then [|Data(entries, interval, n)|] else []
  {
    hide EntryBytes, Shared, Restarts, IsRestart, RestartIndexes;
    DataIsStable(entries, [e], interval, |entries|);
    RestartsAreStable(entries, interval, e);
    RestartAppends(entries + [e], interval, |entries|);
  }

  // ----- How large a block can get -----

  /** Keys and values, three lengths and a restart point for each entry. */
  function EntriesSize(entries: seq<KeyValue>): nat {
    if entries == [] then 0
    else
      var last := entries[|entries| - 1];
      EntriesSize(entries[..|entries| - 1]) + |last.key| + |last.value| + 19
  }

  ghost predicate Small(entries: seq<KeyValue>) {
    forall e :: e in entries ==> |e.key| < 0x1_0000_0000 && |e.value| < 0x1_0000_0000
  }

  lemma VarintIsShort(v: nat)
    requires v < 0x1_0000_0000
    ensures |Varint(v)| <= 5
  {
    Powers();
    VarintFits(v, 5);
  }

  lemma EntryIsSmall(shared: nat, e: KeyValue)
    requires shared <= |e.key| < 0x1_0000_0000 && |e.value| < 0x1_0000_0000
    ensures |EntryBytes(shared, e)| <= |e.key| + |e.value| + 15
  {
    hide Varint;
    VarintIsShort(shared);
    VarintIsShort(|e.key| - shared);
    VarintIsShort(|e.value|);
  }

  lemma {:induction false} DataIsSmall(entries: seq<KeyValue>, interval: nat, n: nat)
    requires interval >= 1 && Small(entries) && n <= |entries|
    ensures |Data(entries, interval, n)| + 4 * n <= EntriesSize(entries[..n])
  {
    hide EntryBytes, Shared;
    if n > 0 {
      DataIsSmall(entries, interval, n - 1);
      assert entries[..n][..n - 1] == entries[..n - 1] && entries[n - 1] in entries;
      EntryIsSmall(Shared(entries, interval, n - 1), entries[n - 1]);
    }
  }

  /** A block takes no more than its entries, a first restart point and their number. */
  lemma BlockIsSmall(entries: seq<KeyValue>, interval: nat)
    requires interval >= 1 && Small(entries)
    ensures |BlockBytes(entries, interval)| <= EntriesSize(entries) + 8
  {
    hide Data, Restarts, Fixed32s, EntriesSize;
    DataIsSmall(entries, interval, |entries|);
    assert entries[..|entries|] == entries;
  }
}

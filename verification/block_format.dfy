/** The format of a block: entries with shared key prefixes, then an array of restart points. */
module BlockFormat {
  import opened InternalKey
  import opened Coding

  datatype KeyValue = KeyValue(key: Bytes, value: Bytes)

  /** How many leading bytes two keys share. */
  function Common(a: Bytes, b: Bytes): (n: nat)
    ensures n <= |a| && n <= |b| && a[..n] == b[..n]
    ensures n < |a| && n < |b| ==> a[n] != b[n]
  {
    if a == [] || b == [] || a[0] != b[0] then 0
    else
      var n := Common(a[1..], b[1..]);
      assert a[..n + 1] == [a[0]] + a[1..][..n] && b[..n + 1] == [b[0]] + b[1..][..n];
      n + 1
  }

  /** Every `interval`-th entry starts afresh. */
  predicate IsRestart(interval: nat, i: nat)
    requires interval >= 1
  {
    i % interval == 0
  }

  /** How much of entry `i`'s key is taken from the entry before. */
  function Shared(entries: seq<KeyValue>, interval: nat, i: nat): (n: nat)
    requires interval >= 1 && i < |entries|
    ensures n <= |entries[i].key|
    ensures i > 0 && n > 0 ==> n <= |entries[i - 1].key| && entries[i - 1].key[..n] == entries[i].key[..n]
    ensures IsRestart(interval, i) ==> n == 0
  {
    if IsRestart(interval, i) then 0 else Common(entries[i - 1].key, entries[i].key)
  }

  function EntryHeader(shared: nat, e: KeyValue): Bytes
    requires shared <= |e.key|
  {
    Varint(shared) + Varint(|e.key| - shared) + Varint(|e.value|)
  }

  function EntryBytes(shared: nat, e: KeyValue): Bytes
    requires shared <= |e.key|
  {
    EntryHeader(shared, e) + (e.key[shared..] + e.value)
  }

  /** The first `n` entries. */
  function Data(entries: seq<KeyValue>, interval: nat, n: nat): Bytes
    requires interval >= 1 && n <= |entries|
  {
    if n == 0 then []
    else Data(entries, interval, n - 1) + EntryBytes(Shared(entries, interval, n - 1), entries[n - 1])
  }

  /** Where entry `i` starts. */
  function Offset(entries: seq<KeyValue>, interval: nat, i: nat): nat
    requires interval >= 1 && i <= |entries|
  {
    |Data(entries, interval, i)|
  }

  /** The entries among the first `n` that are restart points; there is always one. */
  function RestartIndexes(interval: nat, n: nat): (r: seq<nat>)
    requires interval >= 1
    ensures |r| >= 1 && r[0] == 0 && |r| <= n + 1
    ensures forall k :: 0 <= k < |r| ==> IsRestart(interval, r[k]) && (r[k] < n || r[k] == 0)
  {
    if n <= 1 then [0]
    else RestartIndexes(interval, n - 1) + if IsRestart(interval, n - 1) then [n - 1] else []
  }

  function Restarts(entries: seq<KeyValue>, interval: nat, n: nat): (r: seq<nat>)
    requires interval >= 1 && n <= |entries|
    ensures |r| == |RestartIndexes(interval, n)|
  {
    var indexes := RestartIndexes(interval, n);
    seq(|indexes|, k requires 0 <= k < |indexes| => Offset(entries, interval, indexes[k]))
  }

  /** The whole block. */
  function BlockBytes(entries: seq<KeyValue>, interval: nat): Bytes
    requires interval >= 1
  {
    var restarts := Restarts(entries, interval, |entries|);
    Data(entries, interval, |entries|) + Fixed32s(restarts) + EncodeFixed32(|restarts|)
  }

  // ----- Layout -----

  lemma {:induction false} DataPrefix(entries: seq<KeyValue>, interval: nat, m: nat, n: nat)
    requires interval >= 1 && m <= n <= |entries|
    ensures Data(entries, interval, m) <= Data(entries, interval, n)
    ensures m < n ==> Offset(entries, interval, m) < Offset(entries, interval, n)
  {
    hide EntryBytes, Shared;
    if m < n {
      DataPrefix(entries, interval, m, n - 1);
      EntryIsLong(Shared(entries, interval, n - 1), entries[n - 1]);
    }
  }

  lemma EntryIsLong(shared: nat, e: KeyValue)
    requires shared <= |e.key|
    ensures |EntryBytes(shared, e)| >= 3
  {
  }

  /** A key is never longer than the bytes up to the end of its entry. */
  lemma {:induction false} KeyIsInData(entries: seq<KeyValue>, interval: nat, n: nat)
    requires interval >= 1 && 0 < n <= |entries|
    ensures |entries[n - 1].key| <= |Data(entries, interval, n)|
  {
    hide Common, EntryHeader;
    if n > 1 {
      KeyIsInData(entries, interval, n - 1);
    }
  }

  lemma KeysAreInBlock(entries: seq<KeyValue>, interval: nat)
    requires interval >= 1
    ensures forall i :: 0 <= i < |entries| ==> |entries[i].key| <= |BlockBytes(entries, interval)|
  {
    hide Data, Restarts, Fixed32s;
    forall i | 0 <= i < |entries|
      ensures |entries[i].key| <= |BlockBytes(entries, interval)|
    {
      KeyIsInData(entries, interval, i + 1);
      DataPrefix(entries, interval, i + 1, |entries|);
    }
  }

  /** More entries leave the bytes of the earlier ones as they are. */
  lemma {:induction false} DataIsStable(entries: seq<KeyValue>, more: seq<KeyValue>, interval: nat, n: nat)
    requires interval >= 1 && n <= |entries|
    ensures Data(entries + more, interval, n) == Data(entries, interval, n)
  {
    hide EntryBytes, Common;
    if n > 0 {
      DataIsStable(entries, more, interval, n - 1);
    }
  }

  lemma {:induction false} RestartsAscend(interval: nat, n: nat, k: nat, l: nat)
    requires interval >= 1 && k < l < |RestartIndexes(interval, n)|
    ensures RestartIndexes(interval, n)[k] < RestartIndexes(interval, n)[l]
  {
    hide IsRestart;
    if n > 1 && l < |RestartIndexes(interval, n - 1)| {
      RestartsAscend(interval, n - 1, k, l);
    }
  }
}

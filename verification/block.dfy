/** Reading a block (table/block.cc): entries are decoded one after the other from a restart
    point, which a binary search finds. */
module Blocks {
  import opened InternalKey
  import opened Coding
  import opened BlockFormat

  datatype Decoded = Decoded(shared: nat, nonShared: nat, valueLength: nat, keyAt: nat)

  /** DecodeEntry: the three lengths of the entry at `p`. */
  function DecodeEntry(data: Bytes, p: nat, limit: nat): (r: Option<Decoded>)
    requires p <= limit <= |data|
    ensures r.Some? ==> p < r.value.keyAt <= limit
  {
    if limit - p < 3 then None
    else if data[p] < 128 && data[p + 1] < 128 && data[p + 2] < 128 then
      // all three are one byte long
      Fits(Decoded(data[p], data[p + 1], data[p + 2], p + 3), limit)
    else
      match GetVarint32(data, p, limit)
      case None => None
      case Some(shared) =>
        match GetVarint32(data, shared.next, limit)
        case None => None
        case Some(nonShared) =>
          match GetVarint32(data, nonShared.next, limit)
          case None => None
          case Some(valueLength) =>
            Fits(Decoded(shared.value, nonShared.value, valueLength.value, valueLength.next), limit)
  }

  /** The two lengths are added in 32 bits. */
  function Fits(d: Decoded, limit: nat): (r: Option<Decoded>)
    requires d.keyAt <= limit
    ensures r.Some? ==> r.value == d
  {
    if (limit - d.keyAt) % 0x1_0000_0000 < (d.nonShared + d.valueLength) % 0x1_0000_0000 then None else Some(d)
  }

  lemma VarintFirst(v: nat, s: Bytes, p: nat)
    requires HoldsAt(s, p, Varint(v))
    ensures p < |s| && (s[p] < 128 <==> v < 128)
    ensures v < 128 ==> s[p] == v && |Varint(v)| == 1
  {
    assert s[p] == s[p..p + |Varint(v)|][0];
  }

  /** Where the parts of an entry are. */
  lemma EntryLayout(data: Bytes, p: nat, shared: nat, e: KeyValue)
    requires shared <= |e.key| && HoldsAt(data, p, EntryBytes(shared, e))
    ensures var a, b, c := Varint(shared), Varint(|e.key| - shared), Varint(|e.value|);
      var keyAt := p + |a| + |b| + |c|;
      && HoldsAt(data, p, a) && HoldsAt(data, p + |a|, b) && HoldsAt(data, p + |a| + |b|, c)
      && |EntryHeader(shared, e)| == |a| + |b| + |c|
      && |EntryBytes(shared, e)| == |a| + |b| + |c| + |e.key| - shared + |e.value|
      && HoldsAt(data, keyAt, e.key[shared..]) && HoldsAt(data, keyAt + |e.key| - shared, e.value)
  {
    hide Varint, HoldsAt;
    var a, b, c := Varint(shared), Varint(|e.key| - shared), Varint(|e.value|);
    HoldsParts(data, p, EntryHeader(shared, e), e.key[shared..] + e.value);
    HoldsParts(data, p + |EntryHeader(shared, e)|, e.key[shared..], e.value);
    HoldsParts(data, p, a + b, c);
    HoldsParts(data, p, a, b);
  }

  lemma DecodeThree(data: Bytes, p: nat, limit: nat, a: nat, b: nat, c: nat)
    requires limit <= |data| && limit < 0x1_0000_0000
    requires HoldsAt(data, p, Varint(a)) && HoldsAt(data, p + |Varint(a)|, Varint(b))
    requires HoldsAt(data, p + |Varint(a)| + |Varint(b)|, Varint(c))
    requires p + |Varint(a)| + |Varint(b)| + |Varint(c)| + b + c <= limit
    requires a < 0x1_0000_0000
    ensures p <= limit
    ensures DecodeEntry(data, p, limit) == Some(Decoded(a, b, c, p + |Varint(a)| + |Varint(b)| + |Varint(c)|))
  {
    hide Varint, Fits, HoldsAt, GetVarint32;
    var q := p + |Varint(a)|;
    var r := q + |Varint(b)|;
    VarintFirst(a, data, p);
    VarintFirst(b, data, q);
    VarintFirst(c, data, r);
    Varint32RoundTrip(a, data, p, limit);
    Varint32RoundTrip(b, data, q, limit);
    Varint32RoundTrip(c, data, r, limit);
    FitsWritten(Decoded(a, b, c, r + |Varint(c)|), limit);
  }

  /** An entry that was written is decoded, on the fast path or off it. */
  lemma DecodeWritten(data: Bytes, p: nat, limit: nat, shared: nat, e: KeyValue)
    requires limit <= |data| && limit < 0x1_0000_0000 && shared <= |e.key| < 0x1_0000_0000
    requires HoldsAt(data, p, EntryBytes(shared, e)) && p + |EntryBytes(shared, e)| <= limit
    ensures var keyAt := p + |EntryHeader(shared, e)|;
      && DecodeEntry(data, p, limit) == Some(Decoded(shared, |e.key| - shared, |e.value|, keyAt))
      && keyAt + |e.key| - shared + |e.value| == p + |EntryBytes(shared, e)|
      && HoldsAt(data, keyAt, e.key[shared..]) && HoldsAt(data, keyAt + |e.key| - shared, e.value)
  {
    hide Varint, HoldsAt, EntryBytes, EntryHeader, DecodeEntry;
    EntryLayout(data, p, shared, e);
    DecodeThree(data, p, limit, shared, |e.key| - shared, |e.value|);
  }

  lemma FitsWritten(d: Decoded, limit: nat)
    requires d.keyAt + d.nonShared + d.valueLength <= limit < 0x1_0000_0000
    ensures Fits(d, limit) == Some(d)
  {
  }

  // ----- Opening a block -----

  /** Where the restart array is and how many points it has. */
  datatype Layout = Layout(restarts: nat, numRestarts: nat)

  /** Block's constructor and NewIterator's checks: none for contents that are not a block. */
  function Open(contents: Bytes): (r: Option<Layout>)
    ensures r.Some? ==> r.value.restarts + 4 * r.value.numRestarts + 4 == |contents|
    ensures r.None? <==> |contents| < 4 || 4 * DecodeFixed32(contents[|contents| - 4..]) + 4 > |contents|
  {
    if |contents| < 4 then None
    else
      var n := DecodeFixed32(contents[|contents| - 4..]);
      if n > (|contents| - 4) / 4 then None else Some(Layout(|contents| - (1 + n) * 4, n))
  }

  /** The part of a block's bytes that an iterator relies on. */
  ghost predicate Describes(data: Bytes, layout: Layout, entries: seq<KeyValue>, interval: nat)
    requires interval >= 1
  {
    && layout.restarts == Offset(entries, interval, |entries|) && layout.restarts <= |data| < 0x1_0000_0000
    && HoldsAt(data, 0, Data(entries, interval, |entries|))
    && layout.restarts + 4 * layout.numRestarts <= |data|
    && var restarts := Restarts(entries, interval, |entries|);
       && layout.numRestarts == |restarts|
       && forall k :: 0 <= k < |restarts| ==> GetRestartPoint(data, layout, k) == restarts[k]
  }

  function GetRestartPoint(data: Bytes, layout: Layout, k: nat): nat
    requires k < layout.numRestarts && layout.restarts + 4 * layout.numRestarts <= |data|
  {
    DecodeFixed32(data[layout.restarts + 4 * k..])
  }

  /** A block that was built opens. */
  lemma OpenBlock(entries: seq<KeyValue>, interval: nat)
    requires interval >= 1 && |BlockBytes(entries, interval)| < 0x1_0000_0000
    ensures var contents := BlockBytes(entries, interval);
      Open(contents).Some? && Describes(contents, Open(contents).value, entries, interval)
  {
    hide Data, Restarts, Fixed32s, EncodeFixed32, DecodeFixed32, HoldsAt;
    var contents := BlockBytes(entries, interval);
    var data, restarts := Data(entries, interval, |entries|), Restarts(entries, interval, |entries|);
    var points, count := Fixed32s(restarts), EncodeFixed32(|restarts|);
    assert contents == data + points + count;
    Whole(contents);
    HoldsParts(contents, 0, data + points, count);
    HoldsParts(contents, 0, data, points);
    DecodeAt(contents, |data| + |points|, |restarts|);
    assert Open(contents) == Some(Layout(|data|, |restarts|));
    forall k | 0 <= k < |restarts|
      ensures GetRestartPoint(contents, Layout(|data|, |restarts|), k) == restarts[k]
    {
      Fixed32At(restarts, k);
      PartOfPart(contents, |data|, points, 4 * k, EncodeFixed32(restarts[k]));
      RestartIsOffset(entries, interval, k);
      DecodeAt(contents, |data| + 4 * k, restarts[k]);
    }
  }

  lemma RestartIsOffset(entries: seq<KeyValue>, interval: nat, k: nat)
    requires interval >= 1 && k < |RestartIndexes(interval, |entries|)|
    ensures var i := RestartIndexes(interval, |entries|)[k];
      i <= |entries| && Restarts(entries, interval, |entries|)[k] == Offset(entries, interval, i)
    ensures Restarts(entries, interval, |entries|)[k] <= Offset(entries, interval, |entries|)
  {
    DataPrefix(entries, interval, RestartIndexes(interval, |entries|)[k], |entries|);
  }

  /** What an iterator finds at the start of entry `i`. */
  lemma DecodeEntryAt(data: Bytes, layout: Layout, entries: seq<KeyValue>, interval: nat, i: nat)
    requires interval >= 1 && Describes(data, layout, entries, interval) && i < |entries|
    requires |entries[i].key| < 0x1_0000_0000
    ensures var p, shared := Offset(entries, interval, i), Shared(entries, interval, i);
      p < layout.restarts &&
      var d := DecodeEntry(data, p, layout.restarts);
      && d.Some? && d.value.shared == shared && d.value.nonShared == |entries[i].key| - shared
      && d.value.valueLength == |entries[i].value|
      && d.value.keyAt + d.value.nonShared + d.value.valueLength == Offset(entries, interval, i + 1) <= layout.restarts
      && HoldsAt(data, d.value.keyAt, entries[i].key[shared..])
      && HoldsAt(data, d.value.keyAt + d.value.nonShared, entries[i].value)
  {
    hide Restarts, EntryBytes, DecodeEntry, GetRestartPoint, HoldsAt, Shared;
    var e, shared := entries[i], Shared(entries, interval, i);
    DataPrefix(entries, interval, i + 1, |entries|);
    DataPrefix(entries, interval, i, i + 1);
    PrefixHolds(data, Data(entries, interval, i + 1), Data(entries, interval, |entries|));
    HoldsParts(data, 0, Data(entries, interval, i), EntryBytes(shared, e));
    DecodeWritten(data, Offset(entries, interval, i), layout.restarts, shared, e);
  }

  lemma PrefixHolds(data: Bytes, a: Bytes, b: Bytes)
    requires a <= b && HoldsAt(data, 0, b)
    ensures HoldsAt(data, 0, a)
  {
    assert data[0..|a|] == data[0..|b|][..|a|];
  }

  // ----- The iterator -----

  /** A comparator, as its strict order. */
  type Order = (Bytes, Bytes) -> bool

  ghost predicate Transitive(less: Order) {
    forall a, b, c :: less(a, b) && less(b, c) ==> less(a, c)
  }

  ghost predicate SortedBy(entries: seq<KeyValue>, less: Order) {
    forall i, j :: 0 <= i < j < |entries| ==> less(entries[i].key, entries[j].key)
  }

  /** `at` is where the entries with keys not before `target` start. */
  ghost predicate IsFirstFrom(entries: seq<KeyValue>, less: Order, target: Bytes, at: nat) {
    && at <= |entries| && (forall i :: 0 <= i < at ==> less(entries[i].key, target))
    && (at < |entries| ==> !less(entries[at].key, target))
  }

  /** Block::Iter, over a block that was built from `entries`. */
  class Iter {
    const less: Order  // the comparator
    const data: Bytes
    const layout: Layout
    var current: nat
    var restartIndex: nat
    var key: Bytes
    var valueAt: nat
    var valueLength: nat
    var corrupted: bool
    ghost const entries: seq<KeyValue>
    ghost const interval: nat
    ghost var at: nat  // the entry under the iterator; past the end when not valid

    ghost predicate Shape() {
      && interval >= 1 && Describes(data, layout, entries, interval)
      && forall i :: 0 <= i < |entries| ==> |entries[i].key| < 0x1_0000_0000
    }

    ghost function RestartEntry(k: nat): (i: nat)
      requires Shape() && k < layout.numRestarts
      ensures i <= |entries| && IsRestart(interval, i) && (k == 0 ==> i == 0) && (i < |entries| || i == 0)
    {
      RestartIndexes(interval, |entries|)[k]
    }

    /** Parsing goes on at entry `j`, with as much of the key before as that entry shares. */
    ghost predicate Ready(j: nat)
      reads this
    {
      && Shape() && j <= |entries| && valueAt + valueLength == Offset(entries, interval, j)
      && restartIndex < layout.numRestarts && RestartEntry(restartIndex) <= j
      && (j < |entries| ==> Shared(entries, interval, j) <= |key|
                            && key[..Shared(entries, interval, j)] == entries[j].key[..Shared(entries, interval, j)])
    }

    ghost predicate Inv()
      reads this
    {
      && Shape() && !corrupted && at <= |entries|
      && if at == |entries| then current == layout.restarts else
           && current == Offset(entries, interval, at) && current < layout.restarts
           && key == entries[at].key && valueAt + valueLength <= |data|
           && data[valueAt..valueAt + valueLength] == entries[at].value
           && restartIndex < layout.numRestarts && RestartEntry(restartIndex) <= at
           && valueAt + valueLength == Offset(entries, interval, at + 1)
    }

    predicate Valid()
      reads this
    {
      current < layout.restarts
    }

    lemma ValidIsAt()
      requires Inv()
      ensures Valid() <==> at < |entries|
    {
    }

    /** key() and value() */
    method Current() returns (e: KeyValue)
      requires Inv() && Valid()
      ensures at < |entries| && e == entries[at]
    {
      e := KeyValue(key, data[valueAt..valueAt + valueLength]);
    }

    constructor (contents: Bytes, less: Order, ghost entries: seq<KeyValue>, ghost interval: nat)
      requires interval >= 1 && contents == BlockBytes(entries, interval) && |contents| < 0x1_0000_0000
      ensures Inv() && at == |entries| && this.entries == entries && this.less == less
    {
      OpenBlock(entries, interval);
      KeysAreInBlock(entries, interval);
      var layout := Open(contents).value;
      this.data, this.less, this.layout, this.entries, this.interval := contents, less, layout, entries, interval;
      current, restartIndex, key, valueAt, valueLength, corrupted := layout.restarts, layout.numRestarts, [], 0, 0, false;
      at := |entries|;
    }

    function NextEntryOffset(): nat
      reads this
    {
      valueAt + valueLength
    }

    lemma RestartPoint(k: nat)
      requires Shape() && k < layout.numRestarts
      ensures GetRestartPoint(data, layout, k) == Offset(entries, interval, RestartEntry(k)) <= layout.restarts
    {
      hide GetRestartPoint, Data, HoldsAt;
      RestartIsOffset(entries, interval, k);
    }

    lemma Bounds(j: nat)
      requires Shape() && j <= |entries|
      ensures layout.restarts == Offset(entries, interval, |entries|) <= |data| && layout.numRestarts >= 1
      ensures layout.restarts + 4 * layout.numRestarts <= |data|
      ensures Offset(entries, interval, j) < layout.restarts <==> j < |entries|
    {
      hide Restarts, Data, HoldsAt, GetRestartPoint;
      DataPrefix(entries, interval, j, |entries|);
    }

    lemma OffsetsAscend(i: nat, j: nat)
      requires Shape() && i <= |entries| && j <= |entries|
      ensures Offset(entries, interval, i) < Offset(entries, interval, j) <==> i < j
    {
      hide Data, Describes;
      if i < j {
        DataPrefix(entries, interval, i, j);
      } else {
        DataPrefix(entries, interval, j, i);
      }
    }

    method SeekToRestartPoint(index: nat)
      requires Shape() && index < layout.numRestarts
      modifies `key, `restartIndex, `valueAt, `valueLength
      ensures Ready(RestartEntry(index)) && restartIndex == index && key == []
    {
      hide GetRestartPoint, Data, HoldsAt, Describes;
      RestartPoint(index);
      Bounds(0);
      key := [];
      restartIndex := index;
      valueAt, valueLength := GetRestartPoint(data, layout, index), 0;
    }

    method CorruptionError()
      modifies this
    {
      current, restartIndex, corrupted, key, valueAt, valueLength := layout.restarts, layout.numRestarts, true, [], 0, 0;
    }

    /** Parses the entry that starts where the last value ends. */
    method ParseNextKey(ghost j: nat) returns (ok: bool)
      requires Ready(j) && !corrupted
      modifies this
      ensures Inv() && at == j && (ok <==> j < |entries|)
      ensures ok ==> Ready(j + 1)
    {
      hide GetRestartPoint, Data, HoldsAt, Describes, DecodeEntry, Shared;
      Bounds(j);
      current := NextEntryOffset();
      at := j;
      if current >= layout.restarts {
        current, restartIndex := layout.restarts, layout.numRestarts;
        return false;
      }
      ok := ParseEntry(j);
    }

    /** The entry at `current`, which is within the data. */
    method ParseEntry(ghost j: nat) returns (ok: bool)
      requires Ready(j) && !corrupted && j < |entries| && at == j && current == Offset(entries, interval, j)
      modifies this
      ensures Inv() && at == j && ok && Ready(j + 1)
    {
      hide GetRestartPoint, Data, HoldsAt, Describes, DecodeEntry, Shared;
      Bounds(j);
      var d := DecodeEntry(data, current, layout.restarts);
      if d.None? || |key| < d.value.shared {
        CorruptionError();
        DecodeEntryAt(data, layout, entries, interval, j);
        assert false;
      }
      DecodeEntryAt(data, layout, entries, interval, j);
      ParsedKey(j, key, d.value);
      key := key[..d.value.shared] + data[d.value.keyAt..d.value.keyAt + d.value.nonShared];
      valueAt, valueLength := d.value.keyAt + d.value.nonShared, d.value.valueLength;
      AdvanceRestart(j);
      SharedWithNext(j);
      return true;
    }

    /** Keeps the restart index at or before the current entry. */
    method AdvanceRestart(ghost j: nat)
      requires Shape() && j < |entries| && current == Offset(entries, interval, j)
      requires restartIndex < layout.numRestarts && RestartEntry(restartIndex) <= j
      modifies `restartIndex
      ensures restartIndex < layout.numRestarts && RestartEntry(restartIndex) <= j
      ensures restartIndex + 1 < layout.numRestarts ==>
        layout.restarts + 4 * layout.numRestarts <= |data| && GetRestartPoint(data, layout, restartIndex + 1) >= current
    {
      hide GetRestartPoint, Data, HoldsAt, Describes;
      Bounds(j);
      while restartIndex + 1 < layout.numRestarts && GetRestartPoint(data, layout, restartIndex + 1) < current
        invariant restartIndex < layout.numRestarts && RestartEntry(restartIndex) <= j
      {
        RestartPoint(restartIndex + 1);
        OffsetsAscend(RestartEntry(restartIndex + 1), j);
        restartIndex := restartIndex + 1;
      }
    }

    lemma SharedWithNext(j: nat)
      requires Shape() && j < |entries|
      ensures j + 1 < |entries| ==>
        var n := Shared(entries, interval, j + 1);
        n <= |entries[j].key| && entries[j].key[..n] == entries[j + 1].key[..n]
    {
    }

    lemma ParsedKey(j: nat, key: Bytes, d: Decoded)
      requires Shape() && j < |entries|
      requires var n := Shared(entries, interval, j);
        && n == d.shared <= |key| && key[..n] == entries[j].key[..n] && d.nonShared == |entries[j].key| - n
        && HoldsAt(data, d.keyAt, entries[j].key[n..])
        && HoldsAt(data, d.keyAt + d.nonShared, entries[j].value) && d.valueLength == |entries[j].value|
      ensures d.keyAt + d.nonShared + d.valueLength <= |data|
      ensures key[..d.shared] + data[d.keyAt..d.keyAt + d.nonShared] == entries[j].key
      ensures data[d.keyAt + d.nonShared..d.keyAt + d.nonShared + d.valueLength] == entries[j].value
    {
      hide Shared, Describes;
      assert entries[j].key == key[..d.shared] + entries[j].key[d.shared..];
    }

    method Next()
      requires Inv() && Valid()
      modifies this
      ensures Inv() && at == old(at) + 1
    {
      hide Describes, Shared, Data;
      SharedWithNext(at);
      var ok := ParseNextKey(at + 1);
    }

    /** From the last restart point before the entry, forward to the one before it. */
    method Prev()
      requires Inv() && Valid()
      modifies this
      ensures Inv() && at == if old(at) == 0 then |entries| else old(at) - 1
    {
      hide Describes, Shared, Data, GetRestartPoint;
      var original := current;
      ghost var i := at;
      Bounds(i);
      var found := FindRestartBefore(original, i);
      if !found {
        current, restartIndex := layout.restarts, layout.numRestarts;
        at := |entries|;
        return;
      }
      ScanTo(original, i);
    }

    /** Scans backwards to a restart point before `original`. */
    method FindRestartBefore(original: nat, ghost i: nat) returns (found: bool)
      requires Shape() && i < |entries| && original == Offset(entries, interval, i) && restartIndex < layout.numRestarts
      requires layout.restarts + 4 * layout.numRestarts <= |data|
      modifies `restartIndex
      ensures found ==> restartIndex < layout.numRestarts && GetRestartPoint(data, layout, restartIndex) < original
      ensures !found ==> i == 0
    {
      hide Describes, Shared, Data, GetRestartPoint;
      while GetRestartPoint(data, layout, restartIndex) >= original
        invariant restartIndex < layout.numRestarts
        decreases restartIndex
      {
        if restartIndex == 0 {
          RestartPoint(0);
          OffsetsAscend(0, i);
          return false;
        }
        restartIndex := restartIndex - 1;
      }
      return true;
    }

    /** Parses from the restart point up to the entry that ends where `original` starts. */
    method ScanTo(original: nat, ghost i: nat)
      requires Shape() && !corrupted && i < |entries| && original == Offset(entries, interval, i)
      requires restartIndex < layout.numRestarts && GetRestartPoint(data, layout, restartIndex) < original
      modifies this
      ensures Inv() && at == i - 1
    {
      hide Describes, Shared, Data, GetRestartPoint;
      RestartPoint(restartIndex);
      ghost var j := RestartEntry(restartIndex);
      OffsetsAscend(j, i);
      SeekToRestartPoint(restartIndex);
      var ok := ParseNextKey(j);
      while ok && NextEntryOffset() < original
        invariant j < i && ok && Ready(j + 1) && Inv() && at == j
        decreases i - j
      {
        OffsetsAscend(j + 1, i);
        j := j + 1;
        ok := ParseNextKey(j);
      }
      OffsetsAscend(j + 1, i);
    }

    method SeekToFirst()
      requires Inv()
      modifies this
      ensures Inv() && at == 0
    {
      hide Describes, Shared, Data;
      Bounds(0);
      SeekToRestartPoint(0);
      var ok := ParseNextKey(0);
    }

    method SeekToLast()
      requires Inv()
      modifies this
      ensures Inv() && at == if entries == [] then 0 else |entries| - 1
    {
      hide Describes, Shared, Data;
      Bounds(0);
      ghost var j := RestartEntry(layout.numRestarts - 1);
      SeekToRestartPoint(layout.numRestarts - 1);
      var ok := ParseNextKey(j);
      while ok && NextEntryOffset() < layout.restarts
        invariant j <= |entries| && Inv() && at == j && (ok <==> j < |entries|) && (ok ==> Ready(j + 1))
        invariant j == |entries| ==> entries == []
        decreases |entries| - j
      {
        Bounds(j + 1);
        j := j + 1;
        ok := ParseNextKey(j);
      }
      if ok {
        Bounds(j + 1);
      }
    }

    /** The key at a restart point; none if the entry there is not one. */
    method RestartKey(k: nat) returns (midKey: Option<Bytes>)
      requires Shape() && 0 < k < layout.numRestarts
      ensures RestartEntry(k) < |entries| && midKey == Some(entries[RestartEntry(k)].key)
    {
      hide Describes, Shared, Data, GetRestartPoint, DecodeEntry, HoldsAt;
      Bounds(0);
      RestartPoint(k);
      var regionOffset := GetRestartPoint(data, layout, k);
      ghost var i := RestartEntry(k);
      RestartInside(k);
      RestartShares(i);
      DecodeEntryAt(data, layout, entries, interval, i);
      var d := DecodeEntry(data, regionOffset, layout.restarts);
      ParsedKey(i, [], d.value);
      var delta := data[d.value.keyAt..d.value.keyAt + d.value.nonShared];
      assert [] + delta == delta;
      midKey := if d.None? || d.value.shared != 0 then None else Some(delta);
    }

    /** Binary search for the last restart point with a key before the target, then a scan. */
    method Seek(target: Bytes)
      requires Inv() && SortedBy(entries, less) && Transitive(less)
      modifies this
      ensures Inv() && IsFirstFrom(entries, less, target, at)
    {
      hide Describes, Shared, Data, GetRestartPoint, SortedBy, Transitive;
      Bounds(0);
      var left, right := 0, layout.numRestarts - 1;
      while left < right
        invariant 0 <= left <= right < layout.numRestarts && Inv()
        invariant left > 0 ==> RestartEntry(left) < |entries| && less(entries[RestartEntry(left)].key, target)
      {
        var mid := (left + right + 1) / 2;
        var midKey := RestartKey(mid);
        if midKey.None? {
          assert false;  // a corruption is reported here
        }
        if less(midKey.value, target) {
          left := mid;
        } else {
          right := mid - 1;
        }
      }
      SeekToRestartPoint(left);
      ghost var j := RestartEntry(left);
      EarlierKeys(j, target);
      ScanUntil(target, j);
    }

    /** The linear search for the first key not before the target. */
    method ScanUntil(target: Bytes, ghost from: nat)
      requires Ready(from) && !corrupted
      requires forall i :: 0 <= i < from ==> less(entries[i].key, target)
      modifies this
      ensures Inv() && IsFirstFrom(entries, less, target, at)
    {
      hide Describes, Shared, Data, GetRestartPoint;
      ghost var j := from;
      while true
        invariant Ready(j) && !corrupted
        invariant forall i :: 0 <= i < j ==> less(entries[i].key, target)
        decreases |entries| - j
      {
        var ok := ParseNextKey(j);
        if !ok {
          return;
        }
        if !less(key, target) {
          return;
        }
        j := j + 1;
      }
    }

    lemma RestartInside(k: nat)
      requires Shape() && 0 < k < layout.numRestarts
      ensures RestartEntry(k) < |entries|
    {
      RestartsAscend(interval, |entries|, 0, k);
    }

    lemma RestartShares(i: nat)
      requires Shape() && i < |entries| && IsRestart(interval, i)
      ensures Shared(entries, interval, i) == 0
    {
    }

    lemma EarlierKeys(j: nat, target: Bytes)
      requires SortedBy(entries, less) && Transitive(less) && j <= |entries|
      requires j > 0 ==> j < |entries| && less(entries[j].key, target)
      ensures forall i :: 0 <= i < j ==> less(entries[i].key, target)
    {
    }
  }
}

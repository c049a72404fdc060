/** From write batches to memtable entries: WriteBatchInternal::InsertInto (db/write_batch.cc), and
    the recovery of a log file into memtables (DBImpl::RecoverLogFile, db/db_impl.cc). */
module LogReplay {
  import opened InternalKey
  import opened ByteKeys
  import opened BlockFormat
  import opened WriteBatches
  import opened MemTables
  import LogFormat
  import LogReader

  /** A logged batch. */
  datatype Batch = Batch(sequence: nat, ops: seq<Op>)

  function Encode(b: Batch): Bytes {
    BatchBytes(b.sequence, b.ops)
  }

  function Records(batches: seq<Batch>): (r: seq<Bytes>)
    ensures |r| == |batches|
  {
    seq(|batches|, i requires 0 <= i < |batches| => Encode(batches[i]))
  }

  function KindOf(op: Op): Byte {
    if op.Put? then VALUE else DELETION
  }

  function ValueOf(op: Op): Bytes {
    if op.Put? then op.value else []
  }

  /** What a memtable holds for an operation. */
  function EntryOf(op: Op, sequence: nat): KeyValue {
    KeyValue(MakeKey(op.key, sequence * 256 + KindOf(op)), ValueOf(op))
  }

  /** The entries of operations that are numbered from `first` on. */
  ghost function Numbered(ops: seq<Op>, first: nat): set<KeyValue> {
    set i {:trigger ops[i]} | 0 <= i < |ops| :: EntryOf(ops[i], first + i)
  }

  ghost function AllOps(batches: seq<Batch>): seq<Op> {
    if batches == [] then [] else AllOps(batches[..|batches| - 1]) + batches[|batches| - 1].ops
  }

  /** The entries of all batches, each numbered from its own sequence number on. */
  ghost function LogEntries(batches: seq<Batch>): set<KeyValue> {
    if batches == [] then {}
    else
      var last := batches[|batches| - 1];
      LogEntries(batches[..|batches| - 1]) + Numbered(last.ops, last.sequence)
  }

  ghost predicate Writable(b: Batch) {
    CanBeWritten(b.sequence, b.ops) && b.sequence + |b.ops| <= MAX_SEQUENCE_NUMBER + 1
  }

  /** Each batch is numbered where the one before ends. */
  ghost predicate Chained(batches: seq<Batch>, first: nat) {
    batches == [] ||
    var before, last := batches[..|batches| - 1], batches[|batches| - 1];
    Chained(before, first) && Writable(last) && last.sequence == first + |AllOps(before)|
  }

  // ----- Lemmas -----

  lemma Grows(batches: seq<Batch>, b: Batch, first: nat)
    ensures AllOps(batches + [b]) == AllOps(batches) + b.ops
    ensures LogEntries(batches + [b]) == LogEntries(batches) + Numbered(b.ops, b.sequence)
    ensures Chained(batches + [b], first) <==> Chained(batches, first) && Writable(b) && b.sequence == first + |AllOps(batches)|
    ensures Records(batches + [b]) == Records(batches) + [Encode(b)]
  {
    hide Numbered, Writable, Encode;
    assert (batches + [b])[..|batches|] == batches;
  }

  lemma {:induction false} LogEntriesConcat(a: seq<Batch>, b: seq<Batch>)
    ensures LogEntries(a + b) == LogEntries(a) + LogEntries(b)
    decreases |b|
  {
    hide Numbered;
    if b == [] {
      assert a + b == a;
    } else {
      LogEntriesConcat(a, b[..|b| - 1]);
      assert (a + b)[..|a + b| - 1] == a + b[..|b| - 1];
    }
  }

  /** Groups take consecutive ranges of sequence numbers, which do not overlap. */
  lemma {:induction false} RangesFollow(batches: seq<Batch>, first: nat, i: nat)
    requires Chained(batches, first) && i < |batches|
    ensures Writable(batches[i]) && Chained(batches[..i], first) && batches[i].sequence == first + |AllOps(batches[..i])|
    ensures i + 1 < |batches| ==> batches[i + 1].sequence == batches[i].sequence + |batches[i].ops|
    decreases |batches|
  {
    hide Writable;
    var before := batches[..|batches| - 1];
    if i < |before| {
      RangesFollow(before, first, i);
      assert before[..i] == batches[..i];
      if i + 1 == |before| {
        assert before[..|before| - 1] == batches[..i];
      }
    }
  }

  lemma ChainedPrefix(batches: seq<Batch>, first: nat, n: nat)
    requires Chained(batches, first) && n <= |batches|
    ensures Chained(batches[..n], first)
  {
    if n < |batches| {
      RangesFollow(batches, first, n);
    } else {
      assert batches[..n] == batches;
    }
  }

  lemma NumberedConcat(a: seq<Op>, b: seq<Op>, first: nat)
    ensures Numbered(a + b, first) == Numbered(a, first) + Numbered(b, first + |a|)
  {
    hide EntryOf;
    var l, r := Numbered(a + b, first), Numbered(a, first) + Numbered(b, first + |a|);
    forall e | e in Numbered(a, first)
      ensures e in l
    {
      var i :| 0 <= i < |a| && e == EntryOf(a[i], first + i);
      assert (a + b)[i] == a[i];
    }
    forall e | e in Numbered(b, first + |a|)
      ensures e in l
    {
      var i :| 0 <= i < |b| && e == EntryOf(b[i], first + |a| + i);
      assert (a + b)[|a| + i] == b[i];
    }
    forall e | e in l
      ensures e in r
    {
      var i :| 0 <= i < |a + b| && e == EntryOf((a + b)[i], first + i);
      assert if i < |a| then (a + b)[i] == a[i] else (a + b)[i] == b[i - |a|];
    }
  }

  /** Chained batches number all operations in order, each once. */
  lemma {:induction false} ChainedIsNumbered(batches: seq<Batch>, first: nat)
    requires Chained(batches, first)
    ensures LogEntries(batches) == Numbered(AllOps(batches), first)
  {
    hide Numbered, Writable;
    if batches == [] {
      assert Numbered([], first) == {} by { NoneNumbered(first); }
    } else {
      var before := batches[..|batches| - 1];
      ChainedIsNumbered(before, first);
      NumberedConcat(AllOps(before), batches[|batches| - 1].ops, first);
    }
  }

  lemma NoneNumbered(first: nat)
    ensures Numbered([], first) == {}
  {
  }

  lemma {:induction false} AllOpsConcat(a: seq<Batch>, b: seq<Batch>)
    ensures AllOps(a + b) == AllOps(a) + AllOps(b)
    decreases |b|
  {
    if b == [] {
      assert a + b == a;
    } else {
      AllOpsConcat(a, b[..|b| - 1]);
      assert (a + b)[..|a + b| - 1] == a + b[..|b| - 1];
    }
  }

  /** Later batches are chained from where the earlier ones end. */
  lemma {:induction false} ChainedSuffix(batches: seq<Batch>, first: nat, n: nat)
    requires Chained(batches, first) && n <= |batches|
    ensures Chained(batches[n..], first + |AllOps(batches[..n])|)
    decreases |batches|
  {
    hide Writable, AllOps;
    if n < |batches| {
      var before := batches[..|batches| - 1];
      ChainedSuffix(before, first, n);
      assert before[..n] == batches[..n] && batches[n..][..|batches| - n - 1] == before[n..];
      AllOpsConcat(batches[..n], before[n..]);
      assert batches[..n] + before[n..] == before;
    }
  }

  /** Operation `q` of all of them is in the batch `r` whose range it is in. */
  lemma OpInBatch(batches: seq<Batch>, first: nat, r: nat, q: nat)
    requires Chained(batches, first) && r < |batches| && |AllOps(batches[..r])| <= q < |AllOps(batches[..r + 1])|
    ensures q < |AllOps(batches)| && EntryOf(AllOps(batches)[q], first + q) in Numbered(batches[r].ops, batches[r].sequence)
  {
    hide AllOps, Chained, EntryOf, Writable;
    RangesFollow(batches, first, r);
    var a, b := batches[..r], batches[r];
    assert batches[..r + 1] == a + [b];
    Grows(a, b, first);
    AllOpsConcat(batches[..r + 1], batches[r + 1..]);
    assert batches[..r + 1] + batches[r + 1..] == batches;
    var j := q - |AllOps(a)|;
    assert AllOps(batches)[q] == b.ops[j] && first + q == b.sequence + j;
  }

  lemma {:induction false} LogHasBatch(batches: seq<Batch>, r: nat)
    requires r < |batches|
    ensures Numbered(batches[r].ops, batches[r].sequence) <= LogEntries(batches)
    decreases |batches|
  {
    hide Numbered;
    if r < |batches| - 1 {
      LogHasBatch(batches[..|batches| - 1], r);
    }
  }

  /** All entries have sequence numbers below `s`. */
  ghost predicate Below(entries: set<KeyValue>, s: nat) {
    forall e :: e in entries ==> IsKey(e.key) && TagOf(e.key) < s * 256
  }

  lemma EntryTag(op: Op, s: nat)
    requires s <= MAX_SEQUENCE_NUMBER
    ensures IsKey(EntryOf(op, s).key) && TagOf(EntryOf(op, s).key) == s * 256 + KindOf(op)
  {
    hide MakeKey, TagOf;
    KeyParts(op.key, s * 256 + KindOf(op));
  }

  lemma NumberedBelow(ops: seq<Op>, first: nat)
    requires first + |ops| <= MAX_SEQUENCE_NUMBER + 1
    ensures Below(Numbered(ops, first), first + |ops|)
  {
    hide EntryOf, TagOf;
    forall e | e in Numbered(ops, first)
      ensures IsKey(e.key) && TagOf(e.key) < (first + |ops|) * 256
    {
      var i :| 0 <= i < |ops| && e == EntryOf(ops[i], first + i);
      EntryTag(ops[i], first + i);
    }
  }

  lemma ChainedBelow(batches: seq<Batch>, first: nat)
    requires Chained(batches, first) && first <= MAX_SEQUENCE_NUMBER + 1
    ensures Below(LogEntries(batches), first + |AllOps(batches)|)
  {
    hide Numbered, Below;
    ChainedIsNumbered(batches, first);
    NumberedBelow(AllOps(batches), first);
  }

  lemma PartBelow(part: set<KeyValue>, entries: set<KeyValue>, s: nat)
    requires part <= entries && Below(entries, s)
    ensures Below(part, s)
  {
  }

  // ----- Into a memtable -----

  /** MemTableInserter: one operation. */
  method InsertOp(mem: MemTable, op: Op, sequence: nat)
    requires mem.Inv() && Below(mem.Contents(), sequence) && sequence <= MAX_SEQUENCE_NUMBER && Fits(op)
    modifies mem
    ensures mem.Inv() && mem.Contents() == old(mem.Contents()) + {EntryOf(op, sequence)} && Below(mem.Contents(), sequence + 1)
  {
    hide MakeKey, TagOf;
    EntryTag(op, sequence);
    match op {
      case Put(key, value) => mem.Add(sequence, VALUE, key, value);
      case Delete(key) => mem.Add(sequence, DELETION, key, []);
    }
  }

  /** InsertInto: the handler adds each operation under the next sequence number. */
  method InsertInto(rep: Bytes, mem: MemTable, ghost b: Batch) returns (status: Status)
    requires rep == Encode(b) && Writable(b) && mem.Inv() && Below(mem.Contents(), b.sequence)
    modifies mem
    ensures mem.Inv() && status == OK && mem.Contents() == old(mem.Contents()) + Numbered(b.ops, b.sequence)
    ensures Below(mem.Contents(), b.sequence + |b.ops|)
  {
    hide BatchBytes, Below, Numbered, Fits, EntryOf, ParseRecords, SequenceOf, CountOf, MemTable.Inv;
    BatchRoundTrip(b.sequence, b.ops);
    var sequence := SequenceOf(rep);
    var ops;
    ops, status := Iterate(rep);
    NoneNumbered(b.sequence);
    assert ops[..0] == [];
    for i := 0 to |ops|
      invariant mem.Inv() && Below(mem.Contents(), sequence) && sequence == b.sequence + i
      invariant mem.Contents() == old(mem.Contents()) + Numbered(ops[..i], b.sequence)
    {
      NextNumbered(ops, i, b.sequence);
      InsertOp(mem, ops[i], sequence);
      sequence := sequence + 1;
    }
    assert ops[..|ops|] == ops;
  }

  lemma NextNumbered(ops: seq<Op>, i: nat, first: nat)
    requires i < |ops|
    ensures Numbered(ops[..i + 1], first) == Numbered(ops[..i], first) + {EntryOf(ops[i], first + i)} && ops[i] in ops
  {
    hide EntryOf;
    NumberedConcat(ops[..i], [ops[i]], first);
    assert ops[..i] + [ops[i]] == ops[..i + 1];
    assert [ops[i]][0] == ops[i];
    assert Numbered([ops[i]], first + i) == {EntryOf(ops[i], first + i)} by { OneNumbered(ops[i], first + i); }
  }

  lemma OneNumbered(op: Op, first: nat)
    ensures Numbered([op], first) == {EntryOf(op, first)}
  {
    hide EntryOf;
    assert [op][0] == op;
  }

  // ----- Recovery -----

  /** The greatest sequence number seen: that of the last operation. */
  function MaxSequence(maxSequence: nat, last: int): nat
  {
    if last > maxSequence then last else maxSequence
  }

  /** One record of the log, into a memtable that may just have been made. */
  method ReplayRecord(record: Bytes, mem: MemTable, ghost b: Batch, maxSequence: nat) returns (max: nat)
    requires record == Encode(b) && Writable(b) && mem.Inv() && Below(mem.Contents(), b.sequence)
    modifies mem
    ensures mem.Inv() && mem.Contents() == old(mem.Contents()) + Numbered(b.ops, b.sequence)
    ensures Below(mem.Contents(), b.sequence + |b.ops|)
    ensures max == MaxSequence(maxSequence, b.sequence + |b.ops| - 1)
  {
    hide BatchBytes, Below, Numbered, Fits, ParseRecords, SequenceOf, CountOf, MemTable.Inv;
    BatchRoundTrip(b.sequence, b.ops);
    var status := InsertInto(record, mem, b);
    var lastSeq := SequenceOf(record) + CountOf(record) - 1;
    max := if lastSeq > maxSequence then lastSeq else maxSequence;
  }

  /** RecoverLogFile, on any prefix of a log: the entries of exactly the whole batches in it are
      in the memtables, of which some are flushed when they are full. */
  method RecoverLogFile(file: Bytes, maxSequence: nat, ghost batches: seq<Batch>, ghost first: nat, ghost k: nat)
      returns (mem: MemTable?, ghost flushed: set<KeyValue>, max: nat, reports: seq<LogFormat.Corruption>)
    requires Chained(batches, first) && 1 <= first <= MAX_SEQUENCE_NUMBER + 1
    requires k <= |LogFormat.LogFile(Records(batches))| && file == LogFormat.LogFile(Records(batches))[..k]
    ensures var whole := batches[..LogFormat.WholeRecords(Records(batches), k)];
      && flushed + (if mem != null then mem.Contents() else {}) == LogEntries(whole)
      && max == (if whole == [] then maxSequence else MaxSequence(maxSequence, first + |AllOps(whole)| - 1))
    ensures (mem != null ==> fresh(mem) && mem.Inv()) && reports == []
    ensures mem != null ==> flushed !! mem.Contents()
  {
    hide LogFormat.ParseFrom, LogFormat.LogFile, LogFormat.WholeRecords, Below, Numbered, Encode, Writable, MemTable.Inv;
    hide AllOps, LogEntries, Chained, LogReader.Reader.Valid, AtLeast;
    assert AllOps(batches[..0]) == [] && LogEntries(batches[..0]) == {} by { NoBatches(batches); }
    LogFormat.CrashPrefix(Records(batches), k, true);
    var reader := new LogReader.Reader(file, true);
    var records := reader.ReadAll();
    reports := reader.reports;
    mem, flushed, max := null, {}, maxSequence;
    ghost var from: nat := first;
    NothingBelow(first);
    assert batches[..0] == [];
    for i := 0 to |records|
      invariant mem != null ==> fresh(mem) && mem.Inv() && Below(mem.Contents(), first + |AllOps(batches[..i])|)
      invariant flushed + (if mem != null then mem.Contents() else {}) == LogEntries(batches[..i])
      invariant from <= first + |AllOps(batches[..i])| && Below(flushed, from) && (mem != null ==> AtLeast(mem.Contents(), from))
      invariant max == if i == 0 then maxSequence else MaxSequence(maxSequence, first + |AllOps(batches[..i])| - 1)
    {
      NextBatch(batches, first, i);
      if mem == null {
        mem := new MemTable();
        NothingBelow(batches[i].sequence);
        NothingBelow(from);
      }
      NumberedAtLeast(batches[i], from);
      BothAtLeast(mem.Contents(), Numbered(batches[i].ops, batches[i].sequence), from);
      max := ReplayRecord(records[i], mem, batches[i], max);
      var full: bool := *;
      if full {
        BelowBoth(flushed, mem.Contents(), from, first + |AllOps(batches[..i + 1])|);
        flushed := flushed + mem.Contents();
        mem, from := null, first + |AllOps(batches[..i + 1])|;
      }
    }
    if mem != null {
      BelowIsApart(flushed, mem.Contents(), from);
    }
  }

  /** All entries have sequence numbers from `s` on. */
  ghost predicate AtLeast(entries: set<KeyValue>, s: nat) {
    forall e :: e in entries ==> IsKey(e.key) && TagOf(e.key) >= s * 256
  }

  lemma NumberedAtLeast(b: Batch, s: nat)
    requires Writable(b) && s <= b.sequence
    ensures AtLeast(Numbered(b.ops, b.sequence), s)
  {
    hide EntryOf, TagOf;
    forall e | e in Numbered(b.ops, b.sequence)
      ensures IsKey(e.key) && TagOf(e.key) >= s * 256
    {
      var i :| 0 <= i < |b.ops| && e == EntryOf(b.ops[i], b.sequence + i);
      EntryTag(b.ops[i], b.sequence + i);
    }
  }

  lemma BothAtLeast(a: set<KeyValue>, b: set<KeyValue>, s: nat)
    requires AtLeast(a, s) && AtLeast(b, s)
    ensures AtLeast(a + b, s)
  {
  }

  lemma BelowBoth(a: set<KeyValue>, b: set<KeyValue>, s: nat, t: nat)
    requires Below(a, s) && s <= t && Below(b, t)
    ensures Below(a + b, t)
  {
    hide TagOf;
  }

  lemma BelowIsApart(a: set<KeyValue>, b: set<KeyValue>, s: nat)
    requires Below(a, s) && AtLeast(b, s)
    ensures a !! b
  {
    hide TagOf;
  }

  lemma NextBatch(batches: seq<Batch>, first: nat, i: nat)
    requires Chained(batches, first) && i < |batches|
    ensures Writable(batches[i]) && batches[i].sequence == first + |AllOps(batches[..i])|
    ensures |AllOps(batches[..i + 1])| == |AllOps(batches[..i])| + |batches[i].ops|
    ensures LogEntries(batches[..i + 1]) == LogEntries(batches[..i]) + Numbered(batches[i].ops, batches[i].sequence)
  {
    hide Numbered, Writable, AllOps, LogEntries, Chained;
    RangesFollow(batches, first, i);
    assert batches[..i + 1] == batches[..i] + [batches[i]];
    Grows(batches[..i], batches[i], first);
  }

  lemma NoBatches(batches: seq<Batch>)
    ensures AllOps(batches[..0]) == [] && LogEntries(batches[..0]) == {}
  {
  }

  lemma NothingBelow(s: nat)
    ensures Below({}, s) && AtLeast({}, s)
  {
  }
}

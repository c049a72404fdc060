/** Recover (db/db_impl.cc): from logs that were cut at any byte to a database whose reads are those
    of the history that survives. */
module Recovery {
  import opened InternalKey
  import opened WriteBatches
  import opened MemTables
  import opened LogReplay
  import opened KeyRanks
  import opened Database
  import opened Crashes
  import LogFormat
  import opened DBImplementation
  import opened BlockFormat

  /** A log and the batches in it, numbered from `first` on. */
  datatype Log = Log(batches: seq<Batch>, first: nat)

  ghost function FileOf(log: Log): Bytes {
    LogFormat.LogFile(Records(log.batches))
  }

  /** The batches that lie in the first `k` bytes as a whole. */
  ghost function Whole(log: Log, k: nat): seq<Batch> {
    log.batches[..LogFormat.WholeRecords(Records(log.batches), k)]
  }

  /** The entries of the engine that the batches stand for. */
  ghost function EntriesOfLog(rank: Bytes -> UserKey, batches: seq<Batch>, first: nat): set<Entry> {
    WrittenFrom(rank, AllOps(batches), first)
  }

  /** The log of a memtable with these entries; without a memtable, one without batches. */
  ghost predicate IsLogOf(rank: Bytes -> UserKey, log: Log, entries: set<Entry>, lastSequence: nat) {
    && Chained(log.batches, log.first) && 1 <= log.first && log.first + |AllOps(log.batches)| <= lastSequence + 1
    && entries == EntriesOfLog(rank, log.batches, log.first)
  }

  ghost function Kept(rank: Bytes -> UserKey, log: Log, k: nat): set<Entry> {
    EntriesOfLog(rank, Whole(log, k), log.first)
  }

  // ----- What is left of a log -----

  lemma AllOpsPrefix(batches: seq<Batch>, n: nat)
    requires n <= |batches|
    ensures AllOps(batches[..n]) <= AllOps(batches)
  {
    hide AllOps;
    AllOpsConcat(batches[..n], batches[n..]);
    assert batches[..n] + batches[n..] == batches;
  }

  lemma WrittenPrefix(rank: Bytes -> UserKey, ops: seq<Op>, all: seq<Op>, first: nat)
    requires ops <= all
    ensures WrittenFrom(rank, ops, first) <= WrittenFrom(rank, all, first)
  {
    hide Written;
    forall e | e in WrittenFrom(rank, ops, first)
      ensures e in WrittenFrom(rank, all, first)
    {
      var i :| 0 <= i < |ops| && e == Written(rank, ops[i], first + i);
      assert all[i] == ops[i];
    }
  }

  /** What is kept is a part of the memtable, numbered up to the last operation. */
  lemma KeptIsPart(rank: Bytes -> UserKey, log: Log, entries: set<Entry>, lastSequence: nat, k: nat)
    requires IsLogOf(rank, log, entries, lastSequence)
    ensures Kept(rank, log, k) <= entries && log.first + |AllOps(Whole(log, k))| <= lastSequence + 1
    ensures SequencesAtMost(Kept(rank, log, k), log.first + |AllOps(Whole(log, k))| - 1)
  {
    hide LogFormat.WholeRecords, Chained, AllOps;
    AllOpsPrefix(log.batches, LogFormat.WholeRecords(Records(log.batches), k));
    WrittenPrefix(rank, AllOps(Whole(log, k)), AllOps(log.batches), log.first);
  }

  /** The entries as bytes that recovery finds are those that are kept. */
  lemma KeptIsRecovered(rank: Bytes -> UserKey, log: Log, entries: set<Entry>, lastSequence: nat, k: nat)
    requires IsLogOf(rank, log, entries, lastSequence) && lastSequence <= MAX_SEQUENCE_NUMBER
    ensures AllParsable(LogEntries(Whole(log, k))) && EntriesFrom(rank, LogEntries(Whole(log, k))) == Kept(rank, log, k)
  {
    hide LogFormat.WholeRecords, Chained, AllOps, Numbered, WrittenFrom, AllParsable, EntriesFrom, LogEntries;
    var n := LogFormat.WholeRecords(Records(log.batches), k);
    AllOpsPrefix(log.batches, n);
    ChainedPrefix(log.batches, log.first, n);
    ChainedIsNumbered(log.batches[..n], log.first);
    NumberedCarries(rank, AllOps(log.batches[..n]), log.first);
  }

  // ----- The memtable after recovery -----

  ghost function Restrict(entries: seq<Entry>, keep: set<Entry>): (r: seq<Entry>)
    requires Sorted(entries)
    ensures Sorted(r) && forall e :: e in r <==> e in entries && e in keep
  {
    if entries == [] then []
    else
      assert entries == [entries[0]] + entries[1..];
      var rest := Restrict(entries[1..], keep);
      assert forall i :: 0 <= i < |rest| ==> rest[i] in rest;
      if entries[0] in keep then [entries[0]] + rest else rest
  }

  /** What is kept of both memtables, as one. */
  lemma MemTableOf(s: State, mem: set<Entry>, imm: set<Entry>) returns (r: seq<Entry>)
    requires Structured(s) && mem <= Elements(s.mem) && imm <= ImmEntries(s)
    ensures Sorted(r) && Elements(r) == mem + imm
  {
    var a, b := Restrict(s.mem, mem), if s.imm.Some? then Restrict(s.imm.value, imm) else [];
    MergeTwoIsSorted(a, b);
    r := MergeTwo(a, b);
  }

  /** With the older log cut at byte `ka` and the newer one at byte `kb`. */
  ghost predicate IsRecovery(rank: Bytes -> UserKey, d: Disk, d': Disk, a: Log, ka: nat, b: Log, kb: nat) {
    Crash(d, d', Kept(rank, b, kb), Kept(rank, a, ka))
  }

  /** The greatest sequence number that the logs show. */
  ghost function LogSequence(log: Log, whole: seq<Batch>, max: nat): nat
    requires log.first >= 1
  {
    if whole == [] then max else MaxSequence(max, log.first + |AllOps(whole)| - 1)
  }

  lemma RecoveryExists(rank: Bytes -> UserKey, d: Disk, a: Log, ka: nat, b: Log, kb: nat, lastSequence: nat) returns (d': Disk)
    requires Sound(d) && IsLogOf(rank, a, ImmEntries(d.state), d.state.lastSequence)
    requires IsLogOf(rank, b, Elements(d.state.mem), d.state.lastSequence)
    requires var max := LogSequence(b, Whole(b, kb), LogSequence(a, Whole(a, ka), 0));
      lastSequence == if d.sequence < max then max else d.sequence
    ensures IsRecovery(rank, d, d', a, ka, b, kb) && d'.state.lastSequence == lastSequence
  {
    hide Structured, LogFormat.WholeRecords, Whole, AllOps, IsLogOf, WrittenFrom;
    var s := d.state;
    KeptIsPart(rank, a, ImmEntries(s), s.lastSequence, ka);
    KeptIsPart(rank, b, Elements(s.mem), s.lastSequence, kb);
    NoneKept(rank, a, ka);
    NoneKept(rank, b, kb);
    var mem, imm := Kept(rank, b, kb), Kept(rank, a, ka);
    var kept := MemTableOf(s, mem, imm);
    var s' := State(kept, None, s.levels, d.next, lastSequence, [], mem + imm + Flushed(s), s.floor);
    d' := Disk(s', d.sequence, d.next);
  }

  lemma NoneKept(rank: Bytes -> UserKey, log: Log, k: nat)
    ensures Whole(log, k) == [] ==> Kept(rank, log, k) == {}
  {
    hide LogFormat.WholeRecords;
  }

  /** Recover, from the log of the immutable memtable and that of the memtable, each cut at any
      byte: what it finds is a crash of the state machine that keeps the whole batches. */
  method Recover(older: Bytes, newer: Bytes, manifestSequence: nat, ghost rank: Bytes -> UserKey, ghost d: Disk,
                 ghost a: Log, ghost ka: nat, ghost b: Log, ghost kb: nat)
    returns (lastSequence: nat, mem: MemTable?, ghost tables: set<KeyValue>, ghost d': Disk)
    requires Sound(d) && manifestSequence == d.sequence
    requires IsLogOf(rank, a, ImmEntries(d.state), d.state.lastSequence)
    requires IsLogOf(rank, b, Elements(d.state.mem), d.state.lastSequence)
    requires ka <= |FileOf(a)| && older == FileOf(a)[..ka]
    requires kb <= |FileOf(b)| && newer == FileOf(b)[..kb]
    ensures mem != null ==> fresh(mem) && mem.Inv()
    ensures IsRecovery(rank, d, d', a, ka, b, kb) && Sound(d') && d'.state.lastSequence == lastSequence
    ensures var found := tables + if mem != null then mem.Contents() else {};
      AllParsable(found) && EntriesFrom(rank, found) == Elements(d'.state.mem)
    ensures CrashProof(d.state) ==> CrashProof(d'.state) && ReadsOk(d'.state)
  {
    hide LogFormat.LogFile, LogFormat.WholeRecords, Chained, AllOps, LogEntries, WrittenFrom, AllParsable, EntriesFrom;
    hide Structured, Crash, CrashProof, ReadsOk, MemTable.Inv, Layered, Recorded, Records, MaxSequence;
    ghost var s := d.state;
    BelowMaximum(s);
    var first, max, reports, max', reports';
    ghost var flushed: set<KeyValue>;
    ghost var flushed': set<KeyValue>;
    first, flushed, max, reports := RecoverLogFile(older, 0, a.batches, a.first, ka);
    mem, flushed', max', reports' := RecoverLogFile(newer, max, b.batches, b.first, kb);
    tables := flushed + (if first != null then first.Contents() else {}) + flushed';
    lastSequence := if manifestSequence < max' then max' else manifestSequence;
    d' := RecoveryExists(rank, d, a, ka, b, kb, lastSequence);
    KeptIsRecovered(rank, a, ImmEntries(s), s.lastSequence, ka);
    KeptIsRecovered(rank, b, Elements(s.mem), s.lastSequence, kb);
    FromBoth(rank, LogEntries(Whole(a, ka)), LogEntries(Whole(b, kb)));
    assert tables + (if mem != null then mem.Contents() else {}) == LogEntries(Whole(a, ka)) + LogEntries(Whole(b, kb));
    CrashKept(d, d', Kept(rank, b, kb), Kept(rank, a, ka));
  }

  lemma BelowMaximum(s: State)
    requires Structured(s)
    ensures s.lastSequence < MAX_SEQUENCE_NUMBER
  {
  }

  lemma FromBoth(rank: Bytes -> UserKey, x: set<KeyValue>, y: set<KeyValue>)
    requires AllParsable(x) && AllParsable(y)
    ensures AllParsable(x + y) && EntriesFrom(rank, x + y) == EntriesFrom(rank, x) + EntriesFrom(rank, y)
  {
    hide Parsable, EntryFrom;
  }

  lemma CrashKept(d: Disk, d': Disk, mem: set<Entry>, imm: set<Entry>)
    requires Sound(d) && Crash(d, d', mem, imm)
    ensures Sound(d') && Elements(d'.state.mem) == mem + imm
    ensures CrashProof(d.state) ==> CrashProof(d'.state) && ReadsOk(d'.state)
  {
    hide Structured, Layered, Recorded, CrashProof, ReadsOk, Flushed;
    CrashKeeps(d, d', mem, imm);
    if CrashProof(d.state) {
      CrashKeepsReads(d, d', mem, imm);
    }
  }
}

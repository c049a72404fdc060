/** Group commit (DBImpl::Write, db/db_impl.cc).  Writers queue up; the one at the front logs a
    group of batches and applies it, with the lock released, so that more writers may join the
    queue at any time.  Every method is one step that holds the lock or that only the leader
    may take: an interleaving is any sequence of calls. */
module GroupCommit {
  import opened InternalKey
  import opened BlockFormat
  import opened WriteBatches
  import opened MemTables
  import opened LogReplay
  import LogFormat
  import LogWriter

  const GROUP_LIMIT := 0x10_0000  // 1 << 20
  const SMALL_WRITE := 0x2_0000  // 128 << 10

  /** DBImpl::Writer; the condition variable is the choice of the next step. */
  class Writer {
    const batch: WriteBatch?
    const sync: bool
    var done: bool

    constructor (batch: WriteBatch?, sync: bool)
      ensures this.batch == batch && this.sync == sync && !done
    {
      this.batch, this.sync, done := batch, sync, false;
    }
  }

  /** What a writer asked for. */
  datatype Request = Request(ops: Option<seq<Op>>, sync: bool)

  function OpsOf(r: Request): seq<Op> {
    if r.ops.Some? then r.ops.value else []
  }

  ghost function OpsOfAll(requests: seq<Request>): seq<Op> {
    if requests == [] then [] else OpsOfAll(requests[..|requests| - 1]) + OpsOf(requests[|requests| - 1])
  }

  lemma {:induction false} OpsOfConcat(a: seq<Request>, b: seq<Request>)
    ensures OpsOfAll(a + b) == OpsOfAll(a) + OpsOfAll(b)
    decreases |b|
  {
    hide OpsOf;
    if b == [] {
      assert a + b == a;
    } else {
      OpsOfConcat(a, b[..|b| - 1]);
      assert (a + b)[..|a + b| - 1] == a + b[..|b| - 1];
    }
  }

  lemma OpsOfOne(r: Request)
    ensures OpsOfAll([r]) == OpsOf(r)
  {
    assert [r][..0] == [];
  }

  lemma OpsOfNone()
    ensures OpsOfAll([]) == []
  {
  }

  lemma OpsOfParts(history: seq<Request>, i: nat, j: nat)
    requires i <= j <= |history|
    ensures OpsOfAll(history[..j]) == OpsOfAll(history[..i]) + OpsOfAll(history[i..j])
  {
    OpsOfConcat(history[..i], history[i..j]);
    assert history[..i] + history[i..j] == history[..j];
  }

  // ----- How large a group gets -----

  /** The bytes of a batch; a request without one has none. */
  function ByteSize(r: Request): nat {
    if r.ops.Some? then 12 + |OpsBytes(r.ops.value)| else 0
  }

  function GroupBytes(requests: seq<Request>, n: nat): nat
    requires n <= |requests|
  {
    if n == 0 then 0 else GroupBytes(requests, n - 1) + ByteSize(requests[n - 1])
  }

  /** The request at `i` may ride with those before it: it does not ask for a sync that the first did
      not ask for, and all batches together are at most 1 MiB, or 128 KiB more than a first one that is
      no larger than that. */
  predicate MayRide(requests: seq<Request>, i: nat)
    requires 0 < i < |requests|
  {
    && (requests[i].sync ==> requests[0].sync)
    && (requests[i].ops.Some? ==> GroupBytes(requests, i + 1) <= GroupLimit(requests[0]))
  }

  function GroupLimit(first: Request): nat {
    if ByteSize(first) <= 131072 then ByteSize(first) + 131072 else 1048576
  }

  lemma RidesIf(requests: seq<Request>, i: nat, size: nat)
    requires 0 < i < |requests| && size == GroupBytes(requests, i)
    ensures GroupBytes(requests, i + 1) == size + ByteSize(requests[i])
    ensures MayRide(requests, i) <==>
      && (requests[i].sync ==> requests[0].sync)
      && (requests[i].ops.Some? ==> size + ByteSize(requests[i]) <= GroupLimit(requests[0]))
  {
    hide ByteSize, GroupLimit;
  }

  lemma FirstBytes(requests: seq<Request>)
    requires requests != []
    ensures GroupBytes(requests, 1) == ByteSize(requests[0])
  {
    hide ByteSize;
    assert GroupBytes(requests, 0) == 0;
  }

  lemma WholeGroup(requests: seq<Request>, n: nat)
    requires 0 < n <= |requests| && (forall i :: 0 < i < n ==> MayRide(requests, i)) && (n < |requests| ==> !MayRide(requests, n))
    ensures IsWholeGroup(requests, n)
  {
    hide MayRide;
  }

  /** The first `n` requests are a group: as many as may ride with the first. */
  predicate IsWholeGroup(requests: seq<Request>, n: nat) {
    && 0 < n <= |requests| && (forall i :: 0 < i < n ==> MayRide(requests, i))
    && (n < |requests| ==> !MayRide(requests, n))
  }

  /** How far the leader is: it has chosen a group, logged it, synced the log if it must, and
      applied it. */
  datatype Phase = Idle | Built | Logged | Synced | Inserted

  /** How many batches are in memtables. */
  function Applied(phase: Phase, batches: seq<Batch>): int {
    if phase.Logged? || phase.Synced? then |batches| - 1 else |batches|
  }

  /** All that is counted: requests, acknowledgements, batches and the numbers of both. */
  datatype Counts = Counts(history: seq<Request>, acked: nat, group: nat, phase: Phase, recorded: bool,
                           batches: seq<Batch>, first: nat, logStart: nat)
  {
    /** How many requests are in the log. */
    function Taken(): nat {
      if phase.Logged? || phase.Synced? || phase.Inserted? then acked + group else acked
    }

    /** The requests that are not answered. */
    function Pending(): seq<Request> {
      if acked <= |history| then history[acked..] else []
    }

    function Answered(): seq<Request> {
      if acked <= |history| then history[..acked] else []
    }

    /** The requests of the leader's group. */
    function Group(): seq<Request> {
      if group <= |Pending()| then Pending()[..group] else []
    }

    ghost predicate Ok() {
      && acked + group <= |history| && (group == 0 <==> phase.Idle?) && logStart <= |batches|
      && 1 <= first && Chained(batches, first) && AllOps(batches) == OpsOfAll(history[..Taken()])
      && |OpsOfAll(Pending())| <= MAX_COUNT
      && first + |OpsOfAll(Answered())| + |OpsOfAll(Group())| <= MAX_SEQUENCE_NUMBER + 1
      && (phase.Built? || phase.Logged? || phase.Synced? ==> recorded)
      && (recorded && (phase.Logged? || phase.Synced? || phase.Inserted?) ==>
            logStart < |batches| && AllOps(batches[..|batches| - 1]) == OpsOfAll(Answered()))
      && (phase.Inserted? && !recorded ==> group == 1 && history[acked].ops.None?)
    }
  }

  /** The operations of request `i` are in record `r`, at their place. */
  ghost predicate Inside(history: seq<Request>, batches: seq<Batch>, i: nat, r: nat)
    requires i < |history|
  {
    && r < |batches| && |AllOps(batches[..r])| <= |OpsOfAll(history[..i])|
    && |OpsOfAll(history[..i + 1])| <= |AllOps(batches[..r + 1])|
  }

  /** Where the acknowledged requests went; those that asked for it are durable. */
  ghost predicate Acknowledged(history: seq<Request>, acked: nat, batches: seq<Batch>, recordOf: seq<nat>, durable: set<nat>) {
    && |recordOf| == acked <= |history|
    && forall i {:trigger recordOf[i]} :: 0 <= i < acked && history[i].ops.Some? ==>
         Inside(history, batches, i, recordOf[i]) && (history[i].sync ==> recordOf[i] in durable)
  }

  // ----- What the steps do to the counts -----

  lemma Bounds(c: Counts)
    requires c.Ok()
    ensures c.acked + c.group <= |c.history| && c.Pending() == c.history[c.acked..] && c.Answered() == c.history[..c.acked]
    ensures c.group <= |c.Pending()| && c.Group() == c.Pending()[..c.group] && |OpsOfAll(c.Pending())| <= MAX_COUNT
    ensures (c.group == 0 <==> c.phase.Idle?) && c.logStart <= |c.batches| && 1 <= c.first
    ensures c.first + |OpsOfAll(c.Answered())| + |OpsOfAll(c.Group())| <= MAX_SEQUENCE_NUMBER + 1
    ensures c.recorded && (c.phase.Logged? || c.phase.Synced? || c.phase.Inserted?) ==> c.logStart < |c.batches|
    ensures c.phase.Built? || c.phase.Logged? || c.phase.Synced? ==> c.recorded
  {
    hide OpsOfAll, AllOps, Chained;
  }

  lemma Enqueued(c: Counts, r: Request)
    requires c.Ok() && |OpsOfAll(c.Pending())| + |OpsOf(r)| <= MAX_COUNT
    ensures var c' := c.(history := c.history + [r]);
      c'.Ok() && c'.Pending() == c.Pending() + [r] && c'.Answered() == c.Answered() && c'.Group() == c.Group()
  {
    hide OpsOf, OpsOfAll, AllOps, Chained;
    assert (c.history + [r])[c.acked..] == c.history[c.acked..] + [r];
    assert (c.history[c.acked..] + [r])[..c.group] == c.history[c.acked..][..c.group];
    assert (c.history + [r])[..c.acked] == c.history[..c.acked] && (c.history + [r])[..c.Taken()] == c.history[..c.Taken()];
    OpsOfConcat(c.history[c.acked..], [r]);
    OpsOfOne(r);
  }

  lemma EnqueuedAcknowledged(history: seq<Request>, r: Request, acked: nat, batches: seq<Batch>, recordOf: seq<nat>, durable: set<nat>)
    requires Acknowledged(history, acked, batches, recordOf, durable)
    ensures Acknowledged(history + [r], acked, batches, recordOf, durable)
  {
    hide OpsOfAll, AllOps;
    forall i {:trigger recordOf[i]} | 0 <= i < acked && history[i].ops.Some?
      ensures Inside(history + [r], batches, i, recordOf[i])
    {
      assert Inside(history, batches, i, recordOf[i]);
      assert (history + [r])[..i] == history[..i] && (history + [r])[..i + 1] == history[..i + 1];
    }
  }

  lemma AllWhole(batches: seq<Batch>)
    ensures batches[..|batches|] == batches
  {
  }

  /** The first `n` of the requests that are not answered. */
  lemma FirstPending(pending: seq<Request>, n: nat)
    requires n <= |pending|
    ensures |OpsOfAll(pending[..n])| <= |OpsOfAll(pending)|
    ensures n < |pending| ==> OpsOfAll(pending[..n + 1]) == OpsOfAll(pending[..n]) + OpsOf(pending[n])
    ensures |OpsOfAll(pending[n..])| <= |OpsOfAll(pending)|
  {
    hide OpsOfAll;
    assert pending[..n] + pending[n..] == pending;
    OpsOfConcat(pending[..n], pending[n..]);
    if n < |pending| {
      assert pending[..n + 1] == pending[..n] + [pending[n]];
      OpsOfConcat(pending[..n], [pending[n]]);
      OpsOfOne(pending[n]);
    }
  }

  lemma FirstOfPending(pending: seq<Request>)
    requires pending != []
    ensures OpsOfAll(pending[..1]) == OpsOf(pending[0])
  {
    assert pending[..1] == [pending[0]];
    OpsOfOne(pending[0]);
  }

  /** A group has been chosen. */
  lemma GroupChosen(c: Counts, n: nat, recorded: bool)
    requires c.Ok() && c.phase.Idle? && 0 < n <= |c.Pending()|
    requires c.first + |OpsOfAll(c.Answered())| + |OpsOfAll(c.Pending())| <= MAX_SEQUENCE_NUMBER + 1
    requires !recorded ==> n == 1 && c.Pending()[0].ops.None?
    ensures c.(group := n, phase := if recorded then Built else Inserted, recorded := recorded).Ok()
  {
    hide OpsOfAll, AllOps, Chained;
    FirstPending(c.Pending(), n);
    if !recorded {
      FirstOfPending(c.Pending());
      OpsOfParts(c.history, c.acked, c.acked + 1);
      assert c.history[c.acked..c.acked + 1] == c.Pending()[..1];
    }
  }

  lemma TakenIsGroup(c: Counts)
    requires c.acked + c.group <= |c.history|
    ensures OpsOfAll(c.history[..c.acked + c.group]) == OpsOfAll(c.Answered()) + OpsOfAll(c.Group())
  {
    hide OpsOfAll;
    OpsOfParts(c.history, c.acked, c.acked + c.group);
    assert c.history[c.acked..c.acked + c.group] == c.Group();
  }

  /** The group is in the log. */
  lemma GroupLogged(c: Counts, b: Batch)
    requires c.Ok() && c.phase.Built? && b.ops == OpsOfAll(c.Group()) && CanBeWritten(b.sequence, b.ops)
    requires b.sequence == c.first + |OpsOfAll(c.Answered())|
    ensures c.(phase := Logged, batches := c.batches + [b]).Ok()
  {
    hide OpsOfAll, AllOps, Chained, CanBeWritten, LogEntries, Records, OpsOf;
    Grows(c.batches, b, c.first);
    var more := c.batches + [b];
    TakenIsGroup(c);
    assert Chained(more, c.first) && AllOps(more) == OpsOfAll(c.history[..c.acked + c.group]);
    assert (c.batches + [b])[..|c.batches|] == c.batches;
  }

  lemma LoggedAcknowledged(history: seq<Request>, acked: nat, batches: seq<Batch>, b: Batch, recordOf: seq<nat>, durable: set<nat>)
    requires Acknowledged(history, acked, batches, recordOf, durable)
    ensures Acknowledged(history, acked, batches + [b], recordOf, durable)
  {
    hide OpsOfAll, AllOps;
    forall i {:trigger recordOf[i]} | 0 <= i < acked && history[i].ops.Some?
      ensures Inside(history, batches + [b], i, recordOf[i])
    {
      assert Inside(history, batches, i, recordOf[i]);
      var r := recordOf[i];
      assert (batches + [b])[..r] == batches[..r] && (batches + [b])[..r + 1] == batches[..r + 1];
    }
  }

  lemma NextPhase(c: Counts, next: Phase)
    requires c.Ok() && ((c.phase.Logged? && next.Synced?) || (c.phase.Synced? && next.Inserted?))
    ensures c.(phase := next).Ok()
  {
    hide OpsOfAll, AllOps, Chained;
  }

  /** The last batch is the group's, and comes after what is in the memtable. */
  lemma LastIsGroup(c: Counts)
    requires c.Ok() && (c.phase.Logged? || c.phase.Synced?)
    ensures var n: nat := |c.batches| - 1; var b := c.batches[n];
      && c.logStart <= n && Writable(b) && b.sequence == c.first + |OpsOfAll(c.Answered())| && b.ops == OpsOfAll(c.Group())
      && Below(LogEntries(c.batches[c.logStart..n]), b.sequence)
      && LogEntries(c.batches[c.logStart..n + 1]) == LogEntries(c.batches[c.logStart..n]) + Numbered(b.ops, b.sequence)
  {
    hide OpsOfAll, AllOps, Chained, Writable, Below, Numbered, LogEntries, Counts.Group, Counts.Pending;
    var n, a: nat := |c.batches| - 1, c.logStart;
    var b, before := c.batches[n], c.batches[..n];
    assert c.batches == before + [b];
    Grows(before, b, c.first);
    TakenIsGroup(c);
    assert b.ops == AllOps(c.batches)[|AllOps(before)|..];
    assert b.ops == OpsOfAll(c.history[..c.acked + c.group])[|AllOps(before)|..];
    LastBelow(c.batches, a, c.first);
  }

  /** The last batch of a log that starts at batch `a`. */
  lemma LastBelow(batches: seq<Batch>, a: nat, first: nat)
    requires Chained(batches, first) && a < |batches| && first <= MAX_SEQUENCE_NUMBER + 1
    ensures var n: nat := |batches| - 1; var b := batches[n];
      && Below(LogEntries(batches[a..n]), b.sequence)
      && LogEntries(batches[a..n + 1]) == LogEntries(batches[a..n]) + Numbered(b.ops, b.sequence)
  {
    hide AllOps, Chained, Writable, Below, Numbered, LogEntries, Records;
    var n: nat := |batches| - 1;
    var b, before, part := batches[n], batches[..n], batches[a..n];
    Slices(batches, a);
    Grows(before, b, first);
    ChainedBelow(before, first);
    LogEntriesConcat(before[..a], part);
    PartBelow(LogEntries(part), LogEntries(before), b.sequence);
    Grows(part, b, first);
  }

  lemma Slices<T>(s: seq<T>, a: nat)
    requires a < |s|
    ensures var n := |s| - 1;
      s == s[..n] + [s[n]] && s[..n] == s[..n][..a] + s[a..n] && s[a..n + 1] == s[a..n] + [s[n]]
  {
  }

  function Closed(c: Counts): Counts {
    c.(phase := Phase.Idle, recorded := false, acked := c.acked + c.group, group := 0)
  }

  /** The group is answered. */
  lemma GroupAnswered(c: Counts)
    requires c.Ok() && c.phase.Inserted?
    ensures Closed(c).Ok() && Closed(c).Pending() == c.Pending()[c.group..] && NoSyncBehind(Closed(c).Group())
    ensures Closed(c).Group() == [] && OpsOfAll(Closed(c).Group()) == []
    ensures |OpsOfAll(Closed(c).Answered())| == |OpsOfAll(c.Answered())| + |OpsOfAll(c.Group())|
  {
    hide OpsOfAll, AllOps, Chained;
    TakenIsGroup(c);
    FirstPending(c.Pending(), c.group);
    assert c.history[c.acked..][c.group..] == c.history[c.acked + c.group..];
    OpsOfNone();
  }

  lemma OpsOfMonotone(history: seq<Request>, i: nat, j: nat)
    requires i <= j <= |history|
    ensures |OpsOfAll(history[..i])| <= |OpsOfAll(history[..j])|
  {
    hide OpsOfAll;
    OpsOfParts(history, i, j);
  }

  /** The records of the requests, when the group is answered too. */
  ghost function RecordsAfter(c: Counts, recordOf: seq<nat>): seq<nat>
    requires c.recorded ==> c.batches != []
  {
    recordOf + seq(c.group, _ => if c.recorded then |c.batches| - 1 else 0)
  }

  /** The requests of the group are in the last record. */
  lemma AnsweredAcknowledged(c: Counts, recordOf: seq<nat>, durable: set<nat>)
    requires c.Ok() && c.phase.Inserted? && Acknowledged(c.history, c.acked, c.batches, recordOf, durable)
    requires NoSyncBehind(c.Group()) && (c.recorded && c.history[c.acked].sync ==> |c.batches| - 1 in durable)
    ensures Acknowledged(c.history, c.acked + c.group, c.batches, RecordsAfter(c, recordOf), durable)
  {
    hide OpsOfAll, AllOps, Chained;
    var n := c.acked + c.group;
    var records := RecordsAfter(c, recordOf);
    AllWhole(c.batches);
    forall i {:trigger records[i]} | 0 <= i < n && c.history[i].ops.Some?
      ensures Inside(c.history, c.batches, i, records[i]) && (c.history[i].sync ==> records[i] in durable)
    {
      if i < c.acked {
        assert records[i] == recordOf[i];
      } else {
        assert records[i] == |c.batches| - 1 && c.history[i] == c.Group()[i - c.acked];
        OpsOfMonotone(c.history, c.acked, i);
        OpsOfMonotone(c.history, i + 1, n);
      }
    }
  }

  /** No request for a sync is in the group of a leader that did not ask for one. */
  ghost predicate NoSyncBehind(requests: seq<Request>) {
    forall k :: 0 <= k < |requests| && requests[k].sync ==> requests[0].sync
  }

  lemma DurableGrows(history: seq<Request>, acked: nat, batches: seq<Batch>, recordOf: seq<nat>, durable: set<nat>, more: set<nat>)
    requires Acknowledged(history, acked, batches, recordOf, durable) && durable <= more
    ensures Acknowledged(history, acked, batches, recordOf, more)
  {
    hide Inside;
  }

  // ----- Logs -----

  lemma Empty()
    ensures LogEntries([]) == {} && Records([]) == [] && LogFormat.LogFile([]) == []
  {
  }

  /** With a new log and memtable, what was in the old ones is the entries of the batches so far. */
  lemma Switched(c: Counts, durable: set<nat>, syncedLength: nat)
    requires c.Ok() && SyncedFar(c.batches, c.logStart, durable, syncedLength)
    ensures var n := |c.batches|;
      && c.logStart <= n && c.(logStart := n).Ok() == (c.Ok() && !(c.recorded && (c.phase.Logged? || c.phase.Synced? || c.phase.Inserted?)))
      && LogEntries(c.batches[..c.logStart]) + LogEntries(c.batches[c.logStart..n]) == LogEntries(c.batches[..n])
      && LogFormat.LogFile(Records(c.batches[n..])) == [] && LogEntries(c.batches[n..n]) == {}
      && SyncedFar(c.batches, n, durable, 0)
  {
    hide OpsOfAll, AllOps, Chained, LogFormat.LogFile, LogEntries;
    var n := |c.batches|;
    LogEntriesConcat(c.batches[..c.logStart], c.batches[c.logStart..n]);
    assert c.batches[..c.logStart] + c.batches[c.logStart..n] == c.batches[..n];
    assert c.batches[n..] == [] && c.batches[n..n] == [];
    Empty();
  }

  lemma LogGrows(batches: seq<Batch>, start: nat, b: Batch)
    requires start <= |batches|
    ensures var before := LogFormat.LogFile(Records(batches[start..]));
      LogFormat.LogFile(Records((batches + [b])[start..]))
        == before + LogFormat.Fragments(|before| % LogFormat.BLOCK_SIZE, Encode(b), true)
  {
    hide LogFormat.Fragments, Encode;
    assert (batches + [b])[start..] == batches[start..] + [b];
    var rs := Records(batches[start..]);
    assert Records(batches[start..] + [b]) == rs + [Encode(b)];
    assert (rs + [Encode(b)])[..|rs|] == rs;
  }

  lemma OneMore(batches: seq<Batch>, b: Batch, start: nat)
    requires start <= |batches|
    ensures (batches + [b])[start..|batches|] == batches[start..|batches|] && (batches + [b])[..start] == batches[..start]
  {
  }

  /** The synced part of the current log has every durable group of it. */
  ghost predicate SyncedFar(batches: seq<Batch>, start: nat, durable: set<nat>, syncedLength: nat) {
    && (forall r :: r in durable ==> r < |batches|)
    && forall r :: r in durable && start <= r ==> |LogFormat.LogFile(Records(batches[start..r + 1]))| <= syncedLength
  }

  lemma SyncedStays(batches: seq<Batch>, b: Batch, start: nat, durable: set<nat>, syncedLength: nat)
    requires SyncedFar(batches, start, durable, syncedLength)
    ensures SyncedFar(batches + [b], start, durable, syncedLength)
  {
    hide LogFormat.LogFile;
    forall r | r in durable && start <= r
      ensures (batches + [b])[start..r + 1] == batches[start..r + 1]
    {
    }
  }

  lemma PartIsShorter(batches: seq<Batch>, start: nat, r: nat)
    requires start <= r <= |batches|
    ensures |LogFormat.LogFile(Records(batches[start..r]))| <= |LogFormat.LogFile(Records(batches[start..]))|
  {
    hide LogFormat.LogFile, Encode;
    var all := Records(batches[start..]);
    LogFormat.LogFilePrefix(all, r - start, |all|);
    assert all[..r - start] == Records(batches[start..r]) && all[..|all|] == all;
  }

  ghost function Range(n: nat): (r: set<nat>)
    ensures forall i :: i in r <==> 0 <= i < n
  {
    if n == 0 then {} else Range(n - 1) + {n - 1}
  }

  lemma DurableExist(batches: seq<Batch>, start: nat, durable: set<nat>, syncedLength: nat)
    requires SyncedFar(batches, start, durable, syncedLength)
    ensures forall r :: r in durable ==> r < |batches|
  {
  }

  lemma AllSynced(batches: seq<Batch>, start: nat, durable: set<nat>)
    requires start <= |batches| && forall r :: r in durable ==> r < |batches|
    ensures SyncedFar(batches, start, durable, |LogFormat.LogFile(Records(batches[start..]))|)
  {
    hide LogFormat.LogFile;
    forall r | r in durable && start <= r
      ensures |LogFormat.LogFile(Records(batches[start..r + 1]))| <= |LogFormat.LogFile(Records(batches[start..]))|
    {
      PartIsShorter(batches, start, r + 1);
    }
  }

  class WriteQueue {
    var writers: seq<Writer>
    const tmpBatch: WriteBatch
    var lastSequence: nat  // of the versions
    var log: LogWriter.Writer
    var mem: MemTable
    // what the leader has in local variables
    var updates: WriteBatch?
    var lastWriter: Writer?
    var newLastSequence: nat
    ghost var c: Counts
    ghost var sealed: set<KeyValue>  // the entries of earlier memtables
    ghost var recordOf: seq<nat>
    ghost var durable: set<nat>  // the groups that a sync has followed
    ghost var syncedLength: nat  // of the current log

    ghost function Batches(): set<WriteBatch>
      reads `writers
    {
      (set w: Writer | w in writers && w.batch != null :: w.batch)
    }

    static ghost function BatchOf(w: Writer): set<WriteBatch> {
      if w.batch == null then {} else {w.batch}
    }

    ghost predicate IsRequest(w: Writer, r: Request)
      reads w`done, BatchOf(w)`rep, BatchOf(w)`ops, BatchOf(w)`sequence
    {
      && !w.done && w.sync == r.sync && w.batch != tmpBatch
      && if w.batch == null then r.ops == None else w.batch.Inv() && r.ops == Some(w.batch.ops)
    }

    /** The queue is what was asked for and not answered yet. */
    ghost predicate Queue(pending: seq<Request>)
      reads `writers, writers`done, Batches()`rep, Batches()`ops, Batches()`sequence, tmpBatch
    {
      && |writers| == |pending| && tmpBatch.Inv()
      && (forall i, j :: 0 <= i < j < |writers| ==> writers[i] != writers[j])
      && (forall i, j :: 0 <= i < j < |writers| && writers[i].batch != null ==> writers[i].batch != writers[j].batch)
      && forall i :: 0 <= i < |writers| ==> IsRequest(writers[i], pending[i])
    }

    ghost predicate Numbers()
      reads `c, `lastSequence, `newLastSequence
    {
      && c.Ok() && lastSequence + 1 == c.first + |OpsOfAll(c.Answered())|
      && (c.phase != Phase.Idle ==> newLastSequence == lastSequence + |OpsOfAll(c.Group())|)
    }

    ghost predicate Files(batches: seq<Batch>, logStart: nat, applied: int)
      reads `sealed, `log, `mem, log, mem
    {
      && logStart <= applied <= |batches| && log.Valid() && log.dest == LogFormat.LogFile(Records(batches[logStart..]))
      && mem.Inv() && mem.Contents() == LogEntries(batches[logStart..applied]) && sealed == LogEntries(batches[..logStart])
    }

    /** The leader's group, and what is left to do for it. */
    ghost predicate Leader(c: Counts)
      reads `writers, `lastWriter, `updates, `lastSequence, updates
    {
      c.phase != Phase.Idle ==>
        && 0 < c.group <= |writers| && lastWriter == writers[c.group - 1] && c.recorded == (updates != null)
        && (updates != null ==>
              && updates.Inv() && updates.ops == OpsOfAll(c.Group()) && updates.sequence == lastSequence + 1
              && (updates == tmpBatch || updates == writers[0].batch))
    }

    ghost predicate TmpIsClear(phase: Phase)
      reads `updates, tmpBatch
    {
      phase == Phase.Idle || updates != tmpBatch ==> tmpBatch.ops == []
    }

    ghost predicate Syncs()
      reads `c, `durable, `syncedLength, `log, log
    {
      && SyncedFar(c.batches, c.logStart, durable, syncedLength) && syncedLength <= |log.dest| && NoSyncBehind(c.Group())
      && ((c.phase.Synced? || c.phase.Inserted?) && c.recorded && c.acked < |c.history| && c.history[c.acked].sync ==>
            |c.batches| - 1 in durable)
    }

    ghost predicate Inv()
      reads this, writers, Batches(), tmpBatch, updates, log, mem
    {
      && Queue(c.Pending()) && Numbers() && Files(c.batches, c.logStart, Applied(c.phase, c.batches)) && Leader(c)
      && TmpIsClear(c.phase) && Syncs() && Acknowledged(c.history, c.acked, c.batches, recordOf, durable)
    }

    constructor (lastSequence: nat)
      requires lastSequence < MAX_SEQUENCE_NUMBER
      ensures Inv() && c.phase == Phase.Idle && c.history == [] && c.first == lastSequence + 1
    {
      tmpBatch := new WriteBatch();
      this.lastSequence := lastSequence;
      log := new LogWriter.Writer([]);
      mem := new MemTable();
      writers, updates, lastWriter, newLastSequence := [], null, null, lastSequence;
      c := Counts([], 0, 0, Phase.Idle, false, [], lastSequence + 1, 0);
      sealed, recordOf, durable, syncedLength := {}, [], {}, 0;
    }

    // ----- The steps -----

    ghost function RequestOf(w: Writer): Request
      reads w, w.batch
    {
      Request(if w.batch != null then Some(w.batch.ops) else None, w.sync)
    }

    /** A thread takes the lock and joins the queue. */
    method Enqueue(w: Writer)
      requires Inv() && !w.done && w !in writers
      requires w.batch != null ==> w.batch.Inv() && w.batch !in Batches() && w.batch != tmpBatch
      requires |OpsOfAll(c.Pending())| + |OpsOf(RequestOf(w))| <= MAX_COUNT
      modifies `c, `writers
      ensures Inv() && c == old(c).(history := old(c.history) + [RequestOf(w)]) && writers == old(writers) + [w]
    {
      hide OpsOf, OpsOfAll, LogFormat.LogFile, LogEntries, Acknowledged, SyncedFar, WriteBatch.Inv, MemTable.Inv, NoSyncBehind;
      hide TmpIsClear, Counts.Ok, Files, Counts.Group, Counts.Pending, Counts.Answered;
      Bounds(c);
      Enqueued(c, RequestOf(w));
      EnqueuedAcknowledged(c.history, RequestOf(w), c.acked, c.batches, recordOf, durable);
      c := c.(history := c.history + [RequestOf(w)]);
      writers := writers + [w];
    }

    /** MakeRoomForWrite, when the memtable is full: a new log and a new memtable. */
    method MakeRoomForWrite()
      requires Inv() && c.phase == Phase.Idle && writers != []
      modifies `c, `log, `mem, `sealed, `syncedLength
      ensures Inv() && c == old(c).(logStart := |old(c.batches)|)
    {
      hide Inv;
      assert forall i :: 0 <= i < |writers| ==> allocated(writers[i]);
      assert forall b :: b in Batches() ==> allocated(b);
      var newLog := new LogWriter.Writer([]);
      var newMem := new MemTable();
      Switch(newLog, newMem);
    }

    method Switch(newLog: LogWriter.Writer, newMem: MemTable)
      requires Inv() && c.phase == Phase.Idle && newLog.Valid() && newLog.dest == [] && newMem.Inv() && newMem.Contents() == {}
      modifies `c, `log, `mem, `sealed, `syncedLength
      ensures Inv() && c == old(c).(logStart := |old(c.batches)|)
    {
      hide OpsOfAll, LogFormat.LogFile, LogEntries, Acknowledged, MemTable.Inv, LogWriter.Writer.Valid, Queue, TmpIsClear;
      hide Counts.Ok, Records, NoSyncBehind;
      Switched(c, durable, syncedLength);
      sealed := sealed + mem.Contents();
      log, mem := newLog, newMem;
      c, syncedLength := c.(logStart := |c.batches|), 0;
    }

    /** BuildBatchGroup: how many writers are taken, and the batch that has all of theirs. */
    method BuildBatchGroup(ghost pending: seq<Request>) returns (n: nat, result: WriteBatch)
      requires Queue(pending) && writers != [] && writers[0].batch != null && tmpBatch.ops == []
      requires |OpsOfAll(pending)| <= MAX_COUNT
      modifies tmpBatch
      ensures Queue(pending) && 0 < n <= |writers|
      ensures result == tmpBatch || (result == writers[0].batch && tmpBatch.ops == [])
      ensures result.Inv() && result.ops == OpsOfAll(pending[..n]) && NoSyncBehind(pending[..n])
      ensures IsWholeGroup(pending, n)
    {
      hide OpsOf, OpsOfAll, WriteBatch.Inv, NoSyncBehind, MayRide, GroupBytes, ByteSize, IsWholeGroup;
      var firstWriter := writers[0];
      QueueLength(pending);
      result := firstWriter.batch;
      var size := |firstWriter.batch.rep|;
      var maxSize := GROUP_LIMIT;
      if size <= SMALL_WRITE {
        maxSize := size + SMALL_WRITE;
      }
      n := 1;
      SizeAt(pending, 0);
      FirstBytes(pending);
      RequestAt(pending, 0);
      FirstOfPending(pending);
      FirstPending(pending, 1);
      OneRequest(pending);
      while n < |writers|
        invariant 0 < n <= |writers| && Queue(pending)
        invariant result == tmpBatch || (result == firstWriter.batch && tmpBatch.ops == [])
        invariant result.Inv() && result.ops == OpsOfAll(pending[..n]) && NoSyncBehind(pending[..n])
        invariant size == GroupBytes(pending, n) && forall i :: 0 < i < n ==> MayRide(pending, i)
      {
        var w := writers[n];
        SizeAt(pending, n);
        RidesIf(pending, n, size);
        RequestAt(pending, n);
        if w.sync && !firstWriter.sync {
          WholeGroup(pending, n);
          return;
        }
        FirstPending(pending, n);
        FirstPending(pending, n + 1);
        OneMoreRequest(pending, n);
        if w.batch != null {
          size := size + |w.batch.rep|;
          if size > maxSize {
            WholeGroup(pending, n);
            return;
          }
          result := Join(result, w.batch, pending, n);
        }
        n := n + 1;
      }
      WholeGroup(pending, n);
    }

    /** The batch of one more writer, in the temporary batch instead of disturbing the first one's. */
    method Join(result: WriteBatch, batch: WriteBatch, ghost pending: seq<Request>, ghost n: nat) returns (r: WriteBatch)
      requires Queue(pending) && 0 < n < |writers| && writers[n].batch == batch && batch != tmpBatch && batch.Inv()
      requires result == tmpBatch || (result == writers[0].batch && tmpBatch.ops == [])
      requires result.Inv() && |result.ops| + |batch.ops| <= MAX_COUNT
      modifies tmpBatch
      ensures r == tmpBatch && Queue(pending) && r.Inv() && r.ops == old(result.ops) + batch.ops
    {
      hide WriteBatch.Inv;
      r := result;
      if result != tmpBatch {
        r := tmpBatch;
        r.Append(result);
        assert tmpBatch.ops == old(result.ops);
      }
      r.Append(batch);
    }

    lemma SizeAt(pending: seq<Request>, i: nat)
      requires Queue(pending) && i < |writers|
      ensures ByteSize(pending[i]) == if writers[i].batch == null then 0 else |writers[i].batch.rep|
    {
      hide OpsBytes;
      assert IsRequest(writers[i], pending[i]);
    }

    lemma RequestAt(pending: seq<Request>, i: nat)
      requires Queue(pending) && i < |writers|
      ensures writers[i].sync == pending[i].sync && writers[i].batch != tmpBatch
      ensures if writers[i].batch == null then OpsOf(pending[i]) == [] && pending[i].ops.None?
              else writers[i].batch.Inv() && writers[i].batch.ops == OpsOf(pending[i])
    {
      hide WriteBatch.Inv;
      assert IsRequest(writers[i], pending[i]);
    }

    /** The writer at the front, once there is room, chooses its group and numbers it. */
    method Lead()
      requires Inv() && c.phase == Phase.Idle && writers != []
      requires lastSequence + |OpsOfAll(c.Pending())| <= MAX_SEQUENCE_NUMBER
      modifies `c, `updates, `lastWriter, `newLastSequence, tmpBatch, writers[0].batch
      ensures Inv() && c.phase != Phase.Idle && c.history == old(c.history) && c.acked == old(c.acked)
      ensures if writers[0].batch == null then c.group == 1 && updates == null else IsWholeGroup(old(c.Pending()), c.group)
    {
      hide OpsOf, OpsOfAll, Files, Syncs, Acknowledged, WriteBatch.Inv, Queue, Counts.Ok, NoSyncBehind, IsWholeGroup;
      var w := writers[0];
      Bounds(c);
      QueueLength(c.Pending());
      if w.batch == null {
        // there is nothing to log
        RequestAt(c.Pending(), 0);
        FirstOfPending(c.Pending());
        OneRequest(c.Pending());
        Begin(1, null, 0);
      } else {
        var n, result := BuildBatchGroup(c.Pending());
        FirstPending(c.Pending(), n);
        var count := NumberGroup(result, c.Pending());
        Begin(n, result, count);
      }
    }

    lemma OneMoreRequest(pending: seq<Request>, n: nat)
      requires 0 < n < |pending| && NoSyncBehind(pending[..n]) && (pending[n].sync ==> pending[0].sync)
      ensures NoSyncBehind(pending[..n + 1])
    {
      var before, after := pending[..n], pending[..n + 1];
      forall k | 0 <= k < |after| && after[k].sync
        ensures after[0].sync
      {
        assert k < n ==> before[k].sync;
      }
    }

    lemma OneRequest(pending: seq<Request>)
      requires pending != []
      ensures NoSyncBehind(pending[..1])
    {
    }

    /** The leader's local variables are set. */
    method Begin(n: nat, result: WriteBatch?, count: nat)
      requires Queue(c.Pending()) && Numbers() && Files(c.batches, c.logStart, Applied(c.phase, c.batches)) && Syncs()
      requires Acknowledged(c.history, c.acked, c.batches, recordOf, durable)
      requires c.phase == Phase.Idle && 0 < n <= |c.Pending()| && count == |OpsOfAll(c.Pending()[..n])|
      requires lastSequence + |OpsOfAll(c.Pending())| <= MAX_SEQUENCE_NUMBER
      requires if result == null then n == 1 && c.Pending()[0].ops.None?
               else result.Inv() && result.ops == OpsOfAll(c.Pending()[..n]) && result.sequence == lastSequence + 1
      requires result != null ==> result == tmpBatch || (writers != [] && result == writers[0].batch)
      requires (result != tmpBatch ==> tmpBatch.ops == []) && NoSyncBehind(c.Pending()[..n])
      modifies `c, `updates, `lastWriter, `newLastSequence
      ensures Inv() && c.phase != Phase.Idle && c.history == old(c.history) && c.acked == old(c.acked)
      ensures c.group == n && updates == result
    {
      hide OpsOf, OpsOfAll, Files, Acknowledged, SyncedFar, WriteBatch.Inv, Counts.Ok, Queue, NoSyncBehind;
      QueueLength(c.Pending());
      GroupChosen(c, n, result != null);
      updates, lastWriter, newLastSequence := result, writers[n - 1], lastSequence + count;
      c := c.(group := n, phase := if result != null then Built else Inserted, recorded := result != null);
    }

    lemma QueueLength(pending: seq<Request>)
      requires Queue(pending)
      ensures |pending| == |writers|
    {
    }

    /** Sets the sequence number of the group's batch, which may be the first writer's own. */
    method NumberGroup(result: WriteBatch, ghost pending: seq<Request>) returns (count: nat)
      requires Queue(pending) && writers != [] && result.Inv() && (result == tmpBatch || result == writers[0].batch)
      requires lastSequence <= MAX_SEQUENCE_NUMBER
      modifies result
      ensures Queue(pending) && result.Inv() && result.ops == old(result.ops) && result.sequence == lastSequence + 1
      ensures count == |result.ops|
    {
      hide WriteBatch.Inv;
      result.SetSequenceNumber(lastSequence + 1);
      count := result.Count();
      forall i | 0 <= i < |writers|
        ensures IsRequest(writers[i], pending[i])
      {
      }
    }

    /** The leader, without the lock: the group's batch is added to the log as one record. */
    method AddRecord()
      requires Inv() && c.phase == Built
      modifies `c, log`dest, log`blockOffset
      ensures Inv() && c == old(c).(phase := Logged, batches := old(c.batches) + [Batch(lastSequence + 1, OpsOfAll(c.Group()))])
    {
      hide OpsOf, OpsOfAll, LogFormat.LogFile, LogFormat.Fragments, LogEntries, Acknowledged, SyncedFar, WriteBatch.Inv, MemTable.Inv;
      hide Counts.Ok, LogWriter.Writer.Valid, Records, Queue, BatchBytes, NoSyncBehind, CanBeWritten;
      Bounds(c);
      UpdatesAre();
      ghost var b := Batch(lastSequence + 1, OpsOfAll(c.Group()));
      GroupLogged(c, b);
      LoggedAcknowledged(c.history, c.acked, c.batches, b, recordOf, durable);
      LogGrows(c.batches, c.logStart, b);
      SyncedStays(c.batches, b, c.logStart, durable, syncedLength);
      OneMore(c.batches, b, c.logStart);
      assert forall i :: 0 <= i < |writers| ==> allocated(writers[i]);
      assert forall b :: b in Batches() ==> allocated(b);
      log.AddRecord(updates.rep);
      c := c.(phase := Logged, batches := c.batches + [b]);
    }

    lemma UpdatesAre()
      requires Leader(c) && c.phase != Phase.Idle && updates != null
      ensures updates.rep == Encode(Batch(lastSequence + 1, OpsOfAll(c.Group())))
      ensures CanBeWritten(lastSequence + 1, OpsOfAll(c.Group()))
    {
      hide OpsOfAll, BatchBytes;
    }

    /** The request at the front of the queue asks for a sync. */
    ghost predicate LeaderSyncs()
      reads `c
    {
      c.acked < |c.history| && c.history[c.acked].sync
    }

    /** The leader syncs the log if it was asked to. */
    method Sync()
      requires Inv() && c.phase == Logged
      modifies `c, `durable, `syncedLength
      ensures Inv() && c == old(c).(phase := Synced)
      ensures syncedLength == if LeaderSyncs() then |log.dest| else old(syncedLength)
    {
      hide OpsOf, OpsOfAll, LogFormat.LogFile, LogEntries, Acknowledged, WriteBatch.Inv, MemTable.Inv, SyncedFar;
      hide Counts.Ok, LogWriter.Writer.Valid, Records, Queue, NoSyncBehind;
      Bounds(c);
      NextPhase(c, Synced);
      if c.history[c.acked].sync {
        ghost var more := durable + (Range(|c.batches|) - Range(c.logStart));
        DurableGrows(c.history, c.acked, c.batches, recordOf, durable, more);
        DurableExist(c.batches, c.logStart, durable, syncedLength);
        AllSynced(c.batches, c.logStart, more);
        durable, syncedLength := more, |log.dest|;
      }
      c := c.(phase := Synced);
    }

    /** The leader applies the group to the memtable. */
    method InsertIntoMem()
      requires Inv() && c.phase == Synced
      modifies `c, mem
      ensures Inv() && c == old(c).(phase := Inserted)
      ensures c.batches != [] &&
        var b := c.batches[|c.batches| - 1]; mem.Contents() == old(mem.Contents()) + Numbered(b.ops, b.sequence)
    {
      hide OpsOf, OpsOfAll, LogFormat.LogFile, LogEntries, Acknowledged, SyncedFar, WriteBatch.Inv, MemTable.Inv;
      hide Counts.Ok, LogWriter.Writer.Valid, Records, Queue, BatchBytes, Below, Numbered, Writable, NoSyncBehind;
      Bounds(c);
      NextPhase(c, Inserted);
      LastIsGroup(c);
      UpdatesAre();
      assert forall i :: 0 <= i < |writers| ==> allocated(writers[i]);
      assert forall b :: b in Batches() ==> allocated(b);
      var status := InsertInto(updates.rep, mem, c.batches[|c.batches| - 1]);
      c := c.(phase := Inserted);
    }

    /** The leader answers its group and leaves the queue to the next. */
    method Finish()
      requires Inv() && c.phase == Inserted
      modifies `c, `updates, `lastWriter, `lastSequence, `writers, `recordOf, tmpBatch, writers`done
      ensures Inv() && c == Closed(old(c)) && writers == old(writers)[old(c.group)..]
      ensures forall i :: 1 <= i < old(c.group) ==> old(writers)[i].done
    {
      hide OpsOfAll, Numbers, Files, Syncs, Acknowledged, WriteBatch.Inv, Queue;
      if updates == tmpBatch {
        ClearTmp(c.Pending());
      }
      Answer();
    }

    method Answer()
      requires Queue(c.Pending()) && Numbers() && Files(c.batches, c.logStart, Applied(c.phase, c.batches)) && Syncs()
      requires Acknowledged(c.history, c.acked, c.batches, recordOf, durable) && c.recorded == (updates != null)
      requires c.phase == Inserted && 0 < c.group <= |writers| && lastWriter == writers[c.group - 1] && tmpBatch.ops == []
      modifies `c, `updates, `lastWriter, `lastSequence, `writers, `recordOf, writers`done
      ensures Inv() && c == Closed(old(c)) && writers == old(writers)[old(c.group)..]
      ensures forall i :: 1 <= i < old(c.group) ==> old(writers)[i].done
    {
      hide OpsOf, OpsOfAll, Acknowledged, SyncedFar, WriteBatch.Inv, Files, NoSyncBehind;
      hide Counts.Ok, Queue, RecordsAfter, Counts.Pending, Counts.Group, Counts.Answered;
      Bounds(c);
      AnsweredAcknowledged(c, recordOf, durable);
      GroupAnswered(c);
      recordOf := RecordsAfter(c, recordOf);
      lastSequence := newLastSequence;
      PopGroup(c.group, c.Pending());
      Close();
    }

    /** There is no leader any more. */
    method Close()
      requires Queue(Closed(c).Pending()) && Closed(c).Ok() && lastSequence + 1 == c.first + |OpsOfAll(Closed(c).Answered())|
      requires Files(c.batches, c.logStart, Applied(c.phase, c.batches)) && c.phase == Inserted && tmpBatch.ops == []
      requires SyncedFar(c.batches, c.logStart, durable, syncedLength) && syncedLength <= |log.dest|
      requires NoSyncBehind(Closed(c).Group()) && Acknowledged(c.history, c.acked + c.group, c.batches, recordOf, durable)
      modifies `c, `updates, `lastWriter
      ensures Inv() && c == Closed(old(c))
    {
      hide OpsOf, OpsOfAll, Acknowledged, SyncedFar, WriteBatch.Inv, Files, NoSyncBehind;
      hide Counts.Ok, Queue, Counts.Pending, Counts.Group, Counts.Answered;
      c, updates, lastWriter := Closed(c), null, null;
    }

    method ClearTmp(ghost pending: seq<Request>)
      requires Queue(pending)
      modifies tmpBatch
      ensures Queue(pending) && tmpBatch.ops == []
    {
      hide WriteBatch.Inv;
      tmpBatch.Clear();
      forall i | 0 <= i < |writers|
        ensures IsRequest(writers[i], pending[i])
      {
      }
    }

    /** Removes the group from the queue and tells every writer in it but the leader. */
    method PopGroup(ghost n: nat, ghost pending: seq<Request>)
      requires 0 < n <= |writers| && lastWriter == writers[n - 1] && Queue(pending)
      modifies `writers, writers`done
      ensures n <= |pending| && Queue(pending[n..]) && writers == old(writers)[n..]
      ensures forall i :: 1 <= i < n ==> old(writers)[i].done
    {
      hide WriteBatch.Inv;
      var w := writers[0];
      ghost var all, i := writers, 0;
      while true
        invariant 0 <= i < n && writers == all[i..]
        invariant forall j :: 1 <= j < i ==> all[j].done
        invariant forall j :: i <= j < |all| ==> !all[j].done
        decreases n - i
      {
        var ready := writers[0];
        writers := writers[1..];
        if ready != w {
          ready.done := true;
        }
        i := i + 1;
        if ready == lastWriter {
          break;
        }
      }
      forall k | 0 <= k < |writers|
        ensures IsRequest(writers[k], pending[n..][k])
      {
        assert IsRequest(all[n + k], pending[n + k]) && writers[k] == all[n + k] && pending[n..][k] == pending[n + k];
      }
    }

    // ----- What holds in every state -----

    /** How many requests are applied. */
    ghost function AppliedRequests(): (n: nat)
      requires c.Ok()
      reads `c
      ensures n <= |c.history|
    {
      if c.phase.Inserted? then c.acked + c.group else c.acked
    }

    /** Every batch is applied exactly once, in the order of the queue: the memtables hold the
        operations of the requests so far, each under the next sequence number, and no more. */
    lemma AppliedInOrder()
      requires Inv() && c.Ok()
      ensures sealed + mem.Contents() == Numbered(OpsOfAll(c.history[..AppliedRequests()]), c.first)
    {
      hide OpsOfAll, AllOps, Chained, LogEntries, Numbered, Queue, Leader, Syncs, Acknowledged, MemTable.Inv, LogFormat.LogFile;
      var n := Applied(c.phase, c.batches);
      var applied := c.batches[..n];
      AllWhole(c.batches);
      LogEntriesConcat(c.batches[..c.logStart], c.batches[c.logStart..n]);
      assert c.batches[..c.logStart] + c.batches[c.logStart..n] == applied;
      ChainedPrefix(c.batches, c.first, n);
      ChainedIsNumbered(applied, c.first);
    }

    /** Groups take consecutive ranges of sequence numbers. */
    lemma RangesAreConsecutive(g: nat)
      requires Inv() && c.Ok() && g + 1 < |c.batches|
      ensures c.batches[g + 1].sequence == c.batches[g].sequence + |c.batches[g].ops|
    {
      hide OpsOfAll, AllOps, Chained, LogEntries, Numbered, Queue, Leader, Syncs, Acknowledged, Files;
      RangesFollow(c.batches, c.first, g);
    }

    /** Request `i` is answered, asked for a sync, and went to the current log. */
    ghost predicate MustSurvive(i: nat)
      reads `c, `recordOf
    {
      i < c.acked && c.acked <= |c.history| && i < |recordOf| && c.history[i].ops.Some? && c.history[i].sync && recordOf[i] >= c.logStart
    }

    /** Recovery of the log, cut anywhere after its last sync: a prefix of the batches, with all
        that was answered with a sync.  If nothing is cut, it is what the memtable holds. */
    method RecoverAfterCrash(k: nat) returns (m: MemTable?, ghost flushed: set<KeyValue>, max: nat)
      requires Inv() && c.Ok() && syncedLength <= k <= |log.dest|
      ensures m != null ==> fresh(m) && m.Inv()
      ensures var recovered := flushed + (if m != null then m.Contents() else {});
        && (forall i: nat :: MustSurvive(i) ==>
              Numbered(OpsOf(c.history[i]), c.first + |OpsOfAll(c.history[..i])|) <= recovered)
        && (k == |log.dest| && !c.phase.Logged? && !c.phase.Synced? ==> recovered == mem.Contents())
    {
      hide OpsOf, OpsOfAll, AllOps, Chained, LogEntries, Numbered, Queue, Leader, Syncs, MemTable.Inv, LogFormat.LogFile, Records;
      hide LogWriter.Writer.Valid, LogFormat.WholeRecords, MaxSequence, MustSurvive, Counts.Ok, Acknowledged;
      ghost var current := c.batches[c.logStart..];
      ghost var start := c.first + |AllOps(c.batches[..c.logStart])|;
      CurrentIsChained(c);
      SyncedSurvive(k);
      ghost var was := mem.Contents();
      assert k == |log.dest| && !c.phase.Logged? && !c.phase.Synced? ==>
          LogEntries(current[..LogFormat.WholeRecords(Records(current), k)]) == was by {
        if k == |log.dest| {
          NothingCut(current, k);
        }
        assert c.batches[c.logStart..|c.batches|] == current;
      }
      var file := log.dest[..k];
      var reports;
      m, flushed, max, reports := RecoverLogFile(file, 0, current, start, k);
    }

    /** Every request that must survive is in the batches that are whole. */
    lemma SyncedSurvive(k: nat)
      requires Inv() && c.Ok() && syncedLength <= k
      ensures var current := c.batches[c.logStart..]; var n := LogFormat.WholeRecords(Records(current), k);
        forall i: nat :: MustSurvive(i) ==>
          Numbered(OpsOf(c.history[i]), c.first + |OpsOfAll(c.history[..i])|) <= LogEntries(current[..n])
    {
      hide OpsOf, OpsOfAll, AllOps, Chained, LogEntries, Numbered, Queue, Leader, Inside, Files, Records, LogFormat.WholeRecords;
      hide NoSyncBehind, SyncedFar, Counts.Ok;
      Bounds(c);
      ghost var current := c.batches[c.logStart..];
      ghost var n := LogFormat.WholeRecords(Records(current), k);
      forall i: nat | MustSurvive(i)
        ensures Numbered(OpsOf(c.history[i]), c.first + |OpsOfAll(c.history[..i])|) <= LogEntries(current[..n])
      {
        var r := recordOf[i];
        assert Inside(c.history, c.batches, i, r) && r in durable;
        SurvivesCut(c, r, syncedLength, k, durable);
        RequestOfAnswered(c, i, r);
        LogHasBatch(current[..n], r - c.logStart);
      }
    }
  }

  lemma CurrentIsChained(c: Counts)
    requires c.Ok()
    ensures c.logStart <= |c.batches|
    ensures var start := c.first + |AllOps(c.batches[..c.logStart])|;
      Chained(c.batches[c.logStart..], start) && 1 <= start <= MAX_SEQUENCE_NUMBER + 1
  {
    hide OpsOfAll, AllOps, Chained;
    ChainedSuffix(c.batches, c.first, c.logStart);
    SequencesFit(c);
  }

  lemma SequencesFit(c: Counts)
    requires c.Ok()
    ensures c.first + |AllOps(c.batches[..c.logStart])| <= MAX_SEQUENCE_NUMBER + 1
  {
    hide OpsOfAll, AllOps, Chained;
    AllOpsConcat(c.batches[..c.logStart], c.batches[c.logStart..]);
    assert c.batches[..c.logStart] + c.batches[c.logStart..] == c.batches;
    TakenIsGroup(c);
  }

  lemma NothingCut(batches: seq<Batch>, k: nat)
    requires k == |LogFormat.LogFile(Records(batches))|
    ensures LogFormat.WholeRecords(Records(batches), k) == |batches| && batches[..|batches|] == batches
  {
    hide LogFormat.LogFile;
  }

  /** A durable record is whole in any part of the log that has the synced part. */
  lemma SurvivesCut(c: Counts, r: nat, syncedLength: nat, k: nat, durable: set<nat>)
    requires c.logStart <= |c.batches| && SyncedFar(c.batches, c.logStart, durable, syncedLength)
    requires r in durable && c.logStart <= r && syncedLength <= k
    ensures r < |c.batches| && r - c.logStart < LogFormat.WholeRecords(Records(c.batches[c.logStart..]), k)
  {
    hide LogFormat.LogFile, LogFormat.WholeRecords, Encode;
    var all := Records(c.batches[c.logStart..]);
    var n := LogFormat.WholeRecords(all, k);
    LogFormat.WholeRecordsSpan(all, k);
    var m := r + 1 - c.logStart;
    assert Records(c.batches[c.logStart..r + 1]) == all[..m];
    if n < m {
      LogFormat.LogFilePrefix(all, n + 1, m);
    }
  }

  lemma RequestOfAnswered(c: Counts, i: nat, r: nat)
    requires c.Ok() && i < c.acked && Inside(c.history, c.batches, i, r)
    ensures Numbered(OpsOf(c.history[i]), c.first + |OpsOfAll(c.history[..i])|)
         <= Numbered(c.batches[r].ops, c.batches[r].sequence)
  {
    hide OpsOf, OpsOfAll, AllOps, Chained, Numbered, Inside;
    RequestInBatch(c.history, c.batches, c.first, c.Taken(), i, r);
  }

  /** The entries of a request are among those of its record. */
  lemma RequestInBatch(history: seq<Request>, batches: seq<Batch>, first: nat, n: nat, i: nat, r: nat)
    requires i < n <= |history| && Chained(batches, first) && AllOps(batches) == OpsOfAll(history[..n])
    requires Inside(history, batches, i, r)
    ensures Numbered(OpsOf(history[i]), first + |OpsOfAll(history[..i])|) <= Numbered(batches[r].ops, batches[r].sequence)
  {
    hide OpsOf, OpsOfAll, AllOps, Chained, EntryOf;
    var ops, p := OpsOf(history[i]), |OpsOfAll(history[..i])|;
    RequestOps(history, i, n);
    forall j: nat | j < |ops|
      ensures EntryOf(ops[j], first + p + j) in Numbered(batches[r].ops, batches[r].sequence)
    {
      OpInBatch(batches, first, r, p + j);
      assert AllOps(batches)[p + j] == ops[j];
    }
  }

  lemma RequestOps(history: seq<Request>, i: nat, n: nat)
    requires i < n <= |history|
    ensures var all, p, ops := OpsOfAll(history[..n]), |OpsOfAll(history[..i])|, OpsOf(history[i]);
      && p + |ops| <= |all| && |OpsOfAll(history[..i + 1])| == p + |ops|
      && forall j :: 0 <= j < |ops| ==> all[p + j] == ops[j]
  {
    hide OpsOf, OpsOfAll;
    FirstPending(history, i);
    OpsOfParts(history, i + 1, n);
  }
}

/** From keys as bytes to keys by rank: an order-preserving rank of user keys carries what is shown
    of encoded entries (tables, memtables, logged batches) to the entries of the engine. */
module KeyRanks {
  import opened InternalKey
  import opened ByteKeys
  import opened BlockFormat
  import TableLayout
  import Blocks
  import MemTables
  import Tables
  import opened WriteBatches
  import opened LogReplay
  import opened Database
  import GroupCommit

  ghost predicate OrderPreserving(rank: Bytes -> UserKey) {
    forall a, b :: Less(a, b) <==> rank(a) < rank(b)
  }

  lemma RankIsInjective(rank: Bytes -> UserKey, a: Bytes, b: Bytes)
    requires OrderPreserving(rank)
    ensures rank(a) == rank(b) <==> a == b
  {
    LessIsTotal(a, b);
    assert Less(a, b) <==> rank(a) < rank(b);
    assert Less(b, a) <==> rank(b) < rank(a);
  }

  /** The key as a fraction: one digit for each byte, and zero for the end. */
  function Fraction(s: Bytes): (r: real)
    ensures 0.0 <= r < 1.0 && (s != [] ==> r > 0.0)
  {
    if s == [] then 0.0 else (s[0] as real + 1.0 + Fraction(s[1..])) / 257.0
  }

  lemma {:induction false} FractionsAreOrdered(a: Bytes, b: Bytes)
    ensures Less(a, b) <==> Fraction(a) < Fraction(b)
  {
    if a != [] && b != [] {
      FractionsAreOrdered(a[1..], b[1..]);
    }
  }

  /** There is a rank that keeps the order. */
  lemma FractionIsRank()
    ensures OrderPreserving(Fraction)
  {
    forall a, b
      ensures Less(a, b) <==> Fraction(a) < Fraction(b)
    {
      FractionsAreOrdered(a, b);
    }
  }

  /** ParseInternalKey succeeds. */
  predicate Parsable(k: Bytes) {
    IsKey(k) && TagOf(k) % 256 <= 1
  }

  function Decoded(rank: Bytes -> UserKey, k: Bytes): Key
    requires IsKey(k)
  {
    Key(rank(UserPart(k)), TagOf(k) / 256, if TagOf(k) % 256 == 1 then Value else Deletion)
  }

  function EntryFrom(rank: Bytes -> UserKey, e: KeyValue): Entry
    requires IsKey(e.key)
  {
    Entry(Decoded(rank, e.key), e.value)
  }

  ghost predicate AllParsable(entries: set<KeyValue>) {
    forall e :: e in entries ==> Parsable(e.key)
  }

  ghost function EntriesFrom(rank: Bytes -> UserKey, entries: set<KeyValue>): set<Entry>
    requires AllParsable(entries)
  {
    set e | e in entries :: EntryFrom(rank, e)
  }

  ghost function Set(entries: seq<KeyValue>): set<KeyValue> {
    set e | e in entries
  }

  // ----- The order -----

  /** InternalKeyComparator on the bytes is Compare on the decoded keys. */
  lemma OrderCarries(rank: Bytes -> UserKey, a: Bytes, b: Bytes)
    requires OrderPreserving(rank) && Parsable(a) && Parsable(b)
    ensures KeyLess(a, b) <==> Compare(Decoded(rank, a), Decoded(rank, b)) < 0
  {
    hide TagOf, Less, OrderPreserving;
    RankIsInjective(rank, UserPart(a), UserPart(b));
    RankOf(rank, UserPart(a), UserPart(b));
    TagIsBack(rank, a);
    TagIsBack(rank, b);
  }

  lemma RankOf(rank: Bytes -> UserKey, a: Bytes, b: Bytes)
    requires OrderPreserving(rank)
    ensures Less(a, b) <==> rank(a) < rank(b)
  {
  }

  lemma TagIsBack(rank: Bytes -> UserKey, k: Bytes)
    requires Parsable(k)
    ensures Tag(Decoded(rank, k)) == TagOf(k)
  {
    hide TagOf;
  }

  /** A sorted run of encoded entries is a sorted run of entries, if no two are the same version. */
  lemma RunCarries(rank: Bytes -> UserKey, entries: seq<KeyValue>)
    requires OrderPreserving(rank) && Blocks.SortedBy(entries, TableLayout.KEY_ORDER) && AllParsable(Set(entries))
    requires DistinctVersions(EntriesFrom(rank, Set(entries)))
    ensures Sorted(seq(|entries|, i requires 0 <= i < |entries| =>
      assert entries[i] in Set(entries); EntryFrom(rank, entries[i])))
  {
    hide TagOf, KeyLess, OrderPreserving, Decoded;
    forall i, j | 0 <= i < j < |entries|
      ensures IsKey(entries[i].key) && IsKey(entries[j].key)
      ensures Precedes(Decoded(rank, entries[i].key), Decoded(rank, entries[j].key))
    {
      var a, b := entries[i], entries[j];
      assert a in Set(entries) && b in Set(entries);
      OrderCarries(rank, a.key, b.key);
      assert EntryFrom(rank, a) in EntriesFrom(rank, Set(entries)) && EntryFrom(rank, b) in EntriesFrom(rank, Set(entries));
    }
  }

  // ----- Reads -----

  function LookupBytes(user: Bytes, snapshot: nat): (k: Bytes)
    ensures IsKey(k)
  {
    MakeKey(user, snapshot * 256 + 1)
  }

  /** A lookup sees an encoded entry just when the read sees the decoded one. */
  lemma SeesCarries(rank: Bytes -> UserKey, user: Bytes, snapshot: nat, e: KeyValue)
    requires OrderPreserving(rank) && snapshot <= MAX_SEQUENCE_NUMBER && Parsable(e.key)
    ensures TableLayout.Sees(LookupBytes(user, snapshot), e) <==> Visible(EntryFrom(rank, e), rank(user), snapshot)
  {
    hide TagOf, MakeKey, OrderPreserving;
    KeyParts(user, snapshot * 256 + 1);
    RankIsInjective(rank, UserPart(e.key), user);
  }

  lemma NewestCarries(rank: Bytes -> UserKey, entries: seq<KeyValue>, user: Bytes, snapshot: nat, r: KeyValue)
    requires OrderPreserving(rank) && snapshot <= MAX_SEQUENCE_NUMBER && AllParsable(Set(entries))
    requires TableLayout.IsNewest(entries, LookupBytes(user, snapshot), r)
    ensures Parsable(r.key) && NewestVisible(EntriesFrom(rank, Set(entries)), rank(user), snapshot, EntryFrom(rank, r))
  {
    hide TagOf, OrderPreserving, TableLayout.Sees, LookupBytes, UserPart;
    var all := EntriesFrom(rank, Set(entries));
    assert r in Set(entries);
    SeesCarries(rank, user, snapshot, r);
    forall x | x in all && Visible(x, rank(user), snapshot)
      ensures x.key.sequence <= EntryFrom(rank, r).key.sequence
    {
      var e :| e in Set(entries) && EntryFrom(rank, e) == x;
      SeesCarries(rank, user, snapshot, e);
    }
  }

  lemma NoneCarries(rank: Bytes -> UserKey, entries: seq<KeyValue>, user: Bytes, snapshot: nat)
    requires OrderPreserving(rank) && snapshot <= MAX_SEQUENCE_NUMBER && AllParsable(Set(entries))
    requires forall e :: e in entries ==> !TableLayout.Sees(LookupBytes(user, snapshot), e)
    ensures NoneVisible(EntriesFrom(rank, Set(entries)), rank(user), snapshot)
  {
    hide TagOf, OrderPreserving, TableLayout.Sees, LookupBytes, UserPart;
    forall x | x in EntriesFrom(rank, Set(entries))
      ensures !Visible(x, rank(user), snapshot)
    {
      var e :| e in Set(entries) && EntryFrom(rank, e) == x;
      SeesCarries(rank, user, snapshot, e);
    }
  }

  function ResultOf(r: MemTables.GetResult): Option<Bytes> {
    if r.Found? then Some(r.value) else None
  }

  /** What MemTable::Get answers on encoded entries is what a read of the entries must answer. */
  lemma MemTableAnswers(rank: Bytes -> UserKey, entries: seq<KeyValue>, user: Bytes, snapshot: nat, r: MemTables.GetResult)
    requires OrderPreserving(rank) && snapshot <= MAX_SEQUENCE_NUMBER && AllParsable(Set(entries))
    requires MemTables.IsGet(entries, LookupBytes(user, snapshot), r)
    ensures Reads(EntriesFrom(rank, Set(entries)), rank(user), snapshot, ResultOf(r))
  {
    hide TagOf, OrderPreserving, LookupBytes, UserPart;
    var k := LookupBytes(user, snapshot);
    if exists e :: e in entries && TableLayout.Sees(k, e) {
      var e :| TableLayout.IsNewest(entries, k, e) && r == MemTables.Answer(e);
      NewestCarries(rank, entries, user, snapshot, e);
    } else {
      NoneCarries(rank, entries, user, snapshot);
    }
  }

  /** What SaveValue makes of an entry that a table hands over. */
  function Saved(user: Bytes, handed: Option<KeyValue>): Option<Bytes> {
    if handed.Some? && IsKey(handed.value.key) && UserPart(handed.value.key) == user && TagOf(handed.value.key) % 256 == 1
    then Some(handed.value.value) else None
  }

  /** What Table::InternalGet hands over answers a read of the entries of the table. */
  lemma TableAnswers(rank: Bytes -> UserKey, entries: seq<KeyValue>, user: Bytes, snapshot: nat, handed: Option<KeyValue>)
    requires OrderPreserving(rank) && snapshot <= MAX_SEQUENCE_NUMBER && AllParsable(Set(entries))
    requires Tables.IsLookup(entries, LookupBytes(user, snapshot), handed)
    ensures Reads(EntriesFrom(rank, Set(entries)), rank(user), snapshot, Saved(user, handed))
  {
    hide TagOf, OrderPreserving, TableLayout.Sees, LookupBytes, TableLayout.IsNewest, MakeKey;
    LookupUser(user, snapshot);
    if handed.Some? && IsKey(handed.value.key) && UserPart(handed.value.key) == user {
      NewestCarries(rank, entries, user, snapshot, handed.value);
    } else {
      NoneCarries(rank, entries, user, snapshot);
    }
  }

  lemma LookupUser(user: Bytes, snapshot: nat)
    requires snapshot <= MAX_SEQUENCE_NUMBER
    ensures UserPart(LookupBytes(user, snapshot)) == user
  {
    hide MakeKey;
    KeyParts(user, snapshot * 256 + 1);
  }

  // ----- Writes -----

  function OperationOf(rank: Bytes -> UserKey, op: Op): Operation {
    Operation(rank(op.key), if op.Put? then Value else Deletion, ValueOf(op))
  }

  /** The entry that the engine adds for an operation. */
  function Written(rank: Bytes -> UserKey, op: Op, sequence: nat): Entry {
    Entry(Key(rank(op.key), sequence, if op.Put? then Value else Deletion), ValueOf(op))
  }

  lemma EntryCarries(rank: Bytes -> UserKey, op: Op, sequence: nat)
    requires sequence <= MAX_SEQUENCE_NUMBER
    ensures Parsable(EntryOf(op, sequence).key) && EntryFrom(rank, EntryOf(op, sequence)) == Written(rank, op, sequence)
  {
    hide TagOf, MakeKey;
    KeyParts(op.key, sequence * 256 + KindOf(op));
  }

  ghost function WrittenFrom(rank: Bytes -> UserKey, ops: seq<Op>, first: nat): set<Entry> {
    set i {:trigger ops[i]} | 0 <= i < |ops| :: Written(rank, ops[i], first + i)
  }

  lemma NumberedCarries(rank: Bytes -> UserKey, ops: seq<Op>, first: nat)
    requires first + |ops| <= MAX_SEQUENCE_NUMBER + 1
    ensures AllParsable(Numbered(ops, first)) && EntriesFrom(rank, Numbered(ops, first)) == WrittenFrom(rank, ops, first)
  {
    hide EntryOf, Parsable, EntryFrom, Written;
    forall i | 0 <= i < |ops|
      ensures Parsable(EntryOf(ops[i], first + i).key)
      ensures IsKey(EntryOf(ops[i], first + i).key) && EntryFrom(rank, EntryOf(ops[i], first + i)) == Written(rank, ops[i], first + i)
    {
      EntryCarries(rank, ops[i], first + i);
      ParsableIsKey(EntryOf(ops[i], first + i).key);
    }
    assert AllParsable(Numbered(ops, first));
    forall x
      ensures x in EntriesFrom(rank, Numbered(ops, first)) <==> x in WrittenFrom(rank, ops, first)
    {
      if x in EntriesFrom(rank, Numbered(ops, first)) {
        var e :| e in Numbered(ops, first) && EntryFrom(rank, e) == x;
        var i :| 0 <= i < |ops| && e == EntryOf(ops[i], first + i);
      }
      if x in WrittenFrom(rank, ops, first) {
        var i :| 0 <= i < |ops| && x == Written(rank, ops[i], first + i);
        assert EntryOf(ops[i], first + i) in Numbered(ops, first);
      }
    }
  }

  lemma ParsableIsKey(k: Bytes)
    requires Parsable(k)
    ensures IsKey(k)
  {
  }

  /** The actions of a group, one write for each operation. */
  function WritesOf(rank: Bytes -> UserKey, ops: seq<Op>): (r: seq<Action>)
    ensures |r| == |ops|
  {
    seq(|ops|, i requires 0 <= i < |ops| => AWrite(OperationOf(rank, ops[i])))
  }

  /** What a group of operations makes of a state. */
  ghost predicate IsAfterWrites(rank: Bytes -> UserKey, s: State, ops: seq<Op>, s': State) {
    var written := WrittenFrom(rank, ops, s.lastSequence + 1);
    && Elements(s'.mem) == Elements(s.mem) + written
    && s' == s.(mem := s'.mem, lastSequence := s.lastSequence + |ops|, history := s.history + written)
  }

  /** A group of operations is a run of single writes under consecutive sequence numbers. */
  lemma {:induction false} GroupIsRun(rank: Bytes -> UserKey, s: State, ops: seq<Op>) returns (states: seq<State>)
    requires Structured(s) && s.lastSequence + |ops| < MAX_SEQUENCE_NUMBER
    ensures Run(states, WritesOf(rank, ops)) && states[0] == s && IsAfterWrites(rank, s, ops, states[|ops|])
    ensures Structured(states[|ops|])
    decreases |ops|
  {
    hide Structured, OperationOf, Written, IsAfterWrites, Does;
    if ops == [] {
      states := [s];
      NoWrites(rank, s);
    } else {
      var n := |ops| - 1;
      var before := GroupIsRun(rank, s, ops[..n]);
      LastSequenceIs(rank, s, ops[..n], before[n]);
      var last := OneWrite(rank, before[n], ops[n]);
      states := before + [last];
      OneMoreWrite(rank, s, ops, before[n], last);
      RunGrows(before, WritesOf(rank, ops[..n]), last, AWrite(OperationOf(rank, ops[n])));
      assert WritesOf(rank, ops) == WritesOf(rank, ops[..n]) + [AWrite(OperationOf(rank, ops[n]))];
    }
  }

  lemma LastSequenceIs(rank: Bytes -> UserKey, s: State, ops: seq<Op>, s': State)
    requires IsAfterWrites(rank, s, ops, s')
    ensures s'.lastSequence == s.lastSequence + |ops|
  {
  }

  lemma NoWrites(rank: Bytes -> UserKey, s: State)
    ensures IsAfterWrites(rank, s, [], s)
  {
    assert WrittenFrom(rank, [], s.lastSequence + 1) == {};
  }

  lemma OneMoreWrite(rank: Bytes -> UserKey, s: State, ops: seq<Op>, mid: State, last: State)
    requires ops != [] && IsAfterWrites(rank, s, ops[..|ops| - 1], mid)
    requires var e := Written(rank, ops[|ops| - 1], mid.lastSequence + 1);
      && Elements(last.mem) == Elements(mid.mem) + {e}
      && last == mid.(mem := last.mem, lastSequence := mid.lastSequence + 1, history := mid.history + {e})
    ensures IsAfterWrites(rank, s, ops, last)
  {
    hide Written, WrittenFrom;
    WrittenGrows(rank, ops, s.lastSequence + 1);
  }

  lemma RunGrows(states: seq<State>, actions: seq<Action>, s: State, a: Action)
    requires Run(states, actions) && Does(states[|actions|], a, s)
    ensures Run(states + [s], actions + [a])
  {
    hide Does;
  }

  lemma WrittenGrows(rank: Bytes -> UserKey, ops: seq<Op>, first: nat)
    requires ops != []
    ensures var n := |ops| - 1;
      WrittenFrom(rank, ops, first) == WrittenFrom(rank, ops[..n], first) + {Written(rank, ops[n], first + n)}
  {
    hide Written;
    var n := |ops| - 1;
    forall i | 0 <= i < n
      ensures Written(rank, ops[i], first + i) in WrittenFrom(rank, ops[..n], first)
    {
      assert ops[..n][i] == ops[i];
    }
    forall x | x in WrittenFrom(rank, ops[..n], first)
      ensures x in WrittenFrom(rank, ops, first)
    {
      var i :| 0 <= i < n && x == Written(rank, ops[..n][i], first + i);
      assert ops[..n][i] == ops[i];
    }
  }

  lemma OneWrite(rank: Bytes -> UserKey, s: State, op: Op) returns (s': State)
    requires Structured(s) && s.lastSequence + 1 < MAX_SEQUENCE_NUMBER
    ensures Does(s, AWrite(OperationOf(rank, op)), s') && Structured(s')
    ensures var e := Written(rank, op, s.lastSequence + 1);
      && Elements(s'.mem) == Elements(s.mem) + {e}
      && s' == s.(mem := s'.mem, lastSequence := s.lastSequence + 1, history := s.history + {e})
  {
    var e := Written(rank, op, s.lastSequence + 1);
    assert forall x :: x in s.mem ==> x in AllEntries(s);
    var mem := InsertEntry(s.mem, e);
    s' := s.(mem := mem, lastSequence := s.lastSequence + 1, history := s.history + {e});
    assert Elements(mem) == Elements(s.mem) + {e};
    WriteKeeps(s, s', OperationOf(rank, op));
  }

  /** What the writers of a database have committed is the history of a run of the engine, from an
      empty one, that writes the operations of all batches in the order of the queue. */
  lemma CommitsAreWrites(rank: Bytes -> UserKey, db: GroupCommit.WriteQueue, s: State) returns (states: seq<State>)
    requires db.Inv() && db.c.Ok() && db.c.first == 1 && Initial(s)
    requires |GroupCommit.OpsOfAll(db.c.history[..db.AppliedRequests()])| < MAX_SEQUENCE_NUMBER
    ensures var ops := GroupCommit.OpsOfAll(db.c.history[..db.AppliedRequests()]);
      && Run(states, WritesOf(rank, ops)) && states[0] == s
      && AllParsable(db.sealed + db.mem.Contents())
      && states[|ops|].history == EntriesFrom(rank, db.sealed + db.mem.Contents())
      && states[|ops|].lastSequence == |ops|
  {
    hide Structured, Numbered, WritesOf, WrittenFrom, EntriesFrom, AllParsable, GroupCommit.OpsOfAll;
    var ops := GroupCommit.OpsOfAll(db.c.history[..db.AppliedRequests()]);
    assert s.lastSequence == 0 && s.history == {};
    InitialKeeps(s);
    assert Structured(s);
    states := GroupIsRun(rank, s, ops);
    db.AppliedInOrder();
    NumberedCarries(rank, ops, 1);
  }
}

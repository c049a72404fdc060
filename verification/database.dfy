/** The database as a state machine (db/db_impl.cc): writes, snapshots, memtable switches,
    flushes, moves and compactions; and exactly when a read answers from the history of all
    writes, whatever ran before. */
module Database {
  import opened InternalKey
  import opened Sequences
  import opened Version
  import opened Compactions
  import opened DropRules
  import opened VersionBuilder
  import opened VersionChanges

  datatype State = State(
    mem: seq<Entry>,            // the memtable, in internal-key order
    imm: Option<seq<Entry>>,    // the memtable being flushed
    levels: Levels,             // the current version
    nextFileNumber: nat,
    lastSequence: nat,
    snapshots: seq<nat>,        // live snapshots, oldest first
    history: set<Entry>,        // every entry ever written
    floor: nat                  // the largest smallest-snapshot any compaction has used
  )

  ghost function ImmEntries(s: State): set<Entry> {
    if s.imm.Some? then Elements(s.imm.value) else {}
  }

  ghost function AllEntries(s: State): set<Entry> {
    Elements(s.mem) + ImmEntries(s) + Contents(s.levels)
  }

  ghost predicate SequencesAtMost(entries: set<Entry>, n: nat) {
    forall e :: e in entries ==> e.key.sequence <= n
  }

  ghost predicate SnapshotsOk(s: State) {
    && (forall i, j :: 0 <= i < j < |s.snapshots| ==> s.snapshots[i] <= s.snapshots[j])
    && (forall i :: 0 <= i < |s.snapshots| ==> s.floor <= s.snapshots[i] <= s.lastSequence)
    && s.floor <= s.lastSequence
  }

  /** Each layer is in order and newer than the layers below it. */
  ghost predicate LayersOk(s: State) {
    && Sorted(s.mem) && (s.imm.Some? ==> Sorted(s.imm.value))
    && WellFormed(s.levels) && UniqueNumbers(s.levels) && NumbersBelow(s.levels, s.nextFileNumber)
    && Newer(Elements(s.mem), ImmEntries(s) + Contents(s.levels))
    && Newer(ImmEntries(s), Contents(s.levels))
  }

  ghost predicate HistoryOk(s: State) {
    && AllEntries(s) <= s.history
    && DistinctVersions(s.history)
    && SequencesAtMost(s.history, s.lastSequence)
    && s.lastSequence < MAX_SEQUENCE_NUMBER
  }

  /** Every read that may still be asked has the answer of the full history. */
  ghost predicate ReadsOk(s: State) {
    PreservesLiveReads(s.history, AllEntries(s), s.floor)
  }

  /** What every run keeps, whatever it compacts. */
  ghost predicate Structured(s: State) {
    SnapshotsOk(s) && LayersOk(s) && HistoryOk(s)
  }

  ghost predicate Invariant(s: State) {
    Structured(s) && ReadsOk(s)
  }

  ghost predicate Initial(s: State) {
    && s.mem == [] && s.imm == None && s.levels == seq(NUM_LEVELS, _ => []) && s.snapshots == []
    && s.lastSequence == 0 && s.history == {} && s.floor == 0
  }

  // ----- Actions -----

  datatype Operation = Operation(user: UserKey, kind: ValueType, value: Bytes)

  /** The place of a key in a memtable. */
  function InsertEntry(entries: seq<Entry>, e: Entry): (r: seq<Entry>)
    requires Sorted(entries)
    requires forall e' :: e' in entries && e'.key.user == e.key.user ==> e'.key.sequence < e.key.sequence
    ensures Sorted(r)
    ensures forall x :: x in r <==> x == e || x in entries
  {
    if entries == [] || Precedes(e.key, entries[0].key) then
      [e] + entries
    else
      assert entries == [entries[0]] + entries[1..];
      assert entries[0] in entries && Precedes(entries[0].key, e.key);
      var rest := InsertEntry(entries[1..], e);
      assert forall k :: 0 <= k < |rest| ==> rest[k] in rest;
      assert forall x :: x in entries[1..] ==> Precedes(entries[0].key, x.key);
      [entries[0]] + rest
  }

  ghost predicate Write(s: State, s': State, op: Operation) {
    var e := Entry(Key(op.user, s.lastSequence + 1, op.kind), op.value);
    && s.lastSequence + 1 < MAX_SEQUENCE_NUMBER
    && Sorted(s'.mem) && Elements(s'.mem) == Elements(s.mem) + {e}
    && s' == s.(mem := s'.mem, lastSequence := s.lastSequence + 1, history := s.history + {e})
  }

  ghost predicate SwitchMemTable(s: State, s': State) {
    s.imm.None? && s' == s.(mem := [], imm := Some(s.mem))
  }

  ghost predicate FlushEmpty(s: State, s': State) {
    s.imm == Some([]) && s' == s.(imm := None)
  }

  ghost predicate Flush(s: State, s': State, level: nat, f: File) {
    && s.imm.Some? && f.entries == s.imm.value && s.nextFileNumber <= f.number < s'.nextFileNumber
    && |s.levels| == NUM_LEVELS && MayPlace(s.levels, level, f)
    && Placed(s.levels, level, f, s'.levels)
    && s' == s.(imm := None, levels := s'.levels, nextFileNumber := s'.nextFileNumber)
  }

  ghost predicate Move(s: State, s': State, level: nat, f: File) {
    && |s.levels| == NUM_LEVELS && level + 1 < NUM_LEVELS && GoodInputs(s.levels, level, [f], [])
    && PushedDown(s.levels, level, [f], [], [f], s'.levels)
    && s' == s.(levels := s'.levels)
  }

  function SmallestSnapshot(s: State): nat {
    if s.snapshots == [] then s.lastSequence else s.snapshots[0]
  }

  /** The merged input of a compaction. */
  ghost predicate IsMergeOf(input: seq<Entry>, files: seq<File>) {
    && Sorted(input)
    && (forall e :: e in input <==> exists f :: f in files && e in f.entries)
  }

  function EntriesOf(outputs: seq<File>): (r: seq<seq<Entry>>)
    ensures |r| == |outputs| && forall i :: 0 <= i < |r| ==> r[i] == outputs[i].entries
  {
    seq(|outputs|, i requires 0 <= i < |outputs| => outputs[i].entries)
  }

  /** The outputs have numbers that no file has; others may have been used up meanwhile. */
  ghost predicate NewNumbers(s: State, outputs: seq<File>, next: nat) {
    && s.nextFileNumber <= next && DistinctNumbers(outputs)
    && (forall o :: o in outputs ==> o.number < next)
    && (forall o, l, f :: o in outputs && At(s.levels, l, f) ==> f.number != o.number)
  }

  /** No file of the next level continues the last user key of the inputs taken from it.  The
      code makes sure of this for the level itself, but not for the next level. */
  ghost predicate NextIsClosed(next: seq<File>, inputs1: seq<File>) {
    inputs1 == [] || NoBoundaryLeft(next, inputs1)
  }

  /** A compaction that ends in state `s`; `smallest` was the smallest snapshot when it began. */
  ghost predicate Compact(s: State, s': State, level: nat, inputs0: seq<File>, inputs1: seq<File>,
                          input: seq<Entry>, outputs: seq<File>, smallest: nat) {
    && |s.levels| == NUM_LEVELS && level + 1 < NUM_LEVELS && Takes(s.levels, level, inputs0, inputs1)
    && IsMergeOf(input, inputs0 + inputs1) && s.floor <= smallest <= SmallestSnapshot(s)
    && Flatten(EntriesOf(outputs)) == Survivors(s.levels, level, input, smallest)
    && Fit(s.levels[level + 1], inputs1, outputs) && NewNumbers(s, outputs, s'.nextFileNumber)
    && PushedDown(s.levels, level, inputs0, inputs1, outputs, s'.levels)
    && s' == s.(levels := s'.levels, nextFileNumber := s'.nextFileNumber, floor := smallest)
  }

  ghost predicate TakeSnapshot(s: State, s': State) {
    s' == s.(snapshots := s.snapshots + [s.lastSequence])
  }

  ghost predicate ReleaseSnapshot(s: State, s': State, i: nat) {
    i < |s.snapshots| && s' == s.(snapshots := s.snapshots[..i] + s.snapshots[i + 1..])
  }

  datatype Action =
    | AWrite(op: Operation)
    | ASwitchMemTable
    | AFlushEmpty
    | AFlush(level: nat, file: File)
    | AMove(level: nat, file: File)
    | ACompact(level: nat, inputs0: seq<File>, inputs1: seq<File>, input: seq<Entry>, outputs: seq<File>, smallest: nat)
    | ATakeSnapshot
    | AReleaseSnapshot(i: nat)

  ghost predicate Does(s: State, a: Action, s': State) {
    match a
    case AWrite(op) => Write(s, s', op)
    case ASwitchMemTable => SwitchMemTable(s, s')
    case AFlushEmpty => FlushEmpty(s, s')
    case AFlush(level, f) => Flush(s, s', level, f)
    case AMove(level, f) => Move(s, s', level, f)
    case ACompact(level, inputs0, inputs1, input, outputs, smallest) =>
      Compact(s, s', level, inputs0, inputs1, input, outputs, smallest)
    case ATakeSnapshot => TakeSnapshot(s, s')
    case AReleaseSnapshot(i) => ReleaseSnapshot(s, s', i)
  }

  /** Compactions that take all that their inputs meet in the next level, and leave it closed. */
  ghost predicate Closing(s: State, a: Action) {
    a.ACompact? ==>
      && a.level + 1 < |s.levels| && MeetsHull(s.levels[a.level + 1], a.inputs0, a.inputs1)
      && NextIsClosed(s.levels[a.level + 1], a.inputs1)
  }

  ghost predicate Run(states: seq<State>, actions: seq<Action>) {
    && |states| == |actions| + 1
    && (forall i :: 0 <= i < |actions| ==> Does(states[i], actions[i], states[i + 1]))
  }

  /** Every flush of the run is placed as PickLevelForMemTableOutput says. */
  ghost predicate AsPicked(states: seq<State>, actions: seq<Action>, maxGrandParentOverlapBytes: nat) {
    && |states| == |actions| + 1
    && forall i :: 0 <= i < |actions| && actions[i].AFlush? ==>
         && |states[i].levels| == NUM_LEVELS
         && IsPicked(states[i].levels, actions[i].file.Smallest().user, actions[i].file.Largest().user,
                     maxGrandParentOverlapBytes, actions[i].level)
  }

  // ----- Each action keeps the invariant -----

  lemma InContents(v: Levels, l: nat, f: File, e: Entry)
    requires l < |v| && f in v[l] && e in f.entries
    ensures e in Contents(v)
  {
  }

  lemma InitialKeeps(s: State)
    requires Initial(s)
    ensures Invariant(s)
  {
    assert AllEntries(s) == {};
  }

  lemma WriteKeeps(s: State, s': State, op: Operation)
    requires Structured(s) && Write(s, s', op)
    ensures Structured(s') && (ReadsOk(s) ==> ReadsOk(s'))
  {
    var e := Entry(Key(op.user, s.lastSequence + 1, op.kind), op.value);
    assert AllEntries(s') == AllEntries(s) + {e};
    if ReadsOk(s) {
      forall user, snapshot, r | s.floor <= snapshot
        ensures Reads(s'.history, user, snapshot, r) <==> Reads(AllEntries(s'), user, snapshot, r)
      {
        assert Newer({e}, s.history) && Newer({e}, AllEntries(s));
        assert s.history + {e} == {e} + s.history && AllEntries(s) + {e} == {e} + AllEntries(s);
        ReadNewerFirst({e}, s.history, user, snapshot, r);
        ReadNewerFirst({e}, AllEntries(s), user, snapshot, r);
        assert Reads(s.history, user, snapshot, r) <==> Reads(AllEntries(s), user, snapshot, r);
      }
    }
  }

  lemma SwitchMemTableKeeps(s: State, s': State)
    requires Structured(s) && SwitchMemTable(s, s')
    ensures Structured(s') && (ReadsOk(s) ==> ReadsOk(s'))
  {
    assert AllEntries(s') == AllEntries(s);
  }

  lemma FlushEmptyKeeps(s: State, s': State)
    requires Structured(s) && FlushEmpty(s, s')
    ensures Structured(s') && (ReadsOk(s) ==> ReadsOk(s'))
  {
    assert AllEntries(s') == AllEntries(s);
  }

  lemma FlushedContents(s: State, s': State, level: nat, f: File)
    requires Flush(s, s', level, f)
    ensures Contents(s'.levels) == Contents(s.levels) + Elements(f.entries)
  {
    forall e | e in Contents(s.levels) + Elements(f.entries)
      ensures e in Contents(s'.levels)
    {
      if e in f.entries {
        assert f in s'.levels[level];
      } else {
        var l, g :| 0 <= l < NUM_LEVELS && g in s.levels[l] && e in g.entries;
        assert g in s'.levels[l];
      }
    }
  }

  lemma FlushedIsAbove(s: State, f: File)
    requires LayersOk(s) && s.imm.Some? && f.entries == s.imm.value
    ensures forall l, g :: 0 <= l < NUM_LEVELS && g in s.levels[l] ==> Above(f, g)
  {
    forall l, g, e, e' | 0 <= l < NUM_LEVELS && g in s.levels[l] && e in f.entries && e' in g.entries
                         && e.key.user == e'.key.user
      ensures e.key.sequence > e'.key.sequence
    {
      InContents(s.levels, l, g, e');
      assert e in ImmEntries(s);
    }
  }

  lemma FlushedNumbers(s: State, s': State, level: nat, f: File)
    requires UniqueNumbers(s.levels) && NumbersBelow(s.levels, s.nextFileNumber) && Flush(s, s', level, f)
    ensures UniqueNumbers(s'.levels) && NumbersBelow(s'.levels, s'.nextFileNumber)
  {
    forall l, g | At(s'.levels, l, g)
      ensures At(s.levels, l, g) || (g == f && l == level)
    {
    }
  }

  lemma FlushKeeps(s: State, s': State, level: nat, f: File)
    requires Structured(s) && Flush(s, s', level, f)
    ensures Structured(s') && (ReadsOk(s) ==> ReadsOk(s'))
  {
    FlushedContents(s, s', level, f);
    assert AllEntries(s') == AllEntries(s);
    FlushedIsAbove(s, f);
    FlushedNumbers(s, s', level, f);
    PlacedIsWellFormed(s.levels, level, f, s'.levels);
    SameEntriesKeep(s, s');
  }

  /** The entries of files that a compaction does not read. */
  ghost function Untouched(v: Levels, level: nat, inputs0: seq<File>, inputs1: seq<File>): set<Entry>
    requires |v| == NUM_LEVELS
  {
    set l, f, e | 0 <= l < NUM_LEVELS && f in v[l] && !(l == level && f in inputs0) && !(l == level + 1 && f in inputs1)
                  && e in f.entries :: e
  }

  ghost function EntriesIn(files: seq<File>): set<Entry> {
    set f, e | f in files && e in f.entries :: e
  }

  lemma ContentsSplit(v: Levels, level: nat, inputs0: seq<File>, inputs1: seq<File>)
    requires |v| == NUM_LEVELS && level + 1 < NUM_LEVELS && Takes(v, level, inputs0, inputs1)
    ensures Contents(v) == Untouched(v, level, inputs0, inputs1) + EntriesIn(inputs0 + inputs1)
  {
    forall e | e in Contents(v)
      ensures e in Untouched(v, level, inputs0, inputs1) + EntriesIn(inputs0 + inputs1)
    {
      var l, f :| 0 <= l < NUM_LEVELS && f in v[l] && e in f.entries;
      if f in inputs0 || f in inputs1 {
        assert f in inputs0 + inputs1;
      }
    }
    forall e | e in EntriesIn(inputs0 + inputs1)
      ensures e in Contents(v)
    {
      var f :| f in inputs0 + inputs1 && e in f.entries;
      assert f in v[level] || f in v[level + 1];
    }
  }

  lemma PushedContains(v: Levels, level: nat, inputs0: seq<File>, inputs1: seq<File>, outputs: seq<File>, v': Levels,
                       e: Entry)
    requires |v| == |v'| == NUM_LEVELS && level + 1 < NUM_LEVELS
    requires forall l :: 0 <= l < NUM_LEVELS && l != level && l != level + 1 ==> v'[l] == v[l]
    requires forall f :: f in v'[level] <==> f in v[level] && f !in inputs0
    requires forall f :: f in v'[level + 1] <==> (f in v[level + 1] && f !in inputs1) || f in outputs
    ensures e in Contents(v') <==> e in Untouched(v, level, inputs0, inputs1) || e in EntriesIn(outputs)
  {
    if e in Contents(v') {
      var l, f :| 0 <= l < NUM_LEVELS && f in v'[l] && e in f.entries;
    }
    if e in EntriesIn(outputs) {
      var o :| o in outputs && e in o.entries;
      InContents(v', level + 1, o, e);
    }
    if e in Untouched(v, level, inputs0, inputs1) {
      var l, f :| 0 <= l < NUM_LEVELS && f in v[l] && !(l == level && f in inputs0) && !(l == level + 1 && f in inputs1)
                  && e in f.entries;
      InContents(v', l, f, e);
    }
  }

  lemma ContentsPushed(v: Levels, level: nat, inputs0: seq<File>, inputs1: seq<File>, outputs: seq<File>, v': Levels)
    requires WellFormed(v) && level + 1 < NUM_LEVELS && Takes(v, level, inputs0, inputs1)
    requires GoodOutputs(v, level, inputs0, inputs1, outputs)
    requires PushedDown(v, level, inputs0, inputs1, outputs, v')
    ensures Contents(v') == Untouched(v, level, inputs0, inputs1) + EntriesIn(outputs)
  {
    PushedFiles(v, level, inputs0, inputs1, outputs, v');
    forall e
      ensures e in Contents(v') <==> e in Untouched(v, level, inputs0, inputs1) + EntriesIn(outputs)
    {
      PushedContains(v, level, inputs0, inputs1, outputs, v', e);
    }
  }

  /** An output may share its number only with an input that it replaces. */
  ghost predicate NumbersFree(v: Levels, level: nat, inputs0: seq<File>, outputs: seq<File>) {
    forall o, l, f :: o in outputs && At(v, l, f) && f.number == o.number ==> l == level && f in inputs0
  }

  lemma PushedNumbers(v: Levels, level: nat, inputs0: seq<File>, inputs1: seq<File>, outputs: seq<File>, v': Levels, n: nat)
    requires |v| == |v'| == NUM_LEVELS && level + 1 < NUM_LEVELS
    requires UniqueNumbers(v) && NumbersBelow(v, n) && NumbersFree(v, level, inputs0, outputs)
    requires DistinctNumbers(outputs) && forall o :: o in outputs ==> o.number < n
    requires forall l :: 0 <= l < NUM_LEVELS && l != level && l != level + 1 ==> v'[l] == v[l]
    requires forall f :: f in v'[level] <==> f in v[level] && f !in inputs0
    requires forall f :: f in v'[level + 1] <==> (f in v[level + 1] && f !in inputs1) || f in outputs
    ensures UniqueNumbers(v') && NumbersBelow(v', n)
  {
    forall l, f | At(v', l, f)
      ensures At(v, l, f) || (f in outputs && l == level + 1)
      ensures f in outputs ==> l == level + 1
    {
    }
    forall l, l', f, g | At(v', l, f) && At(v', l', g) && f.number == g.number
      ensures l == l' && f == g
    {
      if f in outputs && g in outputs {
        SameNumber(outputs, f, g);
      }
    }
  }

  // ----- Moves and compactions -----

  /** What no action may touch outside the two levels. */
  ghost predicate SameLayers(s: State, s': State) {
    s'.mem == s.mem && s'.imm == s.imm && s'.snapshots == s.snapshots && s'.history == s.history
    && s'.lastSequence == s.lastSequence
  }

  lemma PushedKeepsLayers(s: State, s': State, level: nat, inputs0: seq<File>, inputs1: seq<File>, outputs: seq<File>)
    requires LayersOk(s) && SameLayers(s, s') && level + 1 < NUM_LEVELS
    requires Takes(s.levels, level, inputs0, inputs1)
    requires GoodOutputs(s.levels, level, inputs0, inputs1, outputs)
    requires PushedDown(s.levels, level, inputs0, inputs1, outputs, s'.levels)
    requires NumbersFree(s.levels, level, inputs0, outputs)
    requires s'.nextFileNumber >= s.nextFileNumber && forall o :: o in outputs ==> o.number < s'.nextFileNumber
    requires EntriesIn(outputs) <= EntriesIn(inputs0 + inputs1)
    ensures LayersOk(s')
    ensures Contents(s'.levels) <= Contents(s.levels)
  {
    PushedDownIsWellFormed(s.levels, level, inputs0, inputs1, outputs, s'.levels);
    PushedFiles(s.levels, level, inputs0, inputs1, outputs, s'.levels);
    PushedNumbers(s.levels, level, inputs0, inputs1, outputs, s'.levels, s'.nextFileNumber);
    ContentsPushed(s.levels, level, inputs0, inputs1, outputs, s'.levels);
    ContentsSplit(s.levels, level, inputs0, inputs1);
  }

  lemma MovedFile(v: Levels, level: nat, f: File)
    requires WellFormed(v) && level + 1 < NUM_LEVELS && UniqueNumbers(v) && GoodInputs(v, level, [f], [])
    ensures f in v[level] && Takes(v, level, [f], []) && GoodOutputs(v, level, [f], [], [f])
    ensures NumbersFree(v, level, [f], [f])
    ensures EntriesIn([f]) == EntriesIn([f] + [])
  {
    assert f in [f] && At(v, level, f);
    assert [f] + [] == [f];
    ChosenInputsFit(v, level, [f], [], [f]);
    forall g | g in v[level + 1]
      ensures g.number != f.number
    {
      assert At(v, level + 1, g);
    }
  }

  lemma MovedLayers(s: State, s': State, level: nat, f: File)
    requires LayersOk(s) && Move(s, s', level, f)
    ensures LayersOk(s') && Contents(s'.levels) == Contents(s.levels)
  {
    MovedFile(s.levels, level, f);
    assert At(s.levels, level, f);
    PushedKeepsLayers(s, s', level, [f], [], [f]);
    MovedContents(s.levels, level, f, s'.levels);
  }

  lemma MoveKeeps(s: State, s': State, level: nat, f: File)
    requires Structured(s) && Move(s, s', level, f)
    ensures Structured(s') && (ReadsOk(s) ==> ReadsOk(s'))
  {
    MovedLayers(s, s', level, f);
    SameEntriesKeep(s, s');
  }

  /** A change of layers that keeps all entries keeps the invariant. */
  lemma SameEntriesKeep(s: State, s': State)
    requires Structured(s) && LayersOk(s') && AllEntries(s') == AllEntries(s)
    requires s'.snapshots == s.snapshots && s'.history == s.history
    requires s'.lastSequence == s.lastSequence && s'.floor == s.floor
    ensures Structured(s') && (ReadsOk(s) ==> ReadsOk(s'))
  {
  }

  lemma MovedContents(v: Levels, level: nat, f: File, v': Levels)
    requires WellFormed(v) && UniqueNumbers(v) && level + 1 < NUM_LEVELS && GoodInputs(v, level, [f], [])
    requires PushedDown(v, level, [f], [], [f], v')
    ensures Contents(v') == Contents(v)
  {
    MovedFile(v, level, f);
    ContentsPushed(v, level, [f], [], [f], v');
    ContentsSplit(v, level, [f], []);
  }

  lemma {:induction false} FlattenElements(outputs: seq<seq<Entry>>, e: Entry)
    ensures e in Flatten(outputs) <==> exists i :: 0 <= i < |outputs| && e in outputs[i]
  {
    if outputs != [] {
      var n := |outputs| - 1;
      FlattenElements(outputs[..n], e);
    }
  }

  lemma {:induction false} FlattenOrder(outputs: seq<seq<Entry>>, i: nat, j: nat, e: Entry, e': Entry)
    requires Sorted(Flatten(outputs)) && i < j < |outputs| && e in outputs[i] && e' in outputs[j]
    ensures Precedes(e.key, e'.key)
  {
    var n := |outputs| - 1;
    var front, last := Flatten(outputs[..n]), outputs[n];
    assert Flatten(outputs) == front + last;
    if j < n {
      assert forall a, b :: 0 <= a < b < |front| ==> Flatten(outputs)[a] == front[a] && Flatten(outputs)[b] == front[b];
      FlattenOrder(outputs[..n], i, j, e, e');
    } else {
      assert e in outputs[..n][i];
      FlattenElements(outputs[..n], e);
      var a :| 0 <= a < |front| && front[a] == e;
      var b :| 0 <= b < |last| && last[b] == e';
      assert Flatten(outputs)[a] == e && Flatten(outputs)[|front| + b] == e';
    }
  }

  /** Output files cut from a sorted stream are ordered and disjoint. */
  lemma CutsAreOrdered(outputs: seq<File>)
    requires Sorted(Flatten(EntriesOf(outputs)))
    ensures Ordered(outputs)
  {
    forall i, j | 0 <= i < j < |outputs|
      ensures Precedes(outputs[i].Largest(), outputs[j].Smallest())
    {
      var f, g := outputs[i], outputs[j];
      FlattenOrder(EntriesOf(outputs), i, j, f.entries[|f.entries| - 1], g.entries[0]);
    }
  }

  lemma CutsKeepEntries(outputs: seq<File>)
    ensures EntriesIn(outputs) == Elements(Flatten(EntriesOf(outputs)))
  {
    forall e
      ensures e in EntriesIn(outputs) <==> e in Flatten(EntriesOf(outputs))
    {
      FlattenElements(EntriesOf(outputs), e);
      if e in EntriesIn(outputs) {
        var f :| f in outputs && e in f.entries;
        var i :| 0 <= i < |outputs| && outputs[i] == f;
        assert e in EntriesOf(outputs)[i];
      }
    }
  }

  lemma MergedElements(input: seq<Entry>, files: seq<File>)
    requires IsMergeOf(input, files)
    ensures EntriesIn(files) == Elements(input)
  {
  }

  lemma FreshOutputs(s: State, level: nat, inputs0: seq<File>, inputs1: seq<File>, outputs: seq<File>, next: nat)
    requires |s.levels| == NUM_LEVELS && level + 1 < NUM_LEVELS && NewNumbers(s, outputs, next)
    requires Fit(s.levels[level + 1], inputs1, outputs)
    requires Sorted(Flatten(EntriesOf(outputs))) && EntriesIn(outputs) <= EntriesIn(inputs0 + inputs1)
    ensures GoodOutputs(s.levels, level, inputs0, inputs1, outputs)
    ensures NumbersFree(s.levels, level, inputs0, outputs)
  {
    CutsAreOrdered(outputs);
    forall o, e | o in outputs && e in o.entries
      ensures exists f :: f in inputs0 + inputs1 && e in f.entries
    {
      assert e in EntriesIn(outputs);
    }
    forall o, g | o in outputs && g in s.levels[level + 1]
      ensures o.number != g.number
    {
      assert At(s.levels, level + 1, g);
    }
  }

  lemma CompactionOutputs(v: Levels, level: nat, inputs0: seq<File>, inputs1: seq<File>,
                          input: seq<Entry>, outputs: seq<File>, smallestSnapshot: nat)
    requires |v| == NUM_LEVELS && IsMergeOf(input, inputs0 + inputs1)
    requires Flatten(EntriesOf(outputs)) == Survivors(v, level, input, smallestSnapshot)
    ensures EntriesIn(outputs) == Elements(Survivors(v, level, input, smallestSnapshot))
    ensures EntriesIn(inputs0 + inputs1) == Elements(input)
    ensures EntriesIn(outputs) <= EntriesIn(inputs0 + inputs1)
    ensures Sorted(Flatten(EntriesOf(outputs)))
  {
    SurvivorsAreSorted(v, level, input, smallestSnapshot);
    SurvivorsAreInputs(v, level, input, smallestSnapshot);
    CutsKeepEntries(outputs);
    MergedElements(input, inputs0 + inputs1);
  }

  // ----- What a compaction leaves alone is newer -----

  lemma LeftInNextIsNewer(next: seq<File>, inputs0: seq<File>, inputs1: seq<File>, f: File, g: File)
    requires Ordered(next) && MeetsHull(next, inputs0, inputs1) && NextIsClosed(next, inputs1)
    requires f in inputs0 || f in inputs1
    requires g in next && g !in inputs1
    ensures Above(g, f)
  {
    if f in inputs0 {
      HullMisses(next, inputs0, inputs1, f, g);
    } else {
      NextIsIsolated(next, inputs0, inputs1);
    }
  }

  lemma HullMisses(next: seq<File>, inputs0: seq<File>, inputs1: seq<File>, f: File, g: File)
    requires MeetsHull(next, inputs0, inputs1) && f in inputs0 && g in next && g !in inputs1
    ensures Above(g, f)
  {
    var lo, hi :| IsSmallest(inputs0, lo) && IsLargest(inputs0, hi)
                  && inputs1 == Overlapping(next, Some(lo.user), Some(hi.user));
    assert Compare(f.Smallest(), lo) >= 0 && Compare(f.Largest(), hi) <= 0;
    assert Inside(f, Some(lo.user), Some(hi.user));
    NothingShared(f, g, Some(lo.user), Some(hi.user));
  }

  lemma NextIsIsolated(next: seq<File>, inputs0: seq<File>, inputs1: seq<File>)
    requires Ordered(next) && MeetsHull(next, inputs0, inputs1) && NoBoundaryLeft(next, inputs1)
    ensures Isolated(next, inputs1)
  {
    var lo, hi :| IsSmallest(inputs0, lo) && IsLargest(inputs0, hi)
                  && inputs1 == Overlapping(next, Some(lo.user), Some(hi.user));
    OverlappingIsInterval(next, Some(lo.user), Some(hi.user));
    ClosedIntervalIsIsolated(next, inputs1);
  }

  lemma LeftDeepIsElsewhere(v: Levels, level: nat, e: Entry, l: nat, g: File, o: Entry)
    requires |v| == NUM_LEVELS && BaseLevel(v, level, e.key.user)
    requires level + 2 <= l < NUM_LEVELS && g in v[l] && o in g.entries
    ensures o.key.user != e.key.user
  {
    EntryInRange(g, o);
    assert !Covers(v[l], e.key.user);
  }

  /** Where an older entry that a compaction leaves alone can be: nowhere. */
  lemma LeftIsNewer(v: Levels, level: nat, inputs0: seq<File>, inputs1: seq<File>, f: File, e: Entry,
                    l: nat, g: File, o: Entry)
    requires WellFormed(v) && level + 1 < NUM_LEVELS
    requires Isolated(v[level], inputs0) && MeetsHull(v[level + 1], inputs0, inputs1)
    requires NextIsClosed(v[level + 1], inputs1) && BaseLevel(v, level, e.key.user)
    requires (f in inputs0 && f in v[level]) || (f in inputs1 && f in v[level + 1])
    requires e in f.entries
    requires l < NUM_LEVELS && g in v[l] && !(l == level && g in inputs0) && !(l == level + 1 && g in inputs1)
    requires o in g.entries && o.key.user == e.key.user
    ensures o.key.sequence > e.key.sequence
  {
    if l <= level {
      LeftShallowIsNewer(v, level, inputs0, inputs1, f, l, g);
    } else if l == level + 1 {
      var next := v[level + 1];
      assert g in next;
      LeftInNextIsNewer(next, inputs0, inputs1, f, g);
    } else {
      LeftDeepIsElsewhere(v, level, e, l, g, o);
    }
  }

  lemma InputFile(v: Levels, level: nat, inputs0: seq<File>, inputs1: seq<File>, input: seq<Entry>, i: nat)
    returns (f: File)
    requires |v| == NUM_LEVELS && level + 1 < NUM_LEVELS && Takes(v, level, inputs0, inputs1)
    requires IsMergeOf(input, inputs0 + inputs1) && i < |input|
    ensures (f in inputs0 && f in v[level]) || (f in inputs1 && f in v[level + 1])
    ensures input[i] in f.entries
  {
    assert input[i] in input;
    f :| f in inputs0 + inputs1 && input[i] in f.entries;
  }

  ghost function Outside(s: State, level: nat, inputs0: seq<File>, inputs1: seq<File>): set<Entry>
    requires |s.levels| == NUM_LEVELS
  {
    Elements(s.mem) + ImmEntries(s) + Untouched(s.levels, level, inputs0, inputs1)
  }

  /** When the next level is closed, a compaction brings nothing back. */
  lemma NothingResurrects(s: State, level: nat, inputs0: seq<File>, inputs1: seq<File>, input: seq<Entry>, i: nat,
                          smallest: nat)
    requires LayersOk(s) && level + 1 < NUM_LEVELS && Takes(s.levels, level, inputs0, inputs1)
    requires MeetsHull(s.levels[level + 1], inputs0, inputs1) && NextIsClosed(s.levels[level + 1], inputs1)
    requires IsMergeOf(input, inputs0 + inputs1) && i < |input|
    ensures !Resurrects(s.levels, level, Outside(s, level, inputs0, inputs1), input, i, smallest)
  {
    var f := InputFile(s.levels, level, inputs0, inputs1, input, i);
    if Obsolete(s.levels, level, input[i], smallest) {
      forall o | o in Outside(s, level, inputs0, inputs1) && o.key.user == input[i].key.user
        ensures o.key.sequence > input[i].key.sequence
      {
        OutsideIsNewer(s, level, inputs0, inputs1, f, input[i], o);
      }
    }
  }

  lemma OutsideIsNewer(s: State, level: nat, inputs0: seq<File>, inputs1: seq<File>, f: File, e: Entry, o: Entry)
    requires LayersOk(s) && level + 1 < NUM_LEVELS
    requires Isolated(s.levels[level], inputs0) && MeetsHull(s.levels[level + 1], inputs0, inputs1)
    requires NextIsClosed(s.levels[level + 1], inputs1) && BaseLevel(s.levels, level, e.key.user)
    requires (f in inputs0 && f in s.levels[level]) || (f in inputs1 && f in s.levels[level + 1])
    requires e in f.entries
    requires o in Outside(s, level, inputs0, inputs1) && o.key.user == e.key.user
    ensures o.key.sequence > e.key.sequence
  {
    if o in Untouched(s.levels, level, inputs0, inputs1) {
      var l, g :| 0 <= l < NUM_LEVELS && g in s.levels[l] && !(l == level && g in inputs0)
                  && !(l == level + 1 && g in inputs1) && o in g.entries;
      LeftIsNewer(s.levels, level, inputs0, inputs1, f, e, l, g, o);
    } else {
      assert e in Contents(s.levels);
    }
  }

  lemma CompactedLayers(s: State, s': State, level: nat, inputs0: seq<File>, inputs1: seq<File>,
                        input: seq<Entry>, outputs: seq<File>, smallest: nat)
    requires LayersOk(s) && Compact(s, s', level, inputs0, inputs1, input, outputs, smallest)
    ensures LayersOk(s') && Contents(s'.levels) <= Contents(s.levels)
  {
    CompactionOutputs(s.levels, level, inputs0, inputs1, input, outputs, smallest);
    FreshOutputs(s, level, inputs0, inputs1, outputs, s'.nextFileNumber);
    PushedKeepsLayers(s, s', level, inputs0, inputs1, outputs);
  }

  lemma CompactedContents(s: State, s': State, level: nat, inputs0: seq<File>, inputs1: seq<File>,
                          input: seq<Entry>, outputs: seq<File>, smallest: nat)
    requires LayersOk(s) && Compact(s, s', level, inputs0, inputs1, input, outputs, smallest)
    ensures Contents(s.levels) == Untouched(s.levels, level, inputs0, inputs1) + Elements(input)
    ensures Contents(s'.levels) == Untouched(s.levels, level, inputs0, inputs1)
                                   + Elements(Survivors(s.levels, level, input, smallest))
  {
    CompactionOutputs(s.levels, level, inputs0, inputs1, input, outputs, smallest);
    FreshOutputs(s, level, inputs0, inputs1, outputs, s'.nextFileNumber);
    ContentsPushed(s.levels, level, inputs0, inputs1, outputs, s'.levels);
    ContentsSplit(s.levels, level, inputs0, inputs1);
  }

  lemma CompactedEntries(s: State, s': State, level: nat, inputs0: seq<File>, inputs1: seq<File>,
                         input: seq<Entry>, outputs: seq<File>, smallest: nat)
    requires LayersOk(s) && Compact(s, s', level, inputs0, inputs1, input, outputs, smallest)
    ensures AllEntries(s) == Outside(s, level, inputs0, inputs1) + Elements(input)
    ensures AllEntries(s') == Outside(s, level, inputs0, inputs1)
                              + Elements(Survivors(s.levels, level, input, smallest))
  {
    CompactedContents(s, s', level, inputs0, inputs1, input, outputs, smallest);
    var upper, rest := Elements(s.mem) + ImmEntries(s), Untouched(s.levels, level, inputs0, inputs1);
    Regroup(upper, rest, Elements(input));
    Regroup(upper, rest, Elements(Survivors(s.levels, level, input, smallest)));
  }

  lemma Regroup(a: set<Entry>, b: set<Entry>, c: set<Entry>)
    ensures a + (b + c) == a + b + c
  {
  }

  /** One compaction of any reachable state keeps every live read exactly when no dropped
      deletion was hiding an older value left outside the inputs. */
  lemma CompactionPreservesReadsIff(s: State, s': State, level: nat, inputs0: seq<File>, inputs1: seq<File>,
                                    input: seq<Entry>, outputs: seq<File>, smallest: nat)
    requires LayersOk(s) && HistoryOk(s) && Compact(s, s', level, inputs0, inputs1, input, outputs, smallest)
    ensures PreservesLiveReads(AllEntries(s), AllEntries(s'), smallest)
       <==> forall i :: 0 <= i < |input| ==>
              !Resurrects(s.levels, level, Outside(s, level, inputs0, inputs1), input, i, smallest)
  {
    CompactedEntries(s, s', level, inputs0, inputs1, input, outputs, smallest);
    LiveReadsPreservedIff(s.levels, level, Outside(s, level, inputs0, inputs1), input, smallest);
  }

  lemma CompactKeepsStructure(s: State, s': State, level: nat, inputs0: seq<File>, inputs1: seq<File>,
                              input: seq<Entry>, outputs: seq<File>, smallest: nat)
    requires Structured(s) && Compact(s, s', level, inputs0, inputs1, input, outputs, smallest)
    ensures Structured(s')
  {
    CompactedLayers(s, s', level, inputs0, inputs1, input, outputs, smallest);
  }

  lemma CompactKeepsReads(s: State, s': State, level: nat, inputs0: seq<File>, inputs1: seq<File>,
                          input: seq<Entry>, outputs: seq<File>, smallest: nat)
    requires Invariant(s) && Compact(s, s', level, inputs0, inputs1, input, outputs, smallest)
    requires MeetsHull(s.levels[level + 1], inputs0, inputs1) && NextIsClosed(s.levels[level + 1], inputs1)
    ensures ReadsOk(s')
  {
    forall i: nat | i < |input|
      ensures !Resurrects(s.levels, level, Outside(s, level, inputs0, inputs1), input, i, smallest)
    {
      NothingResurrects(s, level, inputs0, inputs1, input, i, smallest);
    }
    CompactionPreservesReadsIff(s, s', level, inputs0, inputs1, input, outputs, smallest);
    forall user, snapshot, r | s'.floor <= snapshot
      ensures Reads(s'.history, user, snapshot, r) <==> Reads(AllEntries(s'), user, snapshot, r)
    {
      assert Reads(s.history, user, snapshot, r) <==> Reads(AllEntries(s), user, snapshot, r);
      assert Reads(AllEntries(s), user, snapshot, r) <==> Reads(AllEntries(s'), user, snapshot, r);
    }
  }

  lemma SnapshotKeeps(s: State, s': State, a: Action)
    requires Structured(s) && (a.ATakeSnapshot? || a.AReleaseSnapshot?) && Does(s, a, s')
    ensures Structured(s') && (ReadsOk(s) ==> ReadsOk(s'))
  {
    assert AllEntries(s') == AllEntries(s);
  }

  lemma ActionKeeps(s: State, a: Action, s': State)
    requires Structured(s) && Does(s, a, s')
    ensures Structured(s')
    ensures ReadsOk(s) && Closing(s, a) ==> ReadsOk(s')
  {
    if a.AWrite? {
      WriteKeeps(s, s', a.op);
    } else if a.ASwitchMemTable? {
      SwitchMemTableKeeps(s, s');
    } else if a.AFlushEmpty? {
      FlushEmptyKeeps(s, s');
    } else if a.AFlush? {
      FlushKeeps(s, s', a.level, a.file);
    } else if a.AMove? {
      MoveKeeps(s, s', a.level, a.file);
    } else if a.ACompact? {
      CompactActionKeepsStructure(s, a, s');
      if ReadsOk(s) && Closing(s, a) {
        CompactActionKeepsReads(s, a, s');
      }
    } else {
      SnapshotKeeps(s, s', a);
    }
  }

  lemma CompactActionKeepsStructure(s: State, a: Action, s': State)
    requires Structured(s) && a.ACompact? && Does(s, a, s')
    ensures Structured(s')
  {
    CompactKeepsStructure(s, s', a.level, a.inputs0, a.inputs1, a.input, a.outputs, a.smallest);
  }

  lemma CompactActionKeepsReads(s: State, a: Action, s': State)
    requires Invariant(s) && a.ACompact? && Does(s, a, s') && Closing(s, a)
    ensures ReadsOk(s')
  {
    CompactKeepsReads(s, s', a.level, a.inputs0, a.inputs1, a.input, a.outputs, a.smallest);
  }

  /** In every state of every run the version is well formed and the layers are newest first. */
  lemma {:induction false} RunKeepsStructure(states: seq<State>, actions: seq<Action>, i: nat)
    requires Run(states, actions) && Initial(states[0]) && i < |states|
    ensures Structured(states[i])
  {
    if i == 0 {
      InitialKeeps(states[0]);
    } else {
      RunKeepsStructure(states, actions, i - 1);
      ActionKeeps(states[i - 1], actions[i - 1], states[i]);
    }
  }

  lemma InvariantIsKept(s: State, a: Action, s': State)
    requires Invariant(s) && Does(s, a, s') && Closing(s, a)
    ensures Invariant(s')
  {
    ActionKeeps(s, a, s');
  }

  ghost predicate ClosingRun(states: seq<State>, actions: seq<Action>) {
    && Run(states, actions)
    && forall i :: 0 <= i < |actions| ==> Closing(states[i], actions[i])
  }

  /** When the compactions of the run leave the next level closed, the stored entries answer
      every live read as the history of all writes does. */
  lemma {:induction false} RunKeepsReads(states: seq<State>, actions: seq<Action>, i: nat)
    requires ClosingRun(states, actions) && Initial(states[0]) && i < |states|
    ensures Invariant(states[i])
  {
    if i == 0 {
      InitialKeeps(states[0]);
    } else {
      RunKeepsReads(states, actions, i - 1);
      InvariantIsKept(states[i - 1], actions[i - 1], states[i]);
    }
  }

  // ----- Exactly when a run keeps its reads -----

  /** The action is a compaction that drops a deletion of which an older value is left outside
      the inputs. */
  ghost predicate BringsBack(s: State, a: Action) {
    && a.ACompact? && |s.levels| == NUM_LEVELS
    && exists i :: 0 <= i < |a.input| &&
         Resurrects(s.levels, a.level, Outside(s, a.level, a.inputs0, a.inputs1), a.input, i, a.smallest)
  }

  lemma CompactKeepsReadsIff(s: State, a: Action, s': State)
    requires Invariant(s) && a.ACompact? && Does(s, a, s')
    ensures ReadsOk(s') <==> !BringsBack(s, a)
  {
    hide Reads, Resurrects, LayersOk, HistoryOk, Compact, Outside;
    FloorRises(s, a, s');
    CompactActionIff(s, a, s');
    var before, after, h, floor := AllEntries(s), AllEntries(s'), s.history, a.smallest;
    assert PreservesLiveReads(h, before, floor);
    if PreservesLiveReads(before, after, floor) {
      PreservesChains(h, before, after, floor);
    }
    if PreservesLiveReads(h, after, floor) {
      PreservesChains(before, h, after, floor);
    }
  }

  lemma PreservesChains(a: set<Entry>, b: set<Entry>, c: set<Entry>, floor: nat)
    requires PreservesLiveReads(a, b, floor) || PreservesLiveReads(b, a, floor)
    requires PreservesLiveReads(b, c, floor)
    ensures PreservesLiveReads(a, c, floor)
  {
    hide Reads;
    forall user, snapshot, r | floor <= snapshot
      ensures Reads(a, user, snapshot, r) <==> Reads(c, user, snapshot, r)
    {
      assert Reads(b, user, snapshot, r) <==> Reads(c, user, snapshot, r);
    }
  }

  lemma FloorRises(s: State, a: Action, s': State)
    requires SnapshotsOk(s) && a.ACompact? && Does(s, a, s')
    ensures s'.floor == a.smallest >= s.floor && s'.history == s.history && |s.levels| == NUM_LEVELS
  {
    hide GoodInputs, IsMergeOf, PushedDown;
  }

  lemma CompactActionIff(s: State, a: Action, s': State)
    requires LayersOk(s) && HistoryOk(s) && a.ACompact? && Does(s, a, s')
    ensures PreservesLiveReads(AllEntries(s), AllEntries(s'), a.smallest) <==> !BringsBack(s, a)
  {
    hide Resurrects, LayersOk, HistoryOk, PreservesLiveReads, AllEntries, Outside;
    CompactionPreservesReadsIff(s, s', a.level, a.inputs0, a.inputs1, a.input, a.outputs, a.smallest);
  }

  lemma ActionKeepsReadsIff(s: State, a: Action, s': State)
    requires Invariant(s) && Does(s, a, s')
    ensures Structured(s') && (ReadsOk(s') <==> !BringsBack(s, a))
  {
    hide Structured, ReadsOk;
    ActionKeeps(s, a, s');
    if a.ACompact? {
      CompactKeepsReadsIff(s, a, s');
    }
  }

  /** In every run from an empty database: the stored entries answer every live read as the
      history of all writes does, in all states of the run, exactly when none of its compactions
      drops a deletion of which an older value is left outside the inputs. */
  lemma {:induction false} RunKeepsReadsIff(states: seq<State>, actions: seq<Action>)
    requires Run(states, actions) && Initial(states[0])
    ensures (forall i :: 0 <= i < |states| ==> ReadsOk(states[i]))
       <==> (forall i :: 0 <= i < |actions| ==> !BringsBack(states[i], actions[i]))
    decreases |actions|
  {
    hide ReadsOk, BringsBack, Structured, Does;
    InitialKeeps(states[0]);
    if actions != [] {
      var n := |actions| - 1;
      var states', actions' := states[..n + 1], actions[..n];
      assert forall i :: 0 <= i < n ==> states'[i] == states[i] && actions'[i] == actions[i];
      RunKeepsReadsIff(states', actions');
      RunKeepsStructure(states, actions, n);
      assert forall i :: 0 <= i < |states'| ==> states'[i] == states[i];
      if ReadsOk(states[n]) {
        ActionKeepsReadsIff(states[n], actions[n], states[n + 1]);
      }
      assert (forall i :: 0 <= i < |states| ==> ReadsOk(states[i]))
        <==> (forall i :: 0 <= i < |states'| ==> ReadsOk(states'[i])) && ReadsOk(states[n + 1]);
      assert (forall i :: 0 <= i < |actions| ==> !BringsBack(states[i], actions[i]))
        <==> (forall i :: 0 <= i < |actions'| ==> !BringsBack(states'[i], actions'[i])) && !BringsBack(states[n], actions[n]);
    }
  }
}

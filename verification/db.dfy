/** The database object (db/db_impl.cc, class DBImpl).  Every method is one action of the
    state machine, or a read. */
module DB {
  import opened InternalKey
  import opened Sequences
  import opened Version
  import opened Gaps
  import opened Compactions
  import opened DropRules
  import opened VersionChanges
  import opened Database
  import opened Interruptions
  import opened DBImplementation

  /** What a method leaves as good as it found it. */
  ghost predicate Keeps(s: State, s': State) {
    Structured(s') && (ReadsOk(s) ==> ReadsOk(s'))
  }

  class DBImpl {
    var mem: seq<Entry>
    var imm: Option<seq<Entry>>
    var current: Levels
    var nextFileNumber: nat
    var lastSequence: nat
    var snapshots: seq<nat>
    ghost var history: set<Entry>
    ghost var floor: nat

    ghost function S(): State
      reads this
    {
      State(mem, imm, current, nextFileNumber, lastSequence, snapshots, history, floor)
    }

    constructor ()
      ensures Initial(S()) && Invariant(S()) && nextFileNumber == 2
    {
      mem, imm, snapshots := [], None, [];
      current := seq(NUM_LEVELS, _ => []);
      nextFileNumber, lastSequence := 2, 0;
      history, floor := {}, 0;
      new;
      InitialKeeps(S());
    }

    /** Write, for a batch of one operation. */
    method Write(op: Operation)
      requires Structured(S()) && lastSequence + 1 < MAX_SEQUENCE_NUMBER
      modifies this
      ensures Does(old(S()), AWrite(op), S()) && Keeps(old(S()), S())
    {
      var e := Entry(Key(op.user, lastSequence + 1, op.kind), op.value);
      forall e' | e' in mem
        ensures e'.key.sequence < e.key.sequence
      {
        assert e' in AllEntries(S());
      }
      mem := InsertEntry(mem, e);
      lastSequence := lastSequence + 1;
      history := history + {e};
      ActionKeeps(old(S()), AWrite(op), S());
    }

    /** MakeRoomForWrite, when it starts a new memtable. */
    method SwitchMemTable()
      requires Structured(S()) && imm.None?
      modifies this
      ensures Does(old(S()), ASwitchMemTable, S()) && Keeps(old(S()), S())
    {
      imm := Some(mem);
      mem := [];
      ActionKeeps(old(S()), ASwitchMemTable, S());
    }

    /** CompactMemTable */
    method CompactMemTable(maxGrandParentOverlapBytes: nat) returns (ghost action: Action)
      requires Structured(S()) && imm.Some?
      modifies this
      ensures (action.AFlush? || action.AFlushEmpty?) && Does(old(S()), action, S()) && Keeps(old(S()), S())
      ensures imm == None && AllEntries(S()) == old(AllEntries(S()))
      ensures action.AFlush? ==> |old(current)| == NUM_LEVELS && IsPicked(old(current), action.file.Smallest().user,
        action.file.Largest().user, maxGrandParentOverlapBytes, action.level)
    {
      hide Structured, Does, Keeps, AllEntries, IsPicked;
      ghost var s := S();
      StructuredVersion(s);
      if imm.value == [] {
        imm := None;
        action := AFlushEmpty;
        EmptyFlushIsDone(s, S());
      } else {
        FlushedTable(s);
        var f: File := FileMetaData(nextFileNumber, |imm.value|, imm.value);
        var level := PickLevelForMemTableOutput(current, f.Smallest().user, f.Largest().user, maxGrandParentOverlapBytes);
        PickedMeetsNothing(current, f.Smallest().user, f.Largest().user, maxGrandParentOverlapBytes, level);
        var next := InstallFlushed(current, level, f);
        current, imm, nextFileNumber := next, None, nextFileNumber + 1;
        action := AFlush(level, f);
        FlushIsDone(s, S(), level, f);
      }
    }

    /** PickCompaction and SetupOtherInputs: what is compacted leaves no gap between its files. */
    method StartCompaction(level: nat, which: nat, limits: Limits) returns (c: Compaction)
      requires Structured(S()) && level + 1 < NUM_LEVELS && which < |current[level]|
      ensures fresh(c) && fresh(c.levelPtrs) && c.Valid() && c.lastKey == None && c.version == current && c.level == level
      ensures GoodInputs(current, level, c.inputs0, c.inputs1) && Gapless(c.inputs0 + c.inputs1)
    {
      hide Structured, GoodInputs, Gapless, Selectable;
      StructuredVersion(S());
      OneLevelIsOrdered(current, level);
      var selected := PickCompaction(level, current[level], which);
      c := PrepareCompaction(current, level, selected, limits.expandedByteSize);
    }

    /** BackgroundCompaction without a manual compaction: of one file of a level. */
    method BackgroundCompaction(level: nat, which: nat, limits: Limits) returns (ghost action: Action)
      requires Structured(S()) && level + 1 < NUM_LEVELS && which < |current[level]|
      modifies this
      ensures (action.AMove? || action.ACompact?) && Does(old(S()), action, S()) && Structured(S())
      ensures Closing(old(S()), action) ==> Keeps(old(S()), S())
    {
      hide Structured, GoodInputs, Does, Keeps, Closing, Gapless;
      ghost var s := S();
      var c := StartCompaction(level, which, limits);
      var trivial := c.IsTrivialMove(limits.grandParentOverlapBytes);
      if trivial {
        SingleInput(s.levels, level, c.inputs0, c.inputs1);
        action := TrivialMove(level, c.inputs0[0]);
      } else {
        action := Compact(c);
      }
    }

    /** BackgroundCompaction for a manual compaction: of a range of keys; never a trivial move. */
    method ManualCompaction(level: nat, begin: Bound, end: Bound, limits: Limits)
      returns (done: bool, selected: seq<File>, ghost action: Option<Action>)
      requires Structured(S()) && level + 1 < NUM_LEVELS
      modifies this
      ensures level < |old(current)| && IsRange(level, old(current)[level], begin, end, limits.fileSize, selected)
      ensures done <==> selected == []
      ensures if done then action.None? && S() == old(S())
              else action.Some? && action.value.ACompact? && Does(old(S()), action.value, S()) && Structured(S())
                   && action.value.level == level && forall f :: f in selected ==> f in action.value.inputs0
      ensures action.Some? && Closing(old(S()), action.value) ==> Keeps(old(S()), S())
    {
      hide Structured, GoodInputs, Does, Keeps, Closing, IsRange;
      StructuredVersion(S());
      OneLevelIsOrdered(current, level);
      selected := CompactRange(level, current[level], begin, end, limits.fileSize);
      done := selected == [];
      action := None;
      if !done {
        var c := PrepareCompaction(current, level, selected, limits.expandedByteSize);
        ghost var a := Compact(c);
        action := Some(a);
      }
    }

    method TrivialMove(level: nat, f: File) returns (ghost action: Action)
      requires Structured(S()) && level + 1 < NUM_LEVELS && GoodInputs(current, level, [f], [])
      modifies this
      ensures action == AMove(level, f) && Does(old(S()), action, S()) && Structured(S()) && Keeps(old(S()), S())
    {
      hide Structured, GoodInputs, PushedDown, Does, Keeps;
      ghost var s := S();
      StructuredVersion(s);
      assert GoodInputs(s.levels, level, [f], []);
      MovedNumbers(s, level, f);
      var next := InstallPushed(current, level, [f], [], [f]);
      ghost var s' := s.(levels := next);
      action := AMove(level, f);
      MoveIsDone(s, s', level, f);
      current := next;
      assert S() == s';
    }

    /** DoCompactionWork and InstallCompactionResults, with nothing else going on. */
    method Compact(c: Compaction) returns (ghost action: Action)
      requires Structured(S()) && c.version == current && c.level + 1 < NUM_LEVELS
      requires c.Valid() && c.lastKey == None && GoodInputs(current, c.level, c.inputs0, c.inputs1)
      modifies this, c.levelPtrs, c`lastKey
      ensures action.ACompact? && Does(old(S()), action, S()) && Structured(S())
      ensures action.level == c.level && action.inputs0 == c.inputs0 && action.inputs1 == c.inputs1
      ensures Closing(old(S()), action) ==> Keeps(old(S()), S())
    {
      hide Structured, GoodInputs, Does, Keeps, Closing, Interrupted, Fit;
      ghost var s := S();
      var smallestSnapshot := if snapshots == [] then lastSequence else snapshots[0];
      action := FinishCompaction(c, smallestSnapshot, [s], []);
      AtOnce(s, S(), action);
    }

    /** DoCompactionWork and InstallCompactionResults, of a compaction that began in `states[0]`
        and was interrupted by `actions`. */
    method FinishCompaction(c: Compaction, smallestSnapshot: nat, ghost states: seq<State>, ghost actions: seq<Action>)
      returns (ghost action: Action)
      requires Run(states, actions) && Quiet(actions) && states[|actions|] == S() && Structured(states[0])
      requires c.version == states[0].levels && c.level + 1 < NUM_LEVELS && smallestSnapshot == SmallestSnapshot(states[0])
      requires c.Valid() && c.lastKey == None && GoodInputs(c.version, c.level, c.inputs0, c.inputs1)
      modifies this, c.levelPtrs, c`lastKey
      ensures action.ACompact? && action.inputs0 == c.inputs0 && action.inputs1 == c.inputs1 && action.level == c.level
      ensures Interrupted(states, actions, S(), action.level, action.inputs0, action.inputs1, action.input, action.outputs)
      ensures action.smallest == smallestSnapshot && Does(old(S()), action, S()) == Structured(S())
      ensures Gapless(c.inputs0 + c.inputs1) ==> Structured(S())
    {
      hide Structured, GoodInputs, IsMergeOf, PushedDown, Does, Interrupted, Fit, Gapless, Later, NewNumbers;
      ghost var t := S();
      QuietRun(states, actions, |actions|);
      ghost var input;
      var files, next;
      files, next, input := CompactionResult(c, states[0], t, current, nextFileNumber, smallestSnapshot);
      ghost var t' := t.(levels := next, nextFileNumber := t.nextFileNumber + |files|, floor := smallestSnapshot);
      action := ACompact(c.level, c.inputs0, c.inputs1, input, files, smallestSnapshot);
      InterruptionIsDone(states, actions, t', action);
      current, nextFileNumber, floor := next, nextFileNumber + |files|, smallestSnapshot;
      assert S() == t';
    }

    method GetSnapshot() returns (snapshot: nat)
      requires Structured(S())
      modifies this
      ensures snapshot == lastSequence && Does(old(S()), ATakeSnapshot, S()) && Keeps(old(S()), S())
    {
      snapshot := lastSequence;
      snapshots := snapshots + [snapshot];
      ActionKeeps(old(S()), ATakeSnapshot, S());
    }

    method ReleaseSnapshot(i: nat)
      requires Structured(S()) && i < |snapshots|
      modifies this
      ensures Does(old(S()), AReleaseSnapshot(i), S()) && Keeps(old(S()), S())
    {
      snapshots := snapshots[..i] + snapshots[i + 1..];
      ActionKeeps(old(S()), AReleaseSnapshot(i), S());
    }

    /** Get: the memtable, the memtable being flushed, then the files; for a live snapshot or
        the last sequence number, the answer is that of the history of all writes. */
    method Get(user: UserKey, snapshot: nat) returns (r: Option<Bytes>)
      requires Structured(S())
      ensures Reads(AllEntries(S()), user, snapshot, r)
      ensures ReadsOk(S()) && (snapshot == lastSequence || snapshot in snapshots) ==> Reads(history, user, snapshot, r)
    {
      var found := SortedGet(mem, user, snapshot);
      if found.Some? {
        r := Answer(found.value);
      } else {
        if imm.Some? {
          found := SortedGet(imm.value, user, snapshot);
        }
        if found.Some? {
          r := Answer(found.value);
        } else {
          r := Version.Get(current, user, snapshot);
        }
      }
      LayeredRead(S(), user, snapshot, r);
    }
  }

  lemma SingleInput(v: Levels, level: nat, inputs0: seq<File>, inputs1: seq<File>)
    requires |v| == NUM_LEVELS && level + 1 < NUM_LEVELS && GoodInputs(v, level, inputs0, inputs1)
    requires |inputs0| == 1 && inputs1 == []
    ensures GoodInputs(v, level, [inputs0[0]], [])
  {
    assert inputs0 == [inputs0[0]];
  }

  lemma EmptyFlushIsDone(s: State, s': State)
    requires Structured(s) && s.imm == Some([]) && s' == s.(imm := None)
    ensures Does(s, AFlushEmpty, s') && Keeps(s, s') && AllEntries(s') == AllEntries(s)
  {
    ActionKeeps(s, AFlushEmpty, s');
  }

  lemma FlushIsDone(s: State, s': State, level: nat, f: File)
    requires Structured(s) && s.imm.Some? && f.entries == s.imm.value && f.number == s.nextFileNumber
    requires |s.levels| == NUM_LEVELS && level <= MAX_MEM_COMPACT_LEVEL && Placed(s.levels, level, f, s'.levels)
    requires level > 0 ==> forall l :: 0 <= l <= level ==> NoOverlap(s.levels[l], Some(f.Smallest().user), Some(f.Largest().user))
    requires s' == s.(imm := None, levels := s'.levels, nextFileNumber := s.nextFileNumber + 1)
    ensures Does(s, AFlush(level, f), s') && Keeps(s, s') && AllEntries(s') == AllEntries(s)
  {
    hide Structured, NoOverlap, Placed;
    FlushedContents(s, s', level, f);
    ActionKeeps(s, AFlush(level, f), s');
  }

  lemma MoveIsDone(s: State, s': State, level: nat, f: File)
    requires Structured(s) && level + 1 < NUM_LEVELS && GoodInputs(s.levels, level, [f], [])
    requires PushedDown(s.levels, level, [f], [], [f], s'.levels) && s' == s.(levels := s'.levels)
    ensures Does(s, AMove(level, f), s') && Structured(s') && Keeps(s, s')
  {
    ActionKeeps(s, AMove(level, f), s');
  }

  ghost predicate Ends(states: seq<State>, actions: seq<Action>, s': State, a: Action) {
    && a.ACompact? && states != [] && a.smallest == SmallestSnapshot(states[0])
    && Interrupted(states, actions, s', a.level, a.inputs0, a.inputs1, a.input, a.outputs)
  }

  lemma InterruptionIsDone(states: seq<State>, actions: seq<Action>, s': State, a: Action)
    requires Run(states, actions) && Quiet(actions) && a.ACompact? && a.level + 1 < NUM_LEVELS && Structured(states[0])
    requires |states[0].levels| == NUM_LEVELS && a.smallest == SmallestSnapshot(states[0])
    requires GoodInputs(states[0].levels, a.level, a.inputs0, a.inputs1) && IsMergeOf(a.input, a.inputs0 + a.inputs1)
    requires Flatten(EntriesOf(a.outputs)) == Survivors(states[0].levels, a.level, a.input, a.smallest)
    requires var t := states[|actions|];
      && |t.levels| == NUM_LEVELS && PushedDown(t.levels, a.level, a.inputs0, a.inputs1, a.outputs, s'.levels)
      && NewNumbers(t, a.outputs, s'.nextFileNumber)
      && s' == t.(levels := s'.levels, nextFileNumber := s'.nextFileNumber, floor := a.smallest)
    ensures Ends(states, actions, s', a)
    ensures Does(states[|actions|], a, s') == Structured(s')
    ensures Gapless(a.inputs0 + a.inputs1) ==> Structured(s')
  {
    hide Structured, GoodInputs, IsMergeOf, PushedDown, NewNumbers, Fit, Survivors, Flatten, Gapless;
    var t := states[|actions|];
    InterruptedIsCompaction(states, actions, s', a.level, a.inputs0, a.inputs1, a.input, a.outputs);
    QuietRun(states, actions, |actions|);
    if Does(t, a, s') {
      ActionKeeps(t, a, s');
    }
    if Gapless(a.inputs0 + a.inputs1) {
      GaplessFits(states, actions, s', a.level, a.inputs0, a.inputs1, a.input, a.outputs);
    }
  }

  /** With no interruption the inputs leave room for the outputs. */
  lemma AtOnce(s: State, s': State, a: Action)
    requires Structured(s) && Ends([s], [], s', a) && Does(s, a, s') == Structured(s')
    ensures Does(s, a, s') && Structured(s') && (Closing(s, a) ==> Keeps(s, s'))
  {
    hide Structured, GoodInputs, IsMergeOf, PushedDown, NewNumbers, Fit, Survivors, Flatten, Closing;
    StructuredVersion(s);
    OutputsComeFromInputs(s.levels, a.level, a.inputs0, a.inputs1, a.input, a.outputs, a.smallest);
    ChosenInputsFit(s.levels, a.level, a.inputs0, a.inputs1, a.outputs);
    InterruptedIsCompaction([s], [], s', a.level, a.inputs0, a.inputs1, a.input, a.outputs);
    ActionKeeps(s, a, s');
  }

  lemma StructuredVersion(s: State)
    requires Structured(s)
    ensures WellFormed(s.levels) && |s.levels| == NUM_LEVELS && NumbersBelow(s.levels, s.nextFileNumber)
    ensures forall l :: 1 <= l < NUM_LEVELS ==> Ordered(s.levels[l])
  {
  }

  lemma OneLevelIsOrdered(v: Levels, level: nat)
    requires WellFormed(v) && level < NUM_LEVELS
    ensures level > 0 ==> Ordered(v[level])
  {
  }

  lemma WellFormedHasLevels(v: Levels)
    requires WellFormed(v)
    ensures |v| == NUM_LEVELS
  {
  }

  method PrepareCompaction(v: Levels, level: nat, selected: seq<File>, expandedByteSizeLimit: nat) returns (c: Compaction)
    requires WellFormed(v) && level + 1 < NUM_LEVELS && Selectable(level, v[level], selected)
    ensures fresh(c) && fresh(c.levelPtrs) && c.Valid() && c.lastKey == None
    ensures c.version == v && c.level == level && GoodInputs(v, level, c.inputs0, c.inputs1)
    ensures (forall f :: f in selected ==> f in c.inputs0) && (Gapless(selected) ==> Gapless(c.inputs0 + c.inputs1))
  {
    hide Selectable, GoodInputs, WellFormed, Gapless, IsGrown, NoBoundaryLeft, MeetsHull;
    OneLevelIsOrdered(v, level);
    WellFormedHasLevels(v);
    c := new Compaction(v, level, selected);
    ghost var _, _ := c.SetupOtherInputs(expandedByteSizeLimit);
  }

  /** The output files of a compaction. */
  method CompactionFiles(c: Compaction, ghost s: State, nextFileNumber: nat, smallestSnapshot: nat)
    returns (files: seq<File>, ghost input: seq<Entry>)
    requires Structured(s) && c.version == s.levels && c.level + 1 < NUM_LEVELS && smallestSnapshot == SmallestSnapshot(s)
    requires c.Valid() && c.lastKey == None && GoodInputs(s.levels, c.level, c.inputs0, c.inputs1)
    modifies c.levelPtrs, c`lastKey
    ensures IsMergeOf(input, c.inputs0 + c.inputs1) && NumberedFrom(files, nextFileNumber)
    ensures Flatten(EntriesOf(files)) == Survivors(s.levels, c.level, input, smallestSnapshot)
  {
    InputsAreDistinct(s, c.level, c.inputs0, c.inputs1);
    SmallestSnapshotIsSmall(s);
    var merged := MergeInputs(c.inputs0 + c.inputs1);
    input := merged;
    var outputs := DoCompactionWork(c, merged, smallestSnapshot);
    OutputTables(s, c.level, c.inputs0, c.inputs1, input, outputs, nextFileNumber);
    files := NumberOutputs(outputs, nextFileNumber);
  }

  /** The output files of a compaction that began in `s`, and the version with them after `t`. */
  method CompactionResult(c: Compaction, ghost s: State, ghost t: State, current: Levels, nextFileNumber: nat,
                          smallestSnapshot: nat)
    returns (files: seq<File>, next: Levels, ghost input: seq<Entry>)
    requires Structured(s) && c.version == s.levels && c.level + 1 < NUM_LEVELS && smallestSnapshot == SmallestSnapshot(s)
    requires c.Valid() && c.lastKey == None && GoodInputs(s.levels, c.level, c.inputs0, c.inputs1)
    requires Structured(t) && Later(s, t) && current == t.levels && nextFileNumber == t.nextFileNumber
    modifies c.levelPtrs, c`lastKey
    ensures IsMergeOf(input, c.inputs0 + c.inputs1) && NewNumbers(t, files, nextFileNumber + |files|)
    ensures Flatten(EntriesOf(files)) == Survivors(s.levels, c.level, input, smallestSnapshot)
    ensures |t.levels| == NUM_LEVELS && PushedDown(t.levels, c.level, c.inputs0, c.inputs1, files, next)
  {
    hide GoodInputs, IsMergeOf, Survivors, Flatten, WellFormed;
    StructuredVersion(t);
    files, input := CompactionFiles(c, s, nextFileNumber, smallestSnapshot);
    StillTakes(s, t, c.level, c.inputs0, c.inputs1);
    OutputNumbers(t, c.level, c.inputs0, c.inputs1, files);
    next := InstallPushed(current, c.level, c.inputs0, c.inputs1, files);
  }

  lemma SmallestSnapshotIsSmall(s: State)
    requires Structured(s)
    ensures SmallestSnapshot(s) < MAX_SEQUENCE_NUMBER
  {
  }

  datatype Limits = Limits(expandedByteSize: nat, grandParentOverlapBytes: nat, fileSize: nat)

  lemma FlushedTable(s: State)
    requires Structured(s) && s.imm.Some? && s.imm.value != []
    ensures IsTable(FileMetaData(s.nextFileNumber, |s.imm.value|, s.imm.value))
  {
    forall e | e in s.imm.value
      ensures e.key.sequence <= MAX_SEQUENCE_NUMBER
    {
      assert e in AllEntries(s);
    }
  }

  lemma MovedNumbers(s: State, level: nat, f: File)
    requires Structured(s) && level + 1 < NUM_LEVELS && GoodInputs(s.levels, level, [f], [])
    ensures forall g :: g in s.levels[level + 1] ==> g.number != f.number
  {
    assert f in [f];
    assert At(s.levels, level, f);
    forall g | g in s.levels[level + 1]
      ensures g.number != f.number
    {
      assert At(s.levels, level + 1, g);
    }
  }

  lemma InputsAreDistinct(s: State, level: nat, inputs0: seq<File>, inputs1: seq<File>)
    requires Structured(s) && level + 1 < NUM_LEVELS && GoodInputs(s.levels, level, inputs0, inputs1)
    ensures DistinctVersions(EntriesIn(inputs0 + inputs1))
  {
    ContentsSplit(s.levels, level, inputs0, inputs1);
    assert EntriesIn(inputs0 + inputs1) <= AllEntries(s);
  }

  lemma OutputTables(s: State, level: nat, inputs0: seq<File>, inputs1: seq<File>, input: seq<Entry>,
                     outputs: seq<seq<Entry>>, n: nat)
    requires Structured(s) && level + 1 < NUM_LEVELS && GoodInputs(s.levels, level, inputs0, inputs1)
    requires IsMergeOf(input, inputs0 + inputs1) && forall o :: o in outputs ==> o != []
    requires Flatten(outputs) == Survivors(s.levels, level, input, SmallestSnapshot(s))
    ensures forall i :: 0 <= i < |outputs| ==>
              IsTable(FileMetaData(n + i, |outputs[i]|, outputs[i]))
  {
    SurvivorsAreSorted(s.levels, level, input, SmallestSnapshot(s));
    forall e | e in Flatten(outputs)
      ensures e.key.sequence <= MAX_SEQUENCE_NUMBER
    {
      assert e in input;
    }
    OutputsAreTables(outputs, n);
  }

  lemma OutputNumbers(t: State, level: nat, inputs0: seq<File>, inputs1: seq<File>, outputs: seq<File>)
    requires Structured(t) && level + 1 < NUM_LEVELS && Takes(t.levels, level, inputs0, inputs1)
    requires NumberedFrom(outputs, t.nextFileNumber)
    ensures NewNumbers(t, outputs, t.nextFileNumber + |outputs|)
    ensures forall o, g :: o in outputs && (g in t.levels[level + 1] || g in inputs1) ==> o.number != g.number
  {
    forall g | g in t.levels[level + 1]
      ensures g.number < t.nextFileNumber
    {
      assert At(t.levels, level + 1, g);
    }
  }

  /** The reads of the layers, newest layer first. */
  lemma LayeredRead(s: State, user: UserKey, snapshot: nat, r: Option<Bytes>)
    requires Structured(s)
    requires var m := SortedGet(s.mem, user, snapshot);
             var i := if s.imm.Some? then SortedGet(s.imm.value, user, snapshot) else None;
             if m.Some? then r == Answer(m.value)
             else if i.Some? then r == Answer(i.value)
             else Reads(Contents(s.levels), user, snapshot, r)
    ensures Reads(AllEntries(s), user, snapshot, r)
    ensures ReadsOk(s) && (snapshot == s.lastSequence || snapshot in s.snapshots) ==> Reads(s.history, user, snapshot, r)
  {
    var below := ImmEntries(s) + Contents(s.levels);
    assert Elements(s.mem) + below == AllEntries(s);
    ReadNewerFirst(Elements(s.mem), below, user, snapshot, r);
    ReadNewerFirst(ImmEntries(s), Contents(s.levels), user, snapshot, r);
    LayerRead(s.mem, user, snapshot);
    if s.imm.Some? {
      LayerRead(s.imm.value, user, snapshot);
    }
  }

  /** One memtable. */
  lemma LayerRead(entries: seq<Entry>, user: UserKey, snapshot: nat)
    requires Sorted(entries)
    ensures var found := SortedGet(entries, user, snapshot);
            if found.Some? then Reads(Elements(entries), user, snapshot, Answer(found.value))
                                && !NoneVisible(Elements(entries), user, snapshot)
            else NoneVisible(Elements(entries), user, snapshot)
  {
    SortedGetIsNewest(entries, user, snapshot);
    var found := SortedGet(entries, user, snapshot);
    if found.Some? {
      assert NewestVisible(Elements(entries), user, snapshot, found.value);
    }
  }
}

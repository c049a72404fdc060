/** Crashes (DBImpl::Recover, db/db_impl.cc): what is in files survives, of what is in memtables
    any part may be lost with the logs; and exactly when the reads after every crash are those of
    the history that survives. */
module Crashes {
  import opened InternalKey
  import opened Sequences
  import opened Version
  import opened Compactions
  import opened DropRules
  import opened VersionChanges
  import opened Database

  /** A database, and the counters in the last record of its manifest. */
  datatype Disk = Disk(state: State, sequence: nat, next: nat)

  /** What was written and is not in a memtable any more. */
  ghost function Flushed(s: State): set<Entry> {
    s.history - Elements(s.mem) - ImmEntries(s)
  }

  /** The database as its files alone have it. */
  ghost function FilesOf(s: State): State {
    s.(mem := [], imm := None, history := Flushed(s))
  }

  /** Memtables are newer than all that was flushed before, even if it was dropped since. */
  ghost predicate Layered(s: State) {
    Newer(Elements(s.mem), ImmEntries(s) + Flushed(s)) && Newer(ImmEntries(s), Flushed(s))
  }

  /** The manifest is far enough for what is in files. */
  ghost predicate Recorded(d: Disk) {
    && d.state.floor <= d.sequence <= d.state.lastSequence && d.next <= d.state.nextFileNumber
    && SequencesAtMost(Flushed(d.state), d.sequence) && NumbersBelow(d.state.levels, d.next)
  }

  ghost predicate Sound(d: Disk) {
    Structured(d.state) && Layered(d.state) && Recorded(d)
  }

  /** With these parts of the memtables left, every live read is that of the history left. */
  ghost predicate ReadsWith(s: State, mem: set<Entry>, imm: set<Entry>) {
    PreservesLiveReads(mem + imm + Flushed(s), mem + imm + Contents(s.levels), s.floor)
  }

  ghost predicate CrashProof(s: State) {
    forall mem, imm :: mem <= Elements(s.mem) && imm <= ImmEntries(s) ==> ReadsWith(s, mem, imm)
  }

  // ----- A crash -----

  /** Recovery with these parts of the memtables left: levels as the manifest has them, counters
      from the manifest and the logs, no snapshot. */
  ghost predicate Crash(d: Disk, d': Disk, mem: set<Entry>, imm: set<Entry>) {
    var s, s' := d.state, d'.state;
    && mem <= Elements(s.mem) && imm <= ImmEntries(s)
    && Sorted(s'.mem) && Elements(s'.mem) == mem + imm
    && d.sequence <= s'.lastSequence <= s.lastSequence && SequencesAtMost(mem + imm, s'.lastSequence)
    && d.next <= s'.nextFileNumber
    && s' == State(s'.mem, None, s.levels, s'.nextFileNumber, s'.lastSequence, [], mem + imm + Flushed(s), s.floor)
    && d' == Disk(s', d.sequence, d.next)
  }

  datatype Step = Act(action: Action) | Crashed(mem: set<Entry>, imm: set<Entry>)

  /** The action ends with a record of the manifest. */
  predicate Installs(a: Action) {
    a.AFlush? || a.AMove? || a.ACompact?
  }

  ghost predicate Acts(d: Disk, a: Action, d': Disk) {
    && Does(d.state, a, d'.state)
    && if Installs(a) then d'.sequence == d.state.lastSequence && d'.next == d'.state.nextFileNumber
       else d'.sequence == d.sequence && d'.next == d.next
  }

  ghost predicate Happens(d: Disk, step: Step, d': Disk) {
    match step
    case Act(a) => Acts(d, a, d')
    case Crashed(mem, imm) => Crash(d, d', mem, imm)
  }

  /** A run with crashes in it. */
  ghost predicate Life(disks: seq<Disk>, steps: seq<Step>) {
    && |disks| == |steps| + 1
    && (forall i :: 0 <= i < |steps| ==> Happens(disks[i], steps[i], disks[i + 1]))
    && Initial(disks[0].state) && disks[0].sequence == 0 && disks[0].next <= disks[0].state.nextFileNumber
  }

  // ----- Reads from parts -----

  lemma NewerOnTop(kept: set<Entry>, a: set<Entry>, b: set<Entry>, floor: nat)
    requires PreservesLiveReads(a, b, floor) && Newer(kept, a) && Newer(kept, b)
    ensures PreservesLiveReads(kept + a, kept + b, floor)
  {
    forall user, snapshot, r | floor <= snapshot
      ensures Reads(kept + a, user, snapshot, r) <==> Reads(kept + b, user, snapshot, r)
    {
      ReadNewerFirst(kept, a, user, snapshot, r);
      ReadNewerFirst(kept, b, user, snapshot, r);
      assert Reads(a, user, snapshot, r) <==> Reads(b, user, snapshot, r);
    }
  }

  lemma FilesAreFlushed(s: State)
    requires Structured(s)
    ensures Contents(s.levels) <= Flushed(s)
  {
    forall e | e in Contents(s.levels)
      ensures e in Flushed(s)
    {
      assert e in AllEntries(s);
    }
  }

  lemma FilesAreStructured(s: State)
    requires Structured(s)
    ensures Structured(FilesOf(s)) && AllEntries(FilesOf(s)) == Contents(s.levels)
  {
    FilesAreFlushed(s);
    assert AllEntries(FilesOf(s)) == Contents(s.levels);
  }

  /** It is enough that the files alone answer as what was flushed. */
  lemma CrashProofIff(s: State)
    requires Structured(s) && Layered(s)
    ensures CrashProof(s) <==> ReadsOk(FilesOf(s))
  {
    hide Reads, PreservesLiveReads;
    FilesAreFlushed(s);
    FilesAreStructured(s);
    assert {} + {} + Flushed(s) == Flushed(s) && {} + {} + Contents(s.levels) == Contents(s.levels);
    if CrashProof(s) {
      assert ReadsWith(s, {}, {});
    }
    if ReadsOk(FilesOf(s)) {
      forall mem, imm | mem <= Elements(s.mem) && imm <= ImmEntries(s)
        ensures ReadsWith(s, mem, imm)
      {
        NewerOnTop(mem + imm, Flushed(s), Contents(s.levels), s.floor);
      }
    }
  }

  /** What survives every crash is right without one. */
  lemma CrashProofReads(s: State)
    requires Structured(s) && CrashProof(s)
    ensures ReadsOk(s)
  {
    hide PreservesLiveReads;
    assert ReadsWith(s, Elements(s.mem), ImmEntries(s));
    assert forall e :: e in Elements(s.mem) + ImmEntries(s) ==> e in AllEntries(s);
    assert Elements(s.mem) + ImmEntries(s) + Flushed(s) == s.history;
  }

  // ----- Each step -----

  lemma CrashKeeps(d: Disk, d': Disk, mem: set<Entry>, imm: set<Entry>)
    requires Sound(d) && Crash(d, d', mem, imm)
    ensures Sound(d') && Flushed(d'.state) == Flushed(d.state)
  {
    hide WellFormed, UniqueNumbers, NumbersBelow;
    var s, s' := d.state, d'.state;
    FilesAreFlushed(s);
    assert Flushed(s') == Flushed(s);
    MoreNumbers(s.levels, d.next, s'.nextFileNumber);
  }

  lemma MoreNumbers(v: Levels, n: nat, n': nat)
    requires NumbersBelow(v, n) && n <= n'
    ensures NumbersBelow(v, n')
  {
  }

  lemma CrashKeepsReads(d: Disk, d': Disk, mem: set<Entry>, imm: set<Entry>)
    requires Sound(d) && Crash(d, d', mem, imm) && CrashProof(d.state)
    ensures CrashProof(d'.state) && ReadsOk(d'.state)
  {
    hide Sound, Reads, CrashProof;
    SoundParts(d);
    CrashKeeps(d, d', mem, imm);
    SoundParts(d');
    CrashProofIff(d.state);
    assert FilesOf(d'.state).levels == FilesOf(d.state).levels;
    FilesAreStructured(d.state);
    FilesAreStructured(d'.state);
    CrashProofIff(d'.state);
    CrashProofReads(d'.state);
  }

  lemma SoundParts(d: Disk)
    requires Sound(d)
    ensures Structured(d.state) && Layered(d.state)
  {
  }

  /** The flushed history after an action: that of before, or with the memtable that was flushed. */
  lemma FlushedAfter(s: State, a: Action, s': State)
    requires Structured(s) && Layered(s) && Does(s, a, s')
    ensures Flushed(s') == if a.AFlush? then ImmEntries(s) + Flushed(s) else Flushed(s)
    ensures Layered(s')
  {
    hide WellFormed, UniqueNumbers, NumbersBelow, GoodInputs, Placed, PushedDown, Fit, IsMergeOf, Contents, Survivors;
    if a.AWrite? {
      var e := Entry(Key(a.op.user, s.lastSequence + 1, a.op.kind), a.op.value);
      assert e !in s.history;
    }
  }

  lemma SameFiles(s: State, s': State)
    requires Structured(s) && Structured(s') && s'.levels == s.levels && s'.floor == s.floor && Flushed(s') == Flushed(s)
    ensures ReadsOk(FilesOf(s')) <==> ReadsOk(FilesOf(s))
  {
    FilesAreStructured(s);
    FilesAreStructured(s');
  }

  /** A compaction or a move is one of the files alone. */
  lemma ActsOnFiles(s: State, a: Action, s': State)
    requires Does(s, a, s') && (a.ACompact? || a.AMove?) && Flushed(s') == Flushed(s)
    ensures Does(FilesOf(s), a, FilesOf(s'))
  {
    hide GoodInputs, PushedDown, IsMergeOf, Survivors, Flatten, Fit;
  }

  lemma FlushKeepsFiles(s: State, s': State, level: nat, f: File)
    requires Structured(s) && Layered(s) && Structured(s') && Flush(s, s', level, f) && ReadsOk(FilesOf(s))
    requires Flushed(s') == ImmEntries(s) + Flushed(s)
    ensures ReadsOk(FilesOf(s'))
  {
    hide Reads, PreservesLiveReads, WellFormed, UniqueNumbers, NumbersBelow, Placed, Contents, DistinctVersions;
    FilesAreFlushed(s);
    FilesAreStructured(s);
    FilesAreStructured(s');
    FlushedContents(s, s', level, f);
    assert Contents(s'.levels) == ImmEntries(s) + Contents(s.levels);
    NewerOnTop(ImmEntries(s), Flushed(s), Contents(s.levels), s.floor);
  }

  /** One action leaves the files right exactly when it brings nothing back in them. */
  lemma ActionKeepsFilesIff(s: State, a: Action, s': State)
    requires Structured(s) && Layered(s) && ReadsOk(FilesOf(s)) && Does(s, a, s')
    ensures Structured(s') && Layered(s') && (ReadsOk(FilesOf(s')) <==> !BringsBack(FilesOf(s), a))
  {
    hide ReadsOk, BringsBack, Structured, Layered, Flushed, FilesOf;
    ActionKeeps(s, a, s');
    FlushedAfter(s, a, s');
    if a.ACompact? || a.AMove? {
      FilesAreStructured(s);
      ActsOnFiles(s, a, s');
      ActionKeepsReadsIff(FilesOf(s), a, FilesOf(s'));
    } else {
      NothingBack(FilesOf(s), a);
      if a.AFlush? {
        FlushKeepsFiles(s, s', a.level, a.file);
      } else {
        LevelsStay(s, a, s');
        SameFiles(s, s');
      }
    }
  }

  lemma NothingBack(s: State, a: Action)
    requires !a.ACompact?
    ensures !BringsBack(s, a)
  {
  }

  lemma LevelsStay(s: State, a: Action, s': State)
    requires Does(s, a, s') && !a.ACompact? && !a.AMove? && !a.AFlush?
    ensures s'.levels == s.levels && s'.floor == s.floor
  {
  }

  lemma ActionKeepsRecord(d: Disk, a: Action, d': Disk)
    requires Sound(d) && Acts(d, a, d') && Structured(d'.state)
    requires Flushed(d'.state) == if a.AFlush? then ImmEntries(d.state) + Flushed(d.state) else Flushed(d.state)
    ensures Recorded(d')
  {
    hide WellFormed, UniqueNumbers, NumbersBelow, GoodInputs, Placed, PushedDown, Fit, IsMergeOf, Contents, Survivors, Flushed;
    hide DistinctVersions, Flatten, NewNumbers;
    var s, s' := d.state, d'.state;
    assert SequencesAtMost(Flushed(s'), s.lastSequence) by { FlushedOld(s); }
  }

  lemma FlushedOld(s: State)
    requires Structured(s)
    ensures SequencesAtMost(ImmEntries(s) + Flushed(s), s.lastSequence)
  {
    forall e | e in ImmEntries(s) + Flushed(s)
      ensures e.key.sequence <= s.lastSequence
    {
      assert e in AllEntries(s) || e in s.history;
    }
  }

  /** The step is a compaction that drops a deletion of which an older value is in a file outside
      the inputs, whether a memtable has something newer or not. */
  ghost predicate BringsBackInFiles(d: Disk, step: Step) {
    step.Act? && BringsBack(FilesOf(d.state), step.action)
  }

  lemma StepKeepsIff(d: Disk, step: Step, d': Disk)
    requires Sound(d) && Happens(d, step, d')
    ensures Sound(d')
    ensures CrashProof(d.state) ==> (CrashProof(d'.state) <==> !BringsBackInFiles(d, step))
  {
    hide BringsBack, Structured, Layered, Recorded, FilesOf, Flushed, ReadsOk, CrashProof, Crash;
    if step.Act? {
      ActionKeeps(d.state, step.action, d'.state);
      FlushedAfter(d.state, step.action, d'.state);
      ActionKeepsRecord(d, step.action, d');
      CrashProofIff(d.state);
      CrashProofIff(d'.state);
      if CrashProof(d.state) {
        ActionKeepsFilesIff(d.state, step.action, d'.state);
      }
    } else {
      CrashKeeps(d, d', step.mem, step.imm);
      if CrashProof(d.state) {
        CrashKeepsReads(d, d', step.mem, step.imm);
      }
    }
  }

  lemma StartIsSound(d: Disk)
    requires Initial(d.state) && d.sequence == 0 && d.next <= d.state.nextFileNumber
    ensures Sound(d) && CrashProof(d.state)
  {
    InitialKeeps(d.state);
    CrashProofIff(d.state);
    assert Contents(d.state.levels) == {};
  }

  /** In every run with any crashes in it the levels are in order, and the manifest is far enough
      for the files. */
  lemma {:induction false} LifeIsSound(disks: seq<Disk>, steps: seq<Step>, i: nat)
    requires Life(disks, steps) && i < |disks|
    ensures Sound(disks[i])
  {
    hide Sound, Happens;
    if i == 0 {
      StartIsSound(disks[0]);
    } else {
      LifeIsSound(disks, steps, i - 1);
      StepKeepsIff(disks[i - 1], steps[i - 1], disks[i]);
    }
  }

  /** Whatever part of the memtables each crash loses: all reads are those of the history that
      survives, in all states of a run with any crashes in it, exactly when none of its compactions
      drops a deletion of which an older value is in a file outside its inputs. */
  lemma {:induction false} LifeReadsIff(disks: seq<Disk>, steps: seq<Step>)
    requires Life(disks, steps)
    ensures (forall i :: 0 <= i < |disks| ==> CrashProof(disks[i].state))
       <==> (forall i :: 0 <= i < |steps| ==> !BringsBackInFiles(disks[i], steps[i]))
    decreases |steps|
  {
    hide CrashProof, BringsBackInFiles, Sound, Happens, Initial;
    StartIsSound(disks[0]);
    if steps != [] {
      var n := |steps| - 1;
      var disks', steps' := disks[..n + 1], steps[..n];
      assert forall i :: 0 <= i < n ==> disks'[i] == disks[i] && steps'[i] == steps[i];
      LifeReadsIff(disks', steps');
      LifeIsSound(disks, steps, n);
      assert forall i :: 0 <= i < |disks'| ==> disks'[i] == disks[i];
      StepKeepsIff(disks[n], steps[n], disks[n + 1]);
      assert (forall i :: 0 <= i < |disks| ==> CrashProof(disks[i].state))
        <==> (forall i :: 0 <= i < |disks'| ==> CrashProof(disks'[i].state)) && CrashProof(disks[n + 1].state);
      assert (forall i :: 0 <= i < |steps| ==> !BringsBackInFiles(disks[i], steps[i]))
        <==> (forall i :: 0 <= i < |steps'| ==> !BringsBackInFiles(disks'[i], steps'[i])) && !BringsBackInFiles(disks[n], steps[n]);
    }
  }
}

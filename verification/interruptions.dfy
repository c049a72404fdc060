/** A compaction takes time (db/db_impl.cc, DoCompactionWork): it gives up the lock, others write
    and take snapshots, and it flushes a memtable itself when there is one to flush.  What it
    chose and read is from the version in which it began; what it makes goes into the version in
    which it ends. */
module Interruptions {
  import opened InternalKey
  import opened Sequences
  import opened Version
  import opened Gaps
  import opened Compactions
  import opened DropRules
  import opened VersionBuilder
  import opened VersionChanges
  import opened Database

  /** There is one compaction at a time. */
  predicate Quiet(actions: seq<Action>) {
    forall i :: 0 <= i < |actions| ==> !actions[i].ACompact? && !actions[i].AMove?
  }

  ghost predicate Meets(f: File, g: File) {
    Overlaps(f, Some(g.Smallest().user), Some(g.Largest().user))
  }

  /** `g`, flushed to level `l` later, is newer than all of `v` and meets nothing down to its level. */
  ghost predicate FlushedOver(v: Levels, l: nat, g: File) {
    forall l': nat, f :: At(v, l', f) ==> Above(g, f) && (0 < l && l' <= l ==> !Meets(f, g))
  }

  /** `t` comes after `s`, with no compaction in between. */
  ghost predicate Later(s: State, t: State) {
    && |s.levels| == |t.levels| == NUM_LEVELS
    && (forall l, f :: At(s.levels, l, f) ==> At(t.levels, l, f))
    && (forall l, g :: At(t.levels, l, g) && !At(s.levels, l, g) ==> FlushedOver(s.levels, l, g))
    && t.floor == s.floor && SmallestSnapshot(s) <= SmallestSnapshot(t)
  }

  lemma FlushIsLater(s: State, t: State, t': State, level: nat, f: File)
    requires Structured(t) && Later(s, t) && Flush(t, t', level, f)
    ensures Later(s, t')
  {
    hide Sorted, Newer, HistoryOk, Overlaps, Above;
    AboveAll(t, f);
    forall l, g | At(t'.levels, l, g) && !At(s.levels, l, g)
      ensures FlushedOver(s.levels, l, g)
    {
      if !At(t.levels, l, g) {
        assert l == level && g == f;
        IsFlushedOver(s, t, level, f);
      }
    }
  }

  lemma IsFlushedOver(s: State, t: State, level: nat, f: File)
    requires Later(s, t) && MayPlace(t.levels, level, f)
    requires forall l, g :: At(t.levels, l, g) ==> Above(f, g)
    ensures FlushedOver(s.levels, level, f)
  {
    hide Overlaps, Above;
    forall l': nat, h | At(s.levels, l', h)
      ensures Above(f, h) && (0 < level && l' <= level ==> !Meets(h, f))
    {
      assert At(t.levels, l', h);
      if 0 < level && l' <= level {
        assert NoOverlap(t.levels[l'], Some(f.Smallest().user), Some(f.Largest().user));
      }
    }
  }

  lemma AboveAll(t: State, f: File)
    requires Structured(t) && t.imm.Some? && f.entries == t.imm.value
    ensures forall l, g :: At(t.levels, l, g) ==> Above(f, g)
  {
    FlushedIsAbove(t, f);
  }

  lemma SnapshotsRise(s: State, a: Action, s': State)
    requires SnapshotsOk(s) && Does(s, a, s') && !a.ACompact? && !a.AMove?
    ensures s'.floor == s.floor && SmallestSnapshot(s) <= SmallestSnapshot(s')
  {
  }

  lemma StepIsLater(s: State, t: State, a: Action, t': State)
    requires Structured(t) && Later(s, t) && Does(t, a, t') && !a.ACompact? && !a.AMove?
    ensures Later(s, t')
  {
    hide FlushedOver, LayersOk, HistoryOk;
    SnapshotsRise(t, a, t');
    if a.AFlush? {
      FlushIsLater(s, t, t', a.level, a.file);
    }
  }

  lemma {:induction false} QuietRun(states: seq<State>, actions: seq<Action>, i: nat)
    requires Run(states, actions) && Quiet(actions) && Structured(states[0]) && i < |states|
    ensures Structured(states[i]) && Later(states[0], states[i])
  {
    hide Structured, Later, Does;
    if i == 0 {
      NothingHappened(states[0]);
    } else {
      QuietRun(states, actions, i - 1);
      ActionKeeps(states[i - 1], actions[i - 1], states[i]);
      StepIsLater(states[0], states[i - 1], actions[i - 1], states[i]);
    }
  }

  lemma NothingHappened(s: State)
    requires Structured(s)
    ensures Later(s, s)
  {
  }

  // ----- What the compaction finds when it ends -----

  lemma StillTakes(s: State, t: State, level: nat, inputs0: seq<File>, inputs1: seq<File>)
    requires Later(s, t) && level + 1 < NUM_LEVELS && GoodInputs(s.levels, level, inputs0, inputs1)
    ensures Takes(s.levels, level, inputs0, inputs1) && Takes(t.levels, level, inputs0, inputs1)
  {
    hide Above, NoBoundaryLeft, Overlaps;
    forall f | f in inputs1
      ensures f in s.levels[level + 1] && At(t.levels, level + 1, f)
    {
      assert At(s.levels, level + 1, f);
    }
    forall f | f in inputs0
      ensures f in t.levels[level] && At(s.levels, level, f)
    {
      assert At(s.levels, level, f);
    }
    forall f, g | f in inputs0 && g in t.levels[level] && g !in inputs0
      ensures Above(g, f)
    {
      assert At(t.levels, level, g);
      if !At(s.levels, level, g) {
        assert FlushedOver(s.levels, level, g);
      }
    }
  }

  /** The deeper levels tell the same about the user keys of the inputs. */
  lemma SameBase(s: State, t: State, level: nat, l: nat, f: File, e: Entry)
    requires Later(s, t) && l <= level + 1 && At(s.levels, l, f) && e in f.entries
    ensures BaseLevel(s.levels, level, e.key.user) <==> BaseLevel(t.levels, level, e.key.user)
  {
    hide Above;
    EntryInRange(f, e);
    forall k: nat | level + 2 <= k < NUM_LEVELS
      ensures Covers(s.levels[k], e.key.user) <==> Covers(t.levels[k], e.key.user)
    {
      forall g
        ensures g in s.levels[k] && InRange(g, e.key.user) <==> g in t.levels[k] && InRange(g, e.key.user)
      {
        assert At(s.levels, k, g) ==> At(t.levels, k, g);
        assert At(t.levels, k, g) && !At(s.levels, k, g) ==> FlushedOver(s.levels, k, g);
        assert FlushedOver(s.levels, k, g) ==> !Meets(f, g);
      }
    }
  }

  lemma {:induction false} SameSurvivors(v: Levels, v': Levels, level: nat, input: seq<Entry>, smallest: nat)
    requires |v| == |v'| == NUM_LEVELS
    requires forall e :: e in input ==> (BaseLevel(v, level, e.key.user) <==> BaseLevel(v', level, e.key.user))
    ensures Survivors(v, level, input, smallest) == Survivors(v', level, input, smallest)
  {
    if input != [] {
      SameSurvivors(v, v', level, input[..|input| - 1], smallest);
    }
  }

  lemma StillSurvive(s: State, t: State, level: nat, inputs0: seq<File>, inputs1: seq<File>, input: seq<Entry>, smallest: nat)
    requires Later(s, t) && level + 1 < NUM_LEVELS && Takes(s.levels, level, inputs0, inputs1)
    requires IsMergeOf(input, inputs0 + inputs1)
    ensures Survivors(s.levels, level, input, smallest) == Survivors(t.levels, level, input, smallest)
  {
    hide BaseLevel, FlushedOver;
    forall e | e in input
      ensures BaseLevel(s.levels, level, e.key.user) <==> BaseLevel(t.levels, level, e.key.user)
    {
      var f :| f in inputs0 + inputs1 && e in f.entries;
      if f in inputs0 {
        assert At(s.levels, level, f);
        SameBase(s, t, level, level, f, e);
      } else {
        assert At(s.levels, level + 1, f);
        SameBase(s, t, level, level + 1, f, e);
      }
    }
    SameSurvivors(s.levels, t.levels, level, input, smallest);
  }

  // ----- The compaction -----

  /** A compaction that chose its inputs in the first state and ends in the last. */
  ghost predicate Interrupted(states: seq<State>, actions: seq<Action>, s': State, level: nat,
                              inputs0: seq<File>, inputs1: seq<File>, input: seq<Entry>, outputs: seq<File>) {
    && Run(states, actions) && Quiet(actions)
    && var s, t := states[0], states[|actions|];
    && |s.levels| == |t.levels| == NUM_LEVELS && level + 1 < NUM_LEVELS && GoodInputs(s.levels, level, inputs0, inputs1)
    && IsMergeOf(input, inputs0 + inputs1)
    && Flatten(EntriesOf(outputs)) == Survivors(s.levels, level, input, SmallestSnapshot(s))
    && NewNumbers(t, outputs, s'.nextFileNumber)
    && PushedDown(t.levels, level, inputs0, inputs1, outputs, s'.levels)
    && s' == t.(levels := s'.levels, nextFileNumber := s'.nextFileNumber, floor := SmallestSnapshot(s))
  }

  /** Two files of a level that are not separate. */
  lemma Overlapped(t: State, s': State, level: nat, inputs1: seq<File>, outputs: seq<File>)
    requires LayersOk(t) && level + 1 < NUM_LEVELS && |s'.levels| == NUM_LEVELS
    requires forall f :: f in inputs1 ==> f in t.levels[level + 1]
    requires NewNumbers(t, outputs, s'.nextFileNumber)
    requires FILES.IsSaved(t.levels[level + 1], outputs, Numbers(inputs1), s'.levels[level + 1])
    requires !Fit(t.levels[level + 1], inputs1, outputs)
    ensures !WellFormed(s'.levels)
  {
    var next, next' := t.levels[level + 1], s'.levels[level + 1];
    var o, g :| o in outputs && g in next && g !in inputs1 && !Separate(o, g);
    assert At(t.levels, level + 1, g);
    forall f | f in inputs1
      ensures f.number != o.number && f.number != g.number
    {
      assert At(t.levels, level + 1, f);
      if f.number == g.number {
        SameNumber(next, f, g);
      }
    }
    assert o in next' && g in next' && o != g;
    if Ordered(next') {
      TotallyOrdered(next', o, g);
    }
  }

  /** However it is interrupted, a compaction leaves the levels in order exactly when its outputs
      fit into the version in which it ends; and then it is the compaction that happens at once
      at its end. */
  lemma InterruptedIsCompaction(states: seq<State>, actions: seq<Action>, s': State, level: nat,
                                inputs0: seq<File>, inputs1: seq<File>, input: seq<Entry>, outputs: seq<File>)
    requires Interrupted(states, actions, s', level, inputs0, inputs1, input, outputs) && Structured(states[0])
    ensures var t := states[|actions|];
      var a := ACompact(level, inputs0, inputs1, input, outputs, SmallestSnapshot(states[0]));
      && (Structured(s') <==> Fit(t.levels[level + 1], inputs1, outputs))
      && (Structured(s') ==> Does(t, a, s'))
  {
    hide IsMergeOf, Flatten, Survivors, GoodInputs, Later, NewNumbers, PushedDown, Fit;
    var s, t := states[0], states[|actions|];
    QuietRun(states, actions, |actions|);
    StillTakes(s, t, level, inputs0, inputs1);
    StillSurvive(s, t, level, inputs0, inputs1, input, SmallestSnapshot(s));
    EndsLater(s, t, SmallestSnapshot(s));
    if Fit(t.levels[level + 1], inputs1, outputs) {
      CompactKeepsStructure(t, s', level, inputs0, inputs1, input, outputs, SmallestSnapshot(s));
    } else {
      EndsOverlapping(t, s', level, inputs0, inputs1, outputs);
    }
  }

  lemma EndsLater(s: State, t: State, smallest: nat)
    requires Later(s, t) && SnapshotsOk(s) && smallest == SmallestSnapshot(s)
    ensures t.floor <= smallest <= SmallestSnapshot(t)
  {
  }

  lemma EndsOverlapping(t: State, s': State, level: nat, inputs0: seq<File>, inputs1: seq<File>, outputs: seq<File>)
    requires Structured(t) && level + 1 < NUM_LEVELS && Takes(t.levels, level, inputs0, inputs1)
    requires NewNumbers(t, outputs, s'.nextFileNumber) && PushedDown(t.levels, level, inputs0, inputs1, outputs, s'.levels)
    requires !Fit(t.levels[level + 1], inputs1, outputs)
    ensures !Structured(s')
  {
    hide Fit, NewNumbers, WellFormed;
    Overlapped(t, s', level, inputs1, outputs);
  }

  /** When no gap is between the inputs, nothing is flushed between them. */
  lemma GaplessFits(states: seq<State>, actions: seq<Action>, s': State, level: nat,
                    inputs0: seq<File>, inputs1: seq<File>, input: seq<Entry>, outputs: seq<File>)
    requires Interrupted(states, actions, s', level, inputs0, inputs1, input, outputs) && Structured(states[0])
    requires Gapless(inputs0 + inputs1)
    ensures Fit(states[|actions|].levels[level + 1], inputs1, outputs)
  {
    hide IsMergeOf, Flatten, GoodInputs, Later, NewNumbers, PushedDown, Separate, Gapless;
    var s, t := states[0], states[|actions|];
    QuietRun(states, actions, |actions|);
    StillTakes(s, t, level, inputs0, inputs1);
    OutputsComeFromInputs(s.levels, level, inputs0, inputs1, input, outputs, SmallestSnapshot(s));
    ChosenInputsFit(s.levels, level, inputs0, inputs1, outputs);
    forall o, g | o in outputs && g in t.levels[level + 1] && g !in inputs1
      ensures Separate(o, g)
    {
      if !At(s.levels, level + 1, g) {
        FlushedMisses(s, t, level, inputs0, inputs1, g);
        BesideInputs(inputs0 + inputs1, o, g);
      }
    }
  }

  lemma OutputsComeFromInputs(v: Levels, level: nat, inputs0: seq<File>, inputs1: seq<File>, input: seq<Entry>,
                              outputs: seq<File>, smallest: nat)
    requires |v| == NUM_LEVELS && IsMergeOf(input, inputs0 + inputs1)
    requires Flatten(EntriesOf(outputs)) == Survivors(v, level, input, smallest)
    ensures forall o :: o in outputs ==> ComesFrom(o, inputs0 + inputs1)
  {
    CompactionOutputs(v, level, inputs0, inputs1, input, outputs, smallest);
    forall o, e | o in outputs && e in o.entries
      ensures exists f :: f in inputs0 + inputs1 && e in f.entries
    {
      assert e in EntriesIn(outputs);
    }
  }

  lemma FlushedMisses(s: State, t: State, level: nat, inputs0: seq<File>, inputs1: seq<File>, g: File)
    requires Later(s, t) && level + 1 < NUM_LEVELS && Takes(s.levels, level, inputs0, inputs1)
    requires At(t.levels, level + 1, g) && !At(s.levels, level + 1, g)
    ensures NoOverlap(inputs0 + inputs1, Some(g.Smallest().user), Some(g.Largest().user))
  {
    hide Above;
    assert FlushedOver(s.levels, level + 1, g);
    forall f | f in inputs0 + inputs1
      ensures !Meets(f, g)
    {
      assert At(s.levels, level, f) || At(s.levels, level + 1, f);
    }
  }

  lemma BesideInputs(inputs: seq<File>, o: File, g: File)
    requires Gapless(inputs) && NoOverlap(inputs, Some(g.Smallest().user), Some(g.Largest().user)) && ComesFrom(o, inputs)
    ensures Separate(o, g)
  {
    hide AllBefore, AllAfter, NoOverlap, ComesFrom;
    FileRange(g);
    if AllBefore(inputs, g.Smallest().user) {
      OutputBefore(inputs, o, g.Smallest().user);
    } else {
      OutputAfter(inputs, o, g.Largest().user);
    }
  }

  lemma OutputBefore(inputs: seq<File>, o: File, user: UserKey)
    requires AllBefore(inputs, user) && ComesFrom(o, inputs)
    ensures o.Largest().user < user
  {
    var last := o.entries[|o.entries| - 1];
    assert last in o.entries;
    var f :| f in inputs && last in f.entries;
    EntryInRange(f, last);
  }

  lemma OutputAfter(inputs: seq<File>, o: File, user: UserKey)
    requires AllAfter(inputs, user) && ComesFrom(o, inputs)
    ensures o.Smallest().user > user
  {
    var first := o.entries[0];
    assert first in o.entries;
    var f :| f in inputs && first in f.entries;
    EntryInRange(f, first);
  }
}

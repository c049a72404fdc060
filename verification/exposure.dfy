/** When an interruption of a compaction does harm, told from the state in which the compaction
    begins: a flush can get between two keys of an output exactly when some user key strictly
    between them may be placed at the level of the outputs. */
module Exposure {
  import opened InternalKey
  import opened Version
  import opened Compactions
  import opened VersionChanges
  import opened DropRules
  import opened Sequences
  import opened Database
  import opened Interruptions

  ghost predicate StrictlyInside(f: File, user: UserKey) {
    f.Smallest().user < user < f.Largest().user
  }

  /** A table with this user key alone gets to level `target`, or further. */
  ghost predicate Reaches(v: Levels, target: nat, user: UserKey, maxGrandParentOverlapBytes: nat)
    requires |v| == NUM_LEVELS
  {
    && target <= MAX_MEM_COMPACT_LEVEL && NoOverlap(v[0], Some(user), Some(user))
    && forall l :: 0 <= l < target ==> Passes(v, l, user, user, maxGrandParentOverlapBytes)
  }

  /** Some user key strictly inside an output gets to the level of the outputs. */
  ghost predicate Exposed(v: Levels, level: nat, outputs: seq<File>, maxGrandParentOverlapBytes: nat)
    requires |v| == NUM_LEVELS
  {
    exists o, user :: o in outputs && StrictlyInside(o, user) && Reaches(v, level + 1, user, maxGrandParentOverlapBytes)
  }

  // ----- Without such a key nothing can happen -----

  ghost predicate Distinct(files: seq<File>) {
    forall i, j :: 0 <= i < j < |files| ==> files[i] != files[j]
  }

  lemma {:induction false} SizeOfPart(part: seq<File>, files: seq<File>)
    requires Distinct(part) && forall f :: f in part ==> f in files
    ensures TotalFileSize(part) <= TotalFileSize(files)
  {
    if part != [] {
      assert part[0] in part;
      var k: nat :| k < |files| && files[k] == part[0];
      SizeWithout(files, k);
      var rest := files[..k] + files[k + 1..];
      forall f | f in part[1..]
        ensures f in rest
      {
        assert f in part && f != files[k];
        var j :| 0 <= j < |files| && files[j] == f;
        assert f == rest[if j < k then j else j - 1];
      }
      SizeOfPart(part[1..], rest);
    }
  }

  lemma {:induction false} SizeWithout(files: seq<File>, k: nat)
    requires k < |files|
    ensures TotalFileSize(files) == files[k].size + TotalFileSize(files[..k] + files[k + 1..])
  {
    if k > 0 {
      SizeWithout(files[1..], k - 1);
      assert (files[..k] + files[k + 1..])[1..] == files[1..][..k - 1] + files[1..][k..];
    } else {
      assert files[..0] + files[1..] == files[1..];
    }
  }

  lemma {:induction false} OverlappingIsDistinct(files: seq<File>, begin: Bound, end: Bound)
    requires DistinctNumbers(files)
    ensures Distinct(Overlapping(files, begin, end))
  {
    if files != [] {
      var n := |files| - 1;
      OverlappingIsDistinct(files[..n], begin, end);
      var rest, r := Overlapping(files[..n], begin, end), Overlapping(files, begin, end);
      forall i, j | 0 <= i < j < |r|
        ensures r[i] != r[j]
      {
        assert r[i] == rest[i] && rest[i] in rest;
        var a :| 0 <= a < n && files[..n][a] == rest[i];
        assert files[a].number != files[n].number;
        assert j < |rest| ==> r[j] == rest[j];
      }
    }
  }

  /** What a range passes in a later version, a part of it passed before. */
  lemma PassedBefore(v: Levels, w: Levels, l: nat, smallest: UserKey, largest: UserKey, user: UserKey, limit: nat)
    requires |v| == |w| == NUM_LEVELS && l + 2 < NUM_LEVELS && smallest <= user <= largest
    requires forall k: nat, f :: At(v, k, f) ==> At(w, k, f)
    requires DistinctNumbers(v[l + 2]) && Passes(w, l, smallest, largest, limit)
    ensures Passes(v, l, user, user, limit)
  {
    forall f | f in v[l + 1]
      ensures !Overlaps(f, Some(user), Some(user))
    {
      assert At(v, l + 1, f) && At(w, l + 1, f);
    }
    var part := Overlapping(v[l + 2], Some(user), Some(user));
    OverlappingIsDistinct(v[l + 2], Some(user), Some(user));
    forall f | f in part
      ensures f in Overlapping(w[l + 2], Some(smallest), Some(largest))
    {
      assert At(v, l + 2, f) && At(w, l + 2, f);
    }
    SizeOfPart(part, Overlapping(w[l + 2], Some(smallest), Some(largest)));
  }

  lemma PickedReached(s: State, t: State, level: nat, f: File, limit: nat)
    requires WellFormed(s.levels) && Later(s, t) && level > 0
    requires IsPicked(t.levels, f.Smallest().user, f.Largest().user, limit, level)
    ensures Reaches(s.levels, level, f.Smallest().user, limit)
  {
    hide Passes, FlushedOver;
    FileRange(f);
    var user := f.Smallest().user;
    forall g | g in s.levels[0]
      ensures !Overlaps(g, Some(user), Some(user))
    {
      assert At(s.levels, 0, g) && At(t.levels, 0, g);
    }
    forall l | 0 <= l < level
      ensures Passes(s.levels, l, user, user, limit)
    {
      assert DistinctNumbers(s.levels[l + 2]);
      PassedBefore(s.levels, t.levels, l, f.Smallest().user, f.Largest().user, user, limit);
    }
  }

  /** A file that a flush has added reached its level in the state before. */
  lemma {:induction false} FlushedReached(states: seq<State>, actions: seq<Action>, i: nat, level: nat, f: File, limit: nat)
    requires Run(states, actions) && Quiet(actions) && AsPicked(states, actions, limit) && Structured(states[0])
    requires i < |states| && level > 0 && At(states[i].levels, level, f) && !At(states[0].levels, level, f)
    ensures |states[0].levels| == NUM_LEVELS && Reaches(states[0].levels, level, f.Smallest().user, limit)
  {
    hide Structured, Later, IsPicked, Reaches, LayersOk;
    LevelsOf(states[0]);
    if i > 0 {
      QuietRun(states, actions, i - 1);
      var a := actions[i - 1];
      if At(states[i - 1].levels, level, f) {
        FlushedReached(states, actions, i - 1, level, f, limit);
      } else {
        OnlyFlushAdds(states[i - 1], a, states[i], level, f);
        PickedReached(states[0], states[i - 1], level, f, limit);
      }
    }
  }

  lemma LevelsOf(s: State)
    requires Structured(s)
    ensures WellFormed(s.levels) && |s.levels| == NUM_LEVELS
  {
  }

  lemma OnlyFlushAdds(s: State, a: Action, s': State, level: nat, f: File)
    requires Does(s, a, s') && !a.ACompact? && !a.AMove? && At(s'.levels, level, f) && !At(s.levels, level, f)
    ensures a.AFlush? && a.level == level && a.file == f
  {
  }

  lemma BetweenKeys(inputs: seq<File>, o: File, g: File)
    requires ComesFrom(o, inputs) && NoOverlap(inputs, Some(g.Smallest().user), Some(g.Largest().user)) && !Separate(o, g)
    ensures StrictlyInside(o, g.Smallest().user)
  {
    FileRange(g);
    KeyOfInput(inputs, o, o.entries[0], g);
    KeyOfInput(inputs, o, o.entries[|o.entries| - 1], g);
  }

  lemma KeyOfInput(inputs: seq<File>, o: File, e: Entry, g: File)
    requires ComesFrom(o, inputs) && NoOverlap(inputs, Some(g.Smallest().user), Some(g.Largest().user)) && e in o.entries
    ensures e.key.user < g.Smallest().user || e.key.user > g.Largest().user
  {
    var f :| f in inputs && e in f.entries;
    EntryInRange(f, e);
  }

  /** When no user key strictly inside an output can reach its level, every interruption is harmless. */
  lemma UnexposedFits(states: seq<State>, actions: seq<Action>, s': State, level: nat,
                      inputs0: seq<File>, inputs1: seq<File>, input: seq<Entry>, outputs: seq<File>, limit: nat)
    requires Interrupted(states, actions, s', level, inputs0, inputs1, input, outputs) && Structured(states[0])
    requires AsPicked(states, actions, limit) && !Exposed(states[0].levels, level, outputs, limit)
    ensures Fit(states[|actions|].levels[level + 1], inputs1, outputs) && Structured(s')
  {
    hide IsMergeOf, Flatten, GoodInputs, Later, NewNumbers, PushedDown, Separate, Reaches, StrictlyInside, Structured;
    var s, t := states[0], states[|actions|];
    QuietRun(states, actions, |actions|);
    LevelsOf(s);
    StillTakes(s, t, level, inputs0, inputs1);
    OutputsComeFromInputs(s.levels, level, inputs0, inputs1, input, outputs, SmallestSnapshot(s));
    ChosenInputsFit(s.levels, level, inputs0, inputs1, outputs);
    forall o, g | o in outputs && g in t.levels[level + 1] && g !in inputs1
      ensures Separate(o, g)
    {
      if !At(s.levels, level + 1, g) && !Separate(o, g) {
        FlushedMisses(s, t, level, inputs0, inputs1, g);
        BetweenKeys(inputs0 + inputs1, o, g);
        FlushedReached(states, actions, |actions|, level + 1, g, limit);
      }
    }
    InterruptedIsCompaction(states, actions, s', level, inputs0, inputs1, input, outputs);
  }

  /** Every user key strictly inside the file is in the range of some file down to level `last`. */
  ghost predicate Covered(v: Levels, last: nat, o: File)
    requires last < |v|
  {
    forall user :: StrictlyInside(o, user) ==>
      exists l, f :: 0 <= l <= last && f in v[l] && InRange(f, user)
  }

  /** Outputs without a hole down to their level are not exposed. */
  lemma CoveredIsUnexposed(v: Levels, level: nat, outputs: seq<File>, limit: nat)
    requires |v| == NUM_LEVELS && level + 1 < NUM_LEVELS && forall o :: o in outputs ==> Covered(v, level + 1, o)
    ensures !Exposed(v, level, outputs, limit)
  {
    hide Reaches;
    forall o, user | o in outputs && StrictlyInside(o, user)
      ensures !Reaches(v, level + 1, user, limit)
    {
      assert Covered(v, level + 1, o);
      if Reaches(v, level + 1, user, limit) {
        ReachesMisses(v, level + 1, user, limit);
      }
    }
  }

  lemma ReachesMisses(v: Levels, target: nat, user: UserKey, limit: nat)
    requires |v| == NUM_LEVELS && Reaches(v, target, user, limit)
    ensures forall l, f :: 0 <= l <= target && l < NUM_LEVELS && f in v[l] ==> !InRange(f, user)
  {
    forall l, f | 0 <= l <= target && f in v[l]
      ensures !InRange(f, user)
    {
      if l > 0 {
        assert Passes(v, l - 1, user, user, limit);
      }
    }
  }

  // ----- With such a key something can -----

  lemma PickExists(v: Levels, user: UserKey, limit: nat) returns (level: nat)
    requires |v| == NUM_LEVELS
    ensures IsPicked(v, user, user, limit, level)
    ensures forall target :: target > 0 && Reaches(v, target, user, limit) ==> target <= level
  {
    hide Passes, NoOverlap;
    if !NoOverlap(v[0], Some(user), Some(user)) || !Passes(v, 0, user, user, limit) {
      level := 0;
    } else if !Passes(v, 1, user, user, limit) {
      level := 1;
    } else {
      level := 2;
    }
  }

  /** `t` is `s` after a write of `user`, a switch of memtables, and the flush of `f`. */
  ghost predicate IsFlushOf(s: State, states: seq<State>, actions: seq<Action>, user: UserKey, level: nat, f: File, limit: nat) {
    && Run(states, actions) && Quiet(actions) && AsPicked(states, actions, limit)
    && states[0] == s && Structured(s) && Structured(states[|actions|])
    && var t := states[|actions|];
    && |s.levels| == |t.levels| == NUM_LEVELS && level < NUM_LEVELS
    && t.mem == [] && t.imm == None && t.nextFileNumber == f.number + 1
    && f.Smallest().user == f.Largest().user == user && f.size == 1
    && (forall l :: 0 <= l < NUM_LEVELS && l != level ==> t.levels[l] == s.levels[l])
    && (forall g :: g in t.levels[level] <==> g in s.levels[level] || g == f)
  }

  lemma PlacedExists(v: Levels, level: nat, f: File) returns (v': Levels)
    requires WellFormed(v) && level < NUM_LEVELS && NumbersBelow(v, f.number)
    ensures Placed(v, level, f, v')
  {
    hide WellFormed, Ordered;
    LevelIsSorted(v, level);
    var all := v[level] + [f];
    forall g, h | g in all && h in all
      ensures g == h || FILES.Before(g, h) || FILES.Before(h, g)
    {
      assert g in v[level] ==> At(v, level, g);
      assert h in v[level] ==> At(v, level, h);
    }
    var files := FILES.SavedExists(all, {});
    v' := v[level := files];
  }

  lemma LevelIsSorted(v: Levels, level: nat)
    requires WellFormed(v) && level < NUM_LEVELS
    ensures |v| == NUM_LEVELS && FILES.Sorted(v[level])
  {
    if level == 0 {
      SameOrder(v[0]);
    } else {
      assert Ordered(v[level]);
      OrderedIsSorted(v[level]);
    }
  }

  /** A write of one key, flushed at once, to the level that is picked for it. */
  lemma FlushKey(s: State, user: UserKey, level: nat, number: nat, limit: nat)
    returns (states: seq<State>, actions: seq<Action>, f: File)
    requires Structured(s) && s.mem == [] && s.imm == None && s.lastSequence + 1 < MAX_SEQUENCE_NUMBER
    requires |s.levels| == NUM_LEVELS && IsPicked(s.levels, user, user, limit, level) && s.nextFileNumber <= number
    ensures |actions| == 3 && IsFlushOf(s, states, actions, user, level, f, limit) && f.number == number
    ensures states[3].lastSequence == s.lastSequence + 1 && states[3].floor == s.floor
  {
    hide Structured, IsPicked, Placed;
    var e := Entry(Key(user, s.lastSequence + 1, Value), []);
    f := FileMetaData(number, 1, [e]);
    LevelsOf(s);
    NumbersOf(s, number);
    PickedMeetsNothing(s.levels, user, user, limit, level);
    var v := PlacedExists(s.levels, level, f);
    var s1 := s.(mem := [e], lastSequence := s.lastSequence + 1, history := s.history + {e});
    var s2 := s1.(mem := [], imm := Some([e]));
    var s3 := s2.(imm := None, levels := v, nextFileNumber := number + 1);
    states := [s, s1, s2, s3];
    actions := [AWrite(Operation(user, Value, [])), ASwitchMemTable, AFlush(level, f)];
    assert Elements(s1.mem) == Elements(s.mem) + {e};
    assert Does(s, actions[0], s1) && Does(s1, actions[1], s2);
    FlushDoes(s2, s3, level, f);
    ThreeKeep(s, s1, s2, s3, actions);
    FilesPlaced(s.levels, level, f, v);
    ThreeActions(states, actions);
    assert f.Smallest() == f.Largest() == e.key;
    assert AsPicked(states, actions, limit);
  }

  lemma NumbersOf(s: State, number: nat)
    requires Structured(s) && s.nextFileNumber <= number
    ensures NumbersBelow(s.levels, number)
  {
  }

  lemma FlushDoes(s: State, s': State, level: nat, f: File)
    requires s.imm == Some(f.entries) && |s.levels| == NUM_LEVELS && level <= MAX_MEM_COMPACT_LEVEL
    requires Placed(s.levels, level, f, s'.levels) && s.nextFileNumber <= f.number
    requires level > 0 ==> forall l :: 0 <= l <= level ==> NoOverlap(s.levels[l], Some(f.Smallest().user), Some(f.Largest().user))
    requires s' == s.(imm := None, levels := s'.levels, nextFileNumber := f.number + 1)
    ensures Does(s, AFlush(level, f), s')
  {
  }

  lemma ThreeKeep(s: State, s1: State, s2: State, s3: State, actions: seq<Action>)
    requires Structured(s) && |actions| == 3
    requires Does(s, actions[0], s1) && Does(s1, actions[1], s2) && Does(s2, actions[2], s3)
    ensures Structured(s1) && Structured(s2) && Structured(s3)
  {
    ActionKeeps(s, actions[0], s1);
    ActionKeeps(s1, actions[1], s2);
    ActionKeeps(s2, actions[2], s3);
  }

  lemma FilesPlaced(v: Levels, level: nat, f: File, v': Levels)
    requires |v| == NUM_LEVELS && level < NUM_LEVELS && Placed(v, level, f, v')
    ensures |v'| == NUM_LEVELS && forall l :: 0 <= l < NUM_LEVELS && l != level ==> v'[l] == v[l]
    ensures forall g :: g in v'[level] <==> g in v[level] || g == f
  {
  }

  lemma ThreeActions(states: seq<State>, actions: seq<Action>)
    requires |states| == 4 && |actions| == 3
    requires Does(states[0], actions[0], states[1]) && Does(states[1], actions[1], states[2]) && Does(states[2], actions[2], states[3])
    ensures Run(states, actions)
  {
    hide Does;
  }

  /** A run that adds to the levels only `g`, and files numbered from `number` on. */
  ghost predicate Adds(s: State, states: seq<State>, actions: seq<Action>, level: nat, g: File, number: nat, limit: nat) {
    && Run(states, actions) && Quiet(actions) && AsPicked(states, actions, limit)
    && states[0] == s && Structured(states[|actions|])
    && At(states[|actions|].levels, level, g) && g.number >= number && states[|actions|].nextFileNumber > number
    && forall l: nat, f :: At(states[|actions|].levels, l, f) ==> At(s.levels, l, f) || f.number >= number
  }

  lemma FlushAdds(s: State, states: seq<State>, actions: seq<Action>, user: UserKey, level: nat, f: File, limit: nat)
    requires IsFlushOf(s, states, actions, user, level, f, limit)
    ensures Adds(s, states, actions, level, f, f.number, limit)
  {
    hide Structured, AsPicked, Run;
    LengthOf(states, actions);
    var t := states[|actions|];
    forall l: nat, g | At(t.levels, l, g)
      ensures At(s.levels, l, g) || g.number >= f.number
    {
    }
  }

  lemma RunsConcat(a: seq<State>, as': seq<Action>, b: seq<State>, bs: seq<Action>, limit: nat)
    requires Run(a, as') && Quiet(as') && AsPicked(a, as', limit) && Run(b, bs) && Quiet(bs) && AsPicked(b, bs, limit)
    requires a[|as'|] == b[0]
    ensures Run(a + b[1..], as' + bs) && Quiet(as' + bs) && AsPicked(a + b[1..], as' + bs, limit)
  {
    hide Does, IsPicked;
    var states, actions := a + b[1..], as' + bs;
    forall i | 0 <= i < |actions|
      ensures Does(states[i], actions[i], states[i + 1])
      ensures actions[i] == if i < |as'| then as'[i] else bs[i - |as'|]
      ensures states[i] == if i <= |as'| then a[i] else b[i - |as'|]
      ensures i >= |as'| ==> states[i] == b[i - |as'|]
    {
      if i >= |as'| {
        assert Does(b[i - |as'|], bs[i - |as'|], b[i - |as'| + 1]);
      }
    }
  }

  /** After one key is at the third level, the same key goes to the second. */
  lemma NextStopsAbove(s: State, t: State, user: UserKey, f: File, limit: nat)
    requires |s.levels| == |t.levels| == NUM_LEVELS && WellFormed(t.levels) && limit >= 1
    requires IsPicked(s.levels, user, user, limit, 2) && f.Smallest().user == f.Largest().user == user && f.size == 1
    requires forall l :: 0 <= l < NUM_LEVELS && l != 2 ==> t.levels[l] == s.levels[l]
    requires forall g :: g in t.levels[2] <==> g in s.levels[2] || g == f
    ensures IsPicked(t.levels, user, user, limit, 1)
  {
    assert Passes(s.levels, 0, user, user, limit) && Passes(s.levels, 1, user, user, limit);
    var over := Overlapping(t.levels[2], Some(user), Some(user));
    assert DistinctNumbers(t.levels[2]);
    OverlappingIsDistinct(t.levels[2], Some(user), Some(user));
    assert forall g :: g in over ==> g in [f];
    SizeOfPart(over, [f]);
    assert TotalFileSize([f]) == 1;
    assert f in t.levels[2] && Overlaps(f, Some(user), Some(user));
  }

  /** A user key that gets to a level, or further, can be made to stop there. */
  lemma ReachedLevel(s: State, user: UserKey, target: nat, number: nat, limit: nat)
    returns (states: seq<State>, actions: seq<Action>, g: File)
    requires Structured(s) && s.mem == [] && s.imm == None && s.lastSequence + 2 < MAX_SEQUENCE_NUMBER && limit >= 1
    requires |s.levels| == NUM_LEVELS && target > 0 && Reaches(s.levels, target, user, limit) && s.nextFileNumber <= number
    ensures Adds(s, states, actions, target, g, number, limit) && g.Smallest().user == g.Largest().user == user
  {
    hide Structured, IsPicked, Reaches, Adds;
    ReachesAtMostTwo(s.levels, target, user, limit);
    var level := PickExists(s.levels, user, limit);
    PickedAtMostTwo(s.levels, user, level, limit);
    states, actions, g := FlushKey(s, user, level, number, limit);
    if level == target {
      FlushAdds(s, states, actions, user, level, g, limit);
    } else {
      var t := states[3];
      LevelsOf(t);
      NextStopsAbove(s, t, user, g, limit);
      var b, bs, h := FlushKey(t, user, 1, number + 1, limit);
      TwoAdd(s, states, actions, g, b, bs, h, user, number, limit);
      states, actions, g := states + b[1..], actions + bs, h;
    }
  }

  lemma ReachesAtMostTwo(v: Levels, target: nat, user: UserKey, limit: nat)
    requires |v| == NUM_LEVELS && Reaches(v, target, user, limit)
    ensures target <= 2
  {
  }

  lemma PickedAtMostTwo(v: Levels, user: UserKey, level: nat, limit: nat)
    requires |v| == NUM_LEVELS && IsPicked(v, user, user, limit, level)
    ensures level <= 2
  {
  }

  lemma TwoAdd(s: State, a: seq<State>, as': seq<Action>, f: File, b: seq<State>, bs: seq<Action>, g: File,
               user: UserKey, number: nat, limit: nat)
    requires |as'| == 3 && IsFlushOf(s, a, as', user, 2, f, limit) && f.number == number
    requires IsFlushOf(a[3], b, bs, user, 1, g, limit) && g.number == number + 1 && |bs| == 3
    ensures Adds(s, a + b[1..], as' + bs, 1, g, number, limit)
  {
    hide Structured, AsPicked, Run, Quiet;
    RunsConcat(a, as', b, bs, limit);
    LengthOf(a, as');
    LengthOf(b, bs);
    var t := b[3];
    assert (a + b[1..])[6] == t;
    forall l: nat, h | At(t.levels, l, h)
      ensures At(s.levels, l, h) || h.number >= number
    {
      assert At(a[3].levels, l, h) || h == g;
    }
  }

  lemma LengthOf(states: seq<State>, actions: seq<Action>)
    requires Run(states, actions)
    ensures |states| == |actions| + 1
  {
  }

  // ----- The end of the compaction -----

  lemma PushedExists(v: Levels, level: nat, inputs0: seq<File>, inputs1: seq<File>, outputs: seq<File>) returns (v': Levels)
    requires WellFormed(v) && level + 1 < NUM_LEVELS && DistinctNumbers(outputs)
    requires forall o, g :: o in outputs && g in v[level + 1] ==> o.number != g.number
    ensures PushedDown(v, level, inputs0, inputs1, outputs, v')
  {
    hide WellFormed, Ordered;
    LevelIsSorted(v, level);
    LevelIsSorted(v, level + 1);
    var kept := FILES.SavedExists(v[level], Numbers(inputs0));
    var all := v[level + 1] + outputs;
    forall g, h | g in all && h in all
      ensures g == h || FILES.Before(g, h) || FILES.Before(h, g)
    {
      if g in outputs && h in outputs && g.number == h.number {
        SameNumber(outputs, g, h);
      }
    }
    var next := FILES.SavedExists(all, Numbers(inputs1));
    v' := v[level := kept][level + 1 := next];
  }

  /** What a compaction that begins in `s` will make. */
  ghost predicate Begins(s: State, level: nat, inputs0: seq<File>, inputs1: seq<File>, input: seq<Entry>,
                         outputs: seq<File>, next: nat) {
    && |s.levels| == NUM_LEVELS && level + 1 < NUM_LEVELS && GoodInputs(s.levels, level, inputs0, inputs1)
    && IsMergeOf(input, inputs0 + inputs1)
    && Flatten(EntriesOf(outputs)) == Survivors(s.levels, level, input, SmallestSnapshot(s))
    && NewNumbers(s, outputs, next)
  }

  lemma StillNew(s: State, t: State, outputs: seq<File>, next: nat)
    requires NewNumbers(s, outputs, next) && t.nextFileNumber > next
    requires forall l: nat, f :: At(t.levels, l, f) ==> At(s.levels, l, f) || f.number >= next
    ensures NewNumbers(t, outputs, t.nextFileNumber)
  {
  }

  lemma BetweenIsNotSeparate(o: File, g: File, user: UserKey)
    requires StrictlyInside(o, user) && g.Smallest().user == g.Largest().user == user
    ensures !Separate(o, g)
  {
  }

  lemma NotAnInput(s: State, level: nat, inputs0: seq<File>, inputs1: seq<File>, g: File)
    requires Structured(s) && |s.levels| == NUM_LEVELS && level + 1 < NUM_LEVELS && GoodInputs(s.levels, level, inputs0, inputs1)
    requires g.number >= s.nextFileNumber
    ensures g !in inputs1
  {
    if g in inputs1 {
      assert At(s.levels, level + 1, g);
    }
  }

  /** A user key strictly inside an output that can get to its level: some run leaves the levels
      out of order. */
  lemma ExposedHarms(s: State, level: nat, inputs0: seq<File>, inputs1: seq<File>, input: seq<Entry>,
                     outputs: seq<File>, next: nat, limit: nat)
    returns (states: seq<State>, actions: seq<Action>, s': State)
    requires Structured(s) && s.mem == [] && s.imm == None && s.lastSequence + 2 < MAX_SEQUENCE_NUMBER && limit >= 1
    requires Begins(s, level, inputs0, inputs1, input, outputs, next) && Exposed(s.levels, level, outputs, limit)
    ensures Interrupted(states, actions, s', level, inputs0, inputs1, input, outputs)
    ensures states[0] == s && AsPicked(states, actions, limit) && !Structured(s')
  {
    hide Structured, GoodInputs, IsMergeOf, Flatten, Survivors, NewNumbers, Reaches, AsPicked, StrictlyInside, PushedDown;
    var o, user :| o in outputs && StrictlyInside(o, user) && Reaches(s.levels, level + 1, user, limit);
    NextAfter(s, outputs, next);
    var g;
    states, actions, g := ReachedLevel(s, user, level + 1, next, limit);
    var t := states[|actions|];
    LevelsOf(t);
    StillNew(s, t, outputs, next);
    OutputsApart(t, level, outputs);
    var v := PushedExists(t.levels, level, inputs0, inputs1, outputs);
    s' := t.(levels := v, nextFileNumber := t.nextFileNumber, floor := SmallestSnapshot(s));
    assert Interrupted(states, actions, s', level, inputs0, inputs1, input, outputs);
    BetweenIsNotSeparate(o, g, user);
    NotAnInput(s, level, inputs0, inputs1, g);
    InterruptedIsCompaction(states, actions, s', level, inputs0, inputs1, input, outputs);
  }

  lemma NextAfter(s: State, outputs: seq<File>, next: nat)
    requires NewNumbers(s, outputs, next)
    ensures s.nextFileNumber <= next
  {
  }

  lemma OutputsApart(t: State, level: nat, outputs: seq<File>)
    requires NewNumbers(t, outputs, t.nextFileNumber) && |t.levels| == NUM_LEVELS && level + 1 < NUM_LEVELS
    ensures DistinctNumbers(outputs) && forall o, g :: o in outputs && g in t.levels[level + 1] ==> o.number != g.number
  {
    forall o, g | o in outputs && g in t.levels[level + 1]
      ensures o.number != g.number
    {
      assert At(t.levels, level + 1, g);
    }
  }

  /** A compaction that begins with empty memtables survives every interruption exactly when no
      user key strictly inside an output can get to its level. */
  lemma HarmlessIff(s: State, level: nat, inputs0: seq<File>, inputs1: seq<File>, input: seq<Entry>,
                    outputs: seq<File>, next: nat, limit: nat)
    requires Structured(s) && s.mem == [] && s.imm == None && s.lastSequence + 2 < MAX_SEQUENCE_NUMBER && limit >= 1
    requires Begins(s, level, inputs0, inputs1, input, outputs, next)
    ensures (forall states, actions, s' |
              Interrupted(states, actions, s', level, inputs0, inputs1, input, outputs)
              && states[0] == s && AsPicked(states, actions, limit) :: Structured(s'))
       <==> !Exposed(s.levels, level, outputs, limit)
  {
    hide Structured, Exposed, AsPicked;
    if Exposed(s.levels, level, outputs, limit) {
      var states, actions, s' := ExposedHarms(s, level, inputs0, inputs1, input, outputs, next, limit);
    } else {
      forall states, actions, s' | Interrupted(states, actions, s', level, inputs0, inputs1, input, outputs)
                                   && states[0] == s && AsPicked(states, actions, limit)
        ensures Structured(s')
      {
        UnexposedFits(states, actions, s', level, inputs0, inputs1, input, outputs, limit);
      }
    }
  }
}

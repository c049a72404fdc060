/** A run of the database with a manual compaction that is interrupted by a flush, after which
    two files of one level overlap and a write is not found.  The range to compact holds two
    files of the second level with a gap between them; a memtable with a key in the gap is
    flushed to the third level; then the output of the compaction, which spans the gap, gets
    there too. */
module LostWrite {
  import opened InternalKey
  import opened Sequences
  import opened Version
  import opened Compactions
  import opened DropRules
  import opened VersionBuilder
  import opened VersionChanges
  import opened Database
  import opened Interruptions
  import LostDeletion

  const KEY_A: UserKey := 1.0
  const KEY_M: UserKey := 2.0
  const KEY_Z: UserKey := 3.0

  const A1 := Entry(Key(KEY_A, 1, Value), [1])
  const Z2 := Entry(Key(KEY_Z, 2, Value), [2])
  const A3 := Entry(Key(KEY_A, 3, Value), [3])
  const Z4 := Entry(Key(KEY_Z, 4, Value), [4])
  const M5 := Entry(Key(KEY_M, 5, Value), [5])

  const LOWER_A: File := LostDeletion.Table(1, [A1])
  const LOWER_Z: File := LostDeletion.Table(2, [Z2])
  const UPPER_A: File := LostDeletion.Table(3, [A3])
  const UPPER_Z: File := LostDeletion.Table(4, [Z4])
  const FLUSHED: File := LostDeletion.Table(5, [M5])
  const OUTPUT: File := LostDeletion.Table(6, [A3, Z4])

  function Levels(upper: seq<File>, lower: seq<File>): (v: Levels)
    ensures |v| == NUM_LEVELS
  {
    LostDeletion.Two(upper, lower)
  }

  const BEFORE: seq<State> := [
    State([], None, Levels([], []), 1, 0, [], {}, 0),
    State([A1], None, Levels([], []), 1, 1, [], {A1}, 0),
    State([], Some([A1]), Levels([], []), 1, 1, [], {A1}, 0),
    State([], None, Levels([], [LOWER_A]), 2, 1, [], {A1}, 0),
    State([Z2], None, Levels([], [LOWER_A]), 2, 2, [], {A1, Z2}, 0),
    State([], Some([Z2]), Levels([], [LOWER_A]), 2, 2, [], {A1, Z2}, 0),
    State([], None, Levels([], [LOWER_A, LOWER_Z]), 3, 2, [], {A1, Z2}, 0),
    State([A3], None, Levels([], [LOWER_A, LOWER_Z]), 3, 3, [], {A1, Z2, A3}, 0),
    State([], Some([A3]), Levels([], [LOWER_A, LOWER_Z]), 3, 3, [], {A1, Z2, A3}, 0),
    State([], None, Levels([UPPER_A], [LOWER_A, LOWER_Z]), 4, 3, [], {A1, Z2, A3}, 0),
    State([Z4], None, Levels([UPPER_A], [LOWER_A, LOWER_Z]), 4, 4, [], {A1, Z2, A3, Z4}, 0),
    State([], Some([Z4]), Levels([UPPER_A], [LOWER_A, LOWER_Z]), 4, 4, [], {A1, Z2, A3, Z4}, 0),
    State([], None, Levels([UPPER_A, UPPER_Z], [LOWER_A, LOWER_Z]), 5, 4, [], {A1, Z2, A3, Z4}, 0)]

  const ACTIONS: seq<Action> := [
    AWrite(Operation(KEY_A, Value, [1])), ASwitchMemTable, AFlush(2, LOWER_A),
    AWrite(Operation(KEY_Z, Value, [2])), ASwitchMemTable, AFlush(2, LOWER_Z),
    AWrite(Operation(KEY_A, Value, [3])), ASwitchMemTable, AFlush(1, UPPER_A),
    AWrite(Operation(KEY_Z, Value, [4])), ASwitchMemTable, AFlush(1, UPPER_Z)]

  const DURING: seq<State> := [
    BEFORE[12],
    State([M5], None, BEFORE[12].levels, 5, 5, [], {A1, Z2, A3, Z4, M5}, 0),
    State([], Some([M5]), BEFORE[12].levels, 5, 5, [], {A1, Z2, A3, Z4, M5}, 0),
    State([], None, Levels([UPPER_A, UPPER_Z], [LOWER_A, FLUSHED, LOWER_Z]), 6, 5, [], {A1, Z2, A3, Z4, M5}, 0)]

  const INTERRUPTIONS: seq<Action> := [AWrite(Operation(KEY_M, Value, [5])), ASwitchMemTable, AFlush(2, FLUSHED)]

  const AFTER: State := State([], None, Levels([], [OUTPUT, FLUSHED]), 7, 5, [], {A1, Z2, A3, Z4, M5}, 4)

  // ----- The steps before and during the compaction -----

  lemma FirstBelow()
    ensures Does(BEFORE[2], ACTIONS[2], BEFORE[3])
  {
    assert FILES.IsSaved([], [LOWER_A], {}, [LOWER_A]);
  }

  lemma SecondBelow()
    ensures Does(BEFORE[5], ACTIONS[5], BEFORE[6])
  {
    assert FILES.IsSaved([LOWER_A], [LOWER_Z], {}, [LOWER_A, LOWER_Z]);
  }

  lemma FirstAbove()
    ensures Does(BEFORE[8], ACTIONS[8], BEFORE[9])
  {
    assert FILES.IsSaved([], [UPPER_A], {}, [UPPER_A]);
  }

  lemma SecondAbove()
    ensures Does(BEFORE[11], ACTIONS[11], BEFORE[12])
  {
    assert FILES.IsSaved([UPPER_A], [UPPER_Z], {}, [UPPER_A, UPPER_Z]);
  }

  lemma FlushedBetween()
    ensures Does(DURING[2], INTERRUPTIONS[2], DURING[3])
  {
    assert FILES.IsSaved([LOWER_A, LOWER_Z], [FLUSHED], {}, [LOWER_A, FLUSHED, LOWER_Z]);
  }

  lemma FirstWrites()
    ensures Does(BEFORE[0], ACTIONS[0], BEFORE[1]) && Does(BEFORE[3], ACTIONS[3], BEFORE[4])
  {
  }

  lemma LaterWrites()
    ensures Does(BEFORE[6], ACTIONS[6], BEFORE[7]) && Does(BEFORE[9], ACTIONS[9], BEFORE[10])
  {
  }

  lemma WriteBetween()
    ensures Does(DURING[0], INTERRUPTIONS[0], DURING[1])
  {
  }

  lemma Switches()
    ensures Does(BEFORE[1], ACTIONS[1], BEFORE[2]) && Does(BEFORE[4], ACTIONS[4], BEFORE[5])
    ensures Does(BEFORE[7], ACTIONS[7], BEFORE[8]) && Does(BEFORE[10], ACTIONS[10], BEFORE[11])
    ensures Does(DURING[1], INTERRUPTIONS[1], DURING[2])
  {
  }

  lemma IsRun()
    ensures Run(BEFORE, ACTIONS) && Initial(BEFORE[0])
    ensures Run(DURING, INTERRUPTIONS) && Quiet(INTERRUPTIONS) && DURING[0] == BEFORE[12]
  {
    hide Does;
    FirstWrites();
    LaterWrites();
    WriteBetween();
    Switches();
    FirstBelow();
    SecondBelow();
    FirstAbove();
    SecondAbove();
    FlushedBetween();
  }

  // ----- Where the flushes are placed -----

  lemma PickedBelow()
    ensures IsPicked(BEFORE[2].levels, KEY_A, KEY_A, LostDeletion.LIMIT, 2)
    ensures IsPicked(BEFORE[5].levels, KEY_Z, KEY_Z, LostDeletion.LIMIT, 2)
  {
    hide IsPicked, Overlapping;
    LostDeletion.NothingIn(KEY_A, KEY_A);
    LostDeletion.GoesToThird([], [], KEY_A, KEY_A);
    LostDeletion.OneFile(LOWER_A, KEY_Z, KEY_Z);
    LostDeletion.NothingIn(KEY_Z, KEY_Z);
    LostDeletion.GoesToThird([], [LOWER_A], KEY_Z, KEY_Z);
  }

  lemma PickedAbove()
    ensures IsPicked(BEFORE[8].levels, KEY_A, KEY_A, LostDeletion.LIMIT, 1)
    ensures IsPicked(BEFORE[11].levels, KEY_Z, KEY_Z, LostDeletion.LIMIT, 1)
  {
    hide IsPicked, Overlapping;
    LostDeletion.NothingIn(KEY_A, KEY_A);
    LostDeletion.TwoFiles(LOWER_A, LOWER_Z, KEY_A, KEY_A);
    LostDeletion.GoesToSecond([], [LOWER_A, LOWER_Z], LOWER_A, KEY_A, KEY_A);
    LostDeletion.TwoFiles(LOWER_A, LOWER_Z, KEY_Z, KEY_Z);
    LostDeletion.GoesToSecond([UPPER_A], [LOWER_A, LOWER_Z], LOWER_Z, KEY_Z, KEY_Z);
  }

  lemma BeforeIsPicked()
    ensures AsPicked(BEFORE, ACTIONS, LostDeletion.LIMIT)
  {
    hide IsPicked;
    PickedBelow();
    PickedAbove();
  }

  lemma DuringIsPicked()
    ensures AsPicked(DURING, INTERRUPTIONS, LostDeletion.LIMIT)
  {
    hide IsPicked, Overlapping;
    LostDeletion.TwoFiles(LOWER_A, LOWER_Z, KEY_M, KEY_M);
    LostDeletion.GoesToThird([UPPER_A, UPPER_Z], [LOWER_A, LOWER_Z], KEY_M, KEY_M);
  }

  // ----- The compaction -----

  /** Both files of the second level, as a manual compaction of all keys chooses them. */
  lemma Chosen()
    ensures GoodInputs(BEFORE[12].levels, 1, [UPPER_A, UPPER_Z], [LOWER_A, LOWER_Z])
  {
    hide Isolated, NoBoundaryLeft, MeetsHull;
    Hull();
    Alone();
    assert BEFORE[12].levels[1] == [UPPER_A, UPPER_Z] && BEFORE[12].levels[2] == [LOWER_A, LOWER_Z];
  }

  lemma Hull()
    ensures IsSmallest([UPPER_A, UPPER_Z], A3.key) && IsLargest([UPPER_A, UPPER_Z], Z4.key)
    ensures MeetsHull([LOWER_A, LOWER_Z], [UPPER_A, UPPER_Z], [LOWER_A, LOWER_Z])
  {
    assert UPPER_A in [UPPER_A, UPPER_Z] && UPPER_Z in [UPPER_A, UPPER_Z];
    assert IsSmallest([UPPER_A, UPPER_Z], A3.key) && IsLargest([UPPER_A, UPPER_Z], Z4.key);
    hide IsSmallest, IsLargest, Overlapping;
    Below();
  }

  lemma Alone()
    ensures Isolated([UPPER_A, UPPER_Z], [UPPER_A, UPPER_Z]) && NoBoundaryLeft([UPPER_A, UPPER_Z], [UPPER_A, UPPER_Z])
  {
    Hull();
    hide IsLargest, IsSmallest, MeetsHull;
    var largest := Z4.key;
    assert forall f :: f in [UPPER_A, UPPER_Z] ==> !IsBoundary(f, largest);
  }

  lemma Below()
    ensures Overlapping([LOWER_A, LOWER_Z], Some(KEY_A), Some(KEY_Z)) == [LOWER_A, LOWER_Z]
  {
    assert [LOWER_A, LOWER_Z][..1] == [LOWER_A] && [LOWER_A][..0] == [];
    assert Overlapping([LOWER_A], Some(KEY_A), Some(KEY_Z)) == [LOWER_A];
  }

  lemma Merged()
    ensures IsMergeOf([A3, A1, Z4, Z2], [UPPER_A, UPPER_Z] + [LOWER_A, LOWER_Z])
  {
    var files := [UPPER_A, UPPER_Z] + [LOWER_A, LOWER_Z];
    assert files == [UPPER_A, UPPER_Z, LOWER_A, LOWER_Z];
    assert UPPER_A in files && UPPER_Z in files && LOWER_A in files && LOWER_Z in files;
    assert A3 in UPPER_A.entries && Z4 in UPPER_Z.entries && A1 in LOWER_A.entries && Z2 in LOWER_Z.entries;
  }

  lemma TwoSurvive()
    ensures Survivors(BEFORE[12].levels, 1, [A3, A1, Z4, Z2], 4) == [A3, Z4]
  {
    hide Survivors, BaseLevel;
    var v, input := BEFORE[12].levels, [A3, A1, Z4, Z2];
    NextSurvivor(v, 1, input, 0, 4);
    NextSurvivor(v, 1, input, 1, 4);
    NextSurvivor(v, 1, input, 2, 4);
    NextSurvivor(v, 1, input, 3, 4);
    assert input[..0] == [] && input[..4] == input;
    NothingSurvives(v);
  }

  lemma NothingSurvives(v: Version.Levels)
    requires |v| == NUM_LEVELS
    ensures Survivors(v, 1, [], 4) == []
  {
  }

  lemma OneOutput()
    ensures Flatten(EntriesOf([OUTPUT])) == [A3, Z4]
  {
    assert EntriesOf([OUTPUT]) == [[A3, Z4]] && [[A3, Z4]][..0] == [];
    assert Flatten<Entry>([]) == [];
  }

  lemma TwoNumbers(f: File, g: File)
    ensures Numbers([f, g]) == {f.number, g.number}
  {
    assert [f, g][0].number in Numbers([f, g]) && [f, g][1].number in Numbers([f, g]);
  }

  lemma Pushed()
    ensures PushedDown(DURING[3].levels, 1, [UPPER_A, UPPER_Z], [LOWER_A, LOWER_Z], [OUTPUT], AFTER.levels)
  {
    TwoNumbers(UPPER_A, UPPER_Z);
    TwoNumbers(LOWER_A, LOWER_Z);
    assert FILES.IsSaved([UPPER_A, UPPER_Z], [], {3, 4}, []);
    assert FILES.IsSaved([LOWER_A, FLUSHED, LOWER_Z], [OUTPUT], {1, 2}, [OUTPUT, FLUSHED]);
  }

  lemma IsInterrupted()
    ensures Interrupted(DURING, INTERRUPTIONS, AFTER, 1, [UPPER_A, UPPER_Z], [LOWER_A, LOWER_Z], [A3, A1, Z4, Z2], [OUTPUT])
  {
    hide GoodInputs, IsMergeOf, Survivors, Flatten, PushedDown, Run, Quiet;
    IsRun();
    Chosen();
    Merged();
    TwoSurvive();
    OneOutput();
    Pushed();
  }

  /** The compaction is one that the code may choose, in a state that a run reaches; after it the
      third level is not in order, and every file of it ends at or after M: the search takes the
      first, which does not hold M. */
  lemma WriteIsLost()
    ensures Run(BEFORE, ACTIONS) && Initial(BEFORE[0]) && DURING[0] == BEFORE[12]
    ensures Interrupted(DURING, INTERRUPTIONS, AFTER, 1, [UPPER_A, UPPER_Z], [LOWER_A, LOWER_Z], [A3, A1, Z4, Z2], [OUTPUT])
    ensures AsPicked(BEFORE, ACTIONS, LostDeletion.LIMIT) && AsPicked(DURING, INTERRUPTIONS, LostDeletion.LIMIT)
    ensures !Structured(AFTER) && !Ordered(AFTER.levels[2])
    ensures M5 in Contents(AFTER.levels) && AFTER.levels[2][0] == OUTPUT
    ensures forall f :: f in AFTER.levels[2] ==> Compare(f.Largest(), LookupKey(KEY_M, 5)) >= 0
    ensures forall e :: e in OUTPUT.entries ==> e.key.user != KEY_M
  {
    hide Interrupted, AsPicked;
    IsRun();
    IsInterrupted();
    BeforeIsPicked();
    DuringIsPicked();
    OutOfOrder();
  }

  lemma OutOfOrder()
    ensures !Structured(AFTER) && !Ordered(AFTER.levels[2]) && M5 in Contents(AFTER.levels)
  {
    var level := AFTER.levels[2];
    assert FLUSHED in level && M5 in FLUSHED.entries;
    assert !Precedes(level[0].Largest(), level[1].Smallest());
    assert !Ordered(AFTER.levels[2]);
  }
}

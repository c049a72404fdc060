/** A run of the database, from an empty one, after which a deleted key reads as its old value.
    A compaction cuts its output so that the deletion of C and the older value of C are in two
    files of one level; the next compaction of that level takes only the first of them. */
module LostDeletion {
  import opened InternalKey
  import opened Sequences
  import opened Version
  import opened Compactions
  import opened DropRules
  import opened VersionBuilder
  import opened VersionChanges
  import opened Database

  const KEY_A: UserKey := 1.0
  const KEY_C: UserKey := 3.0

  const OLD_C := Entry(Key(KEY_C, 1, Value), [4])
  const OLD_A := Entry(Key(KEY_A, 2, Value), [2])
  const DELETE_C := Entry(Key(KEY_C, 3, Deletion), [])
  const NEW_A := Entry(Key(KEY_A, 4, Value), [1])

  function Table(number: nat, entries: seq<Entry>): (f: File)
    requires IsTable(FileMetaData(number, 1, entries))
  {
    FileMetaData(number, 1, entries)
  }

  const FIRST: File := Table(1, [OLD_C])
  const SECOND: File := Table(2, [OLD_A, DELETE_C])
  const CUT: File := Table(3, [OLD_A, DELETE_C])
  const REST: File := Table(4, [OLD_C])
  const UPPER: File := Table(5, [NEW_A])
  const OUTPUT: File := Table(6, [NEW_A])

  /** Only the second and the third level are ever used. */
  function Two(upper: seq<File>, lower: seq<File>): (v: Levels)
    ensures |v| == NUM_LEVELS
  {
    [[], upper, lower, [], [], [], []]
  }

  const BOTH := {OLD_C, OLD_A, DELETE_C}
  const ALL := {OLD_C, OLD_A, DELETE_C, NEW_A}

  const STATES: seq<State> := [
    State([], None, Two([], []), 1, 0, [], {}, 0),
    State([OLD_C], None, Two([], []), 1, 1, [], {OLD_C}, 0),
    State([OLD_C], None, Two([], []), 1, 1, [1], {OLD_C}, 0),
    State([], Some([OLD_C]), Two([], []), 1, 1, [1], {OLD_C}, 0),
    State([], None, Two([], [FIRST]), 2, 1, [1], {OLD_C}, 0),
    State([OLD_A], None, Two([], [FIRST]), 2, 2, [1], {OLD_C, OLD_A}, 0),
    State([OLD_A, DELETE_C], None, Two([], [FIRST]), 2, 3, [1], BOTH, 0),
    State([], Some([OLD_A, DELETE_C]), Two([], [FIRST]), 2, 3, [1], BOTH, 0),
    State([], None, Two([SECOND], [FIRST]), 3, 3, [1], BOTH, 0),
    State([], None, Two([], [CUT, REST]), 5, 3, [1], BOTH, 1),
    State([], None, Two([], [CUT, REST]), 5, 3, [], BOTH, 1),
    State([NEW_A], None, Two([], [CUT, REST]), 5, 4, [], ALL, 1),
    State([], Some([NEW_A]), Two([], [CUT, REST]), 5, 4, [], ALL, 1),
    State([], None, Two([UPPER], [CUT, REST]), 6, 4, [], ALL, 1),
    State([], None, Two([], [OUTPUT, REST]), 7, 4, [], ALL, 4)]

  const ACTIONS: seq<Action> := [
    AWrite(Operation(KEY_C, Value, [4])),
    ATakeSnapshot,
    ASwitchMemTable,
    AFlush(2, FIRST),
    AWrite(Operation(KEY_A, Value, [2])),
    AWrite(Operation(KEY_C, Deletion, [])),
    ASwitchMemTable,
    AFlush(1, SECOND),
    ACompact(1, [SECOND], [FIRST], [OLD_A, DELETE_C, OLD_C], [CUT, REST], 1),
    AReleaseSnapshot(0),
    AWrite(Operation(KEY_A, Value, [1])),
    ASwitchMemTable,
    AFlush(1, UPPER),
    ACompact(1, [UPPER], [CUT], [NEW_A, OLD_A, DELETE_C], [OUTPUT], 4)]

  // ----- The small steps -----

  lemma FirstWrites()
    ensures Does(STATES[0], ACTIONS[0], STATES[1]) && Does(STATES[4], ACTIONS[4], STATES[5])
  {
  }

  lemma LaterWrites()
    ensures Does(STATES[5], ACTIONS[5], STATES[6]) && Does(STATES[10], ACTIONS[10], STATES[11])
  {
  }

  lemma Switches()
    ensures Does(STATES[1], ACTIONS[1], STATES[2]) && Does(STATES[2], ACTIONS[2], STATES[3])
    ensures Does(STATES[6], ACTIONS[6], STATES[7]) && Does(STATES[9], ACTIONS[9], STATES[10])
    ensures Does(STATES[11], ACTIONS[11], STATES[12])
  {
  }

  lemma FirstFlushes()
    ensures Does(STATES[3], ACTIONS[3], STATES[4]) && Does(STATES[7], ACTIONS[7], STATES[8])
  {
    assert FILES.IsSaved([], [FIRST], {}, [FIRST]);
    assert FILES.IsSaved([], [SECOND], {}, [SECOND]);
  }

  lemma LaterFlush()
    ensures Does(STATES[12], ACTIONS[12], STATES[13])
  {
    assert FILES.IsSaved([], [UPPER], {}, [UPPER]);
  }

  lemma OneNumber(f: File)
    ensures Numbers([f]) == {f.number}
  {
    assert [f][0].number in Numbers([f]);
  }

  // ----- Where the flushes are placed -----

  /** Ten times the target size of a file. */
  const LIMIT: nat := 10 * 2097152

  lemma Sizes(f: File)
    ensures TotalFileSize([]) == 0 && TotalFileSize([f]) == f.size
  {
  }

  lemma OneFile(f: File, a: UserKey, b: UserKey)
    ensures Overlapping([f], Some(a), Some(b)) == if Overlaps(f, Some(a), Some(b)) then [f] else []
  {
    assert [f][..0] == [];
  }

  lemma TwoFiles(f: File, g: File, a: UserKey, b: UserKey)
    ensures Overlapping([f, g], Some(a), Some(b))
         == (if Overlaps(f, Some(a), Some(b)) then [f] else []) + if Overlaps(g, Some(a), Some(b)) then [g] else []
  {
    assert [f, g][..1] == [f];
    OneFile(f, a, b);
  }

  /** With nothing in the way, to the third level. */
  lemma GoesToThird(upper: seq<File>, lower: seq<File>, a: UserKey, b: UserKey)
    requires NoOverlap(upper, Some(a), Some(b)) && NoOverlap(lower, Some(a), Some(b))
    requires Overlapping(lower, Some(a), Some(b)) == []
    ensures IsPicked(Two(upper, lower), a, b, LIMIT, 2)
  {
    hide NoOverlap, Overlapping;
    var v := Two(upper, lower);
    NothingIn(a, b);
    assert v[0] == [] && v[1] == upper && v[2] == lower && v[3] == [];
    assert Passes(v, 0, a, b, LIMIT) && Passes(v, 1, a, b, LIMIT);
  }

  lemma NothingIn(a: UserKey, b: UserKey)
    ensures NoOverlap([], Some(a), Some(b)) && Overlapping([], Some(a), Some(b)) == [] && TotalFileSize([]) == 0
  {
  }

  /** A file of the third level in the way: to the second. */
  lemma GoesToSecond(upper: seq<File>, lower: seq<File>, f: File, a: UserKey, b: UserKey)
    requires NoOverlap(upper, Some(a), Some(b)) && f in lower && Overlaps(f, Some(a), Some(b))
    requires Overlapping(lower, Some(a), Some(b)) == [f] && f.size <= LIMIT
    ensures IsPicked(Two(upper, lower), a, b, LIMIT, 1)
  {
    hide Overlapping;
    var v := Two(upper, lower);
    NothingIn(a, b);
    Sizes(f);
    assert v[0] == [] && v[1] == upper && v[2] == lower && v[3] == [];
    assert Passes(v, 0, a, b, LIMIT);
  }

  lemma IsPickedRun()
    ensures AsPicked(STATES, ACTIONS, LIMIT)
  {
    hide IsPicked, Overlapping;
    NothingIn(KEY_C, KEY_C);
    GoesToThird([], [], KEY_C, KEY_C);
    NothingIn(KEY_A, KEY_C);
    OneFile(FIRST, KEY_A, KEY_C);
    GoesToSecond([], [FIRST], FIRST, KEY_A, KEY_C);
    NothingIn(KEY_A, KEY_A);
    TwoFiles(CUT, REST, KEY_A, KEY_A);
    GoesToSecond([], [CUT, REST], CUT, KEY_A, KEY_A);
  }

  // ----- The two compactions -----

  /** One file of the upper level with the file of the lower level that its range meets. */
  lemma OneAndOne(f: File, g: File, lower: seq<File>)
    requires Overlapping(lower, Some(f.Smallest().user), Some(f.Largest().user)) == [g]
    ensures MeetsHull(lower, [f], [g]) && Takes(Two([f], lower), 1, [f], [g])
  {
    hide Isolated, NoBoundaryLeft, MeetsHull;
    Alone(f);
    Meets(f, g, lower);
    assert g in [g];
    assert Two([f], lower)[1] == [f] && Two([f], lower)[2] == lower;
  }

  lemma FirstFits()
    ensures Fit([FIRST], [FIRST], [CUT, REST]) && NewNumbers(STATES[8], [CUT, REST], 5)
  {
  }

  lemma SecondFits()
    ensures Fit([CUT, REST], [CUT], [OUTPUT]) && NewNumbers(STATES[13], [OUTPUT], 7)
  {
  }

  lemma Alone(f: File)
    ensures Isolated([f], [f]) && NoBoundaryLeft([f], [f])
    ensures IsSmallest([f], f.Smallest()) && IsLargest([f], f.Largest())
  {
    assert f in [f];
    FileRange(f);
    var largest := f.Largest();
    assert forall g :: g in [f] ==> !IsBoundary(g, largest);
    assert IsLargest([f], largest);
  }

  lemma Meets(f: File, g: File, lower: seq<File>)
    requires Overlapping(lower, Some(f.Smallest().user), Some(f.Largest().user)) == [g]
    ensures MeetsHull(lower, [f], [g])
  {
    hide IsSmallest, IsLargest, Overlapping;
    Alone(f);
  }

  lemma FirstMeets()
    ensures Overlapping([FIRST], Some(KEY_A), Some(KEY_C)) == [FIRST]
  {
    assert [FIRST][..0] == [];
  }

  lemma SecondMeets()
    ensures Overlapping([CUT, REST], Some(KEY_A), Some(KEY_A)) == [CUT]
  {
    assert [CUT, REST][..1] == [CUT] && [CUT][..0] == [];
    assert Overlapping([CUT], Some(KEY_A), Some(KEY_A)) == [CUT];
  }

  lemma FirstMerge()
    ensures IsMergeOf([OLD_A, DELETE_C, OLD_C], [SECOND] + [FIRST])
  {
    assert [SECOND] + [FIRST] == [SECOND, FIRST];
    assert SECOND in [SECOND, FIRST] && FIRST in [SECOND, FIRST];
    assert OLD_A in SECOND.entries && DELETE_C in SECOND.entries && OLD_C in FIRST.entries;
  }

  lemma SecondMerge()
    ensures IsMergeOf([NEW_A, OLD_A, DELETE_C], [UPPER] + [CUT])
  {
    assert [UPPER] + [CUT] == [UPPER, CUT];
    assert UPPER in [UPPER, CUT] && CUT in [UPPER, CUT];
    assert NEW_A in UPPER.entries && OLD_A in CUT.entries && DELETE_C in CUT.entries;
  }

  /** Three entries go through the drop rules one after the other. */
  lemma Three(v: Levels, input: seq<Entry>, snapshot: nat)
    requires |v| == NUM_LEVELS && |input| == 3
    ensures Survivors(v, 1, input, snapshot)
         == (if Kept(v, 1, input, 0, snapshot) then [input[0]] else [])
            + (if Kept(v, 1, input, 1, snapshot) then [input[1]] else [])
            + if Kept(v, 1, input, 2, snapshot) then [input[2]] else []
  {
    hide Kept;
    NextSurvivor(v, 1, input, 0, snapshot);
    NextSurvivor(v, 1, input, 1, snapshot);
    NextSurvivor(v, 1, input, 2, snapshot);
    assert input[..0] == [] && input[..3] == input;
  }

  /** Under the old snapshot everything survives. */
  lemma AllSurvive()
    ensures Survivors(Two([SECOND], [FIRST]), 1, [OLD_A, DELETE_C, OLD_C], 1) == [OLD_A, DELETE_C, OLD_C]
  {
    hide Survivors, BaseLevel;
    Three(Two([SECOND], [FIRST]), [OLD_A, DELETE_C, OLD_C], 1);
  }

  lemma FirstOutputs()
    ensures Flatten(EntriesOf([CUT, REST])) == [OLD_A, DELETE_C, OLD_C]
  {
    assert EntriesOf([CUT, REST]) == [[OLD_A, DELETE_C], [OLD_C]];
    assert [[OLD_A, DELETE_C], [OLD_C]][..1] == [[OLD_A, DELETE_C]] && [[OLD_A, DELETE_C]][..0] == [];
    assert Flatten<Entry>([]) == [];
    assert Flatten([[OLD_A, DELETE_C]]) == [OLD_A, DELETE_C];
  }

  lemma NothingDeeper(v: Levels)
    requires |v| == NUM_LEVELS && forall l :: 3 <= l < NUM_LEVELS ==> v[l] == []
    ensures BaseLevel(v, 1, KEY_C)
  {
  }

  /** Without it the deletion is dropped: no deeper level has C. */
  lemma OneSurvives()
    ensures Survivors(Two([UPPER], [CUT, REST]), 1, [NEW_A, OLD_A, DELETE_C], 4) == [NEW_A]
  {
    hide Survivors, BaseLevel;
    NothingDeeper(Two([UPPER], [CUT, REST]));
    Three(Two([UPPER], [CUT, REST]), [NEW_A, OLD_A, DELETE_C], 4);
  }

  lemma SecondOutputs()
    ensures Flatten(EntriesOf([OUTPUT])) == [NEW_A]
  {
    assert EntriesOf([OUTPUT]) == [[NEW_A]] && [[NEW_A]][..0] == [];
    assert Flatten<Entry>([]) == [];
  }

  lemma FirstPush()
    ensures PushedDown(Two([SECOND], [FIRST]), 1, [SECOND], [FIRST], [CUT, REST], Two([], [CUT, REST]))
  {
    OneNumber(SECOND);
    OneNumber(FIRST);
    assert FILES.IsSaved([SECOND], [], {2}, []);
    assert FILES.IsSaved([FIRST], [CUT, REST], {1}, [CUT, REST]);
  }

  lemma SecondPush()
    ensures PushedDown(Two([UPPER], [CUT, REST]), 1, [UPPER], [CUT], [OUTPUT], Two([], [OUTPUT, REST]))
  {
    OneNumber(UPPER);
    OneNumber(CUT);
    assert FILES.IsSaved([UPPER], [], {5}, []);
    assert FILES.IsSaved([CUT, REST], [OUTPUT], {3}, [OUTPUT, REST]);
  }

  lemma FirstCompaction()
    ensures Does(STATES[8], ACTIONS[8], STATES[9]) && Closing(STATES[8], ACTIONS[8])
  {
    hide Takes, MeetsHull, IsMergeOf, Survivors, Flatten, PushedDown, Overlapping, Fit, NewNumbers;
    FirstFits();
    FirstMeets();
    OneAndOne(SECOND, FIRST, [FIRST]);
    FirstMerge();
    AllSurvive();
    FirstOutputs();
    FirstPush();
    assert IsLargest([FIRST], FIRST.Largest()) && !IsBoundary(FIRST, FIRST.Largest());
  }

  lemma SecondCompaction()
    ensures Does(STATES[13], ACTIONS[13], STATES[14])
  {
    hide Takes, MeetsHull, IsMergeOf, Survivors, Flatten, PushedDown, Overlapping, Fit, NewNumbers;
    SecondFits();
    SecondMeets();
    OneAndOne(UPPER, CUT, [CUT, REST]);
    SecondMerge();
    OneSurvives();
    SecondOutputs();
    SecondPush();
  }

  // ----- What the run shows -----

  lemma IsRunOfTheDatabase()
    ensures Run(STATES, ACTIONS) && Initial(STATES[0])
    ensures forall i :: 0 <= i < 13 ==> Closing(STATES[i], ACTIONS[i])
  {
    hide Does, Closing;
    FirstWrites();
    LaterWrites();
    Switches();
    FirstFlushes();
    LaterFlush();
    FirstCompaction();
    SecondCompaction();
    NoOtherCompaction();
  }

  lemma NoOtherCompaction()
    ensures forall i :: 0 <= i < 13 && i != 8 ==> Closing(STATES[i], ACTIONS[i])
  {
  }

  lemma ContentsAfter()
    ensures AllEntries(STATES[14]) == {NEW_A, OLD_C}
  {
    var v: Levels := Two([], [OUTPUT, REST]);
    assert OUTPUT in v[2] && REST in v[2];
    assert NEW_A in OUTPUT.entries && OLD_C in REST.entries;
    forall e | e in Contents(v)
      ensures e in {NEW_A, OLD_C}
    {
      var l, f :| 0 <= l < 7 && f in v[l] && e in f.entries;
    }
  }

  lemma ReadsDiffer()
    ensures Reads(ALL, KEY_C, 4, None) && !Reads({NEW_A, OLD_C}, KEY_C, 4, None)
    ensures Reads({NEW_A, OLD_C}, KEY_C, 4, Some(OLD_C.value))
  {
    assert NewestVisible(ALL, KEY_C, 4, DELETE_C);
    assert NewestVisible({NEW_A, OLD_C}, KEY_C, 4, OLD_C);
  }

  /** Up to the last step of the run all reads are right; after it a read of C at the last
      sequence number, which the deletion of C should answer, finds the value from before. */
  lemma DeletionComesBack()
    ensures Run(STATES, ACTIONS) && Initial(STATES[0]) && AsPicked(STATES, ACTIONS, LIMIT)
    ensures Invariant(STATES[13]) && !ReadsOk(STATES[14])
    ensures DELETE_C in STATES[14].history && STATES[14].lastSequence == 4
    ensures Reads(AllEntries(STATES[13]), KEY_C, 4, None)
    ensures Reads(AllEntries(STATES[14]), KEY_C, 4, Some(OLD_C.value))
  {
    hide Does, Closing, Structured, Reads, AllEntries, AsPicked;
    IsRunOfTheDatabase();
    IsPickedRun();
    var states, actions := STATES[..14], ACTIONS[..13];
    assert ClosingRun(states, actions);
    RunKeepsReads(states, actions, 13);
    ContentsAfter();
    ReadsDiffer();
  }
}

/** A run in which all reads are right, until a crash: the dropped deletion of LostDeletion is
    covered by a newer value in the memtable, and comes to light when the log of that is lost. */
module LostInCrash {
  import opened InternalKey
  import opened Sequences
  import opened Version
  import opened Compactions
  import opened DropRules
  import opened VersionChanges
  import opened Database
  import opened Crashes
  import opened LostDeletion

  const NEW_C := Entry(Key(KEY_C, 5, Value), [9])

  const WRITTEN := State([NEW_C], None, Two([UPPER], [CUT, REST]), 6, 5, [], ALL + {NEW_C}, 1)
  const COMPACTED := State([NEW_C], None, Two([], [OUTPUT, REST]), 7, 5, [], ALL + {NEW_C}, 5)
  const REOPENED := State([], None, Two([], [OUTPUT, REST]), 7, 5, [], ALL, 5)

  /** The run of LostDeletion, with a value of C written before its last compaction. */
  const RUN: seq<State> := STATES[..14] + [WRITTEN, COMPACTED]
  const DONE: seq<Action> := ACTIONS[..13] + [
    AWrite(Operation(KEY_C, Value, [9])),
    ACompact(1, [UPPER], [CUT], [NEW_A, OLD_A, DELETE_C], [OUTPUT], 5)]

  lemma LastWrite()
    ensures Does(STATES[13], DONE[13], WRITTEN)
  {
    assert Elements([NEW_C]) == Elements([]) + {NEW_C};
  }

  lemma OneSurvivesAgain()
    ensures Survivors(Two([UPPER], [CUT, REST]), 1, [NEW_A, OLD_A, DELETE_C], 5) == [NEW_A]
  {
    hide Survivors, BaseLevel;
    NothingDeeper(Two([UPPER], [CUT, REST]));
    Three(Two([UPPER], [CUT, REST]), [NEW_A, OLD_A, DELETE_C], 5);
  }

  lemma StillFits()
    ensures Fit([CUT, REST], [CUT], [OUTPUT]) && NewNumbers(WRITTEN, [OUTPUT], 7)
  {
  }

  lemma LastCompaction()
    ensures Does(WRITTEN, DONE[14], COMPACTED)
  {
    hide Takes, MeetsHull, IsMergeOf, Survivors, Flatten, PushedDown, Overlapping, Fit, NewNumbers;
    StillFits();
    SecondMeets();
    OneAndOne(UPPER, CUT, [CUT, REST]);
    SecondMerge();
    OneSurvivesAgain();
    SecondOutputs();
    SecondPush();
  }

  lemma IsRun()
    ensures Run(RUN, DONE) && Initial(RUN[0])
  {
    hide Does;
    IsRunOfTheDatabase();
    LastWrite();
    LastCompaction();
    forall i | 0 <= i < 15
      ensures Does(RUN[i], DONE[i], RUN[i + 1])
    {
      if i < 13 {
        assert Does(STATES[i], ACTIONS[i], STATES[i + 1]);
      }
    }
  }

  /** The newer value is newer than the deletion that is dropped. */
  lemma NothingToSee()
    ensures !BringsBack(WRITTEN, DONE[14])
  {
    var input, outside := [NEW_A, OLD_A, DELETE_C], Outside(WRITTEN, 1, [UPPER], [CUT]);
    assert NEW_C in WRITTEN.mem && NEW_C in outside && Visible(NEW_C, KEY_C, 5);
    forall i | 0 <= i < 3
      ensures !Resurrects(WRITTEN.levels, 1, outside, input, i, 5)
    {
    }
  }

  lemma AllReadsRight(i: nat)
    requires i < 16
    ensures Invariant(RUN[i])
  {
    hide Does, Closing, Structured, ReadsOk, BringsBack;
    IsRunOfTheDatabase();
    IsRun();
    if i < 14 {
      var states, actions := STATES[..i + 1], ACTIONS[..i];
      assert ClosingRun(states, actions);
      RunKeepsReads(states, actions, i);
    } else {
      AllReadsRight(i - 1);
      assert Does(RUN[i - 1], DONE[i - 1], RUN[i]);
      assert i == 14 ==> !BringsBack(RUN[13], DONE[13]) by { NothingBack(RUN[13], DONE[13]); }
      NothingToSee();
      ActionKeepsReadsIff(RUN[i - 1], DONE[i - 1], RUN[i]);
    }
  }

  lemma ReadsAfterCrash()
    ensures Reads(ALL, KEY_C, 5, None) && Reads({NEW_A, OLD_C}, KEY_C, 5, Some(OLD_C.value))
    ensures !Reads({NEW_A, OLD_C}, KEY_C, 5, None)
  {
    assert NewestVisible(ALL, KEY_C, 5, DELETE_C);
    assert NewestVisible({NEW_A, OLD_C}, KEY_C, 5, OLD_C);
  }

  /** Reads are right in all states of the run, and wrong after a crash that loses what is in the
      memtable: C, which was deleted before, reads as its first value. */
  lemma ComesBackAfterCrash()
    ensures Run(RUN, DONE) && Initial(RUN[0]) && forall i :: 0 <= i < |RUN| ==> Invariant(RUN[i])
    ensures Crash(Disk(RUN[15], 5, 7), Disk(REOPENED, 5, 7), {}, {}) && DELETE_C in REOPENED.history
    ensures Reads(REOPENED.history, KEY_C, 5, None) && !Reads(AllEntries(REOPENED), KEY_C, 5, None)
    ensures Reads(AllEntries(REOPENED), KEY_C, 5, Some(OLD_C.value))
  {
    hide Does, Invariant, Reads, AllEntries;
    IsRun();
    forall i | 0 <= i < |RUN|
      ensures Invariant(RUN[i])
    {
      AllReadsRight(i);
    }
    ContentsAfter();
    SameContents();
    ReadsAfterCrash();
    assert Flushed(COMPACTED) == ALL;
  }

  lemma SameContents()
    ensures AllEntries(REOPENED) == AllEntries(STATES[14])
  {
  }
}

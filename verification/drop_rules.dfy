/** The rules by which a compaction drops entries (db/db_impl.cc, DoCompactionWork), and
    exactly when they keep every live read. */
module DropRules {
  import opened InternalKey
  import opened Sequences
  import opened Version
  import opened Compactions

  /** Rule (A): the entry before it has the same user key and is already old enough. */
  predicate Hidden(input: seq<Entry>, i: nat, smallestSnapshot: nat)
    requires i < |input|
  {
    i > 0 && input[i - 1].key.user == input[i].key.user && input[i - 1].key.sequence <= smallestSnapshot
  }

  /** The second rule: an old deletion with nothing of its user key further down. */
  ghost predicate Obsolete(v: Levels, level: nat, e: Entry, smallestSnapshot: nat)
    requires |v| == NUM_LEVELS
  {
    e.key.kind.Deletion? && e.key.sequence <= smallestSnapshot && BaseLevel(v, level, e.key.user)
  }

  ghost predicate Kept(v: Levels, level: nat, input: seq<Entry>, i: nat, smallestSnapshot: nat)
    requires |v| == NUM_LEVELS && i < |input|
  {
    !Hidden(input, i, smallestSnapshot) && !Obsolete(v, level, input[i], smallestSnapshot)
  }

  ghost function Survivors(v: Levels, level: nat, input: seq<Entry>, smallestSnapshot: nat): (r: seq<Entry>)
    requires |v| == NUM_LEVELS
    ensures forall e :: e in r <==> exists i :: 0 <= i < |input| && input[i] == e && Kept(v, level, input, i, smallestSnapshot)
  {
    if input == [] then []
    else
      var n := |input| - 1;
      var rest := Survivors(v, level, input[..n], smallestSnapshot);
      assert forall i :: 0 <= i < n ==>
        (Kept(v, level, input, i, smallestSnapshot) <==> Kept(v, level, input[..n], i, smallestSnapshot));
      if Kept(v, level, input, n, smallestSnapshot) then rest + [input[n]] else rest
  }

  lemma {:induction false} SurvivorsAreSorted(v: Levels, level: nat, input: seq<Entry>, smallestSnapshot: nat)
    requires |v| == NUM_LEVELS && Sorted(input)
    ensures Sorted(Survivors(v, level, input, smallestSnapshot))
  {
    if input != [] {
      var n := |input| - 1;
      SurvivorsAreSorted(v, level, input[..n], smallestSnapshot);
      forall e | e in Survivors(v, level, input[..n], smallestSnapshot)
        ensures Precedes(e.key, input[n].key)
      {
        var i :| 0 <= i < n && input[..n][i] == e;
        assert input[i] == e;
      }
    }
  }

  /** What a compaction is to drop: a version that a newer one hides from every live snapshot, or a
      deletion that every live snapshot sees, of a key that no file two or more levels down may have. */
  ghost predicate MayGo(v: Levels, level: nat, input: seq<Entry>, e: Entry, smallestSnapshot: nat)
    requires |v| == NUM_LEVELS
  {
    || (exists newer :: newer in input && newer.key.user == e.key.user
                        && e.key.sequence < newer.key.sequence <= smallestSnapshot)
    || (e.key.kind == Deletion && e.key.sequence <= smallestSnapshot
        && forall l, f :: level + 2 <= l < NUM_LEVELS && f in v[l] ==>
             e.key.user < f.Smallest().user || f.Largest().user < e.key.user)
  }

  /** Exactly the entries that may go are dropped. */
  lemma DroppedIff(v: Levels, level: nat, input: seq<Entry>, e: Entry, smallestSnapshot: nat)
    requires |v| == NUM_LEVELS && Sorted(input) && e in input
    ensures e !in Survivors(v, level, input, smallestSnapshot) <==> MayGo(v, level, input, e, smallestSnapshot)
  {
    var i :| 0 <= i < |input| && input[i] == e;
    HiddenIff(input, i, smallestSnapshot);
  }

  lemma HiddenIff(input: seq<Entry>, i: nat, smallestSnapshot: nat)
    requires Sorted(input) && i < |input|
    ensures Hidden(input, i, smallestSnapshot) <==>
      exists newer :: newer in input && newer.key.user == input[i].key.user
                      && input[i].key.sequence < newer.key.sequence <= smallestSnapshot
  {
    if Hidden(input, i, smallestSnapshot) {
      assert input[i - 1] in input && Precedes(input[i - 1].key, input[i].key);
    }
    if newer :| newer in input && newer.key.user == input[i].key.user
                && input[i].key.sequence < newer.key.sequence <= smallestSnapshot {
      var j :| 0 <= j < |input| && input[j] == newer;
      assert i < j ==> Precedes(input[i].key, input[j].key);
      assert j < i - 1 ==> Precedes(input[j].key, input[i - 1].key);
      assert Precedes(input[i - 1].key, input[i].key);
    }
  }

  /** The state of the loop before entry `i`: the last user key and its last sequence number. */
  ghost predicate LoopState(input: seq<Entry>, i: nat, currentUserKey: Option<UserKey>, lastSequenceForKey: nat)
    requires i <= |input|
  {
    && currentUserKey == (if i == 0 then None else Some(input[i - 1].key.user))
    && lastSequenceForKey == (if i == 0 then MAX_SEQUENCE_NUMBER else input[i - 1].key.sequence)
  }

  /** One round of the loop: which of the two rules, if any, drops entry `i`. */
  method ShouldDrop(c: Compaction, input: seq<Entry>, i: nat, currentUserKey: Option<UserKey>,
                    lastSequenceForKey: nat, smallestSnapshot: nat)
    returns (drop: bool)
    requires c.Valid() && i < |input| && (c.lastKey.Some? ==> c.lastKey.value <= input[i].key.user)
    requires LoopState(input, i, currentUserKey, lastSequenceForKey) && smallestSnapshot < MAX_SEQUENCE_NUMBER
    modifies c.levelPtrs, c`lastKey
    ensures c.Valid() && (c.lastKey.Some? ==> c.lastKey.value <= input[i].key.user)
    ensures drop <==> !Kept(c.version, c.level, input, i, smallestSnapshot)
  {
    var key := input[i].key;
    var lastSequence := if currentUserKey != Some(key.user) then MAX_SEQUENCE_NUMBER else lastSequenceForKey;
    drop := false;
    if lastSequence <= smallestSnapshot {
      drop := true;
    } else if key.kind == Deletion && key.sequence <= smallestSnapshot {
      drop := c.IsBaseLevelForKey(key.user);
    }
  }

  /** DoCompactionWork: the loop over the merged input, with the last user key and its last
      sequence number as state.  Where output files end is left to the two cut decisions. */
  method DoCompactionWork(c: Compaction, input: seq<Entry>, smallestSnapshot: nat) returns (outputs: seq<seq<Entry>>)
    requires c.Valid() && c.lastKey == None
    requires Sorted(input) && smallestSnapshot < MAX_SEQUENCE_NUMBER
    modifies c.levelPtrs, c`lastKey
    ensures forall o :: o in outputs ==> o != []
    ensures Flatten(outputs) == Survivors(c.version, c.level, input, smallestSnapshot)
    ensures Sorted(Flatten(outputs)) && forall e :: e in Flatten(outputs) <==>
              e in input && !MayGo(c.version, c.level, input, e, smallestSnapshot)
  {
    outputs := [];
    var building := [];
    var currentUserKey: Option<UserKey> := None;
    var lastSequenceForKey := MAX_SEQUENCE_NUMBER;
    assert input[..0] == [];
    for i := 0 to |input|
      invariant c.Valid()
      invariant c.lastKey.Some? ==> i > 0 && c.lastKey.value <= input[i - 1].key.user
      invariant LoopState(input, i, currentUserKey, lastSequenceForKey)
      invariant forall o :: o in outputs ==> o != []
      invariant Flatten(outputs) + building == Survivors(c.version, c.level, input[..i], smallestSnapshot)
    {
      outputs, building := CloseAnywhere(outputs, building);  // ShouldStopBefore
      var drop := ShouldDrop(c, input, i, currentUserKey, lastSequenceForKey, smallestSnapshot);
      currentUserKey := Some(input[i].key.user);
      lastSequenceForKey := input[i].key.sequence;
      NextSurvivor(c.version, c.level, input, i, smallestSnapshot);
      if !drop {
        assert Flatten(outputs) + (building + [input[i]]) == Flatten(outputs) + building + [input[i]];
        building := building + [input[i]];
        outputs, building := CloseAnywhere(outputs, building);  // the file is big enough
      }
    }
    assert input[..|input|] == input;
    outputs := Close(outputs, building);
    SurvivorsAreSorted(c.version, c.level, input, smallestSnapshot);
    forall e | e in input
      ensures e !in Flatten(outputs) <==> MayGo(c.version, c.level, input, e, smallestSnapshot)
    {
      DroppedIff(c.version, c.level, input, e, smallestSnapshot);
    }
  }

  /** FinishCompactionOutputFile, when an output file is open. */
  method Close(outputs: seq<seq<Entry>>, building: seq<Entry>) returns (closed: seq<seq<Entry>>)
    requires forall o :: o in outputs ==> o != []
    ensures forall o :: o in closed ==> o != []
    ensures Flatten(closed) == Flatten(outputs) + building
  {
    closed := outputs;
    if building != [] {
      closed := outputs + [building];
      assert closed[..|outputs|] == outputs;
    }
  }

  /** The decision to end an output file, taken anywhere. */
  method CloseAnywhere(outputs: seq<seq<Entry>>, building: seq<Entry>)
    returns (outputs': seq<seq<Entry>>, building': seq<Entry>)
    requires forall o :: o in outputs ==> o != []
    ensures forall o :: o in outputs' ==> o != []
    ensures Flatten(outputs') + building' == Flatten(outputs) + building
  {
    outputs', building' := outputs, building;
    var stop: bool := *;
    if stop {
      outputs' := Close(outputs, building);
      building' := [];
    }
  }

  lemma NextSurvivor(v: Levels, level: nat, input: seq<Entry>, i: nat, smallestSnapshot: nat)
    requires |v| == NUM_LEVELS && i < |input|
    ensures Survivors(v, level, input[..i + 1], smallestSnapshot)
         == Survivors(v, level, input[..i], smallestSnapshot)
            + if Kept(v, level, input, i, smallestSnapshot) then [input[i]] else []
  {
    assert input[..i + 1][..i] == input[..i];
  }

  // ----- What the rules mean for reads -----

  lemma NewestIsNotHidden(input: seq<Entry>, i: nat, smallestSnapshot: nat, snapshot: nat)
    requires Sorted(input) && i < |input| && smallestSnapshot <= snapshot
    requires NewestVisible(Elements(input), input[i].key.user, snapshot, input[i])
    ensures !Hidden(input, i, smallestSnapshot)
  {
    if i > 0 {
      assert input[i - 1] in Elements(input);
    }
  }

  /** Once the newest visible entry is an obsolete deletion, nothing of its user key that the
      read could see is kept. */
  lemma DroppedMeansGone(v: Levels, level: nat, input: seq<Entry>, i: nat, smallestSnapshot: nat, snapshot: nat)
    requires |v| == NUM_LEVELS && Sorted(input) && i < |input| && smallestSnapshot <= snapshot
    requires NewestVisible(Elements(input), input[i].key.user, snapshot, input[i])
    requires Obsolete(v, level, input[i], smallestSnapshot)
    ensures NoneVisible(Elements(Survivors(v, level, input, smallestSnapshot)), input[i].key.user, snapshot)
  {
    forall e | e in Survivors(v, level, input, smallestSnapshot)
      ensures !Visible(e, input[i].key.user, snapshot)
    {
      var j :| 0 <= j < |input| && input[j] == e && Kept(v, level, input, j, smallestSnapshot);
      assert input[j] in Elements(input);
      OlderIsHidden(input, i, j, smallestSnapshot);
    }
  }

  lemma OlderIsHidden(input: seq<Entry>, i: nat, j: nat, smallestSnapshot: nat)
    requires Sorted(input) && i < |input| && j < |input| && input[i].key.sequence <= smallestSnapshot
    ensures i < j && input[j].key.user == input[i].key.user ==> Hidden(input, j, smallestSnapshot)
  {
  }

  /** The compaction brings an older value back: entry `i` is dropped as an obsolete deletion,
      and what is left outside the inputs for its user key is an older value. */
  ghost predicate Resurrects(v: Levels, level: nat, outside: set<Entry>, input: seq<Entry>, i: nat, smallestSnapshot: nat)
    requires |v| == NUM_LEVELS && i < |input|
  {
    && !Hidden(input, i, smallestSnapshot) && Obsolete(v, level, input[i], smallestSnapshot)
    && exists o :: NewestVisible(outside, input[i].key.user, smallestSnapshot, o)
                   && o.key.sequence < input[i].key.sequence && o.key.kind.Value?
  }

  lemma SurvivorsAreInputs(v: Levels, level: nat, input: seq<Entry>, smallestSnapshot: nat)
    requires |v| == NUM_LEVELS
    ensures Elements(Survivors(v, level, input, smallestSnapshot)) <= Elements(input)
  {
  }

  /** One read at or after the smallest snapshot. */
  lemma ReadIsPreserved(v: Levels, level: nat, outside: set<Entry>, input: seq<Entry>, smallestSnapshot: nat,
                        user: UserKey, snapshot: nat, r: Option<Bytes>)
    requires |v| == NUM_LEVELS && Sorted(input) && smallestSnapshot <= snapshot
    requires DistinctVersions(outside + Elements(input))
    requires forall i :: 0 <= i < |input| ==> !Resurrects(v, level, outside, input, i, smallestSnapshot)
    ensures Reads(outside + Elements(input), user, snapshot, r)
       <==> Reads(outside + Elements(Survivors(v, level, input, smallestSnapshot)), user, snapshot, r)
  {
    var ins := Elements(input);
    var kept := Elements(Survivors(v, level, input, smallestSnapshot));
    SurvivorsAreInputs(v, level, input, smallestSnapshot);
    NewestVisibleExists(ins, user, snapshot);
    if NoneVisible(ins, user, snapshot) {
      NothingVisibleAdds(outside, ins, user, snapshot, r);
      NothingVisibleAdds(outside, kept, user, snapshot, r);
    } else {
      var e :| NewestVisible(ins, user, snapshot, e);
      var i :| 0 <= i < |input| && input[i] == e;
      NewestIsNotHidden(input, i, smallestSnapshot, snapshot);
      if Obsolete(v, level, e, smallestSnapshot) {
        DroppedMeansGone(v, level, input, i, smallestSnapshot, snapshot);
        NothingVisibleAdds(outside, kept, user, snapshot, r);
        DeletionOverOutside(v, level, outside, input, i, smallestSnapshot, snapshot, r);
      } else {
        assert Kept(v, level, input, i, smallestSnapshot);
        SameNewest(outside, ins, kept, user, snapshot, e, r);
      }
    }
  }

  lemma NothingVisibleAdds(outside: set<Entry>, more: set<Entry>, user: UserKey, snapshot: nat, r: Option<Bytes>)
    requires NoneVisible(more, user, snapshot)
    ensures Reads(outside + more, user, snapshot, r) <==> Reads(outside, user, snapshot, r)
  {
    assert forall e :: NewestVisible(outside + more, user, snapshot, e) <==> NewestVisible(outside, user, snapshot, e);
    assert NoneVisible(outside + more, user, snapshot) <==> NoneVisible(outside, user, snapshot);
  }

  lemma SameNewest(outside: set<Entry>, ins: set<Entry>, kept: set<Entry>, user: UserKey, snapshot: nat,
                   e: Entry, r: Option<Bytes>)
    requires kept <= ins && e in kept && NewestVisible(ins, user, snapshot, e) && DistinctVersions(outside + ins)
    ensures Reads(outside + ins, user, snapshot, r) <==> Reads(outside + kept, user, snapshot, r)
  {
    forall x | NewestVisible(outside + ins, user, snapshot, x)
      ensures NewestVisible(outside + kept, user, snapshot, x)
    {
      assert e in outside + ins;
    }
    forall x | NewestVisible(outside + kept, user, snapshot, x)
      ensures NewestVisible(outside + ins, user, snapshot, x)
    {
      assert e in outside + kept;
    }
    assert e in outside + ins && e in outside + kept && Visible(e, user, snapshot);
  }

  /** With the deletion the read finds nothing; without it the read falls through to what is outside. */
  lemma DeletionOverOutside(v: Levels, level: nat, outside: set<Entry>, input: seq<Entry>, i: nat,
                            smallestSnapshot: nat, snapshot: nat, r: Option<Bytes>)
    requires |v| == NUM_LEVELS && i < |input| && smallestSnapshot <= snapshot
    requires DistinctVersions(outside + Elements(input))
    requires NewestVisible(Elements(input), input[i].key.user, snapshot, input[i])
    requires !Hidden(input, i, smallestSnapshot) && Obsolete(v, level, input[i], smallestSnapshot)
    requires !Resurrects(v, level, outside, input, i, smallestSnapshot)
    ensures Reads(outside + Elements(input), input[i].key.user, snapshot, r)
       <==> Reads(outside, input[i].key.user, snapshot, r)
  {
    var user, e, all := input[i].key.user, input[i], outside + Elements(input);
    assert e in all;
    NewestVisibleExists(outside, user, snapshot);
    if NoneVisible(outside, user, snapshot) {
      assert NewestVisible(all, user, snapshot, e);
      ReadsIsAFunction(all, user, snapshot);
      assert Reads(all, user, snapshot, None) && Reads(outside, user, snapshot, None);
    } else {
      var o :| NewestVisible(outside, user, snapshot, o);
      assert o in all;
      ReadsIsAFunction(all, user, snapshot);
      ReadsIsAFunction(outside, user, snapshot);
      assert Reads(outside, user, snapshot, Answer(o));
      if o.key.sequence >= e.key.sequence {
        assert NewestVisible(all, user, snapshot, o);
        assert Reads(all, user, snapshot, Answer(o));
      } else {
        assert NewestVisible(all, user, snapshot, e);
        assert Reads(all, user, snapshot, None);
        assert NewestVisible(outside, user, smallestSnapshot, o);
      }
    }
  }

  /** The other direction: when an older value comes back, a read changes its answer. */
  lemma ResurrectionIsSeen(v: Levels, level: nat, outside: set<Entry>, input: seq<Entry>, i: nat, smallestSnapshot: nat)
    requires |v| == NUM_LEVELS && Sorted(input) && i < |input|
    requires DistinctVersions(outside + Elements(input))
    requires Resurrects(v, level, outside, input, i, smallestSnapshot)
    ensures exists r ::
              && !Reads(outside + Elements(input), input[i].key.user, smallestSnapshot, r)
              && Reads(outside + Elements(Survivors(v, level, input, smallestSnapshot)), input[i].key.user, smallestSnapshot, r)
  {
    var user, e, ins := input[i].key.user, input[i], Elements(input);
    var kept := Elements(Survivors(v, level, input, smallestSnapshot));
    var o :| NewestVisible(outside, user, smallestSnapshot, o)
             && o.key.sequence < e.key.sequence && o.key.kind.Value?;
    assert NewestVisible(ins, user, smallestSnapshot, e) by {
      forall x | x in ins && Visible(x, user, smallestSnapshot)
        ensures x.key.sequence <= e.key.sequence
      {
        var j :| 0 <= j < |input| && input[j] == x;
        OlderIsHidden(input, j, i, smallestSnapshot);
      }
    }
    assert NewestVisible(outside + ins, user, smallestSnapshot, e);
    assert Reads(outside + ins, user, smallestSnapshot, None);
    ReadsIsAFunction(outside + ins, user, smallestSnapshot);
    DroppedMeansGone(v, level, input, i, smallestSnapshot, smallestSnapshot);
    NothingVisibleAdds(outside, kept, user, smallestSnapshot, Answer(o));
    assert Reads(outside, user, smallestSnapshot, Answer(o));
  }

  ghost predicate PreservesLiveReads(before: set<Entry>, after: set<Entry>, smallestSnapshot: nat) {
    forall user, snapshot, r :: smallestSnapshot <= snapshot ==>
      (Reads(before, user, snapshot, r) <==> Reads(after, user, snapshot, r))
  }

  /** A compaction keeps every live read exactly when no dropped deletion was hiding an older
      value left outside its inputs. */
  lemma LiveReadsPreservedIff(v: Levels, level: nat, outside: set<Entry>, input: seq<Entry>, smallestSnapshot: nat)
    requires |v| == NUM_LEVELS && Sorted(input)
    requires DistinctVersions(outside + Elements(input))
    ensures PreservesLiveReads(outside + Elements(input),
                               outside + Elements(Survivors(v, level, input, smallestSnapshot)), smallestSnapshot)
       <==> forall i :: 0 <= i < |input| ==> !Resurrects(v, level, outside, input, i, smallestSnapshot)
  {
    if forall i :: 0 <= i < |input| ==> !Resurrects(v, level, outside, input, i, smallestSnapshot) {
      forall user, snapshot, r | smallestSnapshot <= snapshot
        ensures Reads(outside + Elements(input), user, snapshot, r)
           <==> Reads(outside + Elements(Survivors(v, level, input, smallestSnapshot)), user, snapshot, r)
      {
        ReadIsPreserved(v, level, outside, input, smallestSnapshot, user, snapshot, r);
      }
    } else {
      var i :| 0 <= i < |input| && Resurrects(v, level, outside, input, i, smallestSnapshot);
      ResurrectionIsSeen(v, level, outside, input, i, smallestSnapshot);
    }
  }
}

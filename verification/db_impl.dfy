/** DBImpl (db/db_impl.cc): the methods that write, read and compact, each tied to one action
    of the state machine. */
module DBImplementation {
  import opened InternalKey
  import opened Sequences
  import opened Version
  import opened Gaps
  import opened Compactions
  import opened VersionBuilder
  import opened VersionChanges
  import opened Database

  // ----- VersionSet::LogAndApply -----

  datatype Edit = Edit(deleted: set<(nat, nat)>, added: seq<(nat, File)>)

  predicate AddsNumber(edit: Edit, level: nat, number: nat) {
    exists i :: 0 <= i < |edit.added| && edit.added[i].0 == level && edit.added[i].1.number == number
  }

  /** Builder::Apply inserts the deleted numbers and then erases the added ones. */
  function DeletedAt(edit: Edit, level: nat): set<nat> {
    set d | d in edit.deleted && d.0 == level && !AddsNumber(edit, level, d.1) :: d.1
  }

  ghost predicate IsAddedAt(edit: Edit, level: nat, f: File) {
    exists i :: 0 <= i < |edit.added| && edit.added[i] == (level, f)
  }

  /** The files the edit adds can be told apart from each other and from the base. */
  ghost predicate Applicable(v: Levels, edit: Edit) {
    && (forall i, j :: 0 <= i < j < |edit.added| && edit.added[i].0 == edit.added[j].0 ==>
          edit.added[i].1.number != edit.added[j].1.number)
    && (forall i, g :: 0 <= i < |edit.added| && edit.added[i].0 < |v| && g in v[edit.added[i].0] ==>
          edit.added[i].1.number != g.number)
  }

  lemma NumbersApart(f: File, files: seq<File>)
    requires forall g :: g in files ==> g.number != f.number
    ensures FILES.Apart(f, files)
  {
  }

  /** Builder::Apply for one level: the set of added files, in order. */
  method AddedFiles(edit: Edit, level: nat) returns (added: seq<File>)
    requires forall i, j :: 0 <= i < j < |edit.added| && edit.added[i].0 == edit.added[j].0 ==>
               edit.added[i].1.number != edit.added[j].1.number
    ensures FILES.Sorted(added)
    ensures forall f :: f in added <==> IsAddedAt(edit, level, f)
  {
    added := [];
    for i := 0 to |edit.added|
      invariant FILES.Sorted(added)
      invariant forall f :: f in added <==> exists j :: 0 <= j < i && edit.added[j] == (level, f)
    {
      if edit.added[i].0 == level {
        var f := edit.added[i].1;
        NumbersApart(f, added);
        added := FILES.Insert(f, added);
      }
    }
  }

  /** Builder::Apply and SaveTo for all levels. */
  method NextVersion(v: Levels, edit: Edit) returns (v': Levels)
    requires |v| == NUM_LEVELS && Applicable(v, edit)
    requires forall l :: 0 <= l < NUM_LEVELS ==> FILES.Sorted(v[l])
    ensures |v'| == NUM_LEVELS
    ensures forall l :: 0 <= l < NUM_LEVELS ==> Saved(v, edit, l, v'[l])
  {
    v' := [];
    for l := 0 to NUM_LEVELS
      invariant |v'| == l
      invariant forall k :: 0 <= k < l ==> Saved(v, edit, k, v'[k])
    {
      var added := AddedFiles(edit, l);
      forall f | f in added
        ensures FILES.Apart(f, v[l])
      {
        NumbersApart(f, v[l]);
      }
      var files := FILES.SaveLevel(v[l], added, DeletedAt(edit, l));
      assert Saved(v, edit, l, files);
      v' := v' + [files];
    }
  }

  /** What one level holds after an edit. */
  ghost predicate Saved(v: Levels, edit: Edit, level: nat, files: seq<File>)
    requires level < |v|
  {
    && FILES.Sorted(files)
    && forall f :: f in files <==> (f in v[level] || IsAddedAt(edit, level, f)) && f.number !in DeletedAt(edit, level)
  }

  lemma UntouchedLevel(v: Levels, edit: Edit, level: nat, files: seq<File>)
    requires level < |v| && FILES.Sorted(v[level]) && Saved(v, edit, level, files)
    requires forall i :: 0 <= i < |edit.added| ==> edit.added[i].0 != level
    requires forall d :: d in edit.deleted ==> d.0 != level
    ensures files == v[level]
  {
    FILES.SortedIsDetermined(files, v[level]);
  }

  lemma LevelsAreSorted(v: Levels)
    requires WellFormed(v)
    ensures forall l :: 0 <= l < NUM_LEVELS ==> FILES.Sorted(v[l])
  {
    forall l | 0 <= l < NUM_LEVELS
      ensures FILES.Sorted(v[l])
    {
      if l == 0 {
        SameOrder(v[0]);
      } else {
        assert Ordered(v[l]);
        OrderedIsSorted(v[l]);
      }
    }
  }

  /** WriteLevel0Table and CompactMemTable: the flushed table at the level picked for it. */
  method InstallFlushed(v: Levels, level: nat, f: File) returns (v': Levels)
    requires WellFormed(v) && level < NUM_LEVELS && NumbersBelow(v, f.number)
    ensures Placed(v, level, f, v')
  {
    var edit := Edit({}, [(level, f)]);
    LevelsAreSorted(v);
    forall g | g in v[level]
      ensures g.number != f.number
    {
      assert At(v, level, g);
    }
    v' := NextVersion(v, edit);
    forall l | 0 <= l < NUM_LEVELS && l != level
      ensures v'[l] == v[l]
    {
      UntouchedLevel(v, edit, l, v'[l]);
    }
    assert edit.added[0] == (level, f);
    assert forall g :: IsAddedAt(edit, level, g) <==> g in [f];
  }

  function Deletions(level: nat, files: seq<File>): set<(nat, nat)> {
    set i | 0 <= i < |files| :: (level, files[i].number)
  }

  /** InstallCompactionResults, and the edit of a trivial move. */
  method InstallPushed(v: Levels, level: nat, inputs0: seq<File>, inputs1: seq<File>, outputs: seq<File>)
    returns (v': Levels)
    requires WellFormed(v) && level + 1 < NUM_LEVELS && DistinctNumbers(outputs)
    requires forall o, g :: o in outputs && g in v[level + 1] ==> o.number != g.number
    requires forall o, g :: o in outputs && g in inputs1 ==> o.number != g.number
    ensures PushedDown(v, level, inputs0, inputs1, outputs, v')
  {
    var edit := Edit(Deletions(level, inputs0) + Deletions(level + 1, inputs1),
                     seq(|outputs|, i requires 0 <= i < |outputs| => (level + 1, outputs[i])));
    LevelsAreSorted(v);
    v' := NextVersion(v, edit);
    forall l | 0 <= l < NUM_LEVELS && l != level && l != level + 1
      ensures v'[l] == v[l]
    {
      UntouchedLevel(v, edit, l, v'[l]);
    }
    PushedEdit(v, level, inputs0, inputs1, outputs, edit, v'[level], v'[level + 1]);
  }

  lemma PushedEdit(v: Levels, level: nat, inputs0: seq<File>, inputs1: seq<File>, outputs: seq<File>,
                   edit: Edit, files: seq<File>, next: seq<File>)
    requires |v| == NUM_LEVELS && level + 1 < NUM_LEVELS
    requires edit.deleted == Deletions(level, inputs0) + Deletions(level + 1, inputs1)
    requires |edit.added| == |outputs| && forall i :: 0 <= i < |outputs| ==> edit.added[i] == (level + 1, outputs[i])
    requires Saved(v, edit, level, files) && Saved(v, edit, level + 1, next)
    requires forall o, g :: o in outputs && g in inputs1 ==> o.number != g.number
    ensures FILES.IsSaved(v[level], [], Numbers(inputs0), files)
    ensures FILES.IsSaved(v[level + 1], outputs, Numbers(inputs1), next)
  {
    forall n | n in Numbers(inputs1)
      ensures !AddsNumber(edit, level + 1, n)
    {
      var g :| g in inputs1 && g.number == n;
      assert forall i :: 0 <= i < |outputs| ==> outputs[i] in outputs;
    }
    DeletionsAt(edit, level, inputs0, inputs1);
    assert forall f :: IsAddedAt(edit, level + 1, f) <==> f in outputs;
    assert forall f :: !IsAddedAt(edit, level, f);
  }

  lemma DeletionsAt(edit: Edit, level: nat, inputs0: seq<File>, inputs1: seq<File>)
    requires edit.deleted == Deletions(level, inputs0) + Deletions(level + 1, inputs1)
    requires forall n :: !AddsNumber(edit, level, n) && (n in Numbers(inputs1) ==> !AddsNumber(edit, level + 1, n))
    ensures DeletedAt(edit, level) == Numbers(inputs0)
    ensures DeletedAt(edit, level + 1) == Numbers(inputs1)
  {
    forall n
      ensures n in DeletedAt(edit, level) <==> n in Numbers(inputs0)
      ensures n in DeletedAt(edit, level + 1) <==> n in Numbers(inputs1)
    {
      if n in Numbers(inputs0) {
        assert (level, n) in edit.deleted;
      }
      if n in Numbers(inputs1) {
        assert (level + 1, n) in edit.deleted;
      }
    }
  }

  // ----- Choosing a compaction -----

  lemma OneFileIsRun(levelFiles: seq<File>, f: File)
    requires Ordered(levelFiles) && f in levelFiles
    ensures IsRun(levelFiles, [f])
  {
    FileRange(f);
    forall g | g in levelFiles
      ensures !(Precedes(f.Largest(), g.Smallest()) && Precedes(g.Largest(), f.Smallest()))
    {
      FileRange(g);
    }
  }

  /** The files that one file drags along leave no gap. */
  lemma DraggedAlong(levelFiles: seq<File>, f: File, lo: Bound, hi: Bound)
    requires LeastClosed(levelFiles, Some(f.Smallest().user), Some(f.Largest().user), lo, hi)
    requires f in Overlapping(levelFiles, lo, hi)
    ensures Gapless(Overlapping(levelFiles, lo, hi))
  {
    hide LeastClosed, Overlapping;
    LeastClosedIsAttached(levelFiles, f.Smallest().user, f.Largest().user, lo, hi);
  }

  /** PickCompaction: one file of a level, on the first level with all files it drags along. */
  method PickCompaction(level: nat, levelFiles: seq<File>, which: nat) returns (inputs: seq<File>)
    requires which < |levelFiles| && (level > 0 ==> Ordered(levelFiles))
    ensures Selectable(level, levelFiles, inputs) && Gapless(inputs)
  {
    var f := levelFiles[which];
    OneFileIsGapless(f);
    if level == 0 {
      ghost var b, e;
      inputs, b, e := GetOverlappingInputs(0, levelFiles, Some(f.Smallest().user), Some(f.Largest().user));
      FileRange(f);
      assert f in levelFiles && Overlaps(f, b, e);
      assert f in inputs;
      DraggedAlong(levelFiles, f, b, e);
    } else {
      inputs := [f];
      OneFileIsRun(levelFiles, f);
    }
  }

  /** CompactRange: the files of a range, after the first level not more than `limit` bytes of them. */
  method CompactRange(level: nat, levelFiles: seq<File>, begin: Bound, end: Bound, limit: nat)
    returns (inputs: seq<File>)
    requires level > 0 ==> Ordered(levelFiles)
    ensures IsRange(level, levelFiles, begin, end, limit, inputs)
    ensures inputs != [] ==> Selectable(level, levelFiles, inputs)
  {
    hide Selectable, LeastClosed;
    if level == 0 {
      inputs := SelectRange(0, levelFiles, begin, end);
    } else {
      var all, _, _ := GetOverlappingInputs(level, levelFiles, begin, end);
      var total := 0;
      var k := 0;
      while k < |all| && (k == 0 || total < limit)
        invariant k <= |all| && total == TotalFileSize(all[..k])
        invariant forall j :: 0 < j < k ==> TotalFileSize(all[..j]) < limit
      {
        OneMoreSize(all, k);
        total := total + all[k].size;
        k := k + 1;
      }
      inputs := all[..k];
      CutIsRange(level, levelFiles, begin, end, limit, all, k);
    }
  }

  /** The files of a range: on the first level of the least range that nothing sticks out of;
      on a later one the first files of the range, up to the one that reaches the limit. */
  ghost predicate IsRange(level: nat, levelFiles: seq<File>, begin: Bound, end: Bound, limit: nat, inputs: seq<File>) {
    if level == 0 then
      exists lo, hi :: LeastClosed(levelFiles, begin, end, lo, hi) && inputs == Overlapping(levelFiles, lo, hi)
    else
      var all := Overlapping(levelFiles, begin, end);
      && inputs <= all && (forall j :: 0 < j < |inputs| ==> TotalFileSize(inputs[..j]) < limit)
      && (inputs != all ==> inputs != [] && TotalFileSize(inputs) >= limit)
  }

  lemma CutIsRange(level: nat, levelFiles: seq<File>, begin: Bound, end: Bound, limit: nat, all: seq<File>, k: nat)
    requires level > 0 && Ordered(levelFiles) && all == Overlapping(levelFiles, begin, end) && k <= |all|
    requires forall j :: 0 < j < k ==> TotalFileSize(all[..j]) < limit
    requires k < |all| ==> k > 0 && TotalFileSize(all[..k]) >= limit
    ensures IsRange(level, levelFiles, begin, end, limit, all[..k])
    ensures all[..k] != [] ==> Selectable(level, levelFiles, all[..k])
  {
    PrefixIsRun(levelFiles, begin, end, k);
    assert forall j :: 0 < j < k ==> all[..k][..j] == all[..j];
    assert k == |all| ==> all[..k] == all;
  }

  // ----- The merged input -----

  /** Two streams in internal-key order made one; equal entries never occur in two files. */
  function MergeTwo(a: seq<Entry>, b: seq<Entry>): (r: seq<Entry>)
    ensures forall e :: e in r <==> e in a || e in b
  {
    if a == [] then b
    else if b == [] then a
    else if Precedes(b[0].key, a[0].key) then
      assert b == [b[0]] + b[1..];
      [b[0]] + MergeTwo(a, b[1..])
    else if Precedes(a[0].key, b[0].key) then
      assert a == [a[0]] + a[1..];
      [a[0]] + MergeTwo(a[1..], b)
    else if a[0] == b[0] then
      assert b == [b[0]] + b[1..];
      MergeTwo(a, b[1..])
    else
      a + b
  }

  lemma {:induction false} MergeTwoIsSorted(a: seq<Entry>, b: seq<Entry>)
    requires Sorted(a) && Sorted(b)
    requires forall x, y :: x in a && y in b && x.key.user == y.key.user && x.key.sequence == y.key.sequence ==> x == y
    ensures Sorted(MergeTwo(a, b))
  {
    if a != [] && b != [] {
      assert a[0] in a && b[0] in b;
      if Precedes(b[0].key, a[0].key) {
        MergeTwoIsSorted(a, b[1..]);
        SmallestInFront(b[0], a, b[1..]);
      } else if Precedes(a[0].key, b[0].key) {
        MergeTwoIsSorted(a[1..], b);
        SmallestInFront(a[0], a[1..], b);
      } else {
        MergeTwoIsSorted(a, b[1..]);
      }
    }
  }

  lemma SmallestInFront(e: Entry, a: seq<Entry>, b: seq<Entry>)
    requires Sorted(MergeTwo(a, b)) && Sorted(a) && Sorted(b)
    requires a != [] ==> Precedes(e.key, a[0].key)
    requires b != [] ==> Precedes(e.key, b[0].key)
    ensures Sorted([e] + MergeTwo(a, b))
  {
    var r := MergeTwo(a, b);
    forall k | 0 <= k < |r|
      ensures Precedes(e.key, r[k].key)
    {
      assert r[k] in r;
    }
  }

  /** What MakeInputIterator yields. */
  method MergeInputs(files: seq<File>) returns (input: seq<Entry>)
    requires DistinctVersions(EntriesIn(files))
    ensures IsMergeOf(input, files)
  {
    input := [];
    for i := 0 to |files|
      invariant Sorted(input)
      invariant forall e :: e in input <==> exists j :: 0 <= j < i && e in files[j].entries
    {
      assert files[i] in files;
      forall x, y | x in input && y in files[i].entries && x.key.user == y.key.user && x.key.sequence == y.key.sequence
        ensures x == y
      {
        var j :| 0 <= j < i && x in files[j].entries;
        assert files[j] in files;
        assert x in EntriesIn(files) && y in EntriesIn(files);
      }
      MergeTwoIsSorted(input, files[i].entries);
      input := MergeTwo(input, files[i].entries);
    }
    forall e
      ensures e in input <==> exists f :: f in files && e in f.entries
    {
      if e in input {
        var j :| 0 <= j < |files| && e in files[j].entries;
        assert files[j] in files;
      }
    }
  }

  ghost predicate NumberedFrom(outputs: seq<File>, n: nat) {
    forall i :: 0 <= i < |outputs| ==> outputs[i].number == n + i
  }

  /** The output files of a compaction, numbered from `n`. */
  function NumberOutputs(outputs: seq<seq<Entry>>, n: nat): (r: seq<File>)
    requires forall i :: 0 <= i < |outputs| ==> IsTable(FileMetaData(n + i, |outputs[i]|, outputs[i]))
    ensures |r| == |outputs| && NumberedFrom(r, n) && EntriesOf(r) == outputs
  {
    seq(|outputs|, i requires 0 <= i < |outputs| => FileMetaData(n + i, |outputs[i]|, outputs[i]))
  }

  lemma OutputsAreTables(outputs: seq<seq<Entry>>, n: nat)
    requires Sorted(Flatten(outputs)) && forall o :: o in outputs ==> o != []
    requires forall e :: e in Flatten(outputs) ==> e.key.sequence <= MAX_SEQUENCE_NUMBER
    ensures forall i :: 0 <= i < |outputs| ==> IsTable(FileMetaData(n + i, |outputs[i]|, outputs[i]))
  {
    forall i | 0 <= i < |outputs|
      ensures IsTable(FileMetaData(n + i, |outputs[i]|, outputs[i]))
    {
      assert outputs[i] in outputs;
      PieceIsSorted(outputs, i);
      forall e | e in outputs[i]
        ensures e.key.sequence <= MAX_SEQUENCE_NUMBER
      {
        FlattenElements(outputs, e);
      }
    }
  }

  lemma {:induction false} PieceIsSorted(outputs: seq<seq<Entry>>, i: nat)
    requires Sorted(Flatten(outputs)) && i < |outputs|
    ensures Sorted(outputs[i])
  {
    var n := |outputs| - 1;
    var front, last := Flatten(outputs[..n]), outputs[n];
    assert Flatten(outputs) == front + last;
    if i == n {
      assert forall k :: 0 <= k < |last| ==> Flatten(outputs)[|front| + k] == last[k];
    } else {
      assert forall k :: 0 <= k < |front| ==> Flatten(outputs)[k] == front[k];
      PieceIsSorted(outputs[..n], i);
    }
  }
}

/** The manifest: the log of version edits (VersionSet in db/version_set.cc).  Replaying it
    gives the files that applying the edits one at a time gave. */
module Manifest {
  import opened InternalKey
  import opened VersionBuilder
  import opened VersionEdits
  import LogFormat
  import opened LogWriter
  import opened LogReader

  type Levels = seq<seq<FileMeta>>

  /** Files in the order of the comparator; `keyOf` reads an encoded internal key. */
  function FilesBy(keyOf: Bytes -> Key): FileView<FileMeta> {
    FileView((f: FileMeta) => keyOf(f.smallest), (f: FileMeta) => f.number)
  }

  // ----- What a history of edits leaves -----

  /** Some edit of the history adds `f` at `level`. */
  ghost predicate Added(h: seq<VersionEdit>, level: nat, f: FileMeta) {
    exists i :: 0 <= i < |h| && (level, f) in h[i].newFiles
  }

  ghost predicate Deleted(h: seq<VersionEdit>, level: nat, number: nat) {
    exists i :: 0 <= i < |h| && (level, number) in h[i].deletedFiles
  }

  ghost predicate Live(h: seq<VersionEdit>, level: nat, f: FileMeta) {
    Added(h, level, f) && !Deleted(h, level, f.number)
  }

  /** A file number is added to a level at most once, and not after or along with its deletion. */
  ghost predicate AddsOnce(h: seq<VersionEdit>) {
    && (forall i, j, a, b ::
          0 <= i < |h| && 0 <= j < |h| && 0 <= a < |h[i].newFiles| && 0 <= b < |h[j].newFiles|
          && h[i].newFiles[a].0 == h[j].newFiles[b].0 && h[i].newFiles[a].1.number == h[j].newFiles[b].1.number
          ==> i == j && a == b)
    && forall i, j, a, d ::
         0 <= i < |h| && 0 <= j <= i && 0 <= a < |h[i].newFiles| && d in h[j].deletedFiles
         ==> d != (h[i].newFiles[a].0, h[i].newFiles[a].1.number)
  }

  /** One level of a version. */
  ghost predicate HoldsLive(keyOf: Bytes -> Key, h: seq<VersionEdit>, l: nat, files: seq<FileMeta>) {
    FilesBy(keyOf).Sorted(files) && forall f :: f in files <==> Live(h, l, f)
  }

  /** The files of the database after the history. */
  ghost predicate IsVersion(keyOf: Bytes -> Key, h: seq<VersionEdit>, v: Levels) {
    && |v| == NUM_LEVELS
    && forall l :: 0 <= l < NUM_LEVELS ==> HoldsLive(keyOf, h, l, v[l])
  }

  lemma VersionIsDetermined(keyOf: Bytes -> Key, h: seq<VersionEdit>, v: Levels, v': Levels)
    requires IsVersion(keyOf, h, v) && IsVersion(keyOf, h, v')
    ensures v == v'
  {
    forall l | 0 <= l < NUM_LEVELS
      ensures v[l] == v'[l]
    {
      assert HoldsLive(keyOf, h, l, v[l]) && HoldsLive(keyOf, h, l, v'[l]);
      FilesBy(keyOf).SortedIsDetermined(v[l], v'[l]);
    }
  }

  lemma AddedOrLater(h: seq<VersionEdit>, edits: seq<VersionEdit>, level: nat, f: FileMeta)
    ensures Added(h + edits, level, f) <==> Added(h, level, f) || Added(edits, level, f)
  {
    if Added(h, level, f) {
      var i :| 0 <= i < |h| && (level, f) in h[i].newFiles;
      assert (h + edits)[i] == h[i];
    }
    if Added(edits, level, f) {
      var i :| 0 <= i < |edits| && (level, f) in edits[i].newFiles;
      assert (h + edits)[|h| + i] == edits[i];
    }
    if Added(h + edits, level, f) {
      var i :| 0 <= i < |h + edits| && (level, f) in (h + edits)[i].newFiles;
      assert (h + edits)[i] == if i < |h| then h[i] else edits[i - |h|];
    }
  }

  lemma DeletedOrLater(h: seq<VersionEdit>, edits: seq<VersionEdit>, level: nat, number: nat)
    ensures Deleted(h + edits, level, number) <==> Deleted(h, level, number) || Deleted(edits, level, number)
  {
    if Deleted(h, level, number) {
      var i :| 0 <= i < |h| && (level, number) in h[i].deletedFiles;
      assert (h + edits)[i] == h[i];
    }
    if Deleted(edits, level, number) {
      var i :| 0 <= i < |edits| && (level, number) in edits[i].deletedFiles;
      assert (h + edits)[|h| + i] == edits[i];
    }
    if Deleted(h + edits, level, number) {
      var i :| 0 <= i < |h + edits| && (level, number) in (h + edits)[i].deletedFiles;
      assert (h + edits)[i] == if i < |h| then h[i] else edits[i - |h|];
    }
  }

  /** Two adds of one number at one level are one. */
  lemma AddedTwice(h: seq<VersionEdit>, i: nat, j: nat, level: nat, f: FileMeta, g: FileMeta)
    requires AddsOnce(h) && i < |h| && j < |h| && (level, f) in h[i].newFiles && (level, g) in h[j].newFiles
    ensures f.number == g.number ==> i == j && f == g
  {
    var a :| 0 <= a < |h[i].newFiles| && h[i].newFiles[a] == (level, f);
    var b :| 0 <= b < |h[j].newFiles| && h[j].newFiles[b] == (level, g);
  }

  /** Nothing that was deleted is added later. */
  lemma NotDeletedBefore(h: seq<VersionEdit>, i: nat, j: nat, level: nat, f: FileMeta)
    requires AddsOnce(h) && j <= i < |h| && (level, f) in h[i].newFiles
    ensures (level, f.number) !in h[j].deletedFiles
  {
    var a :| 0 <= a < |h[i].newFiles| && h[i].newFiles[a] == (level, f);
  }

  lemma LaterIsNotDeleted(h: seq<VersionEdit>, edits: seq<VersionEdit>, level: nat, f: FileMeta)
    requires AddsOnce(h + edits) && Added(edits, level, f)
    ensures !Deleted(h, level, f.number)
  {
    var i :| 0 <= i < |edits| && (level, f) in edits[i].newFiles;
    assert (h + edits)[|h| + i] == edits[i];
    forall j | 0 <= j < |h|
      ensures (level, f.number) !in h[j].deletedFiles
    {
      assert (h + edits)[j] == h[j];
      NotDeletedBefore(h + edits, |h| + i, j, level, f);
    }
  }

  /** What is left of a level after more edits: what was there or is added, but is not deleted. */
  lemma LiveLater(h: seq<VersionEdit>, edits: seq<VersionEdit>, level: nat, f: FileMeta)
    requires AddsOnce(h + edits)
    ensures Live(h + edits, level, f) <==>
              (Live(h, level, f) || Added(edits, level, f)) && !Deleted(edits, level, f.number)
  {
    AddedOrLater(h, edits, level, f);
    DeletedOrLater(h, edits, level, f.number);
    if Added(edits, level, f) {
      LaterIsNotDeleted(h, edits, level, f);
    }
  }

  lemma OnlyAddsOnce(h: seq<VersionEdit>, edits: seq<VersionEdit>, level: nat, f: FileMeta, g: FileMeta)
    requires AddsOnce(h + edits) && Live(h, level, f) && Added(edits, level, g)
    ensures f.number != g.number
  {
    var i :| 0 <= i < |h| && (level, f) in h[i].newFiles;
    var j :| 0 <= j < |edits| && (level, g) in edits[j].newFiles;
    assert (h + edits)[i] == h[i] && (h + edits)[|h| + j] == edits[j];
    AddedTwice(h + edits, i, |h| + j, level, f, g);
  }

  // ----- The builder -----

  /** The added files and the deleted numbers of a level are those of the history. */
  ghost predicate Gathers(keyOf: Bytes -> Key, h: seq<VersionEdit>, l: nat, files: seq<FileMeta>, numbers: set<nat>) {
    && FilesBy(keyOf).Sorted(files)
    && (forall f :: f in files <==> Added(h, l, f))
    && forall n :: n in numbers <==> Deleted(h, l, n)
  }

  /** What the history, and then the first deletions and additions of one more edit, come to. */
  ghost predicate Partly(keyOf: Bytes -> Key, h: seq<VersionEdit>, l: nat, files: seq<FileMeta>, numbers: set<nat>,
                         deletions: seq<(nat, nat)>, additions: seq<(nat, FileMeta)>)
  {
    && FilesBy(keyOf).Sorted(files)
    && (forall f :: f in files <==> Added(h, l, f) || (l, f) in additions)
    && forall n :: n in numbers <==> Deleted(h, l, n) || (l, n) in deletions
  }

  lemma PartlyDeletes(keyOf: Bytes -> Key, h: seq<VersionEdit>, l: nat, files: seq<FileMeta>, numbers: set<nat>,
                      deletions: seq<(nat, nat)>, d: (nat, nat))
    requires Partly(keyOf, h, l, files, numbers, deletions, [])
    ensures Partly(keyOf, h, l, files, if l == d.0 then numbers + {d.1} else numbers, deletions + [d], [])
  {
    forall n
      ensures (l, n) in deletions + [d] <==> (l, n) in deletions || (l == d.0 && n == d.1)
    {
      assert (l, n) == d <==> l == d.0 && n == d.1;
    }
  }

  lemma PartlyAdds(keyOf: Bytes -> Key, h: seq<VersionEdit>, l: nat, files: seq<FileMeta>, numbers: set<nat>,
                   deletions: seq<(nat, nat)>, additions: seq<(nat, FileMeta)>, level: nat, f: FileMeta)
    requires Partly(keyOf, h, l, files, numbers, deletions, additions)
    requires l == level ==> FilesBy(keyOf).Apart(f, files) && f.number !in numbers
    ensures Partly(keyOf, h, l, if l == level then FilesBy(keyOf).Insert(f, files) else files,
                   if l == level then numbers - {f.number} else numbers, deletions, additions + [(level, f)])
  {
    hide FilesBy;
    forall g
      ensures (l, g) in additions + [(level, f)] <==> (l, g) in additions || (l == level && g == f)
    {
      assert (l, g) == (level, f) <==> l == level && g == f;
    }
  }

  /** A file that is added can be told apart from the added ones, and is not among the deleted. */
  lemma AddIsNew(keyOf: Bytes -> Key, h: seq<VersionEdit>, edit: VersionEdit, i: nat, files: seq<FileMeta>, numbers: set<nat>)
    requires AddsOnce(h + [edit]) && i < |edit.newFiles|
    requires Partly(keyOf, h, edit.newFiles[i].0, files, numbers, edit.deletedFiles, edit.newFiles[..i])
    ensures FilesBy(keyOf).Apart(edit.newFiles[i].1, files) && edit.newFiles[i].1.number !in numbers
  {
    var l, f := edit.newFiles[i].0, edit.newFiles[i].1;
    var all := h + [edit];
    assert all[|h|] == edit && edit.newFiles[i] == (l, f);
    forall g | g in files
      ensures g.number != f.number
    {
      if (l, g) in edit.newFiles[..i] {
        var a :| 0 <= a < i && edit.newFiles[..i][a] == (l, g);
        assert all[|h|].newFiles[a].0 == all[|h|].newFiles[i].0;
      } else {
        var j :| 0 <= j < |h| && (l, g) in h[j].newFiles;
        assert all[j] == h[j];
        AddedTwice(all, j, |h|, l, g, f);
      }
    }
    assert Added([edit], l, f) by { assert [edit][0] == edit; }
    LaterIsNotDeleted(h, [edit], l, f);
    NotDeletedBefore(all, |h|, |h|, l, f);
  }

  lemma Gathered(keyOf: Bytes -> Key, h: seq<VersionEdit>, l: nat, files: seq<FileMeta>, numbers: set<nat>, edit: VersionEdit)
    requires Partly(keyOf, h, l, files, numbers, edit.deletedFiles, edit.newFiles)
    ensures Gathers(keyOf, h + [edit], l, files, numbers)
  {
    assert [edit][0] == edit;
    forall f
      ensures f in files <==> Added(h + [edit], l, f)
    {
      AddedOrLater(h, [edit], l, f);
    }
    forall n
      ensures n in numbers <==> Deleted(h + [edit], l, n)
    {
      DeletedOrLater(h, [edit], l, n);
    }
  }

  /** VersionSet::Builder: edits are gathered, and merged with the base files at the end. */
  class Builder {
    const keyOf: Bytes -> Key
    const base: Levels
    var deleted: seq<set<nat>>
    var added: Levels
    ghost var edits: seq<VersionEdit>  // applied so far

    ghost predicate Inv()
      reads this
    {
      && |deleted| == |added| == |base| == NUM_LEVELS
      && forall l :: 0 <= l < NUM_LEVELS ==> Gathers(keyOf, edits, l, added[l], deleted[l])
    }

    constructor (keyOf: Bytes -> Key, base: Levels)
      requires |base| == NUM_LEVELS
      ensures Inv() && edits == [] && this.keyOf == keyOf && this.base == base
    {
      this.keyOf, this.base := keyOf, base;
      deleted, added, edits := seq(NUM_LEVELS, _ => {}), seq(NUM_LEVELS, _ => []), [];
    }

    method Apply(edit: VersionEdit)
      requires Inv() && AddsOnce(edits + [edit])
      requires forall d :: d in edit.deletedFiles ==> d.0 < NUM_LEVELS
      requires forall a :: a in edit.newFiles ==> a.0 < NUM_LEVELS
      modifies this
      ensures Inv() && edits == old(edits) + [edit]
    {
      hide AddsOnce, FilesBy, Partly, Gathers;
      StartPartly(edit);
      for i := 0 to |edit.deletedFiles|
        invariant edits == old(edits) && |deleted| == |added| == NUM_LEVELS
        invariant forall l :: 0 <= l < NUM_LEVELS ==>
          Partly(keyOf, edits, l, added[l], deleted[l], edit.deletedFiles[..i], [])
      {
        var d := edit.deletedFiles[i];
        assert d in edit.deletedFiles;
        forall l | 0 <= l < NUM_LEVELS
          ensures Partly(keyOf, edits, l, added[l], if l == d.0 then deleted[l] + {d.1} else deleted[l],
                         edit.deletedFiles[..i + 1], [])
        {
          PartlyDeletes(keyOf, edits, l, added[l], deleted[l], edit.deletedFiles[..i], d);
          assert edit.deletedFiles[..i + 1] == edit.deletedFiles[..i] + [d];
        }
        deleted := deleted[d.0 := deleted[d.0] + {d.1}];
      }
      assert edit.deletedFiles[..|edit.deletedFiles|] == edit.deletedFiles && edit.newFiles[..0] == [];
      for i := 0 to |edit.newFiles|
        invariant edits == old(edits) && |deleted| == |added| == NUM_LEVELS
        invariant forall l :: 0 <= l < NUM_LEVELS ==>
          Partly(keyOf, edits, l, added[l], deleted[l], edit.deletedFiles, edit.newFiles[..i])
      {
        assert edit.newFiles[i] in edit.newFiles;
        AddFile(edit, i);
      }
      assert edit.newFiles[..|edit.newFiles|] == edit.newFiles;
      forall l | 0 <= l < NUM_LEVELS
        ensures Gathers(keyOf, edits + [edit], l, added[l], deleted[l])
      {
        Gathered(keyOf, edits, l, added[l], deleted[l], edit);
      }
      edits := edits + [edit];
    }

    lemma StartPartly(edit: VersionEdit)
      requires Inv()
      ensures forall l :: 0 <= l < NUM_LEVELS ==>
        Partly(keyOf, edits, l, added[l], deleted[l], edit.deletedFiles[..0], [])
    {
      forall l | 0 <= l < NUM_LEVELS
        ensures Partly(keyOf, edits, l, added[l], deleted[l], edit.deletedFiles[..0], [])
      {
        assert Gathers(keyOf, edits, l, added[l], deleted[l]);
      }
    }

    method AddFile(edit: VersionEdit, i: nat)
      requires |deleted| == |added| == NUM_LEVELS && AddsOnce(edits + [edit])
      requires i < |edit.newFiles| && edit.newFiles[i].0 < NUM_LEVELS
      requires forall l :: 0 <= l < NUM_LEVELS ==>
        Partly(keyOf, edits, l, added[l], deleted[l], edit.deletedFiles, edit.newFiles[..i])
      modifies `deleted, `added
      ensures |deleted| == |added| == NUM_LEVELS
      ensures forall l :: 0 <= l < NUM_LEVELS ==>
        Partly(keyOf, edits, l, added[l], deleted[l], edit.deletedFiles, edit.newFiles[..i + 1])
    {
      hide AddsOnce, FilesBy;
      var level, f := edit.newFiles[i].0, edit.newFiles[i].1;
      AddIsNew(keyOf, edits, edit, i, added[level], deleted[level]);
      assert FilesBy(keyOf).Sorted(added[level]) by {
        assert Partly(keyOf, edits, level, added[level], deleted[level], edit.deletedFiles, edit.newFiles[..i]);
      }
      hide Partly;
      forall l | 0 <= l < NUM_LEVELS
        ensures Partly(keyOf, edits, l, if l == level then FilesBy(keyOf).Insert(f, added[l]) else added[l],
                       if l == level then deleted[l] - {f.number} else deleted[l], edit.deletedFiles, edit.newFiles[..i + 1])
      {
        PartlyAdds(keyOf, edits, l, added[l], deleted[l], edit.deletedFiles, edit.newFiles[..i], level, f);
        assert edit.newFiles[..i + 1] == edit.newFiles[..i] + [(level, f)];
      }
      deleted := deleted[level := deleted[level] - {f.number}];
      added := added[level := FilesBy(keyOf).Insert(f, added[level])];
    }

    /** The base files, which a history `h` left, with all that was gathered. */
    method SaveTo(ghost h: seq<VersionEdit>) returns (v: Levels)
      requires Inv() && IsVersion(keyOf, h, base) && AddsOnce(h + edits)
      ensures IsVersion(keyOf, h + edits, v)
    {
      hide AddsOnce, FilesBy;
      v := [];
      for l := 0 to NUM_LEVELS
        invariant |v| == l
        invariant forall k :: 0 <= k < l ==> HoldsLive(keyOf, h + edits, k, v[k])
      {
        assert Gathers(keyOf, edits, l, added[l], deleted[l]);
        AddedApart(keyOf, h, edits, l, base[l], added[l]);
        var files := FilesBy(keyOf).SaveLevel(base[l], added[l], deleted[l]);
        SavedIsLive(keyOf, h, edits, l, base[l], added[l], deleted[l], files);
        v := v + [files];
      }
    }
  }

  lemma AddedApart(keyOf: Bytes -> Key, h: seq<VersionEdit>, edits: seq<VersionEdit>, l: nat, base: seq<FileMeta>,
                   added: seq<FileMeta>)
    requires AddsOnce(h + edits) && HoldsLive(keyOf, h, l, base) && forall f :: f in added ==> Added(edits, l, f)
    ensures forall f :: f in added ==> FilesBy(keyOf).Apart(f, base)
  {
    forall f, g | f in added && g in base
      ensures f.number != g.number
    {
      OnlyAddsOnce(h, edits, l, g, f);
    }
  }

  lemma SavedIsLive(keyOf: Bytes -> Key, h: seq<VersionEdit>, edits: seq<VersionEdit>, l: nat, base: seq<FileMeta>,
                    added: seq<FileMeta>, deleted: set<nat>, files: seq<FileMeta>)
    requires AddsOnce(h + edits) && HoldsLive(keyOf, h, l, base) && Gathers(keyOf, edits, l, added, deleted)
    requires FilesBy(keyOf).IsSaved(base, added, deleted, files)
    ensures HoldsLive(keyOf, h + edits, l, files)
  {
    hide Live, Added, Deleted, AddsOnce;
    forall f
      ensures f in files <==> Live(h + edits, l, f)
    {
      LiveLater(h, edits, l, f);
    }
  }

  // ----- The manifest of a running database -----

  function Records(h: seq<VersionEdit>): seq<Bytes> {
    seq(|h|, i requires 0 <= i < |h| => Encode(h[i]))
  }

  /** The edit names no other comparator. */
  predicate SameComparator(name: Bytes, edit: VersionEdit) {
    edit.comparator.Some? ==> edit.comparator.value == name
  }

  ghost predicate InLevels(edit: VersionEdit) {
    && (forall d :: d in edit.deletedFiles ==> d.0 < NUM_LEVELS)
    && forall a :: a in edit.newFiles ==> a.0 < NUM_LEVELS
  }

  ghost predicate FilesBelow(h: seq<VersionEdit>, next: nat) {
    forall i, a :: 0 <= i < |h| && a in h[i].newFiles ==> a.1.number < next
  }

  /** Every edit after the snapshot says all four numbers. */
  ghost predicate HasNumbers(edit: VersionEdit) {
    edit.logNumber.Some? && edit.prevLogNumber.Some? && edit.nextFileNumber.Some? && edit.lastSequence.Some?
  }

  /** A history: a first record, which may be a snapshot or that of a new database, and then edits
      as LogAndApply logs them. */
  ghost predicate IsHistory(name: Bytes, h: seq<VersionEdit>) {
    && AddsOnce(h)
    && (forall i :: 0 <= i < |h| ==> IsEncodable(h[i]) && SameComparator(name, h[i]) && InLevels(h[i]))
    && (forall i :: 1 <= i < |h| ==> HasNumbers(h[i]))
    && (forall i :: 0 <= i < |h| && h[i].nextFileNumber.Some? ==> FilesBelow(h[..i + 1], h[i].nextFileNumber.value))
  }

  datatype Error = NotAnEdit | OtherComparator | NoNextFile | NoLogNumber | NoLastSequence

  datatype Recovered =
    | Recovered(files: Levels, nextFileNumber: nat, lastSequence: nat, logNumber: nat, prevLogNumber: nat)
    | Failed(error: Error)

  /** What Recover has read of the four numbers. */
  datatype Numbers = Numbers(nextFile: Option<nat>, lastSequence: Option<nat>, logNumber: Option<nat>, prevLogNumber: Option<nat>)

  const NO_NUMBERS := Numbers(None, None, None, None)

  function Note(n: Numbers, edit: VersionEdit): Numbers {
    Numbers(
      if edit.nextFileNumber.Some? then edit.nextFileNumber else n.nextFile,
      if edit.lastSequence.Some? then edit.lastSequence else n.lastSequence,
      if edit.logNumber.Some? then edit.logNumber else n.logNumber,
      if edit.prevLogNumber.Some? then edit.prevLogNumber else n.prevLogNumber)
  }

  /** The numbers are those of the last edit. */
  function NumbersOf(h: seq<VersionEdit>): Numbers {
    if h == [] then NO_NUMBERS else NumbersIn(h[|h| - 1])
  }

  function NumbersIn(edit: VersionEdit): Numbers {
    Numbers(edit.nextFileNumber, edit.lastSequence, edit.logNumber, edit.prevLogNumber)
  }

  lemma NoteNext(name: Bytes, h: seq<VersionEdit>, i: nat)
    requires IsHistory(name, h) && i < |h|
    ensures NumbersOf(h[..i + 1]) == Note(NumbersOf(h[..i]), h[i])
  {
    hide AddsOnce, IsEncodable, FilesBelow;
    assert h[..i + 1][i] == h[i];
  }

  lemma EditOf(name: Bytes, h: seq<VersionEdit>, i: nat)
    requires IsHistory(name, h) && i < |h|
    ensures Decode(Records(h)[i]) == Some(h[i]) && SameComparator(name, h[i]) && InLevels(h[i])
    ensures AddsOnce(h[..i] + [h[i]]) && h[..i] + [h[i]] == h[..i + 1]
  {
    hide Decode, Encode, IsEncodable;
    EditRoundTrip(h[i]);
    assert h[..i] + [h[i]] == h[..i + 1];
    AddsOncePrefix(h, i + 1);
  }

  /** Some edit names another comparator than the reader's. */
  ghost predicate NamesOther(name: Bytes, h: seq<VersionEdit>) {
    exists i :: 0 <= i < |h| && !SameComparator(name, h[i])
  }

  /** The loop of Recover, by a reader with the comparator `name`. */
  method ApplyAll(name: Bytes, builder: Builder, records: seq<Bytes>, ghost writer: Bytes, ghost h: seq<VersionEdit>)
    returns (n: Numbers, error: Option<Error>)
    requires IsHistory(writer, h) && builder.Inv() && builder.edits == [] && records <= Records(h)
    modifies builder
    ensures error == if NamesOther(name, h[..|records|]) then Some(OtherComparator) else None
    ensures error.None? ==> builder.Inv() && builder.edits == h[..|records|] && n == NumbersOf(h[..|records|])
  {
    hide IsHistory, Decode, Encode, AddsOnce, InLevels;
    n, error := NO_NUMBERS, None;
    for i := 0 to |records|
      invariant builder.Inv() && builder.edits == h[..i] && n == NumbersOf(h[..i]) && error.None?
      invariant !NamesOther(name, h[..i])
    {
      EditOf(writer, h, i);
      var edit := DecodeFrom(records[i]);
      if edit.None? {
        assert false;  // NotAnEdit
      }
      if !SameComparator(name, edit.value) {
        assert h[..|records|][i] == h[i];
        return n, Some(OtherComparator);
      }
      LevelsOf(edit.value);
      builder.Apply(edit.value);
      NoteNext(writer, h, i);
      n := Note(n, edit.value);
    }
  }

  lemma LevelsOf(edit: VersionEdit)
    requires InLevels(edit)
    ensures forall d :: d in edit.deletedFiles ==> d.0 < NUM_LEVELS
    ensures forall a :: a in edit.newFiles ==> a.0 < NUM_LEVELS
  {
  }

  /** What Recover is to answer when it has read the history `h`: no edit may name another comparator,
      three of the numbers must be known, and then the files are those of the history and the numbers
      those of its last edit. */
  ghost predicate IsRecovered(name: Bytes, keyOf: Bytes -> Key, h: seq<VersionEdit>, r: Recovered) {
    var n := NumbersOf(h);
    if NamesOther(name, h) then r == Failed(OtherComparator)
    else if n.nextFile.None? then r == Failed(NoNextFile)
    else if n.logNumber.None? then r == Failed(NoLogNumber)
    else if n.lastSequence.None? then r == Failed(NoLastSequence)
    else
      && r.Recovered? && IsVersion(keyOf, h, r.files) && FilesBelow(h, r.nextFileNumber)
      && r.nextFileNumber == n.nextFile.value + 1 && r.lastSequence == n.lastSequence.value
      && r.logNumber == n.logNumber.value
      && r.prevLogNumber == if n.prevLogNumber.Some? then n.prevLogNumber.value else 0
  }

  /** VersionSet::Recover, on the bytes of a manifest: any prefix of the log of a history. */
  method Recover(name: Bytes, keyOf: Bytes -> Key, manifest: Bytes, ghost writer: Bytes, ghost h: seq<VersionEdit>)
    returns (r: Recovered)
    requires IsHistory(writer, h) && manifest <= LogFormat.LogFile(Records(h))
    ensures IsRecovered(name, keyOf, h[..LogFormat.WholeRecords(Records(h), |manifest|)], r)
  {
    hide LogFormat.WholeRecords, LogFormat.LogFile, LogFormat.ParseFrom, AddsOnce, IsHistory, IsVersion, FilesBelow;
    hide NumbersOf, Encode, FilesBy;
    ghost var n := LogFormat.WholeRecords(Records(h), |manifest|);
    assert manifest == LogFormat.LogFile(Records(h))[..|manifest|];
    LogFormat.CrashPrefix(Records(h), |manifest|, true);
    var reader := new Reader(manifest, true);
    var records := reader.ReadAll();
    assert [] + records == records;
    var builder := new Builder(keyOf, seq(NUM_LEVELS, _ => []));
    var numbers, error := ApplyAll(name, builder, records, writer, h);
    if error.Some? {
      return Failed(error.value);
    }
    if numbers.nextFile.None? {
      return Failed(NoNextFile);
    }
    if numbers.logNumber.None? {
      return Failed(NoLogNumber);
    }
    if numbers.lastSequence.None? {
      return Failed(NoLastSequence);
    }
    LoggedNumbers(writer, h, n);
    EmptyVersion(keyOf);
    assert [] + h[..n] == h[..n];
    var files := builder.SaveTo([]);
    r := Recovered(files, numbers.nextFile.value + 1, numbers.lastSequence.value, numbers.logNumber.value,
                   if numbers.prevLogNumber.Some? then numbers.prevLogNumber.value else 0);
  }

  lemma LoggedNumbers(name: Bytes, h: seq<VersionEdit>, n: nat)
    requires IsHistory(name, h) && n <= |h| && NumbersOf(h[..n]).nextFile.Some?
    ensures FilesBelow(h[..n], NumbersOf(h[..n]).nextFile.value + 1) && AddsOnce(h[..n])
  {
    hide IsEncodable;
    AddsOncePrefix(h, n);
    assert FilesBelow(h[..n - 1 + 1], h[n - 1].nextFileNumber.value);
  }

  lemma AddsOncePrefix(h: seq<VersionEdit>, n: nat)
    requires AddsOnce(h) && n <= |h|
    ensures AddsOnce(h[..n])
  {
  }

  lemma EmptyVersion(keyOf: Bytes -> Key)
    ensures IsVersion(keyOf, [], seq(NUM_LEVELS, _ => []))
  {
    forall l | 0 <= l < NUM_LEVELS
      ensures HoldsLive(keyOf, [], l, [])
    {
    }
  }

  // ----- Logging edits -----

  /** Every file of every level, as WriteSnapshot lists them. */
  function AllFiles(files: Levels, n: nat): seq<(nat, FileMeta)>
    requires n <= |files|
  {
    if n == 0 then [] else AllFiles(files, n - 1) + OfLevel(n - 1, files[n - 1])
  }

  function OfLevel(level: nat, files: seq<FileMeta>): (r: seq<(nat, FileMeta)>)
    ensures |r| == |files|
  {
    seq(|files|, i requires 0 <= i < |files| => (level, files[i]))
  }

  function Snapshot(name: Bytes, files: Levels): VersionEdit {
    CLEAR.(comparator := Some(name), newFiles := AllFiles(files, |files|))
  }

  lemma {:induction false} InAllFiles(files: Levels, n: nat, level: nat, f: FileMeta)
    requires n <= |files|
    ensures (level, f) in AllFiles(files, n) <==> level < n && f in files[level]
  {
    if n > 0 {
      InAllFiles(files, n - 1, level, f);
      var last := OfLevel(n - 1, files[n - 1]);
      if (level, f) in last {
        var i :| 0 <= i < |last| && last[i] == (level, f);
        assert files[n - 1][i] == f;
      }
      if level == n - 1 && f in files[n - 1] {
        var i :| 0 <= i < |files[n - 1]| && files[n - 1][i] == f;
        assert last[i] == (level, f);
      }
    }
  }

  /** A snapshot record stands for the files it was taken of. */
  lemma SnapshotIsVersion(keyOf: Bytes -> Key, name: Bytes, files: Levels)
    requires |files| == NUM_LEVELS && forall l :: 0 <= l < NUM_LEVELS ==> FilesBy(keyOf).Sorted(files[l])
    ensures IsVersion(keyOf, [Snapshot(name, files)], files)
    ensures InLevels(Snapshot(name, files)) && Snapshot(name, files).comparator == Some(name)
  {
    var snapshot := Snapshot(name, files);
    assert [snapshot][0] == snapshot;
    forall l | 0 <= l < NUM_LEVELS
      ensures HoldsLive(keyOf, [snapshot], l, files[l])
    {
      forall f
        ensures f in files[l] <==> Live([snapshot], l, f)
      {
        InAllFiles(files, |files|, l, f);
      }
    }
    forall a | a in snapshot.newFiles
      ensures a.0 < NUM_LEVELS
    {
      InAllFiles(files, |files|, a.0, a.1);
      assert a == (a.0, a.1);
    }
  }

  /** The version that one more edit makes. */
  method ApplyEdit(keyOf: Bytes -> Key, files: Levels, edit: VersionEdit, ghost base: seq<VersionEdit>) returns (v: Levels)
    requires IsVersion(keyOf, base, files) && AddsOnce(base + [edit]) && InLevels(edit)
    ensures IsVersion(keyOf, base + [edit], v)
  {
    hide AddsOnce, FilesBy;
    AddsOnceLast(base, edit);
    LevelsOf(edit);
    var builder := new Builder(keyOf, files);
    assert [] + [edit] == [edit];
    builder.Apply(edit);
    v := builder.SaveTo(base);
  }

  class VersionSet {
    const name: Bytes
    const keyOf: Bytes -> Key
    var files: Levels  // of the current version
    var nextFileNumber: nat
    var lastSequence: nat
    var logNumber: nat
    var prevLogNumber: nat
    var descriptorLog: Writer?
    ghost var history: seq<VersionEdit>  // what the manifest holds
    ghost var loggedNext: nat  // the two counters when the last record was written
    ghost var loggedSequence: nat

    ghost predicate Inv()
      reads this, descriptorLog
    {
      && |files| == NUM_LEVELS
      && (forall l :: 0 <= l < NUM_LEVELS ==> FilesBy(keyOf).Sorted(files[l]))
      && if descriptorLog == null then
           forall l, f :: 0 <= l < NUM_LEVELS && f in files[l] ==> f.number < nextFileNumber
         else
           && descriptorLog.Valid() && descriptorLog.dest == LogFormat.LogFile(Records(history))
           && IsHistory(name, history) && |history| >= 2 && IsVersion(keyOf, history, files)
           && FilesBelow(history, nextFileNumber)
           && history[|history| - 1].logNumber == Some(logNumber)
           && history[|history| - 1].prevLogNumber == Some(prevLogNumber)
           && history[|history| - 1].nextFileNumber == Some(loggedNext)
           && history[|history| - 1].lastSequence == Some(loggedSequence)
    }

    /** What the manifest holds, or a new one would hold first. */
    ghost function Base(): seq<VersionEdit>
      reads this
    {
      if descriptorLog == null then [Snapshot(name, files)] else history
    }

    /** The edit with the numbers that LogAndApply fills in. */
    function Completed(edit: VersionEdit): VersionEdit
      reads this
    {
      edit.(logNumber := if edit.logNumber.Some? then edit.logNumber else Some(logNumber),
            prevLogNumber := if edit.prevLogNumber.Some? then edit.prevLogNumber else Some(prevLogNumber),
            nextFileNumber := Some(nextFileNumber), lastSequence := Some(lastSequence))
    }

    /** The record says what the edit says, and the numbers of this moment; a log number that the
        edit has comes before the one from before. */
    ghost predicate Logs(edit: VersionEdit, record: VersionEdit)
      reads this
    {
      && record.comparator == edit.comparator && record.compactPointers == edit.compactPointers
      && record.deletedFiles == edit.deletedFiles && record.newFiles == edit.newFiles
      && (edit.logNumber.Some? ==> record.logNumber == edit.logNumber)
      && (edit.logNumber.None? ==> record.logNumber == Some(logNumber))
      && (edit.prevLogNumber.Some? ==> record.prevLogNumber == edit.prevLogNumber)
      && (edit.prevLogNumber.None? ==> record.prevLogNumber == Some(prevLogNumber))
      && record.nextFileNumber == Some(nextFileNumber) && record.lastSequence == Some(lastSequence)
    }

    lemma CompletedLogs(edit: VersionEdit)
      ensures Logs(edit, Completed(edit))
    {
    }

    /** Logs an edit and installs the version that it makes. */
    method LogAndApply(edit: VersionEdit) returns (ghost record: VersionEdit)
      requires Inv()
      requires edit.logNumber.Some? ==> logNumber <= edit.logNumber.value < nextFileNumber
      requires SameComparator(name, edit) && InLevels(edit) && IsEncodable(Completed(edit))
      requires forall a :: a in edit.newFiles ==> a.1.number < nextFileNumber
      requires AddsOnce(Base() + [Completed(edit)])
      requires descriptorLog == null ==> IsEncodable(Snapshot(name, files))
      modifies this, descriptorLog
      ensures Inv() && descriptorLog != null && (old(descriptorLog) == null ==> fresh(descriptorLog))
      ensures history == old(Base()) + [record] && old(Logs(edit, record))
      ensures loggedNext == nextFileNumber == old(nextFileNumber) && loggedSequence == lastSequence == old(lastSequence)
    {
      hide AddsOnce, FilesBy, IsEncodable, LogFormat.LogFile, LogFormat.Fragments, Encode, FilesBelow, Records, IsHistory,
        IsVersion, Logs;
      CompletedLogs(edit);
      var edit := Completed(edit);
      record := edit;
      ghost var base := Base();
      BaseIsHistory(edit);
      NextHistory(name, base, edit, nextFileNumber);
      var v := ApplyEdit(keyOf, files, edit, base);
      WriteRecord(edit);
      files := v;
      logNumber, prevLogNumber := edit.logNumber.value, edit.prevLogNumber.value;
      SortedLevels(keyOf, history, files);
    }

    /** Appends the record of an edit to the manifest, which may have to be started. */
    method WriteRecord(edit: VersionEdit)
      requires |files| == NUM_LEVELS && edit.nextFileNumber.Some? && edit.lastSequence.Some?
      requires descriptorLog != null ==>
                 descriptorLog.Valid() && descriptorLog.dest == LogFormat.LogFile(Records(history))
      modifies `descriptorLog, `history, `loggedNext, `loggedSequence, descriptorLog
      ensures descriptorLog != null && descriptorLog.Valid()
      ensures if old(descriptorLog) != null then descriptorLog == old(descriptorLog) else fresh(descriptorLog)
      ensures history == old(Base()) + [edit] && descriptorLog.dest == LogFormat.LogFile(Records(history))
      ensures Some(loggedNext) == edit.nextFileNumber && Some(loggedSequence) == edit.lastSequence
    {
      hide LogFormat.LogFile, LogFormat.Fragments, Encode, Records, FilesBy;
      OpenDescriptor();
      var bytes := EncodeTo(edit);
      LogOfMore(history, edit);
      descriptorLog.AddRecord(bytes);
      history := history + [edit];
      loggedNext, loggedSequence := edit.nextFileNumber.value, edit.lastSequence.value;
    }

    /** Starts the manifest with a snapshot when there is none. */
    method OpenDescriptor()
      requires |files| == NUM_LEVELS
      requires descriptorLog != null ==>
                 descriptorLog.Valid() && descriptorLog.dest == LogFormat.LogFile(Records(history))
      modifies `descriptorLog, `history
      ensures descriptorLog != null && descriptorLog.Valid()
      ensures if old(descriptorLog) != null then descriptorLog == old(descriptorLog) else fresh(descriptorLog)
      ensures history == old(Base()) && descriptorLog.dest == LogFormat.LogFile(Records(history))
    {
      hide LogFormat.LogFile, LogFormat.Fragments, Encode;
      if descriptorLog == null {
        var writer := new Writer([]);
        var snapshot := WriteSnapshot();
        LogOfMore([], Snapshot(name, files));
        writer.AddRecord(snapshot);
        assert [] + [Snapshot(name, files)] == [Snapshot(name, files)];
        descriptorLog, history := writer, [Snapshot(name, files)];
      }
    }

    lemma BaseIsHistory(edit: VersionEdit)
      requires Inv() && AddsOnce(Base() + [edit])
      requires descriptorLog == null ==> IsEncodable(Snapshot(name, files))
      ensures IsHistory(name, Base()) && IsVersion(keyOf, Base(), files) && FilesBelow(Base(), nextFileNumber)
      ensures |Base()| >= 1
    {
      hide FilesBy, IsEncodable;
      AddsOnceFirst(Base(), edit);
      if descriptorLog == null {
        SnapshotIsVersion(keyOf, name, files);
        forall a | a in Snapshot(name, files).newFiles
          ensures a.1.number < nextFileNumber
        {
          InAllFiles(files, |files|, a.0, a.1);
          assert a == (a.0, a.1);
        }
      }
    }

    /** WriteSnapshot's record. */
    method WriteSnapshot() returns (record: Bytes)
      requires |files| == NUM_LEVELS
      ensures record == Encode(Snapshot(name, files))
    {
      var listed: seq<(nat, FileMeta)> := [];
      for level := 0 to NUM_LEVELS
        invariant listed == AllFiles(files, level)
      {
        for i := 0 to |files[level]|
          invariant listed == AllFiles(files, level) + OfLevel(level, files[level])[..i]
        {
          listed := listed + [(level, files[level][i])];
        }
      }
      record := EncodeTo(CLEAR.(comparator := Some(name), newFiles := listed));
    }
  }

  lemma AddsOnceFirst(base: seq<VersionEdit>, edit: VersionEdit)
    requires AddsOnce(base + [edit])
    ensures AddsOnce(base)
  {
    AddsOncePrefix(base + [edit], |base|);
    assert (base + [edit])[..|base|] == base;
  }

  lemma AddsOnceLast(base: seq<VersionEdit>, edit: VersionEdit)
    requires AddsOnce(base + [edit])
    ensures AddsOnce([edit])
  {
    var all, n := base + [edit], |base|;
    assert all[n] == edit;
    forall a, b | 0 <= a < |edit.newFiles| && 0 <= b < |edit.newFiles| && edit.newFiles[a].0 == edit.newFiles[b].0
      && edit.newFiles[a].1.number == edit.newFiles[b].1.number
      ensures a == b
    {
      assert all[n].newFiles[a].0 == all[n].newFiles[b].0;
    }
    forall a, d | 0 <= a < |edit.newFiles| && d in edit.deletedFiles
      ensures d != (edit.newFiles[a].0, edit.newFiles[a].1.number)
    {
      assert d in all[n].deletedFiles && 0 <= a < |all[n].newFiles|;
    }
  }

  lemma NextHistory(name: Bytes, base: seq<VersionEdit>, edit: VersionEdit, next: nat)
    requires IsHistory(name, base) && |base| >= 1 && AddsOnce(base + [edit])
    requires IsEncodable(edit) && SameComparator(name, edit) && InLevels(edit) && HasNumbers(edit)
    requires edit.nextFileNumber == Some(next) && FilesBelow(base, next)
    requires forall a :: a in edit.newFiles ==> a.1.number < next
    ensures IsHistory(name, base + [edit]) && FilesBelow(base + [edit], next)
  {
    hide AddsOnce, IsEncodable;
    var all := base + [edit];
    assert FilesBelow(all, next);
    forall i | 0 <= i < |all| && all[i].nextFileNumber.Some?
      ensures FilesBelow(all[..i + 1], all[i].nextFileNumber.value)
    {
      if i < |base| {
        assert all[..i + 1] == base[..i + 1] && all[i] == base[i];
      } else {
        assert all[..i + 1] == all;
      }
    }
  }

  lemma LogOfMore(h: seq<VersionEdit>, edit: VersionEdit)
    ensures var log := LogFormat.LogFile(Records(h));
      LogFormat.LogFile(Records(h + [edit]))
        == log + LogFormat.Fragments(|log| % LogFormat.BLOCK_SIZE, Encode(edit), true)
    ensures LogFormat.LogFile([]) == [] && Records([]) == []
  {
    hide LogFormat.Fragments, Encode;
    assert Records(h + [edit])[..|h|] == Records(h);
  }

  lemma SortedLevels(keyOf: Bytes -> Key, h: seq<VersionEdit>, files: Levels)
    requires IsVersion(keyOf, h, files)
    ensures |files| == NUM_LEVELS
    ensures forall l :: 0 <= l < NUM_LEVELS ==> FilesBy(keyOf).Sorted(files[l])
  {
    forall l | 0 <= l < NUM_LEVELS
      ensures FilesBy(keyOf).Sorted(files[l])
    {
      assert HoldsLive(keyOf, h, l, files[l]);
    }
  }

  /** Recovery from the whole manifest gives back the files and numbers of the database. */
  method Reopen(vset: VersionSet) returns (r: Recovered)
    requires vset.Inv() && vset.descriptorLog != null
    ensures r.Recovered? && r.files == vset.files
    ensures r.logNumber == vset.logNumber && r.prevLogNumber == vset.prevLogNumber
    ensures r.lastSequence == vset.loggedSequence && r.nextFileNumber == vset.loggedNext + 1
    ensures IsRecovered(vset.name, vset.keyOf, vset.history, r)
  {
    hide LogFormat.LogFile, IsHistory, IsVersion, FilesBelow;
    ghost var h := vset.history;
    AllWhole(Records(h));
    assert h[..|h|] == h;
    LastHasNumbers(vset.name, h);
    NoneNamesOther(vset.name, h);
    r := Recover(vset.name, vset.keyOf, vset.descriptorLog.dest, vset.name, h);
    VersionIsDetermined(vset.keyOf, h, r.files, vset.files);
  }

  lemma NoneNamesOther(name: Bytes, h: seq<VersionEdit>)
    requires IsHistory(name, h)
    ensures !NamesOther(name, h)
  {
    hide AddsOnce, IsEncodable, FilesBelow;
  }

  lemma LastHasNumbers(name: Bytes, h: seq<VersionEdit>)
    requires IsHistory(name, h) && |h| >= 2
    ensures HasNumbers(h[|h| - 1])
  {
  }

  lemma AllWhole(records: seq<Bytes>)
    ensures LogFormat.WholeRecords(records, |LogFormat.LogFile(records)|) == |records|
  {
  }

  // ----- A new database -----

  /** The only record of the manifest of a new database. */
  function NewDbEdit(name: Bytes): VersionEdit {
    CLEAR.(comparator := Some(name), logNumber := Some(0), nextFileNumber := Some(2), lastSequence := Some(0))
  }

  /** DBImpl::NewDB (db/db_impl.cc): the manifest that it writes. */
  method NewDB(name: Bytes) returns (manifest: Bytes)
    ensures manifest == LogFormat.LogFile(Records([NewDbEdit(name)])) && NewDbEdit(name).comparator == Some(name)
  {
    hide LogFormat.LogFile, LogFormat.Fragments, Encode;
    var writer := new Writer([]);
    var record := EncodeTo(NewDbEdit(name));
    LogOfMore([], NewDbEdit(name));
    assert [] + [NewDbEdit(name)] == [NewDbEdit(name)];
    writer.AddRecord(record);
    manifest := writer.dest;
  }

  /** The first opening of a new database finds no files, and the numbers to start with. */
  method OpenNew(name: Bytes, keyOf: Bytes -> Key) returns (r: Recovered)
    requires IsEncodable(NewDbEdit(name))
    ensures r == Recovered(seq(NUM_LEVELS, _ => []), 3, 0, 0, 0)
  {
    hide LogFormat.LogFile, LogFormat.WholeRecords, IsEncodable, IsVersion, FilesBelow, Encode;
    ghost var h := [NewDbEdit(name)];
    NewIsHistory(keyOf, name);
    var manifest := NewDB(name);
    AllWhole(Records(h));
    assert h[..1] == h;
    NoneNamesOther(name, h);
    r := Recover(name, keyOf, manifest, name, h);
    VersionIsDetermined(keyOf, h, r.files, seq(NUM_LEVELS, _ => []));
  }

  lemma NewIsHistory(keyOf: Bytes -> Key, name: Bytes)
    requires IsEncodable(NewDbEdit(name))
    ensures IsHistory(name, [NewDbEdit(name)]) && IsVersion(keyOf, [NewDbEdit(name)], seq(NUM_LEVELS, _ => []))
  {
    hide IsEncodable;
    var h := [NewDbEdit(name)];
    assert h[0] == NewDbEdit(name);
    forall l | 0 <= l < NUM_LEVELS
      ensures HoldsLive(keyOf, h, l, [])
    {
    }
  }

  /** A new database that is opened with another comparator is refused. */
  method OpenOther(name: Bytes, other: Bytes, keyOf: Bytes -> Key) returns (r: Recovered)
    requires IsEncodable(NewDbEdit(name)) && other != name
    ensures r == Failed(OtherComparator)
  {
    hide LogFormat.LogFile, LogFormat.WholeRecords, IsEncodable, IsVersion, FilesBelow, Encode;
    ghost var h := [NewDbEdit(name)];
    NewIsHistory(keyOf, name);
    var manifest := NewDB(name);
    AllWhole(Records(h));
    assert h[..1] == h && !SameComparator(other, h[0]);
    r := Recover(other, keyOf, manifest, name, h);
  }
}

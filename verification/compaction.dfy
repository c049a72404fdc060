/** Choosing what to compact (db/version_set.cc): the boundary files, the inputs of both levels,
    and the cursors that tell whether a user key has anything below them. */
module Compactions {
  import opened InternalKey
  import opened Version
  import opened Gaps

  // ----- Boundary files -----

  /** `f` starts later than `largest` with the same user key. */
  predicate IsBoundary(f: File, largest: Key) {
    Compare(f.Smallest(), largest) > 0 && f.Smallest().user == largest.user
  }

  ghost predicate IsLargest(files: seq<File>, key: Key) {
    && (exists f :: f in files && f.Largest() == key)
    && (forall f :: f in files ==> Compare(f.Largest(), key) <= 0)
  }

  /** FindLargestKey */
  method FindLargestKey(files: seq<File>) returns (largest: Option<Key>)
    ensures largest.None? <==> files == []
    ensures largest.Some? ==> IsLargest(files, largest.value)
  {
    if files == [] {
      return None;
    }
    var key := files[0].Largest();
    var at := 0;
    for i := 1 to |files|
      invariant 0 <= at < i && files[at].Largest() == key
      invariant forall j :: 0 <= j < i ==> Compare(files[j].Largest(), key) <= 0
    {
      if Compare(files[i].Largest(), key) > 0 {
        key, at := files[i].Largest(), i;
      }
    }
    assert files[at] in files;
    largest := Some(key);
  }

  /** FindSmallestBoundaryFile */
  method FindSmallestBoundaryFile(levelFiles: seq<File>, largest: Key) returns (r: Option<File>)
    ensures r.None? ==> forall f :: f in levelFiles ==> !IsBoundary(f, largest)
    ensures r.Some? ==>
              && r.value in levelFiles && IsBoundary(r.value, largest)
              && forall f :: f in levelFiles && IsBoundary(f, largest) ==> Compare(r.value.Smallest(), f.Smallest()) <= 0
  {
    r := None;
    for i := 0 to |levelFiles|
      invariant r.None? ==> forall j :: 0 <= j < i ==> !IsBoundary(levelFiles[j], largest)
      invariant r.Some? ==>
                  && r.value in levelFiles && IsBoundary(r.value, largest)
                  && forall j :: 0 <= j < i && IsBoundary(levelFiles[j], largest) ==>
                       Compare(r.value.Smallest(), levelFiles[j].Smallest()) <= 0
    {
      var f := levelFiles[i];
      if IsBoundary(f, largest) {
        if r.None? || Compare(f.Smallest(), r.value.Smallest()) < 0 {
          r := Some(f);
        }
      }
    }
  }

  /** Between two chosen files nothing of the level is left out. */
  ghost predicate Interval(levelFiles: seq<File>, inputs: seq<File>) {
    forall f, g, h ::
      f in inputs && h in inputs && g in levelFiles
      && Precedes(f.Largest(), g.Smallest()) && Precedes(g.Largest(), h.Smallest())
      ==> g in inputs
  }

  ghost predicate NoBoundaryLeft(levelFiles: seq<File>, inputs: seq<File>) {
    exists largest :: IsLargest(inputs, largest) && forall f :: f in levelFiles ==> !IsBoundary(f, largest)
  }

  ghost function StartingAfter(files: seq<File>, key: Key): set<int> {
    set i | 0 <= i < |files| && Compare(files[i].Smallest(), key) > 0
  }

  ghost predicate SomeBoundary(levelFiles: seq<File>, largest: Key) {
    exists f :: f in levelFiles && IsBoundary(f, largest)
  }

  /** A run of consecutive files of an ordered level. */
  ghost predicate IsRun(levelFiles: seq<File>, inputs: seq<File>) {
    && Ordered(levelFiles)
    && (forall f :: f in inputs ==> f in levelFiles)
    && Interval(levelFiles, inputs)
  }

  /** AddBoundaryInputs: ends, adds only boundary files, and leaves no file of the level that
      continues the last chosen user key. */
  method AddBoundaryInputs(levelFiles: seq<File>, files: seq<File>) returns (result: seq<File>)
    ensures files <= result
    ensures forall f :: f in result ==> f in files || f in levelFiles
    ensures files != [] ==> NoBoundaryLeft(levelFiles, result)
    ensures NoBoundaryLeft(levelFiles, files) || files == [] ==> result == files
    ensures IsRun(levelFiles, files) ==> IsRun(levelFiles, result)
    ensures Continues(files, result)
  {
    hide IsLargest, IsBoundary, IsRun, StartingAfter, Continues;
    result := files;
    NothingAdded(files);
    var found := FindLargestKey(files);
    if found.None? {
      return;
    }
    var largest := found.value;
    var searching := true;
    while searching
      invariant Grown(levelFiles, files, found.value, result, largest)
      invariant !searching ==> !SomeBoundary(levelFiles, largest)
      decreases searching, StartingAfter(levelFiles, largest)
    {
      var boundary := FindSmallestBoundaryFile(levelFiles, largest);
      if boundary.Some? {
        var f := boundary.value;
        BoundaryAdded(levelFiles, files, found.value, result, largest, f);
        result := result + [f];
        largest := f.Largest();
      } else {
        searching := false;
      }
    }
    LargestIsUnique(levelFiles, files, found.value);
  }

  /** `files` and the boundary files added to them so far, of which the last ends with `largest`. */
  ghost predicate Grown(levelFiles: seq<File>, files: seq<File>, start: Key, result: seq<File>, largest: Key) {
    && files <= result && IsLargest(result, largest)
    && (forall f :: f in result ==> f in files || f in levelFiles)
    && (result != files ==> SomeBoundary(levelFiles, start)) && (result == files ==> largest == start)
    && (IsRun(levelFiles, files) ==> IsRun(levelFiles, result)) && Continues(files, result)
  }

  lemma NothingAdded(files: seq<File>)
    ensures Continues(files, files)
  {
  }

  /** A boundary file starts with the last user key of the others. */
  lemma BoundaryContinues(inputs: seq<File>, largest: Key, f: File)
    requires IsLargest(inputs, largest) && IsBoundary(f, largest)
    ensures Continues(inputs, inputs + [f])
  {
    forall a: UserKey, b: UserKey | a <= b && NoOverlap(inputs + [f], Some(a), Some(b))
      ensures (AllBefore(inputs, a) ==> AllBefore(inputs + [f], a)) && (AllAfter(inputs, b) ==> AllAfter(inputs + [f], b))
    {
      FileRange(f);
      assert f in inputs + [f];
    }
  }

  lemma BoundaryAdded(levelFiles: seq<File>, files: seq<File>, start: Key, result: seq<File>, largest: Key, f: File)
    requires Grown(levelFiles, files, start, result, largest) && f in levelFiles && IsBoundary(f, largest)
    requires forall g :: g in levelFiles && IsBoundary(g, largest) ==> Compare(f.Smallest(), g.Smallest()) <= 0
    ensures Grown(levelFiles, files, start, result + [f], f.Largest())
    ensures StartingAfter(levelFiles, f.Largest()) < StartingAfter(levelFiles, largest)
  {
    hide IsLargest, IsBoundary, IsRun, StartingAfter, Continues;
    BoundaryIsLargest(levelFiles, result, largest, f);
    BoundaryContinues(result, largest, f);
    ContinuesChains(files, result, result + [f]);
    if IsRun(levelFiles, files) {
      BoundaryExtendsRun(levelFiles, result, largest, f);
    }
  }

  lemma LargestIsUnique(levelFiles: seq<File>, files: seq<File>, largest: Key)
    requires IsLargest(files, largest)
    ensures NoBoundaryLeft(levelFiles, files) ==> !SomeBoundary(levelFiles, largest)
  {
    if NoBoundaryLeft(levelFiles, files) {
      var l :| IsLargest(files, l) && forall f :: f in levelFiles ==> !IsBoundary(f, l);
      assert Tag(l) == Tag(largest) && l.user == largest.user;
      forall f | f in levelFiles
        ensures !IsBoundary(f, largest)
      {
        assert !IsBoundary(f, l);
      }
    }
  }

  lemma BoundaryIsLargest(levelFiles: seq<File>, inputs: seq<File>, largest: Key, f: File)
    requires IsLargest(inputs, largest) && f in levelFiles && IsBoundary(f, largest)
    ensures IsLargest(inputs + [f], f.Largest())
    ensures StartingAfter(levelFiles, f.Largest()) < StartingAfter(levelFiles, largest)
  {
    FileRange(f);
    assert f in inputs + [f];
    var i :| 0 <= i < |levelFiles| && levelFiles[i] == f;
    assert i in StartingAfter(levelFiles, largest) && i !in StartingAfter(levelFiles, f.Largest());
  }

  lemma BoundaryExtendsRun(levelFiles: seq<File>, inputs: seq<File>, largest: Key, f: File)
    requires IsRun(levelFiles, inputs) && IsLargest(inputs, largest) && f in levelFiles && IsBoundary(f, largest)
    requires forall g :: g in levelFiles && IsBoundary(g, largest) ==> Compare(f.Smallest(), g.Smallest()) <= 0
    ensures IsRun(levelFiles, inputs + [f])
  {
    var last :| last in inputs && last.Largest() == largest;
    forall e, g, h | e in inputs + [f] && h in inputs + [f] && g in levelFiles
                     && Precedes(e.Largest(), g.Smallest()) && Precedes(g.Largest(), h.Smallest())
      ensures g in inputs + [f]
    {
      NothingSkipped(levelFiles, inputs, last, f, e, g, h);
    }
  }

  lemma NothingSkipped(levelFiles: seq<File>, inputs: seq<File>, last: File, f: File, e: File, g: File, h: File)
    requires Ordered(levelFiles) && Interval(levelFiles, inputs) && forall g' :: g' in inputs ==> g' in levelFiles
    requires last in inputs && IsLargest(inputs, last.Largest()) && f in levelFiles && IsBoundary(f, last.Largest())
    requires forall g' :: g' in levelFiles && IsBoundary(g', last.Largest()) ==> Compare(f.Smallest(), g'.Smallest()) <= 0
    requires e in inputs + [f] && h in inputs + [f] && g in levelFiles
    requires Precedes(e.Largest(), g.Smallest()) && Precedes(g.Largest(), h.Smallest())
    ensures g in inputs + [f]
  {
    FileRange(g);
    FileRange(h);
    FileRange(f);
    TotallyOrdered(levelFiles, g, last);
    TotallyOrdered(levelFiles, last, f);
    FileRange(last);
  }

  lemma TotallyOrdered(files: seq<File>, f: File, g: File)
    requires Ordered(files) && f in files && g in files
    ensures f == g || Precedes(f.Largest(), g.Smallest()) || Precedes(g.Largest(), f.Smallest())
  {
  }

  /** What makes a choice of files of one level safe to move below the rest of the level:
      the files left behind are newer for every user key they share with the chosen ones. */
  ghost predicate Isolated(levelFiles: seq<File>, inputs: seq<File>) {
    && (forall f :: f in inputs ==> f in levelFiles)
    && (forall f, g {:trigger Above(g, f)} :: f in inputs && g in levelFiles && g !in inputs ==> Above(g, f))
  }

  lemma ClosedIntervalIsIsolated(levelFiles: seq<File>, inputs: seq<File>)
    requires Ordered(levelFiles) && Interval(levelFiles, inputs) && NoBoundaryLeft(levelFiles, inputs)
    requires forall f :: f in inputs ==> f in levelFiles
    ensures Isolated(levelFiles, inputs)
  {
    var largest :| IsLargest(inputs, largest) && forall f :: f in levelFiles ==> !IsBoundary(f, largest);
    var last :| last in inputs && last.Largest() == largest;
    forall f, g | f in inputs && g in levelFiles && g !in inputs
      ensures Above(g, f)
    {
      LeftBehindIsNewer(levelFiles, inputs, last, f, g);
    }
  }

  lemma LeftBehindIsNewer(levelFiles: seq<File>, inputs: seq<File>, last: File, f: File, g: File)
    requires Ordered(levelFiles) && Interval(levelFiles, inputs)
    requires last in inputs && last in levelFiles && IsLargest(inputs, last.Largest())
    requires forall h :: h in levelFiles ==> !IsBoundary(h, last.Largest())
    requires f in inputs && f in levelFiles && g in levelFiles && g !in inputs
    ensures Above(g, f)
  {
    FileRange(last);
    FileRange(f);
    FileRange(g);
    TotallyOrdered(levelFiles, f, g);
    TotallyOrdered(levelFiles, g, last);
    TotallyOrdered(levelFiles, f, last);
    assert f.Largest().user < g.Smallest().user || Precedes(g.Largest(), f.Smallest());
    forall e, e' | e in g.entries && e' in f.entries && e.key.user == e'.key.user
      ensures e.key.sequence > e'.key.sequence
    {
      EntryInRange(g, e);
      EntryInRange(f, e');
    }
  }

  lemma ClosedRangeIsIsolated(files: seq<File>, begin: Bound, end: Bound)
    requires Closed(files, begin, end)
    ensures Isolated(files, Overlapping(files, begin, end))
  {
    var inputs := Overlapping(files, begin, end);
    forall f, g | f in inputs && g in files && g !in inputs
      ensures Above(g, f)
    {
      NothingShared(f, g, begin, end);
    }
  }

  lemma NothingShared(f: File, g: File, begin: Bound, end: Bound)
    requires Inside(f, begin, end) && !Overlaps(g, begin, end)
    ensures Above(g, f)
  {
    forall e, e' | e in g.entries && e' in f.entries
      ensures e.key.user != e'.key.user
    {
      EntryInRange(g, e);
      EntryInRange(f, e');
    }
  }

  lemma ClosedRangeHasNoBoundary(files: seq<File>, begin: Bound, end: Bound)
    requires Closed(files, begin, end) && Overlapping(files, begin, end) != []
    ensures NoBoundaryLeft(files, Overlapping(files, begin, end))
  {
    var last := LargestFile(Overlapping(files, begin, end));
    forall g | g in files
      ensures !IsBoundary(g, last.Largest())
    {
      FileRange(last);
      FileRange(g);
    }
  }

  lemma LargestFile(files: seq<File>) returns (last: File)
    requires files != []
    ensures last in files && IsLargest(files, last.Largest())
  {
    if |files| == 1 {
      last := files[0];
    } else {
      var rest := LargestFile(files[1..]);
      last := if Compare(rest.Largest(), files[0].Largest()) < 0 then files[0] else rest;
    }
  }

  lemma OverlappingIsInterval(files: seq<File>, begin: Bound, end: Bound)
    requires Ordered(files)
    ensures Interval(files, Overlapping(files, begin, end))
  {
    var inputs := Overlapping(files, begin, end);
    forall f, g, h | f in inputs && h in inputs && g in files
                     && Precedes(f.Largest(), g.Smallest()) && Precedes(g.Largest(), h.Smallest())
      ensures g in inputs
    {
      FileRange(g);
    }
  }

  lemma OverlappingIsOrdered(files: seq<File>, begin: Bound, end: Bound)
    requires Ordered(files)
    ensures Ordered(Overlapping(files, begin, end))
  {
    if files != [] {
      var n := |files| - 1;
      OverlappingIsOrdered(files[..n], begin, end);
      forall f | f in files[..n]
        ensures Precedes(f.Largest(), files[n].Smallest())
      {
      }
    }
  }

  /** CompactRange keeps only the first files when the range is large: still a run. */
  lemma PrefixIsRun(files: seq<File>, begin: Bound, end: Bound, k: nat)
    requires Ordered(files) && k <= |Overlapping(files, begin, end)|
    ensures IsRun(files, Overlapping(files, begin, end)[..k])
  {
    var all := Overlapping(files, begin, end);
    OverlappingIsInterval(files, begin, end);
    OverlappingIsOrdered(files, begin, end);
    forall f, g, h | f in all[..k] && h in all[..k] && g in files
                     && Precedes(f.Largest(), g.Smallest()) && Precedes(g.Largest(), h.Smallest())
      ensures g in all[..k]
    {
      assert f in all && h in all;
      EarlierIsInPrefix(all, k, g, h);
    }
  }

  lemma EarlierIsInPrefix(files: seq<File>, k: nat, g: File, h: File)
    requires Ordered(files) && k <= |files| && g in files && h in files[..k]
    requires Precedes(g.Largest(), h.Smallest())
    ensures g in files[..k]
  {
    var i :| 0 <= i < k && files[i] == h;
    var j :| 0 <= j < |files| && files[j] == g;
    FileRange(g);
    FileRange(h);
    assert j < k;
    assert files[..k][j] == g;
  }

  // ----- The inputs of a compaction -----

  ghost predicate IsSmallest(files: seq<File>, key: Key) {
    && (exists f :: f in files && f.Smallest() == key)
    && (forall f :: f in files ==> Compare(f.Smallest(), key) >= 0)
  }

  /** GetRange: the hull of some files. */
  method GetRange(inputs: seq<File>) returns (smallest: Key, largest: Key)
    requires inputs != []
    ensures IsSmallest(inputs, smallest) && IsLargest(inputs, largest)
  {
    smallest, largest := inputs[0].Smallest(), inputs[0].Largest();
    var at, at' := 0, 0;
    for i := 1 to |inputs|
      invariant 0 <= at < i && inputs[at].Smallest() == smallest
      invariant 0 <= at' < i && inputs[at'].Largest() == largest
      invariant forall j :: 0 <= j < i ==> Compare(inputs[j].Smallest(), smallest) >= 0
      invariant forall j :: 0 <= j < i ==> Compare(inputs[j].Largest(), largest) <= 0
    {
      if Compare(inputs[i].Smallest(), smallest) < 0 {
        smallest, at := inputs[i].Smallest(), i;
      }
      if Compare(inputs[i].Largest(), largest) > 0 {
        largest, at' := inputs[i].Largest(), i;
      }
    }
    assert inputs[at] in inputs && inputs[at'] in inputs;
  }

  /** What may be handed to SetupOtherInputs: all files of the first level that meet a closed
      range, or a run of files of a later level. */
  ghost predicate Selectable(level: nat, levelFiles: seq<File>, inputs: seq<File>) {
    && inputs != []
    && if level == 0 then exists b, e :: Closed(levelFiles, b, e) && inputs == Overlapping(levelFiles, b, e)
       else IsRun(levelFiles, inputs)
  }

  /** The files of the next level that meet the user-key hull of the chosen files. */
  ghost predicate MeetsHull(nextFiles: seq<File>, inputs0: seq<File>, inputs1: seq<File>) {
    exists lo, hi :: IsSmallest(inputs0, lo) && IsLargest(inputs0, hi)
                     && inputs1 == Overlapping(nextFiles, Some(lo.user), Some(hi.user))
  }

  /** The inputs that a compaction of `level` may have. */
  ghost predicate GoodInputs(v: Levels, level: nat, inputs0: seq<File>, inputs1: seq<File>)
    requires |v| == NUM_LEVELS && level + 1 < NUM_LEVELS
  {
    && inputs0 != []
    && Isolated(v[level], inputs0)
    && NoBoundaryLeft(v[level], inputs0)
    && MeetsHull(v[level + 1], inputs0, inputs1)
  }

  lemma SelectedIsIsolated(level: nat, levelFiles: seq<File>, inputs: seq<File>)
    requires Selectable(level, levelFiles, inputs) && NoBoundaryLeft(levelFiles, inputs)
    ensures Isolated(levelFiles, inputs)
  {
    if level == 0 {
      var b, e :| Closed(levelFiles, b, e) && inputs == Overlapping(levelFiles, b, e);
      ClosedRangeIsIsolated(levelFiles, b, e);
    } else {
      ClosedIntervalIsIsolated(levelFiles, inputs);
    }
  }

  /** A selection completed with its boundary files. */
  method CompleteSelection(level: nat, levelFiles: seq<File>, inputs: seq<File>) returns (result: seq<File>)
    requires Selectable(level, levelFiles, inputs)
    ensures Selectable(level, levelFiles, result) && NoBoundaryLeft(levelFiles, result)
    ensures inputs <= result && Continues(inputs, result)
  {
    if level == 0 {
      SelectionOfFirstLevelIsComplete(levelFiles, inputs);
    }
    result := AddBoundaryInputs(levelFiles, inputs);
  }

  lemma SelectionOfFirstLevelIsComplete(levelFiles: seq<File>, inputs: seq<File>)
    requires Selectable(0, levelFiles, inputs)
    ensures NoBoundaryLeft(levelFiles, inputs)
  {
    var b, e :| Closed(levelFiles, b, e) && inputs == Overlapping(levelFiles, b, e);
    ClosedRangeHasNoBoundary(levelFiles, b, e);
  }

  /** The files of one level that meet a range, as a selection. */
  method SelectRange(level: nat, levelFiles: seq<File>, begin: Bound, end: Bound) returns (inputs: seq<File>)
    requires level > 0 ==> Ordered(levelFiles)
    ensures inputs != [] ==> Selectable(level, levelFiles, inputs)
    ensures forall f :: f in levelFiles && Overlaps(f, begin, end) ==> f in inputs
    ensures if level > 0 then inputs == Overlapping(levelFiles, begin, end)
            else exists lo, hi :: LeastClosed(levelFiles, begin, end, lo, hi) && inputs == Overlapping(levelFiles, lo, hi)
    ensures begin.Some? && end.Some? ==> Attached(inputs, begin.value, end.value)
  {
    hide Attached;
    ghost var b, e;
    inputs, b, e := GetOverlappingInputs(level, levelFiles, begin, end);
    if level > 0 {
      OverlappingIsInterval(levelFiles, begin, end);
    } else {
      assert Closed(levelFiles, b, e) && inputs == Overlapping(levelFiles, b, e);
    }
    if begin.Some? && end.Some? {
      RangeIsAttached(level, levelFiles, begin.value, end.value, b, e);
    }
  }

  lemma RangeIsAttached(level: nat, files: seq<File>, begin: UserKey, end: UserKey, lo: Bound, hi: Bound)
    requires if level == 0 then LeastClosed(files, Some(begin), Some(end), lo, hi) else lo == Some(begin) && hi == Some(end)
    ensures Attached(Overlapping(files, lo, hi), begin, end)
  {
    if level == 0 {
      LeastClosedIsAttached(files, begin, end, lo, hi);
    } else {
      OverlappingIsAttached(files, begin, end);
    }
  }

  /** The files of the next level for a selection. */
  method SelectNext(nextLevel: nat, nextFiles: seq<File>, inputs0: seq<File>) returns (inputs1: seq<File>)
    requires nextLevel > 0 && inputs0 != []
    ensures MeetsHull(nextFiles, inputs0, inputs1)
  {
    var smallest, largest := GetRange(inputs0);
    var next, _, _ := GetOverlappingInputs(nextLevel, nextFiles, Some(smallest.user), Some(largest.user));
    inputs1 := next;
  }

  lemma HullOf(files: seq<File>, lo: Key, hi: Key)
    requires IsSmallest(files, lo) && IsLargest(files, hi)
    ensures IsHull(files, lo.user, hi.user)
  {
  }

  lemma NextIsGapless(nextFiles: seq<File>, inputs0: seq<File>, inputs1: seq<File>)
    requires Gapless(inputs0) && MeetsHull(nextFiles, inputs0, inputs1)
    ensures Gapless(inputs0 + inputs1)
  {
    hide Gapless, Attached, IsHull;
    var lo, hi :| IsSmallest(inputs0, lo) && IsLargest(inputs0, hi)
                  && inputs1 == Overlapping(nextFiles, Some(lo.user), Some(hi.user));
    HullOf(inputs0, lo, hi);
    OverlappingIsAttached(nextFiles, lo.user, hi.user);
    AttachedIsGapless(inputs0, inputs1, lo.user, hi.user);
  }

  /** A larger hull meets more files. */
  lemma MeetsMore(nextFiles: seq<File>, inputs0: seq<File>, inputs1: seq<File>, grown0: seq<File>, grown1: seq<File>)
    requires MeetsHull(nextFiles, inputs0, inputs1) && MeetsHull(nextFiles, grown0, grown1)
    requires forall f :: f in inputs0 ==> f in grown0
    ensures forall f :: f in inputs1 ==> f in grown1
  {
    hide IsSmallest, IsLargest;
    var lo, hi :| IsSmallest(inputs0, lo) && IsLargest(inputs0, hi)
                  && inputs1 == Overlapping(nextFiles, Some(lo.user), Some(hi.user));
    var lo', hi' :| IsSmallest(grown0, lo') && IsLargest(grown0, hi')
                    && grown1 == Overlapping(nextFiles, Some(lo'.user), Some(hi'.user));
    HullOf(inputs0, lo, hi);
    HullOf(grown0, lo', hi');
    HullGrows(inputs0, lo.user, hi.user, grown0, lo'.user, hi'.user);
  }

  lemma GrownStaysGapless(nextFiles: seq<File>, inputs0: seq<File>, inputs1: seq<File>, grown0: seq<File>, grown1: seq<File>,
                          allStart: Key, allLimit: Key)
    requires Gapless(inputs0 + inputs1) && IsSmallest(inputs0 + inputs1, allStart) && IsLargest(inputs0 + inputs1, allLimit)
    requires MeetsHull(nextFiles, inputs0, inputs1) && MeetsHull(nextFiles, grown0, grown1)
    requires Attached(grown0, allStart.user, allLimit.user) && forall f :: f in inputs0 ==> f in grown0
    ensures Gapless(grown0 + grown1)
  {
    hide Gapless, Attached, IsHull;
    HullOf(inputs0 + inputs1, allStart, allLimit);
    var lo, hi :| IsSmallest(grown0, lo) && IsLargest(grown0, hi)
                  && grown1 == Overlapping(nextFiles, Some(lo.user), Some(hi.user));
    HullOf(grown0, lo, hi);
    OverlappingIsAttached(nextFiles, lo.user, hi.user);
    MeetsMore(nextFiles, inputs0, inputs1, grown0, grown1);
    GrownIsGapless(inputs0 + inputs1, allStart.user, allLimit.user, grown0, grown1, lo.user, hi.user);
  }

  lemma InTheHull(files: seq<File>, allStart: Key, allLimit: Key, f: File)
    requires IsSmallest(files, allStart) && IsLargest(files, allLimit) && f in files
    ensures Overlaps(f, Some(allStart.user), Some(allLimit.user))
  {
    FileRange(f);
  }

  /** All files of the level that meet the hull of the inputs are in `expanded`. */
  ghost predicate TakesHull(levelFiles: seq<File>, inputs: seq<File>, expanded: seq<File>) {
    exists lo, hi :: IsSmallest(inputs, lo) && IsLargest(inputs, hi)
                     && forall f :: f in levelFiles && Overlaps(f, Some(lo.user), Some(hi.user)) ==> f in expanded
  }

  /** What is to come of growing: the files of the level that meet the hull of all inputs are taken,
      if they are more, if with the inputs of the next level they stay below the limit, and if they
      meet just as many files of the next level; else nothing changes. */
  ghost predicate GrowsAsItMay(levelFiles: seq<File>, nextFiles: seq<File>, inputs0: seq<File>, inputs1: seq<File>,
                               limit: nat, expanded: seq<File>, expanded1: seq<File>, grown0: seq<File>, grown1: seq<File>) {
    if inputs1 == [] then grown0 == inputs0 && grown1 == inputs1
    else
      && TakesHull(levelFiles, inputs0 + inputs1, expanded) && NoBoundaryLeft(levelFiles, expanded)
      && if |expanded| > |inputs0| && TotalFileSize(inputs1) + TotalFileSize(expanded) < limit then
           && MeetsHull(nextFiles, expanded, expanded1)
           && if |expanded1| == |inputs1| then grown0 == expanded && grown1 == expanded1
              else grown0 == inputs0 && grown1 == inputs1
         else grown0 == inputs0 && grown1 == inputs1
  }

  /** The files of the level that meet the hull of all inputs. */
  method ExpandInputs(level: nat, levelFiles: seq<File>, inputs0: seq<File>, inputs1: seq<File>)
    returns (expanded: seq<File>, ghost allStart: Key, ghost allLimit: Key)
    requires level > 0 ==> Ordered(levelFiles)
    requires Selectable(level, levelFiles, inputs0)
    ensures Selectable(level, levelFiles, expanded) && NoBoundaryLeft(levelFiles, expanded)
    ensures forall f :: f in inputs0 ==> f in expanded
    ensures IsSmallest(inputs0 + inputs1, allStart) && IsLargest(inputs0 + inputs1, allLimit)
    ensures Attached(expanded, allStart.user, allLimit.user) && TakesHull(levelFiles, inputs0 + inputs1, expanded)
  {
    hide IsSmallest, IsLargest, Attached, Continues, NoBoundaryLeft;
    SelectedIsSome(level, levelFiles, inputs0);
    var start, limit := GetRange(inputs0 + inputs1);
    allStart, allLimit := start, limit;
    expanded := SelectRange(level, levelFiles, Some(start.user), Some(limit.user));
    forall f | f in inputs0
      ensures f in expanded
    {
      SelectedIsOfLevel(level, levelFiles, inputs0, f);
      InTheHull(inputs0 + inputs1, allStart, allLimit, f);
    }
    assert inputs0[0] in expanded;
    ghost var within := expanded;
    expanded := CompleteSelection(level, levelFiles, expanded);
    ContinuesKeeps(within, expanded);
  }

  lemma SelectedIsOfLevel(level: nat, levelFiles: seq<File>, inputs: seq<File>, f: File)
    requires Selectable(level, levelFiles, inputs) && f in inputs
    ensures f in levelFiles
  {
  }

  /** The second half of SetupOtherInputs: more files of `level`, if that is free of charge. */
  method GrowInputs(level: nat, levelFiles: seq<File>, nextFiles: seq<File>, inputs0: seq<File>, inputs1: seq<File>,
                    expandedByteSizeLimit: nat)
    returns (grown0: seq<File>, grown1: seq<File>, ghost expanded: seq<File>, ghost expandedNext: seq<File>)
    requires level > 0 ==> Ordered(levelFiles)
    requires Selectable(level, levelFiles, inputs0) && NoBoundaryLeft(levelFiles, inputs0) && inputs1 != []
    requires MeetsHull(nextFiles, inputs0, inputs1)
    ensures GrowsAsItMay(levelFiles, nextFiles, inputs0, inputs1, expandedByteSizeLimit, expanded, expandedNext, grown0, grown1)
    ensures Selectable(level, levelFiles, grown0) && NoBoundaryLeft(levelFiles, grown0)
    ensures MeetsHull(nextFiles, grown0, grown1)
    ensures |grown0| >= |inputs0| && |grown1| == |inputs1| && forall f :: f in inputs0 ==> f in grown0
    ensures Gapless(inputs0 + inputs1) ==> Gapless(grown0 + grown1)
  {
    hide IsSmallest, IsLargest, Gapless, Attached, NoBoundaryLeft, MeetsHull, Selectable, TakesHull;
    grown0, grown1 := inputs0, inputs1;
    var expanded0, allStart, allLimit := ExpandInputs(level, levelFiles, inputs0, inputs1);
    expanded, expandedNext := expanded0, [];
    if |expanded0| > |inputs0| && TotalFileSize(inputs1) + TotalFileSize(expanded0) < expandedByteSizeLimit {
      var expanded1 := SelectNext(level + 1, nextFiles, expanded0);
      expandedNext := expanded1;
      if |expanded1| == |inputs1| {
        if Gapless(inputs0 + inputs1) {
          GrownStaysGapless(nextFiles, inputs0, inputs1, expanded0, expanded1, allStart, allLimit);
        }
        grown0, grown1 := expanded0, expanded1;
      }
    }
  }

  ghost predicate IsGrown(levelFiles: seq<File>, nextFiles: seq<File>, inputs0: seq<File>, inputs1: seq<File>, limit: nat,
                          grown0: seq<File>, grown1: seq<File>) {
    exists expanded, expandedNext ::
      GrowsAsItMay(levelFiles, nextFiles, inputs0, inputs1, limit, expanded, expandedNext, grown0, grown1)
  }

  /** SetupOtherInputs without the grandparents. */
  method ChooseInputs(level: nat, levelFiles: seq<File>, nextFiles: seq<File>, selected: seq<File>,
                      expandedByteSizeLimit: nat)
    returns (inputs0: seq<File>, inputs1: seq<File>, ghost completed: seq<File>, ghost completedNext: seq<File>)
    requires level > 0 ==> Ordered(levelFiles)
    requires Selectable(level, levelFiles, selected)
    ensures selected <= completed && NoBoundaryLeft(levelFiles, completed) && MeetsHull(nextFiles, completed, completedNext)
    ensures IsGrown(levelFiles, nextFiles, completed, completedNext, expandedByteSizeLimit, inputs0, inputs1)
    ensures inputs0 != [] && |inputs0| >= |selected| && forall f :: f in selected ==> f in inputs0
    ensures Isolated(levelFiles, inputs0) && NoBoundaryLeft(levelFiles, inputs0)
    ensures MeetsHull(nextFiles, inputs0, inputs1)
    ensures Gapless(selected) ==> Gapless(inputs0 + inputs1)
  {
    hide Selectable, Gapless, Continues, NoBoundaryLeft, MeetsHull;
    inputs0 := CompleteSelection(level, levelFiles, selected);
    ContinuesKeeps(selected, inputs0);
    inputs1 := SelectNext(level + 1, nextFiles, inputs0);
    if Gapless(inputs0) {
      NextIsGapless(nextFiles, inputs0, inputs1);
    }
    SelectedIsSome(level, levelFiles, selected);
    completed, completedNext := inputs0, inputs1;
    ghost var expanded: seq<File>, expandedNext: seq<File> := [], [];
    if inputs1 != [] {
      inputs0, inputs1, expanded, expandedNext :=
        GrowInputs(level, levelFiles, nextFiles, inputs0, inputs1, expandedByteSizeLimit);
    }
    assert GrowsAsItMay(levelFiles, nextFiles, completed, completedNext, expandedByteSizeLimit, expanded, expandedNext,
                        inputs0, inputs1);
    SelectedIsIsolated(level, levelFiles, inputs0);
    SelectedIsSome(level, levelFiles, inputs0);
  }

  lemma SelectedIsSome(level: nat, levelFiles: seq<File>, inputs: seq<File>)
    requires Selectable(level, levelFiles, inputs)
    ensures inputs != []
  {
  }

  /** A compaction of `level` of one version (class Compaction). */
  class Compaction {
    const version: Levels
    const level: nat
    var inputs0: seq<File>
    var inputs1: seq<File>
    var grandparents: seq<File>
    const levelPtrs: array<nat>
    ghost var lastKey: Option<UserKey>

    constructor (version: Levels, level: nat, inputs0: seq<File>)
      requires WellFormed(version) && level + 1 < NUM_LEVELS
      ensures this.version == version && this.level == level && this.inputs0 == inputs0
      ensures inputs1 == [] && grandparents == []
      ensures Valid() && lastKey == None && fresh(levelPtrs)
    {
      this.version, this.level, this.inputs0 := version, level, inputs0;
      inputs1, grandparents := [], [];
      levelPtrs := new nat[NUM_LEVELS](_ => 0);
      lastKey := None;
    }

    /** The cursors of IsBaseLevelForKey have passed only files that end before the last key asked for. */
    ghost predicate Valid()
      reads this`lastKey, levelPtrs
    {
      && WellFormed(version) && level + 1 < NUM_LEVELS
      && levelPtrs.Length == NUM_LEVELS
      && (forall l :: level + 2 <= l < NUM_LEVELS ==> levelPtrs[l] <= |version[l]|)
      && (forall l, i :: level + 2 <= l < NUM_LEVELS && 0 <= i < levelPtrs[l] ==>
            lastKey.Some? && version[l][i].Largest().user < lastKey.value)
    }

    /** SetupOtherInputs: completes the selection, takes the files of the next level that meet
        its hull, and grows the selection when that costs no further file of the next level. */
    method SetupOtherInputs(expandedByteSizeLimit: nat) returns (ghost completed: seq<File>, ghost completedNext: seq<File>)
      requires |version| == NUM_LEVELS && level + 1 < NUM_LEVELS && (level > 0 ==> Ordered(version[level]))
      requires Selectable(level, version[level], inputs0)
      modifies this`inputs0, this`inputs1, this`grandparents
      ensures GoodInputs(version, level, inputs0, inputs1)
      ensures old(inputs0) <= completed && NoBoundaryLeft(version[level], completed)
      ensures MeetsHull(version[level + 1], completed, completedNext)
      ensures IsGrown(version[level], version[level + 1], completed, completedNext, expandedByteSizeLimit, inputs0, inputs1)
      ensures |inputs0| >= |old(inputs0)| && (forall f :: f in old(inputs0) ==> f in inputs0)
      ensures (Gapless(old(inputs0)) ==> Gapless(inputs0 + inputs1))
      ensures level + 2 < NUM_LEVELS ==> MeetsHull(version[level + 2], inputs0 + inputs1, grandparents)
    {
      hide Selectable, Gapless, Isolated, NoBoundaryLeft, MeetsHull, IsGrown;
      inputs0, inputs1, completed, completedNext := ChooseInputs(level, version[level], version[level + 1], inputs0, expandedByteSizeLimit);
      if level + 2 < NUM_LEVELS {
        grandparents := SelectNext(level + 2, version[level + 2], inputs0 + inputs1);
      }
    }

    /** IsTrivialMove */
    method IsTrivialMove(maxGrandParentOverlapBytes: nat) returns (trivial: bool)
      ensures trivial <==> |inputs0| == 1 && inputs1 == [] && TotalFileSize(grandparents) <= maxGrandParentOverlapBytes
    {
      trivial := |inputs0| == 1 && |inputs1| == 0 && TotalFileSize(grandparents) <= maxGrandParentOverlapBytes;
    }

    /** IsBaseLevelForKey: over keys that never decrease, the moving cursors give the answer of
        a scan of every file of every deeper level. */
    method IsBaseLevelForKey(user: UserKey) returns (base: bool)
      requires Valid() && (lastKey.Some? ==> lastKey.value <= user)
      modifies levelPtrs, this`lastKey
      ensures Valid() && lastKey == Some(user)
      ensures base <==> BaseLevel(version, level, user)
    {
      lastKey := Some(user);
      for lvl := level + 2 to NUM_LEVELS
        invariant Valid() && lastKey == Some(user)
        invariant forall l :: level + 2 <= l < lvl ==> !Covers(version[l], user)
      {
        while levelPtrs[lvl] < |version[lvl]|
          invariant Valid() && lastKey == Some(user)
          decreases |version[lvl]| - levelPtrs[lvl]
        {
          var i := levelPtrs[lvl];
          var f := version[lvl][i];
          if user <= f.Largest().user {
            if user >= f.Smallest().user {
              assert f in version[lvl] && Covers(version[lvl], user);
              return false;
            }
            LaterFilesAreBeyond(version[lvl], i, user);
            break;
          }
          levelPtrs[lvl] := i + 1;
        }
        assert !Covers(version[lvl], user);
      }
      base := true;
    }
  }

  predicate InRange(f: File, user: UserKey) {
    f.Smallest().user <= user <= f.Largest().user
  }

  ghost predicate Covers(files: seq<File>, user: UserKey) {
    exists f :: f in files && InRange(f, user)
  }

  /** No file two or more levels down has the user key in its range. */
  ghost predicate BaseLevel(v: Levels, level: nat, user: UserKey)
    requires |v| == NUM_LEVELS
  {
    forall l :: level + 2 <= l < NUM_LEVELS ==> !Covers(v[l], user)
  }

  lemma LaterFilesAreBeyond(files: seq<File>, i: nat, user: UserKey)
    requires Ordered(files) && i < |files| && user < files[i].Smallest().user
    ensures forall j :: i <= j < |files| ==> !InRange(files[j], user)
  {
    FileRange(files[i]);
  }
}

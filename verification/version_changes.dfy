/** Changing a version: a flushed memtable, a moved file and a compaction each keep the
    version well formed.  Nothing here knows how the new version was computed. */
module VersionChanges {
  import opened InternalKey
  import opened Version
  import opened Compactions
  import opened VersionBuilder

  const FILES: FileView<File> := FileView((f: File) => f.Smallest(), (f: File) => f.number)

  ghost predicate At(v: Levels, l: nat, f: File) {
    l < |v| && f in v[l]
  }

  /** No two files of the version share a number. */
  ghost predicate UniqueNumbers(v: Levels) {
    forall l, l', f, g :: At(v, l, f) && At(v, l', g) && f.number == g.number ==> l == l' && f == g
  }

  ghost predicate NumbersBelow(v: Levels, n: nat) {
    forall l, f :: At(v, l, f) ==> f.number < n
  }

  function Numbers(files: seq<File>): set<nat> {
    set i | 0 <= i < |files| :: files[i].number
  }

  lemma SameOrder(files: seq<File>)
    ensures SortedBySmallest(files) <==> FILES.Sorted(files)
  {
    assert forall f: File, g: File :: FILES.Before(f, g) <==> BySmallestKey(f, g);
  }

  lemma OrderedIsSorted(files: seq<File>)
    requires Ordered(files)
    ensures FILES.Sorted(files)
  {
    forall i, j | 0 <= i < j < |files|
      ensures FILES.Before(files[i], files[j])
    {
      FileRange(files[i]);
    }
  }

  ghost predicate Pairwise(files: seq<File>) {
    forall f, g :: f in files && g in files ==>
      f == g || Precedes(f.Largest(), g.Smallest()) || Precedes(g.Largest(), f.Smallest())
  }

  lemma PairwiseSortedIsOrdered(files: seq<File>)
    requires FILES.Sorted(files) && Pairwise(files)
    ensures Ordered(files)
  {
    forall i, j | 0 <= i < j < |files|
      ensures Precedes(files[i].Largest(), files[j].Smallest())
    {
      var f, g := files[i], files[j];
      assert f in files && g in files && FILES.Before(f, g);
      FileRange(f);
      FileRange(g);
    }
  }

  lemma SortedDistinctNumbers(files: seq<File>)
    requires FILES.Sorted(files)
    requires forall f, g :: f in files && g in files && f.number == g.number ==> f == g
    ensures DistinctNumbers(files)
  {
    forall i, j | 0 <= i < j < |files|
      ensures files[i].number != files[j].number
    {
      assert files[i] in files && files[j] in files && FILES.Before(files[i], files[j]);
    }
  }

  lemma SameNumber(files: seq<File>, f: File, g: File)
    requires DistinctNumbers(files) && f in files && g in files && f.number == g.number
    ensures f == g
  {
  }

  // ----- Files pushed from one level to the next -----

  /** `out` replaces inputs: its entries come from them. */
  ghost predicate ComesFrom(out: File, inputs: seq<File>) {
    forall e :: e in out.entries ==> exists f :: f in inputs && e in f.entries
  }

  lemma AboveOutput(g: File, out: File, inputs: seq<File>)
    requires ComesFrom(out, inputs) && forall f :: f in inputs ==> Above(g, f)
    ensures Above(g, out)
  {
    forall e, e' | e in g.entries && e' in out.entries && e.key.user == e'.key.user
      ensures e.key.sequence > e'.key.sequence
    {
      var f :| f in inputs && e' in f.entries;
      assert Above(g, f);
    }
  }

  lemma OutputAbove(out: File, inputs: seq<File>, g: File)
    requires ComesFrom(out, inputs) && forall f :: f in inputs ==> Above(f, g)
    ensures Above(out, g)
  {
    forall e, e' | e in out.entries && e' in g.entries && e.key.user == e'.key.user
      ensures e.key.sequence > e'.key.sequence
    {
      var f :| f in inputs && e in f.entries;
      assert Above(f, g);
    }
  }

  /** `v'` is `v` with `inputs0` taken out of `level`, and `inputs1` replaced by `outputs` in the next. */
  ghost predicate PushedDown(v: Levels, level: nat, inputs0: seq<File>, inputs1: seq<File>, outputs: seq<File>, v': Levels)
    requires |v| == NUM_LEVELS && level + 1 < NUM_LEVELS
  {
    && |v'| == NUM_LEVELS
    && (forall l :: 0 <= l < NUM_LEVELS && l != level && l != level + 1 ==> v'[l] == v[l])
    && FILES.IsSaved(v[level], [], Numbers(inputs0), v'[level])
    && FILES.IsSaved(v[level + 1], outputs, Numbers(inputs1), v'[level + 1])
  }

  /** What a compaction may replace: nothing of the level itself that stays is older. */
  ghost predicate Takes(v: Levels, level: nat, inputs0: seq<File>, inputs1: seq<File>)
    requires |v| == NUM_LEVELS && level + 1 < NUM_LEVELS
  {
    Isolated(v[level], inputs0) && forall f :: f in inputs1 ==> f in v[level + 1]
  }

  ghost predicate Separate(f: File, g: File) {
    Precedes(f.Largest(), g.Smallest()) || Precedes(g.Largest(), f.Smallest())
  }

  /** The outputs and what stays of the next level do not overlap. */
  ghost predicate Fit(next: seq<File>, inputs1: seq<File>, outputs: seq<File>) {
    forall o, g :: o in outputs && g in next && g !in inputs1 ==> Separate(o, g)
  }

  /** What the outputs of a compaction or of a move must be. */
  ghost predicate GoodOutputs(v: Levels, level: nat, inputs0: seq<File>, inputs1: seq<File>, outputs: seq<File>)
    requires |v| == NUM_LEVELS && level + 1 < NUM_LEVELS
  {
    && Ordered(outputs) && DistinctNumbers(outputs) && Fit(v[level + 1], inputs1, outputs)
    && (forall o :: o in outputs ==> ComesFrom(o, inputs0 + inputs1))
    && (forall o, g :: o in outputs && g in v[level + 1] ==> o.number != g.number)
  }

  /** The files of the two levels afterwards. */
  lemma PushedFiles(v: Levels, level: nat, inputs0: seq<File>, inputs1: seq<File>, outputs: seq<File>, v': Levels)
    requires WellFormed(v) && level + 1 < NUM_LEVELS && Takes(v, level, inputs0, inputs1)
    requires GoodOutputs(v, level, inputs0, inputs1, outputs)
    requires PushedDown(v, level, inputs0, inputs1, outputs, v')
    ensures forall f :: f in v'[level] <==> f in v[level] && f !in inputs0
    ensures forall f :: f in v'[level + 1] <==> (f in v[level + 1] && f !in inputs1) || f in outputs
  {
    forall f
      ensures f in v'[level] <==> f in v[level] && f !in inputs0
    {
      if f in v[level] && f.number in Numbers(inputs0) {
        var g :| g in inputs0 && g.number == f.number;
        SameNumber(v[level], f, g);
      }
    }
    forall f
      ensures f in v'[level + 1] <==> (f in v[level + 1] && f !in inputs1) || f in outputs
    {
      if f.number in Numbers(inputs1) {
        var g :| g in inputs1 && g.number == f.number;
        assert g in v[level + 1];
        if f in v[level + 1] {
          SameNumber(v[level + 1], f, g);
        }
      }
    }
  }

  /** A file of the next level outside the inputs lies before or after every output. */
  lemma OutputsFit(next: seq<File>, inputs0: seq<File>, inputs1: seq<File>, o: File, g: File)
    requires Ordered(next) && MeetsHull(next, inputs0, inputs1)
    requires ComesFrom(o, inputs0 + inputs1) && g in next && g !in inputs1
    ensures Separate(o, g)
  {
    var lo, hi :| IsSmallest(inputs0, lo) && IsLargest(inputs0, hi)
                  && inputs1 == Overlapping(next, Some(lo.user), Some(hi.user));
    if g.Largest().user < lo.user {
      EntryIsAfter(next, inputs0, inputs1, lo, hi, o, o.entries[0], g);
    } else {
      EntryIsBefore(next, inputs0, inputs1, lo, hi, o, o.entries[|o.entries| - 1], g);
    }
  }

  /** The inputs that a compaction chooses leave room for its outputs. */
  lemma ChosenInputsFit(v: Levels, level: nat, inputs0: seq<File>, inputs1: seq<File>, outputs: seq<File>)
    requires WellFormed(v) && level + 1 < NUM_LEVELS && GoodInputs(v, level, inputs0, inputs1)
    requires forall o :: o in outputs ==> ComesFrom(o, inputs0 + inputs1)
    ensures Takes(v, level, inputs0, inputs1) && Fit(v[level + 1], inputs1, outputs)
  {
    forall o, g | o in outputs && g in v[level + 1] && g !in inputs1
      ensures Separate(o, g)
    {
      OutputsFit(v[level + 1], inputs0, inputs1, o, g);
    }
  }

  lemma EntryIsAfter(next: seq<File>, inputs0: seq<File>, inputs1: seq<File>, lo: Key, hi: Key, o: File, e: Entry, g: File)
    requires Ordered(next) && IsSmallest(inputs0, lo) && inputs1 == Overlapping(next, Some(lo.user), Some(hi.user))
    requires ComesFrom(o, inputs0 + inputs1) && e in o.entries && g in next && g.Largest().user < lo.user
    ensures Precedes(g.Largest(), e.key)
  {
    var f :| f in inputs0 + inputs1 && e in f.entries;
    EntryInRange(f, e);
    if f in inputs1 && f !in inputs0 {
      TotallyOrdered(next, f, g);
      FileRange(g);
    }
  }

  lemma EntryIsBefore(next: seq<File>, inputs0: seq<File>, inputs1: seq<File>, lo: Key, hi: Key, o: File, e: Entry, g: File)
    requires Ordered(next) && IsLargest(inputs0, hi) && inputs1 == Overlapping(next, Some(lo.user), Some(hi.user))
    requires ComesFrom(o, inputs0 + inputs1) && e in o.entries && g in next && g.Smallest().user > hi.user
    ensures Precedes(e.key, g.Smallest())
  {
    var f :| f in inputs0 + inputs1 && e in f.entries;
    EntryInRange(f, e);
    if f in inputs1 && f !in inputs0 {
      TotallyOrdered(next, f, g);
      FileRange(g);
    }
  }

  /** The next level stays sorted and disjoint. */
  lemma NextLevelStaysOrdered(v: Levels, level: nat, inputs0: seq<File>, inputs1: seq<File>, outputs: seq<File>, v': Levels)
    requires WellFormed(v) && level + 1 < NUM_LEVELS && Takes(v, level, inputs0, inputs1)
    requires GoodOutputs(v, level, inputs0, inputs1, outputs)
    requires PushedDown(v, level, inputs0, inputs1, outputs, v')
    ensures Ordered(v'[level + 1]) && DistinctNumbers(v'[level + 1])
  {
    PushedFiles(v, level, inputs0, inputs1, outputs, v');
    var next, next' := v[level + 1], v'[level + 1];
    forall f, g | f in next' && g in next'
      ensures f == g || Precedes(f.Largest(), g.Smallest()) || Precedes(g.Largest(), f.Smallest())
      ensures f.number == g.number ==> f == g
    {
      if f in outputs && g in outputs {
        TotallyOrdered(outputs, f, g);
        if f.number == g.number { SameNumber(outputs, f, g); }
      } else if f in outputs {
        assert Separate(f, g);
      } else if g in outputs {
        assert Separate(g, f);
      } else {
        TotallyOrdered(next, f, g);
        if f.number == g.number { SameNumber(next, f, g); }
      }
    }
    PairwiseSortedIsOrdered(next');
    SortedDistinctNumbers(next');
  }

  /** The level itself keeps its own order. */
  lemma LevelStaysOrdered(v: Levels, level: nat, inputs0: seq<File>, inputs1: seq<File>, outputs: seq<File>, v': Levels)
    requires WellFormed(v) && level + 1 < NUM_LEVELS && Takes(v, level, inputs0, inputs1)
    requires GoodOutputs(v, level, inputs0, inputs1, outputs)
    requires PushedDown(v, level, inputs0, inputs1, outputs, v')
    ensures DistinctNumbers(v'[level])
    ensures if level == 0 then SortedBySmallest(v'[0]) && NewerByNumber(v'[0]) else Ordered(v'[level])
  {
    PushedFiles(v, level, inputs0, inputs1, outputs, v');
    forall f, g | f in v'[level] && g in v'[level]
      ensures level > 0 ==> f == g || Precedes(f.Largest(), g.Smallest()) || Precedes(g.Largest(), f.Smallest())
      ensures f.number == g.number ==> f == g
    {
      if f.number == g.number { SameNumber(v[level], f, g); }
      if level > 0 { TotallyOrdered(v[level], f, g); }
    }
    SortedDistinctNumbers(v'[level]);
    SameOrder(v'[level]);
    if level > 0 {
      PairwiseSortedIsOrdered(v'[level]);
    }
  }

  lemma LevelsAbove(v: Levels, l: nat, l': nat, f: File, g: File)
    requires WellFormed(v) && l < l' < NUM_LEVELS && f in v[l] && g in v[l']
    ensures Above(f, g)
  {
    assert LevelAbove(v[l], v[l']);
  }

  lemma LeftShallowIsNewer(v: Levels, level: nat, inputs0: seq<File>, inputs1: seq<File>, f: File, l: nat, g: File)
    requires WellFormed(v) && level + 1 < NUM_LEVELS && Isolated(v[level], inputs0)
    requires (f in inputs0 && f in v[level]) || (f in inputs1 && f in v[level + 1])
    requires l <= level && g in v[l] && !(l == level && g in inputs0)
    ensures Above(g, f)
  {
    if f in inputs1 && f in v[level + 1] {
      LevelsAbove(v, l, level + 1, g, f);
    } else if l < level {
      LevelsAbove(v, l, level, g, f);
    }
  }

  lemma OutputAboveDeeper(v: Levels, level: nat, inputs0: seq<File>, inputs1: seq<File>, out: File, l': nat, g: File)
    requires WellFormed(v) && level + 1 < l' < NUM_LEVELS && g in v[l'] && ComesFrom(out, inputs0 + inputs1)
    requires forall f :: f in inputs0 ==> f in v[level]
    requires forall f :: f in inputs1 ==> f in v[level + 1]
    ensures Above(out, g)
  {
    forall h | h in inputs0 + inputs1
      ensures Above(h, g)
    {
      if h in inputs0 {
        LevelsAbove(v, level, l', h, g);
      } else {
        LevelsAbove(v, level + 1, l', h, g);
      }
    }
    OutputAbove(out, inputs0 + inputs1, g);
  }

  lemma ShallowerAboveOutput(v: Levels, level: nat, inputs0: seq<File>, inputs1: seq<File>, l: nat, f: File, out: File)
    requires WellFormed(v) && level + 1 < NUM_LEVELS && Isolated(v[level], inputs0) && ComesFrom(out, inputs0 + inputs1)
    requires forall h :: h in inputs1 ==> h in v[level + 1]
    requires l <= level && f in v[l] && !(l == level && f in inputs0)
    ensures Above(f, out)
  {
    forall h | h in inputs0 + inputs1
      ensures Above(f, h)
    {
      LeftShallowIsNewer(v, level, inputs0, inputs1, h, l, f);
    }
    AboveOutput(f, out, inputs0 + inputs1);
  }

  /** Smaller levels stay newer. */
  lemma LevelsStayAbove(v: Levels, level: nat, inputs0: seq<File>, inputs1: seq<File>, outputs: seq<File>, v': Levels,
                        l: nat, l': nat, f: File, g: File)
    requires WellFormed(v) && level + 1 < NUM_LEVELS && |v'| == NUM_LEVELS && Isolated(v[level], inputs0)
    requires forall h :: h in inputs1 ==> h in v[level + 1]
    requires forall o :: o in outputs ==> ComesFrom(o, inputs0 + inputs1)
    requires forall k :: 0 <= k < NUM_LEVELS && k != level && k != level + 1 ==> v'[k] == v[k]
    requires forall h :: h in v'[level] <==> h in v[level] && h !in inputs0
    requires forall h :: h in v'[level + 1] <==> (h in v[level + 1] && h !in inputs1) || h in outputs
    requires l < l' < NUM_LEVELS && f in v'[l] && g in v'[l']
    ensures Above(f, g)
  {
    if l == level + 1 && f in outputs {
      OutputAboveDeeper(v, level, inputs0, inputs1, f, l', g);
    } else if l' == level + 1 && g in outputs {
      ShallowerAboveOutput(v, level, inputs0, inputs1, l, f, g);
    } else {
      LevelsAbove(v, l, l', f, g);
    }
  }

  lemma AllLevelsOrdered(v: Levels, level: nat, v': Levels)
    requires WellFormed(v) && level + 1 < NUM_LEVELS && |v'| == NUM_LEVELS
    requires forall l :: 0 <= l < NUM_LEVELS && l != level && l != level + 1 ==> v'[l] == v[l]
    requires DistinctNumbers(v'[level]) && DistinctNumbers(v'[level + 1]) && Ordered(v'[level + 1])
    requires if level == 0 then SortedBySmallest(v'[0]) && NewerByNumber(v'[0]) else Ordered(v'[level])
    ensures forall l {:trigger DistinctNumbers(v'[l])} :: 0 <= l < NUM_LEVELS ==> DistinctNumbers(v'[l])
    ensures forall l {:trigger Ordered(v'[l])} :: 1 <= l < NUM_LEVELS ==> Ordered(v'[l])
    ensures SortedBySmallest(v'[0]) && NewerByNumber(v'[0])
  {
    forall l | 0 <= l < NUM_LEVELS
      ensures DistinctNumbers(v'[l]) && (l > 0 ==> Ordered(v'[l]))
    {
      assert DistinctNumbers(v[l]) && (l > 0 ==> Ordered(v[l]));
    }
  }

  lemma AllLevelsAbove(v: Levels, level: nat, inputs0: seq<File>, inputs1: seq<File>, outputs: seq<File>, v': Levels)
    requires WellFormed(v) && level + 1 < NUM_LEVELS && |v'| == NUM_LEVELS && Isolated(v[level], inputs0)
    requires forall h :: h in inputs1 ==> h in v[level + 1]
    requires forall o :: o in outputs ==> ComesFrom(o, inputs0 + inputs1)
    requires forall k :: 0 <= k < NUM_LEVELS && k != level && k != level + 1 ==> v'[k] == v[k]
    requires forall h :: h in v'[level] <==> h in v[level] && h !in inputs0
    requires forall h :: h in v'[level + 1] <==> (h in v[level + 1] && h !in inputs1) || h in outputs
    ensures forall l, l' {:trigger LevelAbove(v'[l], v'[l'])} :: 0 <= l < l' < NUM_LEVELS ==> LevelAbove(v'[l], v'[l'])
  {
    forall l, l' | 0 <= l < l' < NUM_LEVELS
      ensures LevelAbove(v'[l], v'[l'])
    {
      forall f, g | f in v'[l] && g in v'[l']
        ensures Above(f, g)
      {
        LevelsStayAbove(v, level, inputs0, inputs1, outputs, v', l, l', f, g);
      }
    }
  }

  /** A compaction or a move keeps the version well formed. */
  lemma PushedDownIsWellFormed(v: Levels, level: nat, inputs0: seq<File>, inputs1: seq<File>, outputs: seq<File>, v': Levels)
    requires WellFormed(v) && level + 1 < NUM_LEVELS && Takes(v, level, inputs0, inputs1)
    requires GoodOutputs(v, level, inputs0, inputs1, outputs)
    requires PushedDown(v, level, inputs0, inputs1, outputs, v')
    ensures WellFormed(v')
  {
    NextLevelStaysOrdered(v, level, inputs0, inputs1, outputs, v');
    LevelStaysOrdered(v, level, inputs0, inputs1, outputs, v');
    PushedFiles(v, level, inputs0, inputs1, outputs, v');
    AllLevelsOrdered(v, level, v');
    AllLevelsAbove(v, level, inputs0, inputs1, outputs, v');
  }

  // ----- A flushed memtable -----

  ghost predicate Placed(v: Levels, level: nat, f: File, v': Levels)
    requires |v| == NUM_LEVELS && level < NUM_LEVELS
  {
    && |v'| == NUM_LEVELS
    && (forall l :: 0 <= l < NUM_LEVELS && l != level ==> v'[l] == v[l])
    && FILES.IsSaved(v[level], [f], {}, v'[level])
  }

  /** The level that PickLevelForMemTableOutput may answer for `f`. */
  ghost predicate MayPlace(v: Levels, level: nat, f: File)
    requires |v| == NUM_LEVELS
  {
    && level < NUM_LEVELS
    && (level > 0 ==> forall l :: 0 <= l <= level ==> NoOverlap(v[l], Some(f.Smallest().user), Some(f.Largest().user)))
  }

  lemma PlacedInOrder(v: Levels, level: nat, f: File, v': Levels)
    requires WellFormed(v) && MayPlace(v, level, f) && Placed(v, level, f, v')
    requires NumbersBelow(v, f.number)
    requires forall l, g :: 0 <= l < NUM_LEVELS && g in v[l] ==> Above(f, g)
    ensures DistinctNumbers(v'[level])
    ensures if level == 0 then SortedBySmallest(v'[0]) && NewerByNumber(v'[0]) else Ordered(v'[level])
  {
    assert forall g :: g in v[level] ==> At(v, level, g);
    forall g, h | g in v'[level] && h in v'[level]
      ensures level > 0 ==> g == h || Precedes(g.Largest(), h.Smallest()) || Precedes(h.Largest(), g.Smallest())
      ensures g.number == h.number ==> g == h
    {
      if g in v[level] && h in v[level] {
        if g.number == h.number { SameNumber(v[level], g, h); }
        if level > 0 { TotallyOrdered(v[level], g, h); }
      }
    }
    SortedDistinctNumbers(v'[level]);
    SameOrder(v'[level]);
    if level > 0 {
      PairwiseSortedIsOrdered(v'[level]);
    }
  }

  /** A flush keeps the version well formed. */
  lemma PlacedIsWellFormed(v: Levels, level: nat, f: File, v': Levels)
    requires WellFormed(v) && MayPlace(v, level, f) && Placed(v, level, f, v')
    requires NumbersBelow(v, f.number)
    requires forall l, g :: 0 <= l < NUM_LEVELS && g in v[l] ==> Above(f, g)
    ensures WellFormed(v')
  {
    PlacedInOrder(v, level, f, v');
    forall l, l', g, h | 0 <= l < l' < NUM_LEVELS && g in v'[l] && h in v'[l']
      ensures Above(g, h)
    {
      if l == level && g == f {
        assert h in v[l'];
      } else if l' == level && h == f {
        assert NoOverlap(v[l], Some(f.Smallest().user), Some(f.Largest().user));
        NothingShared(f, g, Some(f.Smallest().user), Some(f.Largest().user));
      } else {
        assert LevelAbove(v[l], v[l']);
      }
    }
  }
}

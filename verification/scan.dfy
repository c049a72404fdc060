/** A scan of the database (DBImpl::NewIterator, db/db_impl.cc): the runs under the merging iterator,
    and what a client sees through all the iterators. */
module Scans {
  import opened InternalKey
  import opened Sequences
  import opened Version
  import opened Database
  import opened DBImplementation
  import opened Iterators
  import opened Merger
  import opened TwoLevel
  import opened DBIterator
  import Coding

  // ----- One level after the first -----

  /** What LevelFileNumIterator gives as the value for a file. */
  function FileValue(f: File): (r: Bytes)
    ensures |r| == 16
  {
    Coding.EncodeFixed64(f.number) + Coding.EncodeFixed64(f.size)
  }

  function IndexOfLevel(files: seq<File>): (r: seq<Entry>)
    ensures |r| == |files|
  {
    seq(|files|, i requires 0 <= i < |files| => Entry(files[i].Largest(), FileValue(files[i])))
  }

  lemma IndexIsSorted(files: seq<File>)
    requires Ordered(files)
    ensures Sorted(IndexOfLevel(files)) && Separates(IndexOfLevel(files), EntriesOf(files))
  {
    var index := IndexOfLevel(files);
    forall i, j | 0 <= i < j < |files|
      ensures Precedes(index[i].key, index[j].key)
    {
      FileRange(files[j]);
    }
    forall i, j | 0 <= i < |files| && 0 <= j < |files[i].entries|
      ensures Compare(files[i].entries[j].key, index[i].key) <= 0
    {
      EntryInRange(files[i], files[i].entries[j]);
    }
    forall i, k, j | 0 <= i < k < |files| && 0 <= j < |files[k].entries|
      ensures Compare(index[i].key, files[k].entries[j].key) < 0
    {
      EntryInRange(files[k], files[k].entries[j]);
    }
  }

  lemma NumberOfValue(f: File)
    requires f.number < 0x1_0000_0000_0000_0000
    ensures Coding.DecodeFixed64(FileValue(f)) == f.number
  {
    Coding.Fixed64RoundTrip(f.number, Coding.EncodeFixed64(f.size));
  }

  /** NewConcatenatingIterator: a two-level iterator over the files of a level. */
  method NewConcatenatingIterator(files: seq<File>) returns (iter: TwoLevelIterator)
    requires Ordered(files) && DistinctNumbers(files)
    requires forall f :: f in files ==> f.number < 0x1_0000_0000_0000_0000
    ensures fresh(iter) && iter.Inv() && !iter.Valid() && iter.Flat() == Flatten(EntriesOf(files))
  {
    IndexIsSorted(files);
    var blocks: map<Bytes, seq<Entry>> := map[];
    for i := 0 to |files|
      invariant forall j :: 0 <= j < i ==> FileValue(files[j]) in blocks && blocks[FileValue(files[j])] == files[j].entries
      invariant forall handle :: handle in blocks ==> Sorted(blocks[handle])
    {
      forall j | 0 <= j < i
        ensures FileValue(files[j]) != FileValue(files[i])
      {
        NumberOfValue(files[j]);
        NumberOfValue(files[i]);
      }
      blocks := blocks[FileValue(files[i]) := files[i].entries];
    }
    var index := new Cursor(IndexOfLevel(files));
    assert BlocksOf(index.entries, blocks) == EntriesOf(files);
    iter := new TwoLevelIterator(index, blocks);
  }

  lemma {:induction false} LevelIsSorted(files: seq<File>)
    requires Ordered(files)
    ensures Sorted(Flatten(EntriesOf(files)))
  {
    if files != [] {
      var n := |files| - 1;
      LevelIsSorted(files[..n]);
      assert EntriesOf(files)[..n] == EntriesOf(files[..n]);
      FrontPrecedes(files, n);
      SortedTogether(Flatten(EntriesOf(files[..n])), files[n].entries);
    }
  }

  ghost predicate AllPrecede(a: seq<Entry>, b: seq<Entry>) {
    forall i, j :: 0 <= i < |a| && 0 <= j < |b| ==> Precedes(a[i].key, b[j].key)
  }

  lemma SortedTogether(a: seq<Entry>, b: seq<Entry>)
    requires Sorted(a) && Sorted(b) && AllPrecede(a, b)
    ensures Sorted(a + b)
  {
  }

  lemma FrontPrecedes(files: seq<File>, n: nat)
    requires Ordered(files) && n < |files|
    ensures AllPrecede(Flatten(EntriesOf(files[..n])), files[n].entries)
  {
    hide Flatten;
    var front, last := Flatten(EntriesOf(files[..n])), files[n].entries;
    CutsKeepEntries(files[..n]);
    forall i, j | 0 <= i < |front| && 0 <= j < |last|
      ensures Precedes(front[i].key, last[j].key)
    {
      assert front[i] in EntriesIn(files[..n]);
      var f :| f in files[..n] && front[i] in f.entries;
      EntryInRange(f, front[i]);
      EntryInRange(files[n], last[j]);
    }
  }

  // ----- All runs -----

  /** The runs of the first `n` levels, the first level with one for each file. */
  function LevelRuns(v: Levels, n: nat): seq<seq<Entry>>
    requires n <= |v|
  {
    if n == 0 then []
    else if n == 1 then EntriesOf(v[0])
    else LevelRuns(v, n - 1) + if v[n - 1] == [] then [] else [Flatten(EntriesOf(v[n - 1]))]
  }

  function RunsOf(s: State): seq<seq<Entry>>
    requires |s.levels| == NUM_LEVELS
  {
    MemoryRuns(s) + LevelRuns(s.levels, NUM_LEVELS)
  }

  /** `flat` is the runs in one, and has these entries. */
  ghost predicate Merges(flat: seq<Entry>, runs: seq<seq<Entry>>, entries: set<Entry>) {
    IsMerge(flat, runs) && DistinctKeys(runs) && Elements(flat) == entries
  }

  /** No version is in both. */
  ghost predicate NoneShared(a: set<Entry>, b: set<Entry>) {
    forall e, e' :: e in a && e' in b && e.key.user == e'.key.user ==> e.key.sequence != e'.key.sequence
  }

  lemma AddRun(flat: seq<Entry>, runs: seq<seq<Entry>>, entries: set<Entry>, run: seq<Entry>) returns (flat': seq<Entry>)
    requires Merges(flat, runs, entries) && Sorted(run) && NoneShared(entries, Elements(run))
    ensures Merges(flat', runs + [run], entries + Elements(run))
  {
    MergeTwoIsSorted(flat, run);
    flat' := MergeTwo(flat, run);
    MergedWith(flat, runs, run);
    DistinctWith(flat, runs, run);
  }

  lemma MergedWith(flat: seq<Entry>, runs: seq<seq<Entry>>, run: seq<Entry>)
    requires IsMerge(flat, runs) && Sorted(MergeTwo(flat, run))
    ensures IsMerge(MergeTwo(flat, run), runs + [run])
  {
    var flat', all := MergeTwo(flat, run), runs + [run];
    forall k, i | 0 <= k < |all| && 0 <= i < |all[k]|
      ensures all[k][i] in flat'
    {
      assert k < |runs| ==> runs[k][i] in flat;
    }
    forall p | 0 <= p < |flat'|
      ensures InSome(all, flat'[p])
    {
      assert flat'[p] in flat';
      var k, i := InSomeRun(flat, runs, run, flat'[p]);
    }
  }

  lemma InSomeRun(flat: seq<Entry>, runs: seq<seq<Entry>>, run: seq<Entry>, e: Entry) returns (k: nat, i: nat)
    requires IsMerge(flat, runs) && (e in flat || e in run)
    ensures Holds(runs + [run], k, i, e)
  {
    if e in run {
      i :| i < |run| && run[i] == e;
      k := |runs|;
    } else {
      var q :| 0 <= q < |flat| && flat[q] == e;
      assert InSome(runs, flat[q]);
      k, i :| Holds(runs, k, i, e);
    }
  }

  lemma DistinctWith(flat: seq<Entry>, runs: seq<seq<Entry>>, run: seq<Entry>)
    requires IsMerge(flat, runs) && DistinctKeys(runs) && NoneShared(Elements(flat), Elements(run))
    ensures DistinctKeys(runs + [run])
  {
    var all: seq<seq<Entry>> := runs + [run];
    forall k: nat, l: nat, i: nat, j: nat | k < l < |all| && i < |all[k]| && j < |all[l]|
      ensures Precedes(all[k][i].key, all[l][j].key) || Precedes(all[l][j].key, all[k][i].key)
    {
      assert all[k] == runs[k];
      if l == |runs| {
        assert runs[k][i] in flat && run[j] in run;
        assert runs[k][i] in Elements(flat) && run[j] in Elements(run);
      } else {
        assert all[l] == runs[l];
      }
    }
  }

  ghost function Memory(s: State): set<Entry> {
    Elements(s.mem) + ImmEntries(s)
  }

  function MemoryRuns(s: State): seq<seq<Entry>> {
    [s.mem] + if s.imm.Some? then [s.imm.value] else []
  }

  lemma NothingMerges()
    ensures Merges([], [], {})
  {
  }

  lemma MemoryMerges(s: State) returns (flat: seq<Entry>)
    requires LayersOk(s)
    ensures Merges(flat, MemoryRuns(s), Memory(s))
  {
    hide Ordered, LevelAbove, Merges;
    NothingMerges();
    flat := AddRun([], [], {}, s.mem);
    assert [] + [s.mem] == [s.mem] && {} + Elements(s.mem) == Elements(s.mem);
    if s.imm.Some? {
      flat := AddRun(flat, [s.mem], Elements(s.mem), s.imm.value);
      assert MemoryRuns(s) == [s.mem] + [s.imm.value];
    } else {
      assert MemoryRuns(s) == [s.mem] && Memory(s) == Elements(s.mem);
    }
  }

  lemma MemoryIsNewer(s: State, l: nat, f: File)
    requires LayersOk(s) && l < NUM_LEVELS && f in s.levels[l]
    ensures NoneShared(Memory(s), Elements(f.entries))
  {
    forall e, e' | e in Memory(s) && e' in Elements(f.entries) && e.key.user == e'.key.user
      ensures e.key.sequence != e'.key.sequence
    {
      InContents(s.levels, l, f, e');
    }
  }

  /** The files of the first level, one run each. */
  lemma {:induction false} FirstLevelMerges(s: State, n: nat) returns (flat: seq<Entry>)
    requires LayersOk(s) && |s.levels| == NUM_LEVELS && n <= |s.levels[0]|
    ensures Merges(flat, MemoryRuns(s) + EntriesOf(s.levels[0][..n]), Memory(s) + EntriesIn(s.levels[0][..n]))
  {
    hide LayersOk, Merges, NoneShared;
    var files := s.levels[0];
    if n == 0 {
      flat := MemoryMerges(s);
      assert EntriesOf(files[..0]) == [] && EntriesIn(files[..0]) == {};
      assert MemoryRuns(s) + [] == MemoryRuns(s) && Memory(s) + {} == Memory(s);
    } else {
      flat := FirstLevelMerges(s, n - 1);
      var runs, f := MemoryRuns(s) + EntriesOf(files[..n - 1]), files[n - 1];
      MemoryIsNewer(s, 0, f);
      FirstLevelIsNewer(s);
      EarlierFilesDiffer(files, n - 1);
      BothDiffer(Memory(s), EntriesIn(files[..n - 1]), Elements(f.entries));
      flat := AddRun(flat, runs, Memory(s) + EntriesIn(files[..n - 1]), f.entries);
      assert runs + [f.entries] == MemoryRuns(s) + EntriesOf(files[..n]);
      assert EntriesIn(files[..n]) == EntriesIn(files[..n - 1]) + Elements(f.entries) by { LastFile(files, n); }
      Regroup(Memory(s), EntriesIn(files[..n - 1]), Elements(f.entries));
    }
  }

  lemma LastFile(files: seq<File>, n: nat)
    requires 0 < n <= |files|
    ensures EntriesIn(files[..n]) == EntriesIn(files[..n - 1]) + Elements(files[n - 1].entries)
  {
    assert files[..n] == files[..n - 1] + [files[n - 1]];
  }

  lemma BothDiffer(a: set<Entry>, b: set<Entry>, c: set<Entry>)
    requires NoneShared(a, c) && NoneShared(b, c)
    ensures NoneShared(a + b, c)
  {
  }

  lemma EarlierFilesDiffer(files: seq<File>, n: nat)
    requires DistinctNumbers(files) && NewerByNumber(files) && n < |files|
    ensures NoneShared(EntriesIn(files[..n]), Elements(files[n].entries))
  {
    forall e, e' | e in EntriesIn(files[..n]) && e' in Elements(files[n].entries) && e.key.user == e'.key.user
      ensures e.key.sequence != e'.key.sequence
    {
      var i :| 0 <= i < n && e in files[i].entries;
      assert files[i].number != files[n].number;
      assert Above(files[i], files[n]) || Above(files[n], files[i]);
    }
  }

  lemma FirstLevelIsNewer(s: State)
    requires LayersOk(s)
    ensures |s.levels| == NUM_LEVELS && DistinctNumbers(s.levels[0]) && NewerByNumber(s.levels[0])
  {
  }

  /** The levels after the first, one run each. */
  lemma {:induction false} LevelsMerge(s: State, n: nat) returns (flat: seq<Entry>)
    requires LayersOk(s) && |s.levels| == NUM_LEVELS && 0 < n <= NUM_LEVELS
    ensures Merges(flat, MemoryRuns(s) + LevelRuns(s.levels, n), Memory(s) + Contents(s.levels[..n]))
  {
    hide LayersOk, Merges, NoneShared, Contents, EntriesIn, Flatten, Memory, MemoryRuns;
    var v := s.levels;
    ContentsOfLevel(v, n - 1);
    if n == 1 {
      flat := FirstLevelMerges(s, |v[0]|);
      assert v[0][..|v[0]|] == v[0];
      assert {} + EntriesIn(v[0]) == EntriesIn(v[0]);
    } else {
      flat := LevelsMerge(s, n - 1);
      if v[n - 1] == [] {
        NoEntries(v[n - 1]);
        assert MemoryRuns(s) + (LevelRuns(v, n - 1) + []) == MemoryRuns(s) + LevelRuns(v, n - 1);
        assert Contents(v[..n - 1]) + {} == Contents(v[..n - 1]);
      } else {
        flat := AddLevel(s, flat, MemoryRuns(s) + LevelRuns(v, n - 1), n - 1);
        var run := Flatten(EntriesOf(v[n - 1]));
        assert MemoryRuns(s) + LevelRuns(v, n - 1) + [run] == MemoryRuns(s) + (LevelRuns(v, n - 1) + [run]);
      }
    }
  }

  lemma NoEntries(files: seq<File>)
    ensures files == [] ==> EntriesIn(files) == {}
  {
  }

  lemma AddLevel(s: State, flat: seq<Entry>, runs: seq<seq<Entry>>, l: nat) returns (flat': seq<Entry>)
    requires LayersOk(s) && |s.levels| == NUM_LEVELS && 0 < l < NUM_LEVELS
    requires Merges(flat, runs, Memory(s) + Contents(s.levels[..l]))
    ensures Merges(flat', runs + [Flatten(EntriesOf(s.levels[l]))], Memory(s) + Contents(s.levels[..l + 1]))
  {
    hide LayersOk, Merges, NoneShared, Contents, EntriesIn, Flatten, Memory;
    ContentsOfLevel(s.levels, l);
    LevelIsOrdered(s, l);
    LevelIsSorted(s.levels[l]);
    CutsKeepEntries(s.levels[l]);
    LevelsDiffer(s, l);
    flat' := AddRun(flat, runs, Memory(s) + Contents(s.levels[..l]), Flatten(EntriesOf(s.levels[l])));
    Regroup(Memory(s), Contents(s.levels[..l]), EntriesIn(s.levels[l]));
  }

  lemma LevelIsOrdered(s: State, l: nat)
    requires LayersOk(s) && 0 < l < NUM_LEVELS
    ensures Ordered(s.levels[l])
  {
  }

  lemma ContentsOfLevel(v: Levels, l: nat)
    requires l < |v|
    ensures Contents(v[..l + 1]) == Contents(v[..l]) + EntriesIn(v[l])
    ensures Contents(v[..0]) == {}
  {
    forall e | e in EntriesIn(v[l])
      ensures e in Contents(v[..l + 1])
    {
      var f :| f in v[l] && e in f.entries;
      InContents(v[..l + 1], l, f, e);
    }
    forall e | e in Contents(v[..l])
      ensures e in Contents(v[..l + 1])
    {
      var k, f :| 0 <= k < l && f in v[..l][k] && e in f.entries;
      InContents(v[..l + 1], k, f, e);
    }
  }

  lemma LevelsDiffer(s: State, l: nat)
    requires LayersOk(s) && 0 < l < NUM_LEVELS
    ensures NoneShared(Memory(s) + Contents(s.levels[..l]), Elements(Flatten(EntriesOf(s.levels[l]))))
  {
    var v: Levels := s.levels;
    CutsKeepEntries(v[l]);
    forall e, e' | e in Memory(s) + Contents(v[..l]) && e' in EntriesIn(v[l]) && e.key.user == e'.key.user
      ensures e.key.sequence != e'.key.sequence
    {
      var g: File :| g in v[l] && e' in g.entries;
      if e in Memory(s) {
        MemoryIsNewer(s, l, g);
        assert e' in Elements(g.entries);
      } else {
        var k: nat, f: File :| k < l && f in v[k] && e in f.entries;
        assert LevelAbove(v[k], v[l]) && Above(f, g);
      }
    }
  }

  /** All runs of a database in one, in which each of its entries is once. */
  lemma RunsMerge(s: State) returns (flat: seq<Entry>)
    requires LayersOk(s)
    ensures Merges(flat, RunsOf(s), AllEntries(s))
  {
    hide Ordered, LevelAbove, Merges;
    flat := LevelsMerge(s, NUM_LEVELS);
    assert s.levels[..NUM_LEVELS] == s.levels;
    assert MemoryRuns(s) + LevelRuns(s.levels, NUM_LEVELS) == RunsOf(s);
  }

  lemma MergesMeans(flat: seq<Entry>, runs: seq<seq<Entry>>, entries: set<Entry>)
    requires Merges(flat, runs, entries)
    ensures IsMerge(flat, runs) && DistinctKeys(runs) && Elements(flat) == entries
  {
  }

  lemma LayersOf(s: State)
    requires Structured(s)
    ensures LayersOk(s) && |s.levels| == NUM_LEVELS
  {
  }

  lemma {:induction false} LevelRunsAreSorted(s: State, n: nat)
    requires LayersOk(s) && n <= NUM_LEVELS
    ensures forall run :: run in LevelRuns(s.levels, n) ==> Sorted(run)
  {
    if n == 1 {
      forall run | run in EntriesOf(s.levels[0])
        ensures Sorted(run)
      {
        var i :| 0 <= i < |s.levels[0]| && run == EntriesOf(s.levels[0])[i];
        assert run == s.levels[0][i].entries;
      }
    } else if n > 1 {
      LevelRunsAreSorted(s, n - 1);
      LevelIsOrdered(s, n - 1);
      LevelIsSorted(s.levels[n - 1]);
    }
  }

  lemma RunsAreSorted(s: State)
    requires LayersOk(s)
    ensures forall i :: 0 <= i < |RunsOf(s)| ==> Sorted(RunsOf(s)[i])
  {
    hide Ordered, LevelAbove, LevelRuns;
    LevelRunsAreSorted(s, NUM_LEVELS);
    forall i | 0 <= i < |RunsOf(s)|
      ensures Sorted(RunsOf(s)[i])
    {
      assert RunsOf(s)[i] in MemoryRuns(s) || RunsOf(s)[i] in LevelRuns(s.levels, NUM_LEVELS);
    }
  }

  /** NewInternalIterator: over the memtables, each file of the first level, and each other level. */
  method NewInternalIterator(s: State) returns (iter: MergingIterator)
    requires Structured(s)
    ensures fresh(iter) && iter.Inv() && !iter.Valid() && iter.Runs() == RunsOf(s) && Elements(iter.flat) == AllEntries(s)
    ensures forall k :: 0 <= k < |iter.children| ==> fresh(iter.children[k])
  {
    hide Structured, Merges;
    LayersOf(s);
    RunsAreSorted(s);
    ghost var flat := RunsMerge(s);
    MergesMeans(flat, RunsOf(s), AllEntries(s));
    var runs := RunsOf(s);
    var list: seq<Cursor> := [];
    for i := 0 to |runs|
      invariant |list| == i && forall k :: 0 <= k < i ==> fresh(list[k]) && list[k].Inv() && list[k].entries == runs[k]
      invariant forall k, l :: 0 <= k < l < i ==> list[k] != list[l]
    {
      var child := new Cursor(runs[i]);
      list := list + [child];
    }
    assert seq(|list|, k requires 0 <= k < |list| => list[k].entries) == runs;
    iter := new MergingIterator(list, flat);
  }

  // ----- What a scan shows -----

  /** A client that scans the database at a live snapshot sees, in key order and once each, exactly
      the keys that have a value in the history of all writes at that snapshot. */
  lemma ScanIsHistory(s: State, flat: seq<Entry>, snapshot: nat)
    requires Structured(s) && ReadsOk(s) && s.floor <= snapshot
    requires Sorted(flat) && Elements(flat) == AllEntries(s)
    ensures var map' := SnapshotMap(flat, snapshot);
      && (forall r, r' :: 0 <= r < r' < |map'| ==> map'[r].key < map'[r'].key)
      && forall p: Pair :: p in map' <==> Reads(s.history, p.key, snapshot, Some(p.value))
  {
    hide Structured, Reads, SnapshotMap, AllEntries;
    SnapshotMapIsReads(flat, snapshot);
    forall p: Pair
      ensures p in SnapshotMap(flat, snapshot) <==> Reads(s.history, p.key, snapshot, Some(p.value))
    {
      assert Reads(s.history, p.key, snapshot, Some(p.value)) <==> Reads(AllEntries(s), p.key, snapshot, Some(p.value));
    }
  }
}

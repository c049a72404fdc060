/** Versions (db/version_set.cc): levels of sorted files, the searches over one level, and
    the level-by-level read. */
module Version {
  import opened InternalKey

  const MAX_MEM_COMPACT_LEVEL := 2

  datatype FileMetaData = FileMetaData(number: nat, size: nat, entries: seq<Entry>) {
    function Smallest(): Key
      requires |entries| > 0
    {
      entries[0].key
    }

    function Largest(): Key
      requires |entries| > 0
    {
      entries[|entries| - 1].key
    }
  }

  /** A finished table is never empty, and its entries are in internal-key order. */
  ghost predicate IsTable(f: FileMetaData) {
    && |f.entries| > 0
    && Sorted(f.entries)
    && forall e :: e in f.entries ==> e.key.sequence <= MAX_SEQUENCE_NUMBER
  }

  const NO_ENTRY := Entry(Key(0.0, 0, Deletion), [])

  type File = f: FileMetaData | IsTable(f) witness FileMetaData(0, 0, [NO_ENTRY])

  type Levels = seq<seq<File>>

  /** All entries of `f` are newer than those of `g` for the same user key. */
  ghost predicate Above(f: File, g: File) {
    forall e, e' :: e in f.entries && e' in g.entries && e.key.user == e'.key.user ==> e.key.sequence > e'.key.sequence
  }

  /** The files of a level after the first: sorted and disjoint by internal key. */
  ghost predicate Ordered(files: seq<File>) {
    forall i, j :: 0 <= i < j < |files| ==> Precedes(files[i].Largest(), files[j].Smallest())
  }

  ghost predicate DistinctNumbers(files: seq<File>) {
    forall i, j :: 0 <= i < j < |files| ==> files[i].number != files[j].number
  }

  /** The files of the first level: of two files, the one with the higher number is newer. */
  ghost predicate NewerByNumber(files: seq<File>) {
    forall f, g {:trigger Above(f, g)} :: f in files && g in files && f.number > g.number ==> Above(f, g)
  }

  /** BySmallestKey: by smallest key, ties by number. */
  predicate BySmallestKey(f: File, g: File) {
    Compare(f.Smallest(), g.Smallest()) < 0 || (Compare(f.Smallest(), g.Smallest()) == 0 && f.number < g.number)
  }

  ghost predicate SortedBySmallest(files: seq<File>) {
    forall i, j :: 0 <= i < j < |files| ==> BySmallestKey(files[i], files[j])
  }

  ghost predicate LevelAbove(files: seq<File>, deeper: seq<File>) {
    forall f, g {:trigger Above(f, g)} :: f in files && g in deeper ==> Above(f, g)
  }

  /** The invariant of versions: order inside each level, and smaller levels are newer. */
  ghost predicate WellFormed(v: Levels) {
    && |v| == NUM_LEVELS
    && (forall l {:trigger DistinctNumbers(v[l])} :: 0 <= l < NUM_LEVELS ==> DistinctNumbers(v[l]))
    && SortedBySmallest(v[0]) && NewerByNumber(v[0])
    && (forall l {:trigger Ordered(v[l])} :: 1 <= l < NUM_LEVELS ==> Ordered(v[l]))
    && (forall l, l' {:trigger LevelAbove(v[l], v[l'])} :: 0 <= l < l' < NUM_LEVELS ==> LevelAbove(v[l], v[l']))
  }

  ghost function Contents(v: Levels): set<Entry> {
    set l, f, e | 0 <= l < |v| && f in v[l] && e in f.entries :: e
  }

  lemma EntryInRange(f: File, e: Entry)
    requires e in f.entries
    ensures e.key == f.Smallest() || Precedes(f.Smallest(), e.key)
    ensures e.key == f.Largest() || Precedes(e.key, f.Largest())
  {
    var i :| 0 <= i < |f.entries| && f.entries[i] == e;
  }

  lemma FileRange(f: File)
    ensures f.Smallest() == f.Largest() || Precedes(f.Smallest(), f.Largest())
  {
    EntryInRange(f, f.entries[0]);
  }

  // ----- Searches over the files of one level -----

  /** FindFile: the first file whose largest key is at or after `key`. */
  method FindFile(files: seq<File>, key: Key) returns (right: nat)
    requires Ordered(files)
    ensures right <= |files|
    ensures forall i :: 0 <= i < right ==> Compare(files[i].Largest(), key) < 0
    ensures forall i :: right <= i < |files| ==> Compare(files[i].Largest(), key) >= 0
  {
    var left := 0;
    right := |files|;
    while left < right
      invariant 0 <= left <= right <= |files|
      invariant forall i :: 0 <= i < left ==> Compare(files[i].Largest(), key) < 0
      invariant forall i :: right <= i < |files| ==> Compare(files[i].Largest(), key) >= 0
    {
      var mid := (left + right) / 2;
      forall i | 0 <= i < |files|
        ensures i < mid ==> Precedes(files[i].Largest(), files[mid].Largest())
        ensures i > mid ==> Precedes(files[mid].Largest(), files[i].Largest())
      {
        FileRange(files[mid]);
        FileRange(files[i]);
      }
      if Compare(files[mid].Largest(), key) < 0 {
        left := mid + 1;
      } else {
        right := mid;
      }
    }
  }

  /** A bound of a range of user keys; None is the open end. */
  type Bound = Option<UserKey>

  predicate AfterFile(user: Bound, f: File) {
    user.Some? && user.value > f.Largest().user
  }

  predicate BeforeFile(user: Bound, f: File) {
    user.Some? && user.value < f.Smallest().user
  }

  predicate Overlaps(f: File, begin: Bound, end: Bound) {
    !AfterFile(begin, f) && !BeforeFile(end, f)
  }

  /** The binary search for disjoint files and the scan for the others decide the same thing. */
  method SomeFileOverlapsRange(disjointSortedFiles: bool, files: seq<File>, smallest: Bound, largest: Bound)
    returns (overlap: bool)
    requires disjointSortedFiles ==> Ordered(files)
    ensures overlap <==> exists f :: f in files && Overlaps(f, smallest, largest)
  {
    if !disjointSortedFiles {
      for i := 0 to |files|
        invariant forall j :: 0 <= j < i ==> !Overlaps(files[j], smallest, largest)
      {
        if !(AfterFile(smallest, files[i]) || BeforeFile(largest, files[i])) {
          assert files[i] in files && Overlaps(files[i], smallest, largest);
          return true;
        }
      }
      return false;
    }
    var index := 0;
    if smallest.Some? {
      index := FindFile(files, Key(smallest.value, MAX_SEQUENCE_NUMBER, Value));
      forall i | 0 <= i < |files|
        ensures i < index <==> AfterFile(smallest, files[i])
      {
        assert files[i].entries[|files[i].entries| - 1] in files[i].entries;
      }
    }
    if index >= |files| {
      return false;
    }
    if BeforeFile(largest, files[index]) {
      forall i | index < i < |files|
        ensures BeforeFile(largest, files[i])
      {
        FileRange(files[index]);
      }
    }
    assert files[index] in files;
    assert Overlaps(files[index], smallest, largest) <==> !BeforeFile(largest, files[index]);
    return !BeforeFile(largest, files[index]);
  }

  /** The files of a level that meet a range, in the level's order. */
  function Overlapping(files: seq<File>, begin: Bound, end: Bound): (r: seq<File>)
    ensures forall f :: f in r <==> f in files && Overlaps(f, begin, end)
  {
    if files == [] then []
    else
      var rest := Overlapping(files[..|files| - 1], begin, end);
      var f := files[|files| - 1];
      assert files == files[..|files| - 1] + [f];
      if Overlaps(f, begin, end) then rest + [f] else rest
  }

  ghost predicate Wider(begin: Bound, end: Bound, begin': Bound, end': Bound) {
    && (begin.None? <==> begin'.None?) && (begin.Some? ==> begin'.value <= begin.value)
    && (end.None? <==> end'.None?) && (end.Some? ==> end'.value >= end.value)
  }

  /** Every user key of the file lies in the range. */
  predicate Inside(f: File, lo: Bound, hi: Bound) {
    (lo.Some? ==> f.Smallest().user >= lo.value) && (hi.Some? ==> f.Largest().user <= hi.value)
  }

  /** Every file that meets the range lies inside it. */
  ghost predicate Closed(files: seq<File>, begin: Bound, end: Bound) {
    forall f :: f in files && Overlaps(f, begin, end) ==> Inside(f, begin, end)
  }

  /** `begin'..end'` is the least range around `begin..end` closed under overlap. */
  ghost predicate LeastClosed(files: seq<File>, begin: Bound, end: Bound, begin': Bound, end': Bound) {
    && Wider(begin, end, begin', end')
    && Closed(files, begin', end')
    && (forall b, e :: Wider(begin, end, b, e) && Closed(files, b, e) ==> Wider(begin', end', b, e))
  }

  ghost function StartingBefore(files: seq<File>, begin: Bound): set<int> {
    set i | 0 <= i < |files| && begin.Some? && files[i].Smallest().user < begin.value
  }

  ghost function EndingAfter(files: seq<File>, end: Bound): set<int> {
    set i | 0 <= i < |files| && end.Some? && files[i].Largest().user > end.value
  }

  /** The range reached so far lies inside every closed range around the one asked for. */
  ghost predicate Forced(files: seq<File>, begin: Bound, end: Bound, lo: Bound, hi: Bound) {
    && Wider(begin, end, lo, hi)
    && forall b, e :: Wider(begin, end, b, e) && Closed(files, b, e) ==> Wider(lo, hi, b, e)
  }

  lemma WideningBegin(files: seq<File>, begin: Bound, end: Bound, lo: Bound, hi: Bound, i: nat)
    requires i < |files| && Overlaps(files[i], lo, hi) && Forced(files, begin, end, lo, hi)
    requires lo.Some? && files[i].Smallest().user < lo.value
    ensures Forced(files, begin, end, Some(files[i].Smallest().user), hi)
    ensures StartingBefore(files, Some(files[i].Smallest().user)) < StartingBefore(files, lo)
  {
    assert files[i] in files;
    forall b: Bound, e: Bound | Wider(begin, end, b, e) && Closed(files, b, e)
      ensures Wider(Some(files[i].Smallest().user), hi, b, e)
    {
      assert Wider(lo, hi, b, e);
      assert Overlaps(files[i], b, e);
    }
    assert i in StartingBefore(files, lo);
    assert i !in StartingBefore(files, Some(files[i].Smallest().user));
  }

  lemma WideningEnd(files: seq<File>, begin: Bound, end: Bound, lo: Bound, hi: Bound, i: nat)
    requires i < |files| && Overlaps(files[i], lo, hi) && Forced(files, begin, end, lo, hi)
    requires hi.Some? && files[i].Largest().user > hi.value
    ensures Forced(files, begin, end, lo, Some(files[i].Largest().user))
    ensures EndingAfter(files, Some(files[i].Largest().user)) < EndingAfter(files, hi)
  {
    assert files[i] in files;
    forall b: Bound, e: Bound | Wider(begin, end, b, e) && Closed(files, b, e)
      ensures Wider(lo, Some(files[i].Largest().user), b, e)
    {
      assert Wider(lo, hi, b, e);
      assert Overlaps(files[i], b, e);
    }
    assert i in EndingAfter(files, hi);
    assert i !in EndingAfter(files, Some(files[i].Largest().user));
  }

  lemma OverlappingPrefix(files: seq<File>, i: nat, lo: Bound, hi: Bound)
    requires i < |files|
    ensures Overlapping(files[..i + 1], lo, hi)
         == Overlapping(files[..i], lo, hi) + if Overlaps(files[i], lo, hi) then [files[i]] else []
  {
    assert files[..i + 1][..i] == files[..i];
  }

  lemma NoneOverlap(files: seq<File>, lo: Bound, hi: Bound)
    requires files == []
    ensures Overlapping(files, lo, hi) == []
  {
  }

  lemma NothingForced(files: seq<File>, begin: Bound, end: Bound)
    ensures Forced(files, begin, end, begin, end)
  {
  }

  lemma ForcedIsLeast(files: seq<File>, begin: Bound, end: Bound, lo: Bound, hi: Bound)
    requires Forced(files, begin, end, lo, hi) && forall f :: f in Overlapping(files, lo, hi) ==> Inside(f, lo, hi)
    ensures LeastClosed(files, begin, end, lo, hi)
  {
  }

  /** GetOverlappingInputs: on the first level the search restarts whenever a file widens the
      range, so it ends with the least range closed under overlap; it returns that range too. */
  method GetOverlappingInputs(level: nat, files: seq<File>, begin: Bound, end: Bound)
    returns (inputs: seq<File>, ghost userBegin: Bound, ghost userEnd: Bound)
    ensures level > 0 ==> userBegin == begin && userEnd == end
    ensures level == 0 ==> LeastClosed(files, begin, end, userBegin, userEnd)
    ensures inputs == Overlapping(files, userBegin, userEnd)
  {
    hide Forced, LeastClosed, Overlapping, StartingBefore, EndingAfter;
    inputs := [];
    var lo, hi := begin, end;
    var i := 0;
    NothingForced(files, begin, end);
    NoneOverlap(files[..0], begin, end);
    while i < |files|
      invariant 0 <= i <= |files|
      invariant inputs == Overlapping(files[..i], lo, hi)
      invariant level > 0 ==> lo == begin && hi == end
      invariant Forced(files, begin, end, lo, hi)
      invariant level == 0 ==> forall f :: f in inputs ==> Inside(f, lo, hi)
      decreases StartingBefore(files, lo), EndingAfter(files, hi), |files| - i
    {
      var f := files[i];
      OverlappingPrefix(files, i, lo, hi);
      if lo.Some? && f.Largest().user < lo.value {
        i := i + 1;
      } else if hi.Some? && f.Smallest().user > hi.value {
        i := i + 1;
      } else if level == 0 && lo.Some? && f.Smallest().user < lo.value {
        WideningBegin(files, begin, end, lo, hi, i);
        lo, inputs, i := Some(f.Smallest().user), [], 0;
        NoneOverlap(files[..0], lo, hi);
      } else if level == 0 && hi.Some? && f.Largest().user > hi.value {
        WideningEnd(files, begin, end, lo, hi, i);
        hi, inputs, i := Some(f.Largest().user), [], 0;
        NoneOverlap(files[..0], lo, hi);
      } else {
        inputs := inputs + [f];
        i := i + 1;
      }
    }
    assert files[..|files|] == files;
    if level == 0 {
      ForcedIsLeast(files, begin, end, lo, hi);
    }
    userBegin, userEnd := lo, hi;
  }

  function TotalFileSize(files: seq<File>): nat {
    if files == [] then 0 else files[0].size + TotalFileSize(files[1..])
  }

  ghost predicate NoOverlap(files: seq<File>, begin: Bound, end: Bound) {
    forall f :: f in files ==> !Overlaps(f, begin, end)
  }

  /** A table with this range may go from level `l` to the next: nothing there meets it, and not
      too many bytes of the level after that. */
  ghost predicate Passes(v: Levels, l: nat, smallest: UserKey, largest: UserKey, maxGrandParentOverlapBytes: nat)
    requires |v| == NUM_LEVELS && l + 2 < NUM_LEVELS
  {
    && NoOverlap(v[l + 1], Some(smallest), Some(largest))
    && TotalFileSize(Overlapping(v[l + 2], Some(smallest), Some(largest))) <= maxGrandParentOverlapBytes
  }

  /** The level that a flushed table with this range is placed at. */
  ghost predicate IsPicked(v: Levels, smallest: UserKey, largest: UserKey, maxGrandParentOverlapBytes: nat, level: nat)
    requires |v| == NUM_LEVELS
  {
    && level <= MAX_MEM_COMPACT_LEVEL
    && (level > 0 ==> NoOverlap(v[0], Some(smallest), Some(largest)))
    && (forall l :: 0 <= l < level ==> Passes(v, l, smallest, largest, maxGrandParentOverlapBytes))
    && (level < MAX_MEM_COMPACT_LEVEL && NoOverlap(v[0], Some(smallest), Some(largest)) ==>
          !Passes(v, level, smallest, largest, maxGrandParentOverlapBytes))
  }

  /** PickLevelForMemTableOutput: the deepest of the first levels such that nothing above it or in
      it meets the range, with not too many bytes below. */
  method PickLevelForMemTableOutput(v: Levels, smallest: UserKey, largest: UserKey, maxGrandParentOverlapBytes: nat)
    returns (level: nat)
    requires |v| == NUM_LEVELS && forall l :: 1 <= l < NUM_LEVELS ==> Ordered(v[l])
    ensures IsPicked(v, smallest, largest, maxGrandParentOverlapBytes, level)
  {
    hide NoOverlap, Overlapping, Overlaps;
    level := 0;
    var overlap := SomeFileOverlapsRange(false, v[0], Some(smallest), Some(largest));
    SomeOrNone(v[0], Some(smallest), Some(largest));
    if !overlap {
      while level < MAX_MEM_COMPACT_LEVEL
        invariant 0 <= level <= MAX_MEM_COMPACT_LEVEL
        invariant forall l :: 0 <= l < level ==> Passes(v, l, smallest, largest, maxGrandParentOverlapBytes)
      {
        overlap := SomeFileOverlapsRange(true, v[level + 1], Some(smallest), Some(largest));
        SomeOrNone(v[level + 1], Some(smallest), Some(largest));
        if overlap {
          break;
        }
        var overlaps, _, _ := GetOverlappingInputs(level + 2, v[level + 2], Some(smallest), Some(largest));
        if TotalFileSize(overlaps) > maxGrandParentOverlapBytes {
          break;
        }
        level := level + 1;
      }
    }
  }

  lemma SomeOrNone(files: seq<File>, begin: Bound, end: Bound)
    ensures (exists f :: f in files && Overlaps(f, begin, end)) <==> !NoOverlap(files, begin, end)
  {
  }

  lemma PickedMeetsNothing(v: Levels, smallest: UserKey, largest: UserKey, maxGrandParentOverlapBytes: nat, level: nat)
    requires |v| == NUM_LEVELS && IsPicked(v, smallest, largest, maxGrandParentOverlapBytes, level)
    ensures level <= MAX_MEM_COMPACT_LEVEL
    ensures level > 0 ==> forall l :: 0 <= l <= level ==> NoOverlap(v[l], Some(smallest), Some(largest))
  {
    hide NoOverlap;
    forall l | 0 < l <= level
      ensures NoOverlap(v[l], Some(smallest), Some(largest))
    {
      assert Passes(v, l - 1, smallest, largest, maxGrandParentOverlapBytes);
    }
  }

  lemma {:induction false} OneMoreSize(files: seq<File>, k: nat)
    requires k < |files|
    ensures TotalFileSize(files[..k + 1]) == TotalFileSize(files[..k]) + files[k].size
  {
    if k == 0 {
      assert files[..1][1..] == [] && files[..0] == [];
    } else {
      OneMoreSize(files[1..], k - 1);
      assert files[..k + 1][1..] == files[1..][..k] && files[..k][1..] == files[1..][..k - 1];
    }
  }

  // ----- Reading a version -----

  /** The position in a table of the first entry at or after `key`. */
  function FirstAtOrAfter(entries: seq<Entry>, key: Key): (i: nat)
    ensures i <= |entries|
    ensures forall j :: 0 <= j < i ==> Compare(entries[j].key, key) < 0
    ensures i < |entries| ==> Compare(entries[i].key, key) >= 0
  {
    if entries == [] || Compare(entries[0].key, key) >= 0 then 0
    else 1 + FirstAtOrAfter(entries[1..], key)
  }

  /** Seek in sorted entries and check the user key: what a memtable answers, and what a table
      hands to SaveValue. */
  function SortedGet(entries: seq<Entry>, user: UserKey, snapshot: nat): Option<Entry> {
    var i := FirstAtOrAfter(entries, LookupKey(user, snapshot));
    if i < |entries| && entries[i].key.user == user then Some(entries[i]) else None
  }

  /** It is the newest visible entry, if there is one. */
  lemma SortedGetIsNewest(entries: seq<Entry>, user: UserKey, snapshot: nat)
    requires Sorted(entries)
    ensures SortedGet(entries, user, snapshot).Some? ==>
              && SortedGet(entries, user, snapshot).value in entries
              && Visible(SortedGet(entries, user, snapshot).value, user, snapshot)
    ensures forall e :: e in entries && Visible(e, user, snapshot) ==>
              && SortedGet(entries, user, snapshot).Some?
              && e.key.sequence <= SortedGet(entries, user, snapshot).value.key.sequence
  {
    var i := FirstAtOrAfter(entries, LookupKey(user, snapshot));
    forall e | e in entries && Visible(e, user, snapshot)
      ensures SortedGet(entries, user, snapshot).Some?
              && e.key.sequence <= SortedGet(entries, user, snapshot).value.key.sequence
    {
      var j :| 0 <= j < |entries| && entries[j] == e;
      AtOrAfterLookup(e.key, user, snapshot);
      assert i <= j;
      AtOrAfterLookup(entries[i].key, user, snapshot);
    }
  }

  function InsertByNumber(f: File, files: seq<File>): (r: seq<File>)
    requires forall i, j :: 0 <= i < j < |files| ==> files[i].number >= files[j].number
    ensures forall i, j :: 0 <= i < j < |r| ==> r[i].number >= r[j].number
    ensures forall g :: g in r <==> g == f || g in files
  {
    if files == [] || f.number > files[0].number then [f] + files
    else
      assert files == [files[0]] + files[1..];
      var rest := InsertByNumber(f, files[1..]);
      assert forall k :: 0 <= k < |rest| ==> rest[k] in rest;
      [files[0]] + rest
  }

  lemma {:induction false} InsertKeepsAll(f: File, files: seq<File>)
    requires forall i, j :: 0 <= i < j < |files| ==> files[i].number >= files[j].number
    ensures multiset(InsertByNumber(f, files)) == multiset(files) + multiset{f}
  {
    if files != [] {
      assert files == [files[0]] + files[1..];
      if f.number <= files[0].number {
        InsertKeepsAll(f, files[1..]);
      }
    }
  }

  /** std::sort with NewestFirst. */
  function NewestFirst(files: seq<File>): (r: seq<File>)
    ensures forall i, j :: 0 <= i < j < |r| ==> r[i].number >= r[j].number
    ensures multiset(r) == multiset(files)
    ensures forall g :: g in r <==> g in files
  {
    if files == [] then [] else
      assert files == [files[0]] + files[1..];
      InsertKeepsAll(files[0], NewestFirst(files[1..]));
      InsertByNumber(files[0], NewestFirst(files[1..]))
  }

  /** One of `files` holds a version that the read sees and that is newer than `e`. */
  ghost predicate Superseded(files: seq<File>, user: UserKey, snapshot: nat, e: Entry) {
    exists g, w :: g in files && w in g.entries && Visible(w, user, snapshot) && w.key.sequence > e.key.sequence
  }

  /** No file of the level outside `files` matters to the read.  After the first level one
      file is enough even when the user key continues in the next file. */
  ghost predicate Suffice(level: nat, files: seq<File>, levelFiles: seq<File>, user: UserKey, snapshot: nat) {
    && (forall f :: f in files ==> f in levelFiles)
    && (forall f, e :: f in levelFiles && f !in files && e in f.entries && Visible(e, user, snapshot) ==>
          level > 0 && Superseded(files, user, snapshot, e))
    && (if level == 0 then forall i, j :: 0 <= i < j < |files| ==> files[i].number >= files[j].number
        else |files| <= 1)
  }

  /** The files of one level that Get searches, in the order in which it searches them. */
  method FilesToSearch(v: Levels, level: nat, user: UserKey, snapshot: nat) returns (files: seq<File>)
    requires WellFormed(v) && level < NUM_LEVELS
    ensures Suffice(level, files, v[level], user, snapshot)
  {
    files := [];
    if level == 0 {
      var tmp := [];
      for i := 0 to |v[0]|
        invariant forall f :: f in tmp <==> f in v[0][..i] && Overlaps(f, Some(user), Some(user))
      {
        var f := v[0][i];
        assert v[0][..i + 1] == v[0][..i] + [f];
        if user >= f.Smallest().user && user <= f.Largest().user {
          tmp := tmp + [f];
        }
      }
      assert v[0][..|v[0]|] == v[0];
      files := NewestFirst(tmp);
      forall f, e | f in v[0] && f !in files && e in f.entries
        ensures !Visible(e, user, snapshot)
      {
        EntryInRange(f, e);
        assert f in v[0][..|v[0]|];
        assert Visible(e, user, snapshot) ==> Overlaps(f, Some(user), Some(user));
      }
    } else {
      var index := FindFile(v[level], LookupKey(user, snapshot));
      if index < |v[level]| && !(user < v[level][index].Smallest().user) {
        files := [v[level][index]];
      }
      forall f, e | f in v[level] && f !in files && e in f.entries && Visible(e, user, snapshot)
        ensures Superseded(files, user, snapshot, e)
      {
        OneFileSuffices(v[level], index, user, snapshot, f, e);
      }
    }
  }

  lemma OneFileSuffices(files: seq<File>, index: nat, user: UserKey, snapshot: nat, f: File, e: Entry)
    requires Ordered(files) && index <= |files|
    requires forall i :: 0 <= i < index ==> Compare(files[i].Largest(), LookupKey(user, snapshot)) < 0
    requires forall i :: index <= i < |files| ==> Compare(files[i].Largest(), LookupKey(user, snapshot)) >= 0
    requires f in files && e in f.entries && Visible(e, user, snapshot)
    requires index < |files| && !(user < files[index].Smallest().user) ==> f != files[index]
    ensures index < |files| && !(user < files[index].Smallest().user)
    ensures Superseded([files[index]], user, snapshot, e)
  {
    var j :| 0 <= j < |files| && files[j] == f;
    EntryInRange(f, e);
    AtOrAfterLookup(f.Largest(), user, snapshot);
    assert j >= index;
    if j > index {
      var g := files[index];
      var w := g.entries[|g.entries| - 1];
      assert Precedes(g.Largest(), f.Smallest());
      AtOrAfterLookup(g.Largest(), user, snapshot);
      FileRange(g);
      assert g in [g] && w in g.entries && Visible(w, user, snapshot);
    }
  }

  /** Version::Get stops at the first file that answers, and still answers as the flat set of
      all entries of all files does. */
  method Get(v: Levels, user: UserKey, snapshot: nat) returns (r: Option<Bytes>)
    requires WellFormed(v)
    ensures Reads(Contents(v), user, snapshot, r)
  {
    for level := 0 to NUM_LEVELS
      invariant forall l, f, e :: 0 <= l < level && f in v[l] && e in f.entries ==> !Visible(e, user, snapshot)
    {
      var files := FilesToSearch(v, level, user, snapshot);
      for i := 0 to |files|
        invariant forall j, e :: 0 <= j < i && e in files[j].entries ==> !Visible(e, user, snapshot)
      {
        SortedGetIsNewest(files[i].entries, user, snapshot);
        var found := SortedGet(files[i].entries, user, snapshot);
        if found.Some? {
          FirstAnswerIsNewest(v, level, files, i, user, snapshot, found.value);
          return Answer(found.value);
        }
      }
      forall f, e | f in v[level] && e in f.entries
        ensures !Visible(e, user, snapshot)
      {
        assert Visible(e, user, snapshot) && f !in files ==> Superseded(files, user, snapshot, e);
      }
    }
    return None;
  }

  lemma FirstAnswerIsNewest(v: Levels, level: nat, files: seq<File>, i: nat, user: UserKey, snapshot: nat, e: Entry)
    requires WellFormed(v) && level < NUM_LEVELS && i < |files|
    requires forall l, f, e' :: 0 <= l < level && f in v[l] && e' in f.entries ==> !Visible(e', user, snapshot)
    requires Suffice(level, files, v[level], user, snapshot)
    requires forall j, e' :: 0 <= j < i && e' in files[j].entries ==> !Visible(e', user, snapshot)
    requires e in files[i].entries && Visible(e, user, snapshot)
    requires forall e' :: e' in files[i].entries && Visible(e', user, snapshot) ==> e'.key.sequence <= e.key.sequence
    ensures NewestVisible(Contents(v), user, snapshot, e)
  {
    assert files[i] in v[level];
    forall l, f, e' | 0 <= l < |v| && f in v[l] && e' in f.entries && Visible(e', user, snapshot)
      ensures e'.key.sequence <= e.key.sequence
    {
      if l > level {
        assert LevelAbove(v[level], v[l]);
        assert Above(files[i], f);
      } else {
        FirstAnswerInLevel(level, files, i, v[level], user, snapshot, e, f, e');
      }
    }
  }

  lemma FirstAnswerInLevel(level: nat, files: seq<File>, i: nat, levelFiles: seq<File>, user: UserKey, snapshot: nat,
                           e: Entry, f: File, e': Entry)
    requires i < |files| && Suffice(level, files, levelFiles, user, snapshot)
    requires level == 0 ==> NewerByNumber(levelFiles) && DistinctNumbers(levelFiles)
    requires forall j, e'' :: 0 <= j < i && e'' in files[j].entries ==> !Visible(e'', user, snapshot)
    requires e in files[i].entries && Visible(e, user, snapshot)
    requires forall e'' :: e'' in files[i].entries && Visible(e'', user, snapshot) ==> e''.key.sequence <= e.key.sequence
    requires f in levelFiles && e' in f.entries && Visible(e', user, snapshot)
    ensures e'.key.sequence <= e.key.sequence
  {
    if level > 0 && f !in files {
      var g, w :| g in files && w in g.entries && Visible(w, user, snapshot) && w.key.sequence > e'.key.sequence;
      assert g == files[0];
    } else {
      var j :| 0 <= j < |files| && files[j] == f;
      assert files[i] in levelFiles;
      if files[i].number == f.number && level == 0 {
        SameNumberSameFile(levelFiles, files[i], f);
      } else if j > i {
        assert Above(files[i], f);
      }
    }
  }

  lemma SameNumberSameFile(files: seq<File>, f: File, g: File)
    requires DistinctNumbers(files) && f in files && g in files && f.number == g.number
    ensures f == g
  {
  }
}

/** The iterator that clients see (db/db_iter.cc): the snapshot map of an internal run. */
module DBIterator {
  import opened InternalKey
  import opened Iterators

  // ----- The snapshot map -----

  /** Entry `i` can be seen at the snapshot. */
  predicate Seen(entries: seq<Entry>, snapshot: nat, i: nat)
    requires i < |entries|
  {
    entries[i].key.sequence <= snapshot
  }

  /** Entry `i` is the newest of its user key that can be seen. */
  ghost predicate Newest(entries: seq<Entry>, snapshot: nat, i: nat) {
    && i < |entries| && Seen(entries, snapshot, i)
    && forall j :: 0 <= j < i && Seen(entries, snapshot, j) ==> entries[j].key.user != entries[i].key.user
  }

  /** Entry `i` is a key of the snapshot map and its value. */
  ghost predicate Live(entries: seq<Entry>, snapshot: nat, i: nat) {
    Newest(entries, snapshot, i) && entries[i].key.kind.Value?
  }

  datatype Pair = Pair(key: UserKey, value: Bytes)

  function PairOf(e: Entry): Pair {
    Pair(e.key.user, e.value)
  }

  /** The snapshot map of the first `n` entries, in key order. */
  ghost function View(entries: seq<Entry>, snapshot: nat, n: nat): seq<Pair>
    requires n <= |entries|
  {
    if n == 0 then []
    else View(entries, snapshot, n - 1) + if Live(entries, snapshot, n - 1) then [PairOf(entries[n - 1])] else []
  }

  ghost function SnapshotMap(entries: seq<Entry>, snapshot: nat): seq<Pair> {
    View(entries, snapshot, |entries|)
  }

  lemma {:induction false} ViewGrows(entries: seq<Entry>, snapshot: nat, m: nat, n: nat)
    requires m <= n <= |entries|
    ensures View(entries, snapshot, m) <= View(entries, snapshot, n)
  {
    hide Live;
    if m < n {
      ViewGrows(entries, snapshot, m, n - 1);
    }
  }

  lemma {:induction false} ViewSkips(entries: seq<Entry>, snapshot: nat, m: nat, n: nat)
    requires m <= n <= |entries|
    requires forall i :: m <= i < n ==> !Live(entries, snapshot, i)
    ensures View(entries, snapshot, m) == View(entries, snapshot, n)
  {
    hide Live;
    if m < n {
      ViewSkips(entries, snapshot, m, n - 1);
    }
  }

  /** A live entry is in the map, at the number of live entries before it. */
  lemma LiveAt(entries: seq<Entry>, snapshot: nat, i: nat)
    requires Live(entries, snapshot, i)
    ensures var r := |View(entries, snapshot, i)|;
      var map' := SnapshotMap(entries, snapshot);
      && r < |map'| && map'[r] == PairOf(entries[i]) && |View(entries, snapshot, i + 1)| == r + 1
  {
    ViewGrows(entries, snapshot, i + 1, |entries|);
  }

  lemma {:induction false} PairHasEntry(entries: seq<Entry>, snapshot: nat, n: nat, r: nat) returns (i: nat)
    requires n <= |entries| && r < |View(entries, snapshot, n)|
    ensures i < n && Live(entries, snapshot, i) && |View(entries, snapshot, i)| == r
    ensures View(entries, snapshot, n)[r] == PairOf(entries[i])
  {
    hide Live;
    var before := View(entries, snapshot, n - 1);
    if r < |before| {
      i := PairHasEntry(entries, snapshot, n - 1, r);
    } else {
      i := n - 1;
    }
  }

  lemma NewestIsNewest(entries: seq<Entry>, snapshot: nat, i: nat)
    requires Sorted(entries) && Newest(entries, snapshot, i)
    ensures NewestVisible(Elements(entries), entries[i].key.user, snapshot, entries[i])
  {
    forall e | e in entries && Visible(e, entries[i].key.user, snapshot)
      ensures e.key.sequence <= entries[i].key.sequence
    {
      var j :| 0 <= j < |entries| && entries[j] == e;
      assert Seen(entries, snapshot, j);
    }
  }

  lemma SeenHasNewest(entries: seq<Entry>, snapshot: nat, j: nat) returns (i: nat)
    requires j < |entries| && Seen(entries, snapshot, j)
    ensures i <= j && Newest(entries, snapshot, i) && entries[i].key.user == entries[j].key.user
  {
    i := j;
    while !Newest(entries, snapshot, i)
      invariant i <= j && Seen(entries, snapshot, i) && entries[i].key.user == entries[j].key.user
      decreases i
    {
      var k: nat :| k < i && Seen(entries, snapshot, k) && entries[k].key.user == entries[j].key.user;
      i := k;
    }
  }

  /** The map is sorted by key, and a key has a value in it just when a read at the snapshot
      answers that value. */
  lemma SnapshotMapIsReads(entries: seq<Entry>, snapshot: nat)
    requires Sorted(entries)
    ensures var map' := SnapshotMap(entries, snapshot);
      && (forall r, r' :: 0 <= r < r' < |map'| ==> map'[r].key < map'[r'].key)
      && forall p: Pair :: p in map' <==> Reads(Elements(entries), p.key, snapshot, Some(p.value))
  {
    var map' := SnapshotMap(entries, snapshot);
    forall r, r' | 0 <= r < r' < |map'|
      ensures map'[r].key < map'[r'].key
    {
      PairsAscend(entries, snapshot, r, r');
    }
    forall p: Pair
      ensures p in map' <==> Reads(Elements(entries), p.key, snapshot, Some(p.value))
    {
      PairIsRead(entries, snapshot, p);
    }
  }

  lemma PairsAscend(entries: seq<Entry>, snapshot: nat, r: nat, r': nat)
    requires Sorted(entries) && r < r' < |SnapshotMap(entries, snapshot)|
    ensures SnapshotMap(entries, snapshot)[r].key < SnapshotMap(entries, snapshot)[r'].key
  {
    var i := PairHasEntry(entries, snapshot, |entries|, r);
    var j := PairHasEntry(entries, snapshot, |entries|, r');
    if j <= i {
      ViewGrows(entries, snapshot, j, i);
    }
  }

  lemma PairIsRead(entries: seq<Entry>, snapshot: nat, p: Pair)
    requires Sorted(entries)
    ensures p in SnapshotMap(entries, snapshot) <==> Reads(Elements(entries), p.key, snapshot, Some(p.value))
  {
    hide View;
    var map', all := SnapshotMap(entries, snapshot), Elements(entries);
    if p in map' {
      var r :| 0 <= r < |map'| && map'[r] == p;
      var i := PairHasEntry(entries, snapshot, |entries|, r);
      NewestIsNewest(entries, snapshot, i);
      assert NewestVisible(all, p.key, snapshot, entries[i]) && Answer(entries[i]) == Some(p.value);
    }
    if Reads(all, p.key, snapshot, Some(p.value)) {
      var e :| NewestVisible(all, p.key, snapshot, e) && Some(p.value) == Answer(e);
      var j :| 0 <= j < |entries| && entries[j] == e;
      var i := SeenHasNewest(entries, snapshot, j);
      NewestIsNewest(entries, snapshot, i);
      assert entries[i] in all;
      assert i == j;
      LiveAt(entries, snapshot, i);
    }
  }

  // ----- Where the scans stop -----

  /** `i` is the first live entry from `low` on, or there is none and `i` is the end. */
  ghost predicate FirstLive(entries: seq<Entry>, snapshot: nat, low: nat, i: nat) {
    && low <= i <= |entries| && (i < |entries| ==> Live(entries, snapshot, i))
    && forall j :: low <= j < i ==> !Live(entries, snapshot, j)
  }

  /** `i` is the last live entry before `high`, or there is none and `i` is negative. */
  ghost predicate LastLive(entries: seq<Entry>, snapshot: nat, high: nat, i: int) {
    && -1 <= i < high <= |entries| && (i >= 0 ==> Live(entries, snapshot, i))
    && forall j: nat :: i < j < high ==> !Live(entries, snapshot, j)
  }

  /** Nothing that can be seen lies strictly between `p` and `q`. */
  ghost predicate NoneSeen(entries: seq<Entry>, snapshot: nat, p: int, q: nat)
    requires -1 <= p <= q <= |entries|
  {
    forall j :: p < j < q ==> !Seen(entries, snapshot, j)
  }

  /** What the forward scan knows at entry `i` when it looks for the live entries from `low` on. */
  ghost predicate Scanning(entries: seq<Entry>, snapshot: nat, low: nat, i: nat, skip: Option<UserKey>)
    requires i <= |entries| && low <= |entries|
  {
    && (forall j :: low <= j < i ==> !Live(entries, snapshot, j))
    && if skip.None? then
         && low <= i
         && forall j, k :: 0 <= j < i <= k < |entries| && Seen(entries, snapshot, j) ==>
              entries[j].key.user < entries[k].key.user
       else
         && (forall j :: 0 <= j < i && Seen(entries, snapshot, j) ==> entries[j].key.user <= skip.value)
         && (forall j :: i <= j < |entries| && low <= j && Seen(entries, snapshot, j) && entries[j].key.user <= skip.value
               ==> !Newest(entries, snapshot, j))
         && (forall j :: i <= j < low && Seen(entries, snapshot, j) ==>
               entries[j].key.user <= skip.value && entries[j].key.kind.Value?)
  }

  /** What the forward scan does with the entry at `i`. */
  lemma ScanStep(entries: seq<Entry>, snapshot: nat, low: nat, i: nat, skip: Option<UserKey>)
    requires Sorted(entries) && i < |entries| && low <= |entries| && Scanning(entries, snapshot, low, i, skip)
    ensures !Seen(entries, snapshot, i) ==> Scanning(entries, snapshot, low, i + 1, skip)
    ensures Seen(entries, snapshot, i) && entries[i].key.kind.Deletion? ==>
              Scanning(entries, snapshot, low, i + 1, Some(entries[i].key.user))
    ensures Seen(entries, snapshot, i) && entries[i].key.kind.Value? ==>
              if skip.Some? && entries[i].key.user <= skip.value then Scanning(entries, snapshot, low, i + 1, skip)
              else FirstLive(entries, snapshot, low, i)
  {
  }

  /** What the backward scan knows at `p`: `m` is the entry seen last, if any was. */
  ghost predicate Retreating(entries: seq<Entry>, snapshot: nat, high: nat, p: int, m: Option<nat>) {
    && -1 <= p < high <= |entries|
    && match m
       case None => NoneSeen(entries, snapshot, p, high)
       case Some(m) =>
         && p < m < high && Seen(entries, snapshot, m) && NoneSeen(entries, snapshot, p, m)
         && forall j :: m < j < high ==> !Live(entries, snapshot, j)
  }

  /** What the backward scan does with the entry at `p`. */
  lemma RetreatStep(entries: seq<Entry>, snapshot: nat, high: nat, p: nat, m: Option<nat>)
    requires Sorted(entries) && Retreating(entries, snapshot, high, p, m)
    ensures !Seen(entries, snapshot, p) ==> Retreating(entries, snapshot, high, p - 1, m)
    ensures Seen(entries, snapshot, p) ==>
              if m.Some? && entries[m.value].key.kind.Value? && entries[p].key.user < entries[m.value].key.user then
                LastLive(entries, snapshot, high, m.value)
              else
                Retreating(entries, snapshot, high, p - 1, Some(p))
  {
  }

  lemma RetreatEnd(entries: seq<Entry>, snapshot: nat, high: nat, m: Option<nat>)
    requires Sorted(entries) && Retreating(entries, snapshot, high, -1, m)
    ensures if m.Some? && entries[m.value].key.kind.Value? then LastLive(entries, snapshot, high, m.value)
            else LastLive(entries, snapshot, high, -1)
  {
  }

  lemma FirstLiveIsNext(entries: seq<Entry>, snapshot: nat, low: nat, i: nat)
    requires FirstLive(entries, snapshot, low, i)
    ensures |View(entries, snapshot, i)| == |View(entries, snapshot, low)| <= |SnapshotMap(entries, snapshot)|
  {
    hide Live;
    ViewSkips(entries, snapshot, low, i);
    ViewGrows(entries, snapshot, i, |entries|);
  }

  lemma LastLiveIsPrevious(entries: seq<Entry>, snapshot: nat, high: nat, i: int)
    requires LastLive(entries, snapshot, high, i)
    ensures |View(entries, snapshot, high)| == if i < 0 then 0 else |View(entries, snapshot, i)| + 1
  {
    hide Live;
    ViewSkips(entries, snapshot, i + 1, high);
  }

  // ----- Starting and ending the scans -----

  /** `at` is the first pair of the map with a key not below `target`, if there is one. */
  ghost predicate IsLowerBound(pairs: seq<Pair>, target: UserKey, at: Option<nat>) {
    var n := if at.Some? then at.value else |pairs|;
    && n <= |pairs| && (at.Some? ==> n < |pairs| && pairs[n].key >= target)
    && forall i :: 0 <= i < n ==> pairs[i].key < target
  }

  function KindAt(entries: seq<Entry>, i: nat): ValueType
    requires i < |entries|
  {
    entries[i].key.kind
  }

  lemma FirstLiveIsLive(entries: seq<Entry>, snapshot: nat, low: nat, i: nat)
    requires FirstLive(entries, snapshot, low, i) && i < |entries|
    ensures Live(entries, snapshot, i)
  {
  }

  lemma ScanEnd(entries: seq<Entry>, snapshot: nat, low: nat, skip: Option<UserKey>)
    requires low <= |entries| && Scanning(entries, snapshot, low, |entries|, skip)
    ensures FirstLive(entries, snapshot, low, |entries|)
  {
  }

  lemma RetreatStart(entries: seq<Entry>, snapshot: nat, high: nat)
    requires high <= |entries|
    ensures Retreating(entries, snapshot, high, high - 1, None)
  {
  }

  lemma RetreatFound(entries: seq<Entry>, snapshot: nat, high: nat, p: int, m: nat)
    requires Retreating(entries, snapshot, high, p, Some(m)) && LastLive(entries, snapshot, high, m)
    ensures Live(entries, snapshot, m) && p < m && NoneSeen(entries, snapshot, p, m)
  {
  }

  /** From the entry that is yielded, or from before it with nothing to be seen between. */
  lemma NextScans(entries: seq<Entry>, snapshot: nat, current: nat, i: nat)
    requires Sorted(entries) && Live(entries, snapshot, current)
    requires i <= current && NoneSeen(entries, snapshot, i - 1, current)
    ensures Scanning(entries, snapshot, current + 1, i, Some(entries[current].key.user))
  {
  }

  lemma StartScans(entries: seq<Entry>, snapshot: nat)
    ensures Scanning(entries, snapshot, 0, 0, None)
  {
  }

  lemma SeekScans(entries: seq<Entry>, snapshot: nat, target: UserKey, at: nat)
    requires Sorted(entries) && IsFirstFrom(entries, LookupKey(target, snapshot), at)
    ensures Scanning(entries, snapshot, at, at, None)
  {
    forall j, k | 0 <= j < at <= k < |entries| && Seen(entries, snapshot, j)
      ensures entries[j].key.user < entries[k].key.user
    {
      AtOrAfterLookup(entries[j].key, target, snapshot);
      AtOrAfterLookup(entries[at].key, target, snapshot);
    }
  }

  lemma PositionOfFirst(entries: seq<Entry>, snapshot: nat, i: nat)
    requires i <= |entries| && (i < |entries| ==> Live(entries, snapshot, i))
    ensures |View(entries, snapshot, i)| <= |SnapshotMap(entries, snapshot)|
    ensures |View(entries, snapshot, i)| < |SnapshotMap(entries, snapshot)| <==> i < |entries|
  {
    hide Live;
    if i < |entries| {
      LiveAt(entries, snapshot, i);
    }
  }

  lemma SeekIsLowerBound(entries: seq<Entry>, snapshot: nat, target: UserKey, low: nat, i: nat)
    requires Sorted(entries) && IsFirstFrom(entries, LookupKey(target, snapshot), low)
    requires FirstLive(entries, snapshot, low, i)
    ensures IsLowerBound(SnapshotMap(entries, snapshot), target,
                         if i < |entries| then Some(|View(entries, snapshot, i)|) else None)
  {
    hide View, Live, NoneSeen, Scanning;
    var pairs, n := SnapshotMap(entries, snapshot), |View(entries, snapshot, i)|;
    FirstLiveIsNext(entries, snapshot, low, i);
    PositionOfFirst(entries, snapshot, i);
    ViewGrows(entries, snapshot, low, |entries|);
    forall r | 0 <= r < n
      ensures pairs[r].key < target
    {
      var j := PairHasEntry(entries, snapshot, low, r);
      assert Compare(entries[j].key, LookupKey(target, snapshot)) < 0;
      LiveIsSeen(entries, snapshot, j);
    }
    if i < |entries| {
      LiveAt(entries, snapshot, i);
      LiveIsSeen(entries, snapshot, i);
      assert Precedes(entries[low].key, entries[i].key) || low == i;
    }
  }

  lemma LiveIsSeen(entries: seq<Entry>, snapshot: nat, i: nat)
    requires Live(entries, snapshot, i)
    ensures i < |entries| && entries[i].key.sequence <= snapshot
  {
  }

  lemma UnseenSkips(entries: seq<Entry>, snapshot: nat, i: nat, j: nat)
    requires i <= j <= |entries| && NoneSeen(entries, snapshot, i - 1, j)
    ensures |View(entries, snapshot, i)| == |View(entries, snapshot, j)|
  {
    ViewSkips(entries, snapshot, i, j);
  }

  /** Newer versions of the key that is yielded cannot be seen. */
  lemma SameUserUnseen(entries: seq<Entry>, snapshot: nat, i: nat, current: nat)
    requires Live(entries, snapshot, current) && i <= current
    requires forall j :: i <= j <= current ==> entries[j].key.user == entries[current].key.user
    ensures NoneSeen(entries, snapshot, i - 1, current)
    ensures |View(entries, snapshot, i)| == |View(entries, snapshot, current)|
    ensures |View(entries, snapshot, 0)| == 0
  {
    UnseenSkips(entries, snapshot, i, current);
  }

  datatype Direction = Forward | Reverse

  class DBIter {
    const iter: Cursor
    const sequence: nat
    var savedKey: Option<UserKey>
    var savedValue: Bytes
    var direction: Direction
    var valid: bool
    ghost var current: nat  // the live entry that is yielded

    /** The entry under the internal iterator; before the first one when it is not valid. */
    ghost function Before(): int
      reads iter
    {
      if iter.Valid() then iter.at else -1
    }

    /** Forward, the internal iterator is at the entry that is yielded; backward, it is before
        it with nothing to be seen between. */
    ghost predicate Inv()
      reads this, iter
    {
      && iter.Inv()
      && (valid ==> Live(iter.entries, sequence, current))
      && (valid && direction.Forward? ==> iter.at == current)
      && (valid && direction.Reverse? ==>
            && savedKey == Some(iter.entries[current].key.user) && savedValue == iter.entries[current].value
            && Before() < current && NoneSeen(iter.entries, sequence, Before(), current))
    }

    ghost function Map(): seq<Pair>
      reads this
    {
      SnapshotMap(iter.entries, sequence)
    }

    /** Where in the snapshot map the iterator is. */
    ghost function Position(): Option<nat>
      reads this, iter
      requires Inv()
    {
      if valid then Some(|View(iter.entries, sequence, current)|) else None
    }

    constructor (iter: Cursor, sequence: nat)
      requires iter.Inv()
      ensures Inv() && !valid && this.iter == iter && this.sequence == sequence
    {
      this.iter, this.sequence := iter, sequence;
      savedKey, savedValue, direction, valid := None, [], Forward, false;
    }

    method Valid() returns (r: bool)
      requires Inv()
      ensures r == Position().Some?
    {
      r := valid;
    }

    /** key() and value() */
    method Current() returns (p: Pair)
      requires Inv() && Position().Some?
      ensures Position().value < |Map()| && p == Map()[Position().value]
    {
      LiveAt(iter.entries, sequence, current);
      p := if direction.Forward? then PairOf(iter.Current()) else Pair(savedKey.value, savedValue);
    }

    method FindNextUserEntry(skipping: bool, ghost low: nat)
      requires iter.Inv() && iter.Valid() && direction.Forward? && low <= |iter.entries|
      requires skipping ==> savedKey.Some?
      requires Scanning(iter.entries, sequence, low, iter.at, if skipping then savedKey else None)
      modifies this, iter
      ensures Inv() && direction.Forward? && FirstLive(iter.entries, sequence, low, iter.at)
      ensures valid == (iter.at < |iter.entries|)
    {
      hide Scanning, FirstLive;
      var skipping := skipping;
      while true
        invariant iter.Inv() && iter.Valid() && direction.Forward? && (skipping ==> savedKey.Some?)
        invariant Scanning(iter.entries, sequence, low, iter.at, if skipping then savedKey else None)
        decreases |iter.entries| - iter.at
      {
        var e := iter.Current();
        ScanStep(iter.entries, sequence, low, iter.at, if skipping then savedKey else None);
        if e.key.sequence <= sequence {
          match e.key.kind
          case Deletion =>
            savedKey := Some(e.key.user);
            skipping := true;
          case Value =>
            if !(skipping && e.key.user <= savedKey.value) {
              FirstLiveIsLive(iter.entries, sequence, low, iter.at);
              valid := true;
              savedKey := None;
              current := iter.at;
              return;
            }
        }
        iter.Next();
        if !iter.Valid() {
          break;
        }
      }
      ScanEnd(iter.entries, sequence, low, if skipping then savedKey else None);
      savedKey := None;
      valid := false;
    }

    method FindPrevUserEntry(ghost high: nat)
      requires iter.Inv() && direction.Reverse? && high == Before() + 1
      modifies this, iter
      ensures Inv() && LastLive(iter.entries, sequence, high, if valid then current else -1)
    {
      hide Retreating, LastLive;
      var valueType := Deletion;
      ghost var m: Option<nat> := None;
      RetreatStart(iter.entries, sequence, high);
      while iter.Valid()
        invariant iter.Inv() && direction.Reverse?
        invariant Retreating(iter.entries, sequence, high, Before(), m)
        invariant m.Some? ==> m.value < |iter.entries|
        invariant valueType == (if m.None? then Deletion else KindAt(iter.entries, m.value))
        invariant valueType.Value? ==> savedKey == Some(iter.entries[m.value].key.user)
        invariant valueType.Value? ==> savedValue == iter.entries[m.value].value
        decreases Before() + 1
      {
        var e := iter.Current();
        RetreatStep(iter.entries, sequence, high, iter.at, m);
        if e.key.sequence <= sequence {
          if valueType != Deletion && e.key.user < savedKey.value {
            break;
          }
          valueType := e.key.kind;
          if valueType == Deletion {
            savedKey, savedValue := None, [];
          } else {
            savedKey, savedValue := Some(e.key.user), e.value;
          }
          m := Some(iter.at);
        }
        iter.Prev();
      }
      if !iter.Valid() {
        RetreatEnd(iter.entries, sequence, high, m);
      }
      if valueType == Deletion {
        valid := false;
        savedKey, savedValue := None, [];
        direction := Forward;
      } else {
        RetreatFound(iter.entries, sequence, high, Before(), m.value);
        valid := true;
        current := m.value;
      }
    }

    method Next()
      requires Inv() && valid
      modifies this, iter
      ensures Inv()
      ensures var next := old(Position()).value + 1;
        next <= |Map()| && Position() == if next < |Map()| then Some(next) else None
    {
      hide Scanning, FirstLive, Live, View;
      ghost var low := current + 1;
      LiveIsSeen(iter.entries, sequence, current);
      LiveAt(iter.entries, sequence, current);
      if direction == Reverse {
        NextScans(iter.entries, sequence, current, Before() + 1);
        direction := Forward;
        if !iter.Valid() {
          iter.SeekToFirst();
        } else {
          iter.Next();
        }
      } else {
        NextScans(iter.entries, sequence, current, current);
        savedKey := Some(iter.Current().key.user);
      }
      if iter.Valid() {
        FindNextUserEntry(true, low);
      } else {
        assert false;  // db_iter.cc:154-158 is never reached
      }
      FirstLiveIsNext(iter.entries, sequence, low, iter.at);
      PositionOfFirst(iter.entries, sequence, iter.at);
    }

    method Prev()
      requires Inv() && valid
      modifies this, iter
      ensures Inv()
      ensures var at := old(Position()).value;
        Position() == if at > 0 then Some(at - 1) else None
    {
      hide LastLive, Live, View;
      ghost var was := current;
      LiveIsSeen(iter.entries, sequence, was);
      if direction == Forward {
        savedKey := Some(iter.Current().key.user);
        while true
          invariant iter.Inv() && iter.Valid() && iter.at <= was && savedKey.Some?
          invariant valid && current == was && direction.Forward?
          invariant forall j :: iter.at <= j <= was ==> iter.entries[j].key.user == savedKey.value
          decreases iter.at
        {
          SameUserUnseen(iter.entries, sequence, iter.at, was);
          iter.Prev();
          if !iter.Valid() {
            valid := false;
            savedKey, savedValue := None, [];
            return;
          }
          if iter.Current().key.user < savedKey.value {
            break;
          }
        }
        direction := Reverse;
      }
      ghost var high := Before() + 1;
      UnseenSkips(iter.entries, sequence, high, was);
      FindPrevUserEntry(high);
      LastLiveIsPrevious(iter.entries, sequence, high, if valid then current else -1);
    }

    method Seek(target: UserKey)
      requires Inv()
      modifies this, iter
      ensures Inv() && IsLowerBound(Map(), target, Position())
    {
      hide Scanning, FirstLive, Live, View;
      direction := Forward;
      savedValue := [];
      savedKey := None;  // holds the lookup key for a while
      iter.Seek(LookupKey(target, sequence));
      ghost var low := iter.at;
      SeekScans(iter.entries, sequence, target, low);
      if iter.Valid() {
        FindNextUserEntry(false, low);
      } else {
        ScanEnd(iter.entries, sequence, low, None);
        valid := false;
      }
      SeekIsLowerBound(iter.entries, sequence, target, low, iter.at);
    }

    method SeekToFirst()
      requires Inv()
      modifies this, iter
      ensures Inv()
      ensures Position() == if Map() == [] then None else Some(0)
    {
      hide Scanning, FirstLive, Live;
      direction := Forward;
      savedValue := [];
      iter.SeekToFirst();
      assert Scanning(iter.entries, sequence, 0, 0, None) by { StartScans(iter.entries, sequence); }
      if iter.Valid() {
        FindNextUserEntry(false, 0);
      } else {
        ScanEnd(iter.entries, sequence, 0, None);
        valid := false;
      }
      FirstLiveIsNext(iter.entries, sequence, 0, iter.at);
      PositionOfFirst(iter.entries, sequence, iter.at);
    }

    method SeekToLast()
      requires Inv()
      modifies this, iter
      ensures Inv()
      ensures Position() == if Map() == [] then None else Some(|Map()| - 1)
    {
      hide LastLive, Live, View;
      direction := Reverse;
      savedValue := [];
      iter.SeekToLast();
      ghost var high := Before() + 1;
      FindPrevUserEntry(high);
      LastLiveIsPrevious(iter.entries, sequence, high, if valid then current else -1);
    }
  }
}

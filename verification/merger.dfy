/** The merging iterator (table/merger.cc): many sorted runs as one. */
module Merger {
  import opened InternalKey
  import opened Iterators

  // ----- The flat run and positions in it -----

  /** `flat` is all the runs in one sorted run. */
  ghost predicate IsMerge(flat: seq<Entry>, runs: seq<seq<Entry>>) {
    && Sorted(flat)
    && (forall k, i :: 0 <= k < |runs| && 0 <= i < |runs[k]| ==> runs[k][i] in flat)
    && forall p :: 0 <= p < |flat| ==> InSome(runs, flat[p])
  }

  ghost predicate InSome(runs: seq<seq<Entry>>, e: Entry) {
    exists k: nat, i: nat :: Holds(runs, k, i, e)
  }

  predicate Holds(runs: seq<seq<Entry>>, k: nat, i: nat, e: Entry) {
    k < |runs| && i < |runs[k]| && runs[k][i] == e
  }

  /** No key is in two runs. */
  ghost predicate DistinctKeys(runs: seq<seq<Entry>>) {
    forall k, l, i, j :: 0 <= k < l < |runs| && 0 <= i < |runs[k]| && 0 <= j < |runs[l]| ==>
      Precedes(runs[k][i].key, runs[l][j].key) || Precedes(runs[l][j].key, runs[k][i].key)
  }

  ghost function IndexOf(flat: seq<Entry>, e: Entry): (p: nat)
    requires e in flat
    ensures p < |flat| && flat[p] == e
  {
    var p :| 0 <= p < |flat| && flat[p] == e;
    p
  }

  lemma PrecedesIsCompare(a: Key, b: Key)
    requires Precedes(a, b)
    ensures Compare(a, b) < 0 && Compare(b, a) > 0
  {
  }

  /** Positions in the flat run are in the order of the comparator. */
  lemma IndexIsOrder(flat: seq<Entry>, e: Entry, e': Entry)
    requires Sorted(flat) && e in flat && e' in flat
    ensures Compare(e.key, e'.key) < 0 <==> IndexOf(flat, e) < IndexOf(flat, e')
    ensures Compare(e.key, e'.key) > 0 <==> IndexOf(flat, e) > IndexOf(flat, e')
  {
    var p, p' := IndexOf(flat, e), IndexOf(flat, e');
    if p < p' {
      PrecedesIsCompare(e.key, e'.key);
    } else if p' < p {
      PrecedesIsCompare(e'.key, e.key);
    }
  }

  lemma IndexUnique(flat: seq<Entry>, p: nat)
    requires Sorted(flat) && p < |flat|
    ensures IndexOf(flat, flat[p]) == p
  {
    var q := IndexOf(flat, flat[p]);
    assert q < p ==> Precedes(flat[q].key, flat[p].key);
    assert p < q ==> Precedes(flat[p].key, flat[q].key);
  }

  /** `run` is at its first entry from position `p` of the flat run on. */
  ghost predicate AheadOf(flat: seq<Entry>, run: seq<Entry>, at: nat, p: nat) {
    && at <= |run| && (forall i :: 0 <= i < |run| ==> run[i] in flat)
    && (forall i :: 0 <= i < at ==> IndexOf(flat, run[i]) < p)
    && (forall i :: at <= i < |run| ==> IndexOf(flat, run[i]) >= p)
  }

  /** `run` is at its last entry before position `p` of the flat run. */
  ghost predicate Behind(flat: seq<Entry>, run: seq<Entry>, at: nat, p: nat) {
    AheadOf(flat, run, if at < |run| then at + 1 else 0, p)
  }

  // ----- What the searches among the children find -----

  lemma StepAhead(flat: seq<Entry>, run: seq<Entry>, at: nat, p: nat)
    requires Sorted(flat) && AheadOf(flat, run, at, p) && Sorted(run)
    ensures at < |run| && IndexOf(flat, run[at]) == p ==> AheadOf(flat, run, at + 1, p + 1)
    ensures at < |run| && IndexOf(flat, run[at]) != p ==> AheadOf(flat, run, at, p + 1)
    ensures at == |run| ==> AheadOf(flat, run, at, p + 1)
  {
    forall i | at < i < |run|
      ensures IndexOf(flat, run[i]) > IndexOf(flat, run[at])
    {
      PrecedesIsCompare(run[at].key, run[i].key);
      IndexIsOrder(flat, run[at], run[i]);
    }
  }

  lemma StepBehind(flat: seq<Entry>, run: seq<Entry>, at: nat, p: nat)
    requires Sorted(flat) && 0 < p && at <= |run| && Behind(flat, run, at, p) && Sorted(run)
    ensures at < |run| && IndexOf(flat, run[at]) == p - 1 ==>
              Behind(flat, run, if at == 0 then |run| else at - 1, p - 1)
    ensures at < |run| && IndexOf(flat, run[at]) != p - 1 ==> Behind(flat, run, at, p - 1)
    ensures at == |run| ==> Behind(flat, run, at, p - 1)
  {
    forall i | 0 <= i < at < |run|
      ensures IndexOf(flat, run[i]) < IndexOf(flat, run[at])
    {
      PrecedesIsCompare(run[i].key, run[at].key);
      IndexIsOrder(flat, run[i], run[at]);
    }
  }

  /** A run at its first entry not before `target` is ahead of where the flat run has it. */
  lemma SeekIsAhead(flat: seq<Entry>, run: seq<Entry>, target: Key, at: nat, p: nat)
    requires Sorted(flat) && Sorted(run) && (forall i :: 0 <= i < |run| ==> run[i] in flat)
    requires IsFirstFrom(run, target, at) && IsFirstFrom(flat, target, p)
    ensures AheadOf(flat, run, at, p)
  {
    forall i | 0 <= i < at
      ensures IndexOf(flat, run[i]) < p
    {
      if IndexOf(flat, run[i]) >= p {
        NotBefore(flat, target, p, IndexOf(flat, run[i]));
        assert false;
      }
    }
    forall i | at <= i < |run|
      ensures IndexOf(flat, run[i]) >= p
    {
      NotBefore(run, target, at, i);
    }
  }

  lemma NotBefore(run: seq<Entry>, target: Key, at: nat, i: nat)
    requires Sorted(run) && IsFirstFrom(run, target, at) && at <= i < |run|
    ensures Compare(run[i].key, target) >= 0
  {
    assert at < i ==> Precedes(run[at].key, run[i].key);
  }

  lemma FirstFromKey(flat: seq<Entry>, p: nat)
    requires Sorted(flat) && p < |flat|
    ensures IsFirstFrom(flat, flat[p].key, p)
  {
    forall i | 0 <= i < p
      ensures Compare(flat[i].key, flat[p].key) < 0
    {
      PrecedesIsCompare(flat[i].key, flat[p].key);
    }
  }

  datatype Direction = Forward | Reverse

  class MergingIterator {
    const children: seq<Cursor>
    ghost const flat: seq<Entry>
    var current: Option<nat>
    var direction: Direction
    ghost var at: nat  // where in the flat run the iterator is; its end when not valid

    ghost function Runs(): seq<seq<Entry>> {
      seq(|children|, k requires 0 <= k < |children| => children[k].entries)
    }

    /** What the children are, whatever the position. */
    ghost predicate Shape()
      reads children
    {
      && (forall k, l :: 0 <= k < l < |children| ==> children[k] != children[l])
      && (forall k :: 0 <= k < |children| ==> children[k].Inv())
      && IsMerge(flat, Runs()) && DistinctKeys(Runs())
    }

    ghost predicate AllAhead(p: nat)
      reads children
    {
      forall k :: 0 <= k < |children| ==> AheadOf(flat, children[k].entries, children[k].at, p)
    }

    ghost predicate AllBehind(p: nat)
      reads children
    {
      forall k :: 0 <= k < |children| ==> Behind(flat, children[k].entries, children[k].at, p)
    }

    ghost predicate OthersBehind(c: nat, p: nat)
      reads children
    {
      forall k :: 0 <= k < |children| && k != c ==> Behind(flat, children[k].entries, children[k].at, p)
    }

    ghost predicate Inv()
      reads this, children
    {
      && Shape() && at <= |flat|
      && (current.None? <==> at == |flat|)
      && (current.Some? ==>
            && current.value < |children| && children[current.value].Valid()
            && children[current.value].Current() == flat[at]
            && match direction case Forward => AllAhead(at) case Reverse => OthersBehind(current.value, at))
    }

    predicate Valid()
      reads this
    {
      current.Some?
    }

    function Current(): Entry
      reads this, children
      requires Inv() && Valid()
      ensures Current() == flat[at]
    {
      children[current.value].Current()
    }

    constructor (children: seq<Cursor>, ghost flat: seq<Entry>)
      requires forall k, l :: 0 <= k < l < |children| ==> children[k] != children[l]
      requires forall k :: 0 <= k < |children| ==> children[k].Inv()
      requires var runs := seq(|children|, k requires 0 <= k < |children| => children[k].entries);
        IsMerge(flat, runs) && DistinctKeys(runs)
      ensures Inv() && !Valid() && this.children == children && this.flat == flat
    {
      this.children, this.flat := children, flat;
      current, direction, at := None, Forward, |flat|;
    }

    /** No entry of two children has the same place in the flat run. */
    lemma PlacesDiffer(k: nat, l: nat)
      requires Shape() && k < |children| && l < |children| && k != l
      requires children[k].Valid() && children[l].Valid()
      ensures children[k].Current() in flat && children[l].Current() in flat
      ensures IndexOf(flat, children[k].Current()) != IndexOf(flat, children[l].Current())
    {
      var a, b := if k < l then k else l, if k < l then l else k;
      var e, e' := children[a].Current(), children[b].Current();
      assert Runs()[a][children[a].at] == e && Runs()[b][children[b].at] == e';
      assert Precedes(e.key, e'.key) || Precedes(e'.key, e.key);
    }

    method FindSmallest(ghost p: nat)
      requires Shape() && AllAhead(p) && p <= |flat|
      modifies `current, `at
      ensures at == p && Shape() && AllAhead(p)
      ensures current.None? <==> p == |flat|
      ensures current.Some? ==> current.value < |children| && children[current.value].Valid()
      ensures current.Some? ==> children[current.value].Current() == flat[p]
    {
      hide Shape, AllAhead, PlaceOf;
      var smallest: Option<nat> := None;
      for i := 0 to |children|
        invariant smallest.Some? ==> smallest.value < i && children[smallest.value].Valid()
        invariant forall k :: 0 <= k < i && children[k].Valid() ==>
          smallest.Some? && PlaceOf(smallest.value) <= PlaceOf(k)
      {
        if children[i].Valid() {
          if smallest.None? {
            smallest := Some(i);
          } else {
            OrderOfPlaces(i, smallest.value);
            if Compare(children[i].Current().key, children[smallest.value].Current().key) < 0 {
              smallest := Some(i);
            }
          }
        }
      }
      SmallestIsNext(p, smallest);
      current := smallest;
      at := p;
    }

    lemma OrderOfPlaces(k: nat, l: nat)
      requires Shape() && k < |children| && l < |children| && children[k].Valid() && children[l].Valid()
      ensures Compare(children[k].Current().key, children[l].Current().key) < 0 <==> PlaceOf(k) < PlaceOf(l)
      ensures Compare(children[k].Current().key, children[l].Current().key) > 0 <==> PlaceOf(k) > PlaceOf(l)
    {
      var e, e' := children[k].Current(), children[l].Current();
      assert flat[PlaceOf(k)] == e && flat[PlaceOf(l)] == e';
      IndexIsOrder(flat, e, e');
    }

    /** The child that holds the entry at `p`. */
    lemma ChildOf(p: nat) returns (k: nat, i: nat)
      requires Shape() && p < |flat|
      ensures k < |children| && i < |children[k].entries| && children[k].entries[i] == flat[p]
      ensures IndexOf(flat, children[k].entries[i]) == p
    {
      k, i :| Holds(Runs(), k, i, flat[p]);
      IndexUnique(flat, p);
    }

    lemma SmallestIsNext(p: nat, smallest: Option<nat>)
      requires Shape() && AllAhead(p) && p <= |flat|
      requires smallest.Some? ==> smallest.value < |children| && children[smallest.value].Valid()
      requires forall k :: 0 <= k < |children| && children[k].Valid() ==>
                 smallest.Some? && PlaceOf(smallest.value) <= PlaceOf(k)
      ensures smallest.None? <==> p == |flat|
      ensures smallest.Some? ==> children[smallest.value].Current() == flat[p]
    {
      hide Shape, PlaceOf;
      if p < |flat| {
        var k, i := ChildOf(p);
        assert AheadOf(flat, children[k].entries, children[k].at, p);
        assert children[k].Valid();
        PlaceAhead(k, p, i);
      }
      if smallest.Some? {
        assert AheadOf(flat, children[smallest.value].entries, children[smallest.value].at, p);
        assert PlaceOf(smallest.value) >= p by { PlaceIsIndex(smallest.value); }
      }
    }

    lemma PlaceIsIndex(k: nat)
      requires Shape() && k < |children| && children[k].Valid()
      ensures children[k].entries[children[k].at] in flat
      ensures PlaceOf(k) == IndexOf(flat, children[k].entries[children[k].at])
    {
      assert flat[PlaceOf(k)] == children[k].Current();
    }

    lemma PlaceAhead(k: nat, p: nat, i: nat)
      requires Shape() && k < |children| && children[k].Valid() && i < |children[k].entries|
      requires AheadOf(flat, children[k].entries, children[k].at, p) && IndexOf(flat, children[k].entries[i]) == p
      ensures PlaceOf(k) == p
    {
      var run, at := children[k].entries, children[k].at;
      if at < i {
        PrecedesIsCompare(run[at].key, run[i].key);
        IndexIsOrder(flat, run[at], run[i]);
      }
    }

    lemma LargestIsPrevious(p: nat, largest: Option<nat>)
      requires Shape() && AllBehind(p) && p <= |flat|
      requires largest.Some? ==> largest.value < |children| && children[largest.value].Valid()
      requires forall k :: 0 <= k < |children| && children[k].Valid() ==>
                 largest.Some? && PlaceOf(largest.value) >= PlaceOf(k)
      ensures largest.None? <==> p == 0
      ensures largest.Some? ==> children[largest.value].Current() == flat[p - 1]
    {
      hide Shape, PlaceOf;
      if p > 0 {
        var k, i := ChildOf(p - 1);
        assert Behind(flat, children[k].entries, children[k].at, p);
        assert children[k].Valid() by { ShapeOf(k); }
        PlaceBehind(k, p, i);
      }
      if largest.Some? {
        assert Behind(flat, children[largest.value].entries, children[largest.value].at, p);
        assert PlaceOf(largest.value) < p by { PlaceIsIndex(largest.value); }
      }
    }

    lemma ShapeOf(k: nat)
      requires Shape() && k < |children|
      ensures children[k].Inv()
    {
    }

    lemma PlaceBehind(k: nat, p: nat, i: nat)
      requires Shape() && k < |children| && children[k].Valid() && i < |children[k].entries| && p > 0
      requires Behind(flat, children[k].entries, children[k].at, p) && IndexOf(flat, children[k].entries[i]) == p - 1
      ensures PlaceOf(k) == p - 1
    {
      var run, at := children[k].entries, children[k].at;
      PlaceIsIndex(k);
      if i < at {
        PrecedesIsCompare(run[i].key, run[at].key);
        IndexIsOrder(flat, run[i], run[at]);
      }
    }

    method FindLargest(ghost p: nat)
      requires Shape() && AllBehind(p) && p <= |flat|
      modifies `current, `at
      ensures at == (if p == 0 then |flat| else p - 1) && Shape() && AllBehind(p)
      ensures current.None? <==> p == 0
      ensures current.Some? ==> current.value < |children| && children[current.value].Valid()
      ensures current.Some? ==> children[current.value].Current() == flat[at]
    {
      hide Shape, AllBehind, PlaceOf;
      var largest: Option<nat> := None;
      for i := |children| downto 0
        invariant largest.Some? ==> i <= largest.value < |children| && children[largest.value].Valid()
        invariant forall k :: i <= k < |children| && children[k].Valid() ==>
          largest.Some? && PlaceOf(largest.value) >= PlaceOf(k)
      {
        if children[i].Valid() {
          if largest.None? {
            largest := Some(i);
          } else {
            OrderOfPlaces(i, largest.value);
            if Compare(children[i].Current().key, children[largest.value].Current().key) > 0 {
              largest := Some(i);
            }
          }
        }
      }
      LargestIsPrevious(p, largest);
      current := largest;
      at := if p == 0 then |flat| else p - 1;
    }

    /** Where in the flat run child `k` is. */
    ghost function PlaceOf(k: nat): (p: nat)
      requires Shape() && k < |children| && children[k].Valid()
      reads children
      ensures p < |flat| && flat[p] == children[k].Current() && p == IndexOf(flat, children[k].Current())
    {
      assert Runs()[k][children[k].at] == children[k].Current();
      IndexOf(flat, children[k].Current())
    }

    // ----- Positioning the children -----

    lemma RunIn(k: nat)
      requires Shape() && k < |children|
      ensures forall i :: 0 <= i < |children[k].entries| ==> children[k].entries[i] in flat
      ensures Sorted(flat) && Sorted(children[k].entries)
    {
      assert Runs()[k] == children[k].entries;
    }

    lemma Ends(k: nat)
      requires Shape() && k < |children|
      ensures var run := children[k].entries;
        && AheadOf(flat, run, 0, 0)
        && Behind(flat, run, if run == [] then 0 else |run| - 1, |flat|)
    {
      RunIn(k);
    }

    lemma SeekPlaces(k: nat, target: Key, at: nat, p: nat)
      requires Shape() && k < |children|
      requires IsFirstFrom(children[k].entries, target, at) && IsFirstFrom(flat, target, p)
      ensures AheadOf(flat, children[k].entries, at, p)
    {
      RunIn(k);
      SeekIsAhead(flat, children[k].entries, target, at, p);
    }

    /** The key that is yielded is in no other child. */
    lemma KeysDiffer(c: nat, k: nat, i: nat, e: Entry)
      requires Shape() && c < |children| && k < |children| && c != k && i < |children[k].entries|
      requires e in children[c].entries
      ensures Compare(e.key, children[k].entries[i].key) != 0
    {
      var e' := children[k].entries[i];
      var j :| 0 <= j < |children[c].entries| && children[c].entries[j] == e;
      assert Runs()[c][j] == e && Runs()[k][i] == e';
      assert Precedes(e.key, e'.key) || Precedes(e'.key, e.key);
    }

    /** The child that is current is in place in either direction. */
    lemma CurrentPlaces(c: nat, p: nat)
      requires Shape() && c < |children| && children[c].Valid() && p < |flat| && children[c].Current() == flat[p]
      ensures AheadOf(flat, children[c].entries, children[c].at, p)
      ensures Behind(flat, children[c].entries, if children[c].at == 0 then |children[c].entries| else children[c].at - 1, p)
    {
      var run, at := children[c].entries, children[c].at;
      RunIn(c);
      IndexUnique(flat, p);
      forall i | 0 <= i < |run|
        ensures i < at ==> IndexOf(flat, run[i]) < p
        ensures i >= at ==> IndexOf(flat, run[i]) >= p
      {
        if i < at {
          PrecedesIsCompare(run[i].key, run[at].key);
          IndexIsOrder(flat, run[i], run[at]);
        } else if at < i {
          PrecedesIsCompare(run[at].key, run[i].key);
          IndexIsOrder(flat, run[at], run[i]);
        }
      }
    }

    /** When the current child moves on, every child is ahead of the next position. */
    lemma AheadSteps(c: nat, p: nat, k: nat)
      requires Shape() && AllAhead(p) && p < |flat| && c < |children| && k < |children|
      requires children[c].Valid() && children[c].Current() == flat[p]
      ensures AheadOf(flat, children[k].entries, if k == c then children[k].at + 1 else children[k].at, p + 1)
    {
      hide AheadOf;
      RunIn(k);
      IndexUnique(flat, p);
      assert AheadOf(flat, children[k].entries, children[k].at, p);
      if k != c && children[k].Valid() {
        PlacesDiffer(c, k);
      }
      assert children[k].Inv();
      StepAhead(flat, children[k].entries, children[k].at, p);
    }

    /** Once the largest child is current, the others are behind it. */
    lemma BehindSteps(c: nat, p: nat, k: nat)
      requires Shape() && AllBehind(p) && 0 < p <= |flat| && c < |children| && k < |children| && k != c
      requires children[c].Valid() && children[c].Current() == flat[p - 1]
      ensures Behind(flat, children[k].entries, children[k].at, p - 1)
    {
      hide Behind;
      RunIn(k);
      IndexUnique(flat, p - 1);
      assert Behind(flat, children[k].entries, children[k].at, p);
      if children[k].Valid() {
        PlacesDiffer(c, k);
      }
      assert children[k].Inv();
      StepBehind(flat, children[k].entries, children[k].at, p);
    }

    // ----- The iterator -----

    method SeekToFirst()
      requires Inv()
      modifies this, children
      ensures Inv() && at == 0
    {
      hide AheadOf;
      for i := 0 to |children|
        invariant Shape()
        invariant forall k :: 0 <= k < i ==> AheadOf(flat, children[k].entries, children[k].at, 0)
      {
        children[i].SeekToFirst();
        assert Shape();
        Ends(i);
      }
      FindSmallest(0);
      direction := Forward;
    }

    method SeekToLast()
      requires Inv()
      modifies this, children
      ensures Inv() && at == if flat == [] then 0 else |flat| - 1
    {
      hide Behind;
      for i := 0 to |children|
        invariant Shape()
        invariant forall k :: 0 <= k < i ==> Behind(flat, children[k].entries, children[k].at, |flat|)
      {
        children[i].SeekToLast();
        assert Shape();
        Ends(i);
      }
      FinishBackward(|flat|);
    }

    method FinishBackward(ghost p: nat)
      requires Shape() && AllBehind(p) && p <= |flat|
      modifies this
      ensures Inv() && at == if p == 0 then |flat| else p - 1
    {
      FindLargest(p);
      direction := Reverse;
      if current.Some? {
        forall k | 0 <= k < |children| && k != current.value
          ensures Behind(flat, children[k].entries, children[k].at, at)
        {
          BehindSteps(current.value, p, k);
        }
      }
    }

    method Seek(target: Key)
      requires Inv()
      modifies this, children
      ensures Inv() && IsFirstFrom(flat, target, at)
    {
      hide AheadOf, IsFirstFrom, IsMerge, DistinctKeys;
      ghost var p := FirstFromExists(flat, target);
      for i := 0 to |children|
        invariant Shape()
        invariant forall k :: 0 <= k < i ==> AheadOf(flat, children[k].entries, children[k].at, p)
      {
        children[i].Seek(target);
        assert Shape();
        SeekPlaces(i, target, children[i].at, p);
      }
      FirstFromBound(flat, target, p);
      FindSmallest(p);
      direction := Forward;
    }

    method Next()
      requires Inv() && Valid()
      modifies this, children
      ensures Inv() && at == old(at) + 1
    {
      hide AheadOf, IsFirstFrom, IsMerge, DistinctKeys;
      ghost var p := at;
      var c := current.value;
      CurrentPlaces(c, p);
      if direction != Forward {
        SwitchForward();
      }
      forall k | 0 <= k < |children|
        ensures AheadOf(flat, children[k].entries, if k == c then children[k].at + 1 else children[k].at, p + 1)
      {
        AheadSteps(c, p, k);
      }
      children[c].Next();
      FindSmallest(p + 1);
    }

    /** Positions every other child after key(). */
    method SwitchForward()
      requires Inv() && Valid()
      modifies `direction, children
      ensures Inv() && direction.Forward? && at == old(at) && current == old(current)
    {
      hide AheadOf, IsFirstFrom, IsMerge, DistinctKeys, Compare;
      ghost var p := at;
      var c := current.value;
      var key := children[c].Current().key;
      RunIn(c);
      FirstFromKey(flat, p);
      for i := 0 to |children|
        invariant Shape() && children[c].Valid() && children[c].Current() == flat[p]
        invariant forall k :: 0 <= k < i && k != c ==> AheadOf(flat, children[k].entries, children[k].at, p)
      {
        if i != c {
          children[i].Seek(key);
          assert Shape();
          ghost var a := children[i].at;
          SeekPlaces(i, key, a, p);
          if children[i].Valid() && Compare(key, children[i].Current().key) == 0 {
            children[i].Next();
          }
          if a < |children[i].entries| {
            KeysDiffer(c, i, a, flat[p]);
          }
          assert Shape();
        }
      }
      CurrentPlaces(c, p);
      direction := Forward;
    }

    method Prev()
      requires Inv() && Valid()
      modifies this, children
      ensures Inv() && at == if old(at) == 0 then |flat| else old(at) - 1
    {
      hide Behind, IsFirstFrom, IsMerge, DistinctKeys;
      ghost var p := at;
      var c := current.value;
      if direction != Reverse {
        SwitchReverse();
      }
      CurrentPlaces(c, p);
      children[c].Prev();
      FinishBackward(p);
    }

    /** Positions every other child before key(). */
    method SwitchReverse()
      requires Inv() && Valid()
      modifies `direction, children
      ensures Inv() && direction.Reverse? && at == old(at) && current == old(current)
    {
      hide AheadOf, IsFirstFrom, IsMerge, DistinctKeys;
      ghost var p := at;
      var c := current.value;
      var key := children[c].Current().key;
      RunIn(c);
      FirstFromKey(flat, p);
      for i := 0 to |children|
        invariant Shape() && children[c].Valid() && children[c].Current() == flat[p]
        invariant forall k :: 0 <= k < i && k != c ==> Behind(flat, children[k].entries, children[k].at, p)
      {
        if i != c {
          children[i].Seek(key);
          assert Shape();
          SeekPlaces(i, key, children[i].at, p);
          if children[i].Valid() {
            children[i].Prev();
          } else {
            children[i].SeekToLast();
          }
          assert Shape();
        }
      }
      direction := Reverse;
    }
  }

  lemma FirstFromExists(flat: seq<Entry>, target: Key) returns (p: nat)
    ensures IsFirstFrom(flat, target, p)
  {
    p := 0;
    while p < |flat| && Compare(flat[p].key, target) < 0
      invariant p <= |flat| && forall i :: 0 <= i < p ==> Compare(flat[i].key, target) < 0
    {
      p := p + 1;
    }
  }

  lemma FirstFromBound(flat: seq<Entry>, target: Key, p: nat)
    requires IsFirstFrom(flat, target, p)
    ensures p <= |flat|
  {
  }
}

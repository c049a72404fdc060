/** Gaps between the files that a compaction reads: a range of user keys that meets none of them
    but lies between two. */
module Gaps {
  import opened InternalKey
  import opened Version

  ghost predicate AllBefore(files: seq<File>, user: UserKey) {
    forall f :: f in files ==> f.Largest().user < user
  }

  ghost predicate AllAfter(files: seq<File>, user: UserKey) {
    forall f :: f in files ==> f.Smallest().user > user
  }

  /** A range that meets none of the files is on one side of all of them. */
  ghost predicate Gapless(files: seq<File>) {
    forall a: UserKey, b: UserKey :: a <= b && NoOverlap(files, Some(a), Some(b)) ==> AllBefore(files, a) || AllAfter(files, b)
  }

  /** No gap is between `begin..end` and one of the files. */
  ghost predicate Attached(files: seq<File>, begin: UserKey, end: UserKey) {
    forall a: UserKey, b: UserKey :: a <= b && NoOverlap(files, Some(a), Some(b)) ==>
      (end < a ==> AllBefore(files, a)) && (b < begin ==> AllAfter(files, b))
  }

  lemma OneFileIsGapless(f: File)
    ensures Gapless([f])
  {
    assert f in [f];
  }

  lemma OverlappingIsAttached(files: seq<File>, begin: UserKey, end: UserKey)
    ensures Attached(Overlapping(files, Some(begin), Some(end)), begin, end)
  {
    var inputs := Overlapping(files, Some(begin), Some(end));
    forall a: UserKey, b: UserKey | a <= b && NoOverlap(inputs, Some(a), Some(b))
      ensures (end < a ==> AllBefore(inputs, a)) && (b < begin ==> AllAfter(inputs, b))
    {
      forall f | f in inputs
        ensures end < a ==> f.Largest().user < a
        ensures b < begin ==> f.Smallest().user > b
      {
        assert !Overlaps(f, Some(a), Some(b));
      }
    }
  }

  /** Otherwise a smaller range would be closed. */
  lemma LeastClosedIsAttached(files: seq<File>, begin: UserKey, end: UserKey, lo: Bound, hi: Bound)
    requires LeastClosed(files, Some(begin), Some(end), lo, hi)
    ensures Attached(Overlapping(files, lo, hi), begin, end)
  {
    var inputs := Overlapping(files, lo, hi);
    forall a: UserKey, b: UserKey | a <= b && NoOverlap(inputs, Some(a), Some(b))
      ensures (end < a ==> AllBefore(inputs, a)) && (b < begin ==> AllAfter(inputs, b))
    {
      forall f | f in inputs
        ensures end < a ==> f.Largest().user < a
        ensures b < begin ==> f.Smallest().user > b
      {
        assert !Overlaps(f, Some(a), Some(b));
        if end < a && f.Largest().user >= a {
          ClosedBelow(files, lo, hi, a, b, f);
          assert Wider(Some(begin), Some(end), lo, Some(a));
        }
        if b < begin && f.Smallest().user <= b {
          ClosedAbove(files, lo, hi, a, b, f);
          assert Wider(Some(begin), Some(end), Some(b), hi);
        }
      }
    }
  }

  lemma ClosedBelow(files: seq<File>, lo: Bound, hi: Bound, a: UserKey, b: UserKey, y: File)
    requires Closed(files, lo, hi) && a <= b && NoOverlap(Overlapping(files, lo, hi), Some(a), Some(b))
    requires y in Overlapping(files, lo, hi) && y.Smallest().user > b
    ensures Closed(files, lo, Some(a)) && (hi.Some? ==> a < hi.value)
  {
    forall f | f in files && Overlaps(f, lo, Some(a))
      ensures Inside(f, lo, Some(a))
    {
      assert f in Overlapping(files, lo, hi) && !Overlaps(f, Some(a), Some(b));
    }
  }

  lemma ClosedAbove(files: seq<File>, lo: Bound, hi: Bound, a: UserKey, b: UserKey, x: File)
    requires Closed(files, lo, hi) && a <= b && NoOverlap(Overlapping(files, lo, hi), Some(a), Some(b))
    requires x in Overlapping(files, lo, hi) && x.Largest().user < a
    ensures Closed(files, Some(b), hi) && (lo.Some? ==> lo.value < b)
  {
    forall f | f in files && Overlaps(f, Some(b), hi)
      ensures Inside(f, Some(b), hi)
    {
      assert f in Overlapping(files, lo, hi) && !Overlaps(f, Some(a), Some(b));
    }
  }

  /** No gap is between the files and those that `result` adds to them. */
  ghost predicate Continues(files: seq<File>, result: seq<File>) {
    forall a: UserKey, b: UserKey :: a <= b && NoOverlap(result, Some(a), Some(b)) ==>
      (AllBefore(files, a) ==> AllBefore(result, a)) && (AllAfter(files, b) ==> AllAfter(result, b))
  }

  lemma ContinuesChains(files: seq<File>, some: seq<File>, result: seq<File>)
    requires Continues(files, some) && Continues(some, result) && some <= result
    ensures Continues(files, result)
  {
    hide AllBefore, AllAfter;
    forall a: UserKey, b: UserKey | a <= b && NoOverlap(result, Some(a), Some(b))
      ensures (AllBefore(files, a) ==> AllBefore(result, a)) && (AllAfter(files, b) ==> AllAfter(result, b))
    {
      assert NoOverlap(some, Some(a), Some(b));
    }
  }

  lemma ContinuesKeeps(files: seq<File>, result: seq<File>)
    requires Continues(files, result) && files <= result
    ensures Gapless(files) ==> Gapless(result)
    ensures forall begin, end :: Attached(files, begin, end) ==> Attached(result, begin, end)
  {
    hide AllBefore, AllAfter;
    forall a: UserKey, b: UserKey | a <= b && NoOverlap(result, Some(a), Some(b))
      ensures NoOverlap(files, Some(a), Some(b))
    {
    }
  }

  /** A range around the files. */
  ghost predicate IsHull(files: seq<File>, begin: UserKey, end: UserKey) {
    && (exists f :: f in files && f.Smallest().user == begin)
    && (exists f :: f in files && f.Largest().user == end)
    && forall f :: f in files ==> begin <= f.Smallest().user && f.Largest().user <= end
  }

  lemma HullGrows(files: seq<File>, begin: UserKey, end: UserKey, more: seq<File>, begin': UserKey, end': UserKey)
    requires IsHull(files, begin, end) && IsHull(more, begin', end') && forall f :: f in files ==> f in more
    ensures begin' <= begin && end <= end'
  {
  }

  /** A side of the files is a side of what is attached to their hull. */
  lemma SameSide(files: seq<File>, more: seq<File>, begin: UserKey, end: UserKey, a: UserKey, b: UserKey)
    requires IsHull(files, begin, end) && Attached(more, begin, end)
    requires a <= b && NoOverlap(more, Some(a), Some(b))
    ensures AllBefore(files, a) ==> AllBefore(more, a)
    ensures AllAfter(files, b) ==> AllAfter(more, b)
  {
  }

  lemma Joined(files: seq<File>, more: seq<File>, a: UserKey, b: UserKey)
    ensures AllBefore(files + more, a) <==> AllBefore(files, a) && AllBefore(more, a)
    ensures AllAfter(files + more, b) <==> AllAfter(files, b) && AllAfter(more, b)
    ensures NoOverlap(files + more, Some(a), Some(b)) <==> NoOverlap(files, Some(a), Some(b)) && NoOverlap(more, Some(a), Some(b))
  {
    assert forall f :: f in files || f in more ==> f in files + more;
  }

  /** Files that are attached to the hull of others leave no gap to them. */
  lemma AttachedIsGapless(files: seq<File>, more: seq<File>, begin: UserKey, end: UserKey)
    requires Gapless(files) && IsHull(files, begin, end) && Attached(more, begin, end)
    ensures Gapless(files + more)
  {
    hide AllBefore, AllAfter, NoOverlap, IsHull, Attached;
    forall a: UserKey, b: UserKey | a <= b && NoOverlap(files + more, Some(a), Some(b))
      ensures AllBefore(files + more, a) || AllAfter(files + more, b)
    {
      Joined(files, more, a, b);
      SameSide(files, more, begin, end, a, b);
    }
  }

  /** A choice that has grown from one without a gap. */
  lemma GrownIsGapless(files: seq<File>, begin: UserKey, end: UserKey, more: seq<File>, last: seq<File>,
                       begin': UserKey, end': UserKey)
    requires Gapless(files) && IsHull(files, begin, end) && Attached(more, begin, end)
    requires IsHull(more, begin', end') && Attached(last, begin', end')
    requires forall f :: f in files ==> f in more || f in last
    ensures Gapless(more + last)
  {
    hide AllBefore, AllAfter, IsHull, Attached;
    forall a: UserKey, b: UserKey | a <= b && NoOverlap(more + last, Some(a), Some(b))
      ensures AllBefore(more + last, a) || AllAfter(more + last, b)
    {
      Joined(more, last, a, b);
      assert NoOverlap(files, Some(a), Some(b));
      SameSide(files, more, begin, end, a, b);
      SameSide(more, last, begin', end', a, b);
    }
  }
}

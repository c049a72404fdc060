/** Iterators (include/leveldb/iterator.h): a cursor over a sorted run of entries.  The stacked
    iterators are proved to behave as such a cursor, and are built over such cursors. */
module Iterators {
  import opened InternalKey

  /** A cursor at `entries[at]`, or not valid when `at` is past the end. */
  class Cursor {
    const entries: seq<Entry>
    var at: nat

    ghost predicate Inv()
      reads this
    {
      at <= |entries| && Sorted(entries)
    }

    constructor (entries: seq<Entry>)
      requires Sorted(entries)
      ensures Inv() && !Valid() && this.entries == entries
    {
      this.entries := entries;
      at := |entries|;
    }

    predicate Valid()
      reads this
    {
      at < |entries|
    }

    function Current(): Entry
      reads this
      requires Valid()
    {
      entries[at]
    }

    method SeekToFirst()
      requires Inv()
      modifies this
      ensures Inv() && at == 0
    {
      at := 0;
    }

    method SeekToLast()
      requires Inv()
      modifies this
      ensures Inv() && at == if entries == [] then 0 else |entries| - 1
    {
      at := if entries == [] then 0 else |entries| - 1;
    }

    method Next()
      requires Inv() && Valid()
      modifies this
      ensures Inv() && at == old(at) + 1
    {
      at := at + 1;
    }

    method Prev()
      requires Inv() && Valid()
      modifies this
      ensures Inv() && at == if old(at) == 0 then |entries| else old(at) - 1
    {
      at := if at == 0 then |entries| else at - 1;
    }

    method Seek(target: Key)
      requires Inv()
      modifies this
      ensures Inv() && IsFirstFrom(entries, target, at)
    {
      at := 0;
      while at < |entries| && Compare(entries[at].key, target) < 0
        invariant Inv()
        invariant forall i :: 0 <= i < at ==> Compare(entries[i].key, target) < 0
      {
        at := at + 1;
      }
    }
  }

  /** `at` is where the entries not before `target` start. */
  ghost predicate IsFirstFrom(entries: seq<Entry>, target: Key, at: nat) {
    && at <= |entries|
    && (forall i :: 0 <= i < at ==> Compare(entries[i].key, target) < 0)
    && (at < |entries| ==> Compare(entries[at].key, target) >= 0)
  }
}

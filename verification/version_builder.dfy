/** VersionSet::Builder (db/version_set.cc): merging the added files of one level into its
    base files.  A file is anything with a smallest key and a number. */
module VersionBuilder {
  import opened InternalKey

  datatype FileView<!F(!new)> = FileView(smallest: F -> Key, number: F -> nat) {

    /** BySmallestKey */
    predicate Before(f: F, g: F) {
      || Compare(smallest(f), smallest(g)) < 0
      || (Compare(smallest(f), smallest(g)) == 0 && number(f) < number(g))
    }

    ghost predicate Sorted(files: seq<F>) {
      forall i, j :: 0 <= i < j < |files| ==> Before(files[i], files[j])
    }

    ghost predicate Apart(f: F, files: seq<F>) {
      forall g :: g in files ==> Before(f, g) || Before(g, f)
    }

    /** Adding to the set of added files, which is kept sorted; an equivalent file stays. */
    function Insert(f: F, files: seq<F>): (r: seq<F>)
      requires Sorted(files)
      ensures Sorted(r)
      ensures forall g :: g in r ==> g == f || g in files
      ensures forall g :: g in files ==> g in r
      ensures Apart(f, files) ==> f in r
    {
      if files == [] || Before(f, files[0]) then [f] + files
      else if !Before(files[0], f) then files
      else
        assert files == [files[0]] + files[1..];
        var rest := Insert(f, files[1..]);
        assert forall k :: 0 <= k < |rest| ==> rest[k] in rest;
        [files[0]] + rest
    }

    lemma NonEmptyHasMember(files: seq<F>)
      ensures files != [] ==> exists f :: f in files
    {
      assert files != [] ==> files[0] in files;
    }

    /** A sorted list is determined by its files. */
    lemma {:induction false} SortedIsDetermined(a: seq<F>, b: seq<F>)
      requires Sorted(a) && Sorted(b) && forall f :: f in a <==> f in b
      ensures a == b
    {
      NonEmptyHasMember(a);
      NonEmptyHasMember(b);
      if a != [] {
        assert a[0] in b;
        assert b[0] in a;
        assert a[0] == b[0];
        forall f
          ensures f in a[1..] <==> f in b[1..]
        {
          assert f in a <==> f == a[0] || f in a[1..];
          assert f in b <==> f == b[0] || f in b[1..];
        }
        SortedIsDetermined(a[1..], b[1..]);
      }
    }

    /** All base files and all added files, without the deleted ones, in order. */
    ghost predicate IsSaved(base: seq<F>, added: seq<F>, deleted: set<nat>, out: seq<F>) {
      && Sorted(out)
      && forall f :: f in out <==> (f in base || f in added) && number(f) !in deleted
    }

    /** There is such a list when the files can be told apart. */
    lemma {:induction false} SavedExists(files: seq<F>, deleted: set<nat>) returns (out: seq<F>)
      requires forall f, g :: f in files && g in files ==> f == g || Before(f, g) || Before(g, f)
      ensures IsSaved(files, [], deleted, out)
    {
      if files == [] {
        out := [];
      } else {
        var n := |files| - 1;
        var f := files[n];
        assert files == files[..n] + [f];
        var rest := SavedExists(files[..n], deleted);
        if number(f) in deleted || f in rest {
          out := rest;
        } else {
          assert Apart(f, rest);
          out := Insert(f, rest);
        }
      }
    }

    /** SaveTo for one level. */
    method SaveLevel(base: seq<F>, added: seq<F>, deleted: set<nat>) returns (out: seq<F>)
      requires Sorted(base) && Sorted(added)
      requires forall f :: f in added ==> Apart(f, base)
      ensures IsSaved(base, added, deleted, out)
    {
      out := [];
      var b := 0;
      for a := 0 to |added|
        invariant b <= |base|
        invariant Merged(base, b, added, a, deleted, out)
        invariant Split(base, b, added, a)
      {
        while b < |base| && !Before(added[a], base[b])
          invariant b <= |base|
          invariant Merged(base, b, added, a, deleted, out)
          invariant Split(base, b, added, a)
        {
          assert Apart(added[a], base) && base[b] in base;
          TakingBase(base, b, added, a, deleted, out);
          out := MaybeAddFile(out, deleted, base[b]);
          b := b + 1;
        }
        TakingAdded(base, b, added, a, deleted, out);
        out := MaybeAddFile(out, deleted, added[a]);
      }
      while b < |base|
        invariant b <= |base|
        invariant Merged(base, b, added, |added|, deleted, out)
        invariant Split(base, b, added, |added|)
      {
        TakingBase(base, b, added, |added|, deleted, out);
        out := MaybeAddFile(out, deleted, base[b]);
        b := b + 1;
      }
      assert base[..b] == base && added[..|added|] == added;
    }

    lemma TakingBase(base: seq<F>, b: nat, added: seq<F>, a: nat, deleted: set<nat>, out: seq<F>)
      requires b < |base| && a <= |added| && Sorted(base) && Sorted(added)
      requires Merged(base, b, added, a, deleted, out) && Split(base, b, added, a)
      requires a < |added| ==> Before(base[b], added[a])
      ensures Merged(base, b + 1, added, a, deleted, MaybeAddFile(out, deleted, base[b]))
      ensures Split(base, b + 1, added, a)
    {
      AllBefore(base, b, added, a, deleted, out, base[b]);
      assert base[..b + 1] == base[..b] + [base[b]];
    }

    lemma TakingAdded(base: seq<F>, b: nat, added: seq<F>, a: nat, deleted: set<nat>, out: seq<F>)
      requires b <= |base| && a < |added| && Sorted(base) && Sorted(added)
      requires Merged(base, b, added, a, deleted, out) && Split(base, b, added, a)
      requires b < |base| ==> Before(added[a], base[b])
      ensures Merged(base, b, added, a + 1, deleted, MaybeAddFile(out, deleted, added[a]))
      ensures Split(base, b, added, a + 1)
    {
      AllBefore(base, b, added, a, deleted, out, added[a]);
      assert added[..a + 1] == added[..a] + [added[a]];
    }

    /** Everything merged comes before everything that is not. */
    ghost predicate Split(base: seq<F>, b: nat, added: seq<F>, a: nat)
      requires b <= |base| && a <= |added|
    {
      && (forall k, m :: 0 <= k < b && a <= m < |added| ==> Before(base[k], added[m]))
      && (forall k, m :: b <= k < |base| && 0 <= m < a ==> Before(added[m], base[k]))
    }

    lemma AllBefore(base: seq<F>, b: nat, added: seq<F>, a: nat, deleted: set<nat>, out: seq<F>, f: F)
      requires b <= |base| && a <= |added| && Sorted(base) && Sorted(added)
      requires Merged(base, b, added, a, deleted, out) && Split(base, b, added, a)
      requires (b < |base| && f == base[b]) || (a < |added| && f == added[a])
      ensures forall g :: g in out ==> Before(g, f)
    {
      forall g | g in out
        ensures Before(g, f)
      {
        if g in base[..b] {
          var k :| 0 <= k < b && base[k] == g;
        } else {
          var m :| 0 <= m < a && added[m] == g;
        }
      }
    }

    /** The first `b` base files and the first `a` added files have been merged. */
    ghost predicate Merged(base: seq<F>, b: nat, added: seq<F>, a: nat, deleted: set<nat>, out: seq<F>)
      requires b <= |base| && a <= |added|
    {
      && Sorted(out)
      && forall f :: f in out <==> (f in base[..b] || f in added[..a]) && number(f) !in deleted
    }

    /** MaybeAddFile */
    function MaybeAddFile(out: seq<F>, deleted: set<nat>, f: F): seq<F> {
      if number(f) in deleted then out else out + [f]
    }
  }
}

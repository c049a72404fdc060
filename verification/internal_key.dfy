/** Internal keys (db/dbformat.h, db/dbformat.cc): a user key, a sequence number and a
    value type, and what a read of a set of entries at a snapshot must answer. */
module InternalKey {

  datatype Option<+T> = None | Some(value: T)

  /** A byte of a key, of a value or of a file. */
  type Byte = b: int | 0 <= b < 256 witness 0
  type Bytes = seq<Byte>

  /** A user key, as its rank under the user comparator.  The engine only ever compares
      user keys, and every total order on byte strings embeds into the reals. */
  type UserKey = real

  const NUM_LEVELS := 7
  const MAX_SEQUENCE_NUMBER: nat := 0xff_ffff_ffff_ffff

  datatype ValueType = Deletion | Value

  datatype Key = Key(user: UserKey, sequence: nat, kind: ValueType)

  datatype Entry = Entry(key: Key, value: Bytes)

  /** The 64-bit number stored after the user key. */
  function Tag(k: Key): nat {
    k.sequence * 256 + if k.kind.Value? then 1 else 0
  }

  /** Increasing user key, then decreasing tag. */
  function Compare(a: Key, b: Key): int {
    if a.user < b.user then -1
    else if a.user > b.user then 1
    else if Tag(a) > Tag(b) then -1
    else if Tag(a) < Tag(b) then 1
    else 0
  }

  /** The order in which stored entries appear: for one user key, strictly newer first. */
  predicate Precedes(a: Key, b: Key) {
    a.user < b.user || (a.user == b.user && a.sequence > b.sequence)
  }

  ghost predicate Sorted(entries: seq<Entry>) {
    forall i, j :: 0 <= i < j < |entries| ==> Precedes(entries[i].key, entries[j].key)
  }

  ghost function Elements(entries: seq<Entry>): set<Entry> {
    set e | e in entries
  }

  /** The key a read of `user` at `snapshot` looks for. */
  function LookupKey(user: UserKey, snapshot: nat): Key {
    Key(user, snapshot, Value)
  }

  predicate Visible(e: Entry, user: UserKey, snapshot: nat) {
    e.key.user == user && e.key.sequence <= snapshot
  }

  ghost predicate NoneVisible(entries: set<Entry>, user: UserKey, snapshot: nat) {
    forall e :: e in entries ==> !Visible(e, user, snapshot)
  }

  ghost predicate NewestVisible(entries: set<Entry>, user: UserKey, snapshot: nat, e: Entry) {
    && e in entries && Visible(e, user, snapshot)
    && forall e' :: e' in entries && Visible(e', user, snapshot) ==> e'.key.sequence <= e.key.sequence
  }

  /** What the client is told when `e` is the newest visible entry: a deletion counts as absent. */
  function Answer(e: Entry): Option<Bytes> {
    if e.key.kind.Value? then Some(e.value) else None
  }

  /** `r` is a right answer to a read of `user` at `snapshot` over `entries`. */
  ghost predicate Reads(entries: set<Entry>, user: UserKey, snapshot: nat, r: Option<Bytes>) {
    || (NoneVisible(entries, user, snapshot) && r.None?)
    || (exists e :: NewestVisible(entries, user, snapshot, e) && r == Answer(e))
  }

  /** No two entries share a user key and a sequence number. */
  ghost predicate DistinctVersions(entries: set<Entry>) {
    forall e, e' :: e in entries && e' in entries && e.key.user == e'.key.user && e.key.sequence == e'.key.sequence ==> e == e'
  }

  /** For every user key, all of `newer` is newer than all of `older`. */
  ghost predicate Newer(newer: set<Entry>, older: set<Entry>) {
    forall e, e' :: e in newer && e' in older && e.key.user == e'.key.user ==> e.key.sequence > e'.key.sequence
  }

  lemma NewestVisibleExists(entries: set<Entry>, user: UserKey, snapshot: nat)
    ensures NoneVisible(entries, user, snapshot) || exists e :: NewestVisible(entries, user, snapshot, e)
    decreases entries
  {
    if e :| e in entries && Visible(e, user, snapshot) {
      if !NewestVisible(entries, user, snapshot, e) {
        var e' :| e' in entries && Visible(e', user, snapshot) && e'.key.sequence > e.key.sequence;
        var rest := entries - {e};
        NewestVisibleExists(rest, user, snapshot);
        assert e' in rest;
        var m :| NewestVisible(rest, user, snapshot, m);
        assert NewestVisible(entries, user, snapshot, m);
      }
    }
  }

  /** A read has exactly one right answer. */
  lemma ReadsIsAFunction(entries: set<Entry>, user: UserKey, snapshot: nat)
    requires DistinctVersions(entries)
    ensures exists r :: Reads(entries, user, snapshot, r)
    ensures forall r, r' :: Reads(entries, user, snapshot, r) && Reads(entries, user, snapshot, r') ==> r == r'
  {
    NewestVisibleExists(entries, user, snapshot);
    if NoneVisible(entries, user, snapshot) {
      assert Reads(entries, user, snapshot, None);
    } else {
      var e :| NewestVisible(entries, user, snapshot, e);
      assert Reads(entries, user, snapshot, Answer(e));
    }
  }

  /** Stored entries at or after the lookup key are those of later user keys and the visible versions. */
  lemma AtOrAfterLookup(k: Key, user: UserKey, snapshot: nat)
    ensures Compare(k, LookupKey(user, snapshot)) >= 0 <==> k.user > user || (k.user == user && k.sequence <= snapshot)
  {
  }

  /** A search that stops at the first of two parts that answers: right when that part is newer. */
  lemma ReadNewerFirst(newer: set<Entry>, older: set<Entry>, user: UserKey, snapshot: nat, r: Option<Bytes>)
    requires Newer(newer, older)
    ensures !NoneVisible(newer, user, snapshot) ==>
              (Reads(newer, user, snapshot, r) <==> Reads(newer + older, user, snapshot, r))
    ensures NoneVisible(newer, user, snapshot) ==>
              (Reads(older, user, snapshot, r) <==> Reads(newer + older, user, snapshot, r))
  {
    var all := newer + older;
    if NoneVisible(newer, user, snapshot) {
      assert forall e :: NewestVisible(older, user, snapshot, e) <==> NewestVisible(all, user, snapshot, e);
      assert NoneVisible(older, user, snapshot) <==> NoneVisible(all, user, snapshot);
    } else {
      assert forall e :: NewestVisible(newer, user, snapshot, e) ==> NewestVisible(all, user, snapshot, e);
      forall e | NewestVisible(all, user, snapshot, e)
        ensures NewestVisible(newer, user, snapshot, e)
      {
        var w :| w in newer && Visible(w, user, snapshot);
        assert w in all;
      }
    }
  }
}

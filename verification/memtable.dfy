/** The memtable (db/memtable.cc): entries encoded in one buffer each, in the order of their
    internal keys.  The table here is what SkipLists keeps at its lowest level. */
module MemTables {
  import opened InternalKey
  import opened Coding
  import opened ByteKeys
  import opened BlockFormat
  import opened TableLayout
  import Blocks

  /** key_size, key, value_size, value */
  function Encoded(e: KeyValue): Bytes {
    LengthPrefixed(e.key) + LengthPrefixed(e.value)
  }

  predicate FitsEntry(e: KeyValue) {
    IsKey(e.key) && |e.key| < 0x1_0000_0000 && |e.value| < 0x1_0000_0000
  }

  datatype GetResult = NotHere | Deleted | Found(value: Bytes)

  /** The answer that an entry gives, by the type in its tag. */
  function Answer(e: KeyValue): GetResult
    requires IsKey(e.key)
  {
    if TagOf(e.key) % 256 == 1 then Found(e.value) else if TagOf(e.key) % 256 == 0 then Deleted else NotHere
  }

  /** The newest entry that a lookup of `k` may return decides the answer. */
  ghost predicate IsGet(entries: seq<KeyValue>, k: Bytes, r: GetResult)
    requires IsKey(k)
  {
    if exists e :: e in entries && Sees(k, e)
    then exists e :: IsNewest(entries, k, e) && r == Answer(e)
    else r == NotHere
  }

  lemma DecodeEncoded(e: KeyValue)
    requires FitsEntry(e)
    ensures var s := Encoded(e); var at := |LengthPrefixed(e.key)|;
      && GetLengthPrefixed(s, 0, |s|) == Some(Slice(e.key, at)) && GetLengthPrefixed(s, at, |s|) == Some(Slice(e.value, |s|))
  {
    hide LengthPrefixed, GetLengthPrefixed, HoldsAt;
    var s := Encoded(e);
    Whole(s);
    HoldsParts(s, 0, LengthPrefixed(e.key), LengthPrefixed(e.value));
    LengthPrefixedRoundTrip(e.key, s, 0, |s|);
    LengthPrefixedRoundTrip(e.value, s, |LengthPrefixed(e.key)|, |s|);
  }

  /** In a sorted run the first entry from `k` on is the one to look at. */
  lemma FirstIsNewest(entries: seq<KeyValue>, k: Bytes, j: nat)
    requires Blocks.SortedBy(entries, KEY_ORDER) && AllKeys(entries) && IsKey(k) && Blocks.IsFirstFrom(entries, KEY_ORDER, k, j)
    ensures (j < |entries| && UserPart(entries[j].key) == UserPart(k)) <==> exists e :: e in entries && Sees(k, e)
    ensures j < |entries| && UserPart(entries[j].key) == UserPart(k) ==> IsNewest(entries, k, entries[j])
  {
    hide KeyLess, TagOf;
    forall e | e in entries && Sees(k, e)
      ensures j < |entries| && UserPart(entries[j].key) == UserPart(k) && TagOf(e.key) <= TagOf(entries[j].key)
    {
      SeenIsNotBefore(k, e);
      FirstIsBefore(entries, k, j, e);
      assert entries[j] in entries;
      Between(entries[j].key, e.key, k);
    }
    if j < |entries| && UserPart(entries[j].key) == UserPart(k) {
      assert entries[j] in entries;
      SeenIsNotBefore(k, entries[j]);
    }
  }

  /** Two entries with the same user key and tag compare as equal. */
  predicate SameKey(a: Bytes, b: Bytes)
    requires IsKey(a) && IsKey(b)
  {
    UserPart(a) == UserPart(b) && TagOf(a) == TagOf(b)
  }

  lemma KeyLessIsTotal(a: Bytes, b: Bytes)
    requires IsKey(a) && IsKey(b)
    ensures KeyLess(a, b) || KeyLess(b, a) || SameKey(a, b)
  {
    hide TagOf;
    LessIsTotal(UserPart(a), UserPart(b));
  }

  function Inserted(entries: seq<KeyValue>, j: nat, e: KeyValue): seq<KeyValue>
    requires j <= |entries|
  {
    entries[..j] + [e] + entries[j..]
  }

  lemma InsertedIsSorted(entries: seq<KeyValue>, j: nat, e: KeyValue)
    requires Blocks.SortedBy(entries, KEY_ORDER) && AllKeys(entries) && IsKey(e.key)
    requires Blocks.IsFirstFrom(entries, KEY_ORDER, e.key, j) && forall e' :: e' in entries ==> !SameKey(e'.key, e.key)
    ensures Blocks.SortedBy(Inserted(entries, j, e), KEY_ORDER)
    ensures forall e' :: e' in Inserted(entries, j, e) <==> e' == e || e' in entries
  {
    hide KeyLess, SameKey;
    var r := Inserted(entries, j, e);
    forall i | j <= i < |entries|
      ensures KeyLess(e.key, entries[i].key)
    {
      assert entries[j] in entries;
      KeyLessIsTotal(e.key, entries[j].key);
      SameKeyIsSymmetric(e.key, entries[j].key);
      KeyLessChains(e.key, entries[j].key, entries[i].key);
    }
    forall a, b | 0 <= a < b < |r|
      ensures KeyLess(r[a].key, r[b].key)
    {
    }
    forall e'
      ensures e' in r <==> e' == e || e' in entries
    {
      assert entries == entries[..j] + entries[j..];
    }
  }

  lemma InsertedAt(entries: seq<KeyValue>, j: nat, e: KeyValue)
    requires j <= |entries|
    ensures var r := Inserted(entries, j, e);
      && |r| == |entries| + 1
      && forall i :: 0 <= i < |r| ==> r[i] == if i < j then entries[i] else if i == j then e else entries[i - 1]
  {
  }

  lemma SameKeyIsSymmetric(a: Bytes, b: Bytes)
    requires IsKey(a) && IsKey(b)
    ensures SameKey(a, b) ==> SameKey(b, a)
  {
  }

  class MemTable {
    var table: seq<Bytes>
    ghost var entries: seq<KeyValue>

    ghost predicate Inv()
      reads this
    {
      && |table| == |entries| && Blocks.SortedBy(entries, KEY_ORDER)
      && forall i :: 0 <= i < |entries| ==> FitsEntry(entries[i]) && table[i] == Encoded(entries[i])
    }

    ghost function Contents(): set<KeyValue>
      reads this
    {
      set e | e in entries
    }

    constructor ()
      ensures Inv() && entries == [] && Contents() == {}
    {
      table, entries := [], [];
    }

    /** The first entry with an internal key not before that in `memKey`. */
    method FindGreaterOrEqual(memKey: Bytes, ghost k: Bytes) returns (j: nat)
      requires Inv() && IsKey(k) && GetLengthPrefixed(memKey, 0, |memKey|).Some?
      requires GetLengthPrefixed(memKey, 0, |memKey|).value.data == k
      ensures Blocks.IsFirstFrom(entries, KEY_ORDER, k, j)
    {
      hide KeyLess, GetLengthPrefixed, Encoded;
      var b := GetLengthPrefixed(memKey, 0, |memKey|);
      j := 0;
      while j < |table|
        invariant j <= |table| && forall i :: 0 <= i < j ==> KeyLess(entries[i].key, k)
      {
        DecodeEncoded(entries[j]);
        var a := GetLengthPrefixed(table[j], 0, |table[j]|);
        if !KeyLess(a.value.data, b.value.data) {
          return;
        }
        j := j + 1;
      }
    }

    method Add(sequence: nat, kind: Byte, key: Bytes, value: Bytes)
      requires Inv() && kind <= 1 && sequence <= MAX_SEQUENCE_NUMBER
      requires |key| + 8 < 0x1_0000_0000 && |value| < 0x1_0000_0000
      requires forall e :: e in Contents() && IsKey(e.key) ==> !SameKey(e.key, MakeKey(key, sequence * 256 + kind))
      modifies this
      ensures Inv() && Contents() == old(Contents()) + {KeyValue(MakeKey(key, sequence * 256 + kind), value)}
    {
      hide KeyLess, SameKey, Encoded, MakeKey;
      ghost var e := KeyValue(MakeKey(key, sequence * 256 + kind), value);
      var buf := EncodeEntry(sequence, kind, key, value);
      DecodeEncoded(e);
      var j := FindGreaterOrEqual(buf, e.key);
      forall e' | e' in entries
        ensures IsKey(e'.key) && !SameKey(e'.key, e.key)
      {
        assert e' in Contents();
      }
      InsertAt(j, buf, e);
    }

    /** What the skip list does with the place it has found. */
    method InsertAt(j: nat, buf: Bytes, ghost e: KeyValue)
      requires Inv() && FitsEntry(e) && buf == Encoded(e) && Blocks.IsFirstFrom(entries, KEY_ORDER, e.key, j)
      requires forall e' :: e' in entries ==> IsKey(e'.key) && !SameKey(e'.key, e.key)
      modifies this
      ensures Inv() && Contents() == old(Contents()) + {e}
    {
      hide KeyLess, SameKey, Encoded, LengthPrefixed;
      InsertedIsSorted(entries, j, e);
      InsertedAt(entries, j, e);
      table := table[..j] + [buf] + table[j..];
      entries := Inserted(entries, j, e);
    }

    /** Moves to the first entry from `k` on and looks at its user key and type. */
    method Get(k: Bytes) returns (r: GetResult)
      requires Inv() && IsKey(k) && |k| < 0x1_0000_0000
      ensures IsGet(entries, k, r)
    {
      hide KeyLess, TagOf, Blocks.IsFirstFrom, LengthPrefixed, GetLengthPrefixed;
      var memKey := LengthPrefixed(k);
      Whole(memKey);
      LengthPrefixedRoundTrip(k, memKey, 0, |memKey|);
      var j := FindGreaterOrEqual(memKey, k);
      FirstIsNewest(entries, k, j);
      r := NotHere;
      if j < |table| {
        var entry := table[j];
        DecodeEncoded(entries[j]);
        var key := GetLengthPrefixed(entry, 0, |entry|);
        if UserPart(key.value.data) == UserPart(k) {
          var tag := TagOf(key.value.data);
          if tag % 256 == 1 {
            r := Found(GetLengthPrefixed(entry, key.value.next, |entry|).value.data);
          } else if tag % 256 == 0 {
            r := Deleted;
          }
        }
      }
    }
  }

  /** The buffer that Add fills. */
  method EncodeEntry(sequence: nat, kind: Byte, key: Bytes, value: Bytes) returns (buf: Bytes)
    requires |key| + 8 < 0x1_0000_0000 && |value| < 0x1_0000_0000
    ensures FitsEntry(KeyValue(MakeKey(key, sequence * 256 + kind), value))
    ensures buf == Encoded(KeyValue(MakeKey(key, sequence * 256 + kind), value))
  {
    hide EncodeFixed64;
    var internalKeySize := |key| + 8;
    buf := EncodeVarint32(internalKeySize);
    buf := buf + key;
    buf := buf + EncodeFixed64(sequence * 256 + kind);
    var length := EncodeVarint32(|value|);
    buf := buf + length;
    buf := buf + value;
  }
}

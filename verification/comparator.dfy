/** Keys as bytes: the bytewise comparator (util/comparator.cc), the internal key comparator over
    it (db/dbformat.cc), and the short keys that they find between two keys. */
module ByteKeys {
  import opened InternalKey
  import opened Coding

  // ----- The bytewise order -----

  /** Slice::compare is negative. */
  predicate Less(a: Bytes, b: Bytes) {
    if b == [] then false else if a == [] then true
    else a[0] < b[0] || (a[0] == b[0] && Less(a[1..], b[1..]))
  }

  lemma {:induction false} LessIsStrict(a: Bytes)
    ensures !Less(a, a)
  {
    if a != [] {
      LessIsStrict(a[1..]);
    }
  }

  /** Exactly one of less, greater and equal. */
  lemma {:induction false} LessIsTotal(a: Bytes, b: Bytes)
    ensures Less(a, b) || Less(b, a) || a == b
    ensures !(Less(a, b) && Less(b, a)) && !Less(a, a) && !Less(b, b)
  {
    LessIsStrict(a);
    LessIsStrict(b);
    if a != [] && b != [] && a[0] == b[0] {
      LessIsTotal(a[1..], b[1..]);
      assert a == [a[0]] + a[1..] && b == [b[0]] + b[1..];
    }
  }

  lemma {:induction false} LessChains(a: Bytes, b: Bytes, c: Bytes)
    ensures Less(a, b) && Less(b, c) ==> Less(a, c)
  {
    if a != [] && b != [] && c != [] && a[0] == b[0] == c[0] {
      LessChains(a[1..], b[1..], c[1..]);
    }
  }

  /** Two keys that differ first at `i` are ordered by the byte there. */
  lemma {:induction false} LessAt(a: Bytes, b: Bytes, i: nat)
    requires i < |a| && i < |b| && a[..i] == b[..i] && a[i] < b[i]
    ensures Less(a, b)
  {
    if i > 0 {
      assert a[0] == a[..i][0] == b[..i][0] == b[0];
      assert a[1..][..i - 1] == a[..i][1..] && b[1..][..i - 1] == b[..i][1..];
      LessAt(a[1..], b[1..], i - 1);
    }
  }

  // ----- Short keys in between -----

  predicate FallsIn(a: Bytes, x: Bytes, b: Bytes) {
    !Less(x, a) && Less(x, b)
  }

  /** The first place where the two differ. */
  predicate DifferFirst(a: Bytes, b: Bytes, i: nat) {
    i < |a| && i < |b| && a[..i] == b[..i] && a[i] != b[i]
  }

  /** At their first difference there is room for a byte in between. */
  predicate HasRoom(start: Bytes, limit: Bytes) {
    exists i: nat :: i < |start| && DifferFirst(start, limit, i) && start[i] as int + 1 < limit[i] as int
  }

  /** Nothing shorter than the part up to their first difference is between the two. */
  lemma {:induction false} NothingShorter(start: Bytes, limit: Bytes, i: nat, x: Bytes)
    requires DifferFirst(start, limit, i) && !Less(x, start) && Less(x, limit)
    ensures |x| > i
  {
    if i > 0 {
      assert start[0] == start[..i][0] == limit[..i][0] == limit[0];
      if x != [] {
        assert start[1..][..i - 1] == start[..i][1..] && limit[1..][..i - 1] == limit[..i][1..];
        NothingShorter(start[1..], limit[1..], i - 1, x[1..]);
      }
    }
  }

  /** FindShortestSeparator of the bytewise comparator: how many bytes are shared is `diff`.  When
      there is room at the first difference, nothing between the two is shorter; else it is `start`. */
  method FindShortestSeparator(start: Bytes, limit: Bytes) returns (tmp: Bytes)
    ensures Less(start, limit) ==> !Less(tmp, start) && Less(tmp, limit)
    ensures start == limit ==> tmp == start
    ensures |tmp| <= |start|
    ensures HasRoom(start, limit) ==> tmp != start && forall x :: FallsIn(start, x, limit) ==> |tmp| <= |x|
    ensures !HasRoom(start, limit) ==> tmp == start
  {
    var minLength := if |start| < |limit| then |start| else |limit|;
    var diff := 0;
    while diff < minLength && start[diff] == limit[diff]
      invariant 0 <= diff <= minLength && start[..diff] == limit[..diff]
    {
      assert start[..diff + 1] == start[..diff] + [start[diff]] && limit[..diff + 1] == limit[..diff] + [limit[diff]];
      diff := diff + 1;
    }
    tmp := start;
    LessIsTotal(start, start);
    forall i: nat | DifferFirst(start, limit, i)
      ensures i == diff && diff < minLength
    {
      FirstIs(start, limit, i, diff);
    }
    if diff < minLength {
      forall x | FallsIn(start, x, limit)
        ensures |x| > diff
      {
        NothingShorter(start, limit, diff, x);
      }
      var byte := start[diff];
      if byte < 255 && byte + 1 < limit[diff] {
        tmp := start[..diff] + [byte + 1];
        assert tmp[..diff] == start[..diff];
        LessAt(start, tmp, diff);
        LessAt(tmp, limit, diff);
        LessIsTotal(start, tmp);
      }
    }
  }

  /** All bytes that a search has passed are equal. */
  lemma FirstIs(start: Bytes, limit: Bytes, i: nat, diff: nat)
    requires DifferFirst(start, limit, i) && diff <= |start| && diff <= |limit| && start[..diff] == limit[..diff]
    requires diff == |start| || diff == |limit| || start[diff] != limit[diff]
    ensures i == diff
  {
    SameBefore(start, limit, diff);
    SameBefore(start, limit, i);
  }

  lemma SameBefore(a: Bytes, b: Bytes, n: nat)
    requires n <= |a| && n <= |b| && a[..n] == b[..n]
    ensures forall i :: 0 <= i < n ==> a[i] == b[i]
  {
    forall i | 0 <= i < n
      ensures a[i] == b[i]
    {
      assert a[i] == a[..n][i] == b[..n][i];
    }
  }

  /** FindShortSuccessor of the bytewise comparator: the first byte that is not 255 is one greater,
      and nothing comes after it; a key of 255s only stays as it is. */
  method FindShortSuccessor(key: Bytes) returns (tmp: Bytes)
    ensures !Less(tmp, key) && |tmp| <= |key|
    ensures if forall i :: 0 <= i < |key| ==> key[i] == 255 then tmp == key
            else tmp != [] && Less(key, tmp) && tmp[..|tmp| - 1] == key[..|tmp| - 1]
                 && (forall i :: 0 <= i < |tmp| - 1 ==> key[i] == 255) && key[|tmp| - 1] != 255
                 && tmp[|tmp| - 1] as int == key[|tmp| - 1] as int + 1
  {
    LessIsTotal(key, key);
    for i := 0 to |key|
      invariant forall j :: 0 <= j < i ==> key[j] == 255
    {
      if key[i] != 255 {
        tmp := key[..i] + [key[i] + 1];
        assert tmp[..i] == key[..i];
        LessAt(key, tmp, i);
        LessIsTotal(key, tmp);
        return;
      }
    }
    return key;
  }

  // ----- Encoded internal keys -----

  predicate IsKey(k: Bytes) {
    |k| >= 8
  }

  /** ExtractUserKey */
  function UserPart(k: Bytes): Bytes
    requires IsKey(k)
  {
    k[..|k| - 8]
  }

  /** The sequence number and the type. */
  function TagOf(k: Bytes): nat
    requires IsKey(k)
  {
    DecodeFixed64(k[|k| - 8..])
  }

  /** AppendInternalKey */
  function MakeKey(user: Bytes, tag: nat): (k: Bytes)
    ensures IsKey(k)
  {
    user + EncodeFixed64(tag)
  }

  lemma KeyParts(user: Bytes, tag: nat)
    requires tag < 0x1_0000_0000_0000_0000
    ensures UserPart(MakeKey(user, tag)) == user && TagOf(MakeKey(user, tag)) == tag
  {
    hide EncodeFixed64, DecodeFixed64;
    Fixed64RoundTrip(tag, []);
    assert MakeKey(user, tag)[|user|..] == EncodeFixed64(tag) + [];
  }

  /** InternalKeyComparator::Compare is negative. */
  predicate KeyLess(a: Bytes, b: Bytes) {
    IsKey(a) && IsKey(b) && (Less(UserPart(a), UserPart(b)) || (UserPart(a) == UserPart(b) && TagOf(a) > TagOf(b)))
  }

  lemma KeyLessChains(a: Bytes, b: Bytes, c: Bytes)
    ensures KeyLess(a, b) && KeyLess(b, c) ==> KeyLess(a, c)
    ensures IsKey(a) && !KeyLess(b, a) && KeyLess(b, c) ==> KeyLess(a, c)
    ensures IsKey(c) && KeyLess(a, b) && !KeyLess(c, b) ==> KeyLess(a, c)
  {
    hide TagOf;
    if IsKey(a) && IsKey(b) && IsKey(c) {
      LessChains(UserPart(a), UserPart(b), UserPart(c));
      LessIsTotal(UserPart(a), UserPart(b));
      LessIsTotal(UserPart(b), UserPart(c));
      LessIsTotal(UserPart(a), UserPart(c));
    }
  }

  lemma KeyLessIsStrict(a: Bytes, b: Bytes)
    ensures !(KeyLess(a, b) && KeyLess(b, a)) && !KeyLess(a, a)
  {
    hide TagOf;
    if IsKey(a) {
      LessIsStrict(UserPart(a));
      if IsKey(b) {
        LessIsTotal(UserPart(a), UserPart(b));
      }
    }
  }

  const MAX_TAG: nat := MAX_SEQUENCE_NUMBER * 256 + 1

  /** InternalKeyComparator::FindShortestSeparator: a key not before `start` and before `limit`,
      whose user key is that of `start` or strictly before that of `limit`. */
  method FindKeySeparator(start: Bytes, limit: Bytes) returns (sep: Bytes)
    requires KeyLess(start, limit)
    ensures IsKey(sep) && !KeyLess(sep, start) && KeyLess(sep, limit) && |sep| <= |start|
    ensures sep == start || Less(UserPart(sep), UserPart(limit))
    ensures sep != start ==> |sep| < |start| && TagOf(sep) == MAX_SEQUENCE_NUMBER * 256 + 1
    ensures HasRoom(UserPart(start), UserPart(limit)) ==>
      forall u :: |u| < |UserPart(start)| && FallsIn(UserPart(start), u, UserPart(limit)) ==> sep != start && |sep| <= |u| + 8
  {
    hide TagOf;
    KeyLessIsStrict(start, start);
    LessIsTotal(UserPart(start), UserPart(limit));
    var tmp := FindShortestSeparator(UserPart(start), UserPart(limit));
    LessIsTotal(UserPart(start), tmp);
    sep := start;
    if |tmp| < |UserPart(start)| && Less(UserPart(start), tmp) {
      sep := MakeKey(tmp, MAX_TAG);
      KeyParts(tmp, MAX_TAG);
    }
  }

  /** InternalKeyComparator::FindShortSuccessor */
  method FindKeySuccessor(key: Bytes) returns (sep: Bytes)
    requires IsKey(key)
    ensures IsKey(sep) && !KeyLess(sep, key) && |sep| <= |key|
    ensures sep != key ==> |sep| < |key| && TagOf(sep) == MAX_SEQUENCE_NUMBER * 256 + 1
    ensures forall i :: 0 <= i < |key| - 9 && key[i] != 255 ==> sep != key && |sep| <= i + 9
  {
    hide TagOf;
    KeyLessIsStrict(key, key);
    var tmp := FindShortSuccessor(UserPart(key));
    sep := key;
    if |tmp| < |UserPart(key)| && Less(UserPart(key), tmp) {
      sep := MakeKey(tmp, MAX_TAG);
      KeyParts(tmp, MAX_TAG);
      LessIsTotal(UserPart(key), tmp);
    }
  }
}

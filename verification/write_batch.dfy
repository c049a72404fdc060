/** Write batches (db/write_batch.cc): a sequence number, a count and records, in one string. */
module WriteBatches {
  import opened InternalKey
  import opened Coding

  const HEADER := 12
  const DELETION: Byte := 0
  const VALUE: Byte := 1
  const MAX_COUNT := 0x7fff_ffff

  datatype Op = Put(key: Bytes, value: Bytes) | Delete(key: Bytes)

  datatype Status = OK | TooSmall | BadPut | BadDelete | UnknownTag | WrongCount

  /** Lengths, of the internal key as well, are 32 bits wide. */
  predicate Fits(op: Op) {
    |op.key| + 8 < 0x1_0000_0000 && (op.Put? ==> |op.value| < 0x1_0000_0000)
  }

  function OpBytes(op: Op): (r: Bytes)
    ensures |r| >= 1
  {
    match op
    case Put(key, value) => [VALUE] + LengthPrefixed(key) + LengthPrefixed(value)
    case Delete(key) => [DELETION] + LengthPrefixed(key)
  }

  function OpsBytes(ops: seq<Op>): Bytes {
    if ops == [] then [] else OpBytes(ops[0]) + OpsBytes(ops[1..])
  }

  function BatchBytes(sequence: nat, ops: seq<Op>): Bytes {
    EncodeFixed64(sequence) + EncodeFixed32(|ops|) + OpsBytes(ops)
  }

  ghost predicate CanBeWritten(sequence: nat, ops: seq<Op>) {
    sequence < 0x1_0000_0000_0000_0000 && |ops| <= MAX_COUNT && forall op :: op in ops ==> Fits(op)
  }

  lemma {:induction false} OpsBytesConcat(a: seq<Op>, b: seq<Op>)
    ensures OpsBytes(a + b) == OpsBytes(a) + OpsBytes(b)
  {
    hide OpBytes;
    if a == [] {
      assert a + b == b;
    } else {
      OpsBytesConcat(a[1..], b);
      assert (a + b)[1..] == a[1..] + b;
    }
  }

  lemma OneOp(op: Op)
    ensures OpsBytes([op]) == OpBytes(op)
  {
    assert OpsBytes([op][1..]) == [];
  }

  // ----- Parsing -----

  /** The record at `p`, with where the next one starts, or what is wrong with it. */
  datatype Record = Record(op: Op, next: nat) | Bad(status: Status)

  function ParseRecord(s: Bytes, p: nat): (r: Record)
    requires p < |s|
    ensures if r.Record? then p < r.next <= |s| else r.status != OK
  {
    if s[p] == VALUE then
      match GetLengthPrefixed(s, p + 1, |s|)
      case None => Bad(BadPut)
      case Some(key) =>
        match GetLengthPrefixed(s, key.next, |s|)
        case None => Bad(BadPut)
        case Some(value) => Record(Put(key.data, value.data), value.next)
    else if s[p] == DELETION then
      match GetLengthPrefixed(s, p + 1, |s|)
      case None => Bad(BadDelete)
      case Some(key) => Record(Delete(key.data), key.next)
    else Bad(UnknownTag)
  }

  /** All records from `p` on: what is handed to the handler, and how the parse ends. */
  function ParseRecords(s: Bytes, p: nat): (seq<Op>, Status)
    requires p <= |s|
    decreases |s| - p
  {
    if p == |s| then ([], OK)
    else
      match ParseRecord(s, p)
      case Bad(status) => ([], status)
      case Record(op, next) =>
        var (ops, status) := ParseRecords(s, next);
        ([op] + ops, status)
  }

  lemma ParseWritten(s: Bytes, p: nat, op: Op)
    requires HoldsAt(s, p, OpBytes(op)) && Fits(op)
    ensures p < |s| && ParseRecord(s, p) == Record(op, p + |OpBytes(op)|)
  {
    hide LengthPrefixed, GetLengthPrefixed, HoldsAt;
    TagIs(s, p, op);
    match op {
      case Put(key, value) =>
        HoldsParts(s, p, [VALUE] + LengthPrefixed(key), LengthPrefixed(value));
        HoldsParts(s, p, [VALUE], LengthPrefixed(key));
        HoldsEnds(s, p + 1, LengthPrefixed(key));
        HoldsEnds(s, p + 1 + |LengthPrefixed(key)|, LengthPrefixed(value));
        LengthPrefixedRoundTrip(key, s, p + 1, |s|);
        LengthPrefixedRoundTrip(value, s, p + 1 + |LengthPrefixed(key)|, |s|);
      case Delete(key) =>
        HoldsParts(s, p, [DELETION], LengthPrefixed(key));
        HoldsEnds(s, p + 1, LengthPrefixed(key));
        LengthPrefixedRoundTrip(key, s, p + 1, |s|);
    }
  }

  lemma TagIs(s: Bytes, p: nat, op: Op)
    requires HoldsAt(s, p, OpBytes(op))
    ensures p < |s| && s[p] == if op.Put? then VALUE else DELETION
  {
    hide LengthPrefixed;
    assert s[p] == s[p..p + |OpBytes(op)|][0];
  }

  /** What was written is parsed. */
  lemma {:induction false} ParseAllWritten(s: Bytes, p: nat, ops: seq<Op>)
    requires HoldsAt(s, p, OpsBytes(ops)) && p + |OpsBytes(ops)| == |s| && forall op :: op in ops ==> Fits(op)
    ensures ParseRecords(s, p) == (ops, OK)
    decreases |ops|
  {
    hide OpBytes, HoldsAt, ParseRecord, Fits;
    if ops != [] {
      HoldsParts(s, p, OpBytes(ops[0]), OpsBytes(ops[1..]));
      ParseWritten(s, p, ops[0]);
      ParseAllWritten(s, p + |OpBytes(ops[0])|, ops[1..]);
      assert [ops[0]] + ops[1..] == ops;
    }
  }

  // ----- The header -----

  function SequenceOf(rep: Bytes): nat
    requires |rep| >= HEADER
  {
    DecodeFixed64(rep)
  }

  function CountOf(rep: Bytes): nat
    requires |rep| >= HEADER
  {
    DecodeFixed32(rep[8..])
  }

  function SetSequence(rep: Bytes, sequence: nat): (r: Bytes)
    requires |rep| >= HEADER
    ensures |r| == |rep|
  {
    EncodeFixed64(sequence) + rep[8..]
  }

  function SetCount(rep: Bytes, n: nat): (r: Bytes)
    requires |rep| >= HEADER
    ensures |r| == |rep|
  {
    rep[..8] + EncodeFixed32(n) + rep[12..]
  }

  lemma HeaderIs(sequence: nat, ops: seq<Op>, other: nat, n: nat)
    requires sequence < 0x1_0000_0000_0000_0000 && |ops| < 0x1_0000_0000
    ensures var rep := BatchBytes(sequence, ops);
      && |rep| >= HEADER && SequenceOf(rep) == sequence && CountOf(rep) == |ops| && rep[HEADER..] == OpsBytes(ops)
      && SetSequence(rep, other) == EncodeFixed64(other) + EncodeFixed32(|ops|) + OpsBytes(ops)
      && SetCount(rep, n) == EncodeFixed64(sequence) + EncodeFixed32(n) + OpsBytes(ops)
  {
    hide EncodeFixed32, EncodeFixed64, DecodeFixed32, DecodeFixed64, OpsBytes;
    var rep := BatchBytes(sequence, ops);
    Fixed64RoundTrip(sequence, EncodeFixed32(|ops|) + OpsBytes(ops));
    assert rep == EncodeFixed64(sequence) + (EncodeFixed32(|ops|) + OpsBytes(ops));
    Fixed32RoundTrip(|ops|, OpsBytes(ops));
    assert rep[8..] == EncodeFixed32(|ops|) + OpsBytes(ops);
  }

  lemma ZeroHeader()
    ensures BatchBytes(0, []) == seq(HEADER, _ => 0)
  {
    assert Fixed(0, 4) == [0] + Fixed(0, 3) && Fixed(0, 3) == [0] + Fixed(0, 2) && Fixed(0, 2) == [0] + Fixed(0, 1);
    assert Fixed(0, 4) == seq(4, _ => 0);
    assert Fixed(0, 8) == [0] + Fixed(0, 7) && Fixed(0, 7) == [0] + Fixed(0, 6) && Fixed(0, 6) == [0] + Fixed(0, 5);
    assert Fixed(0, 5) == [0] + Fixed(0, 4);
  }

  // ----- The class -----

  class WriteBatch {
    var rep: Bytes
    ghost var sequence: nat
    ghost var ops: seq<Op>

    ghost predicate Inv()
      reads `rep, `sequence, `ops
    {
      rep == BatchBytes(sequence, ops) && CanBeWritten(sequence, ops)
    }

    constructor ()
      ensures Inv() && ops == []
    {
      rep := seq(HEADER, _ => 0);
      sequence, ops := 0, [];
      new;
      ZeroHeader();
    }

    method Clear()
      modifies this
      ensures Inv() && ops == []
    {
      rep := seq(HEADER, _ => 0);
      sequence, ops := 0, [];
      ZeroHeader();
    }

    method Put(key: Bytes, value: Bytes)
      requires Inv() && |ops| < MAX_COUNT && Fits(Op.Put(key, value))
      modifies this
      ensures Inv() && sequence == old(sequence) && ops == old(ops) + [Op.Put(key, value)]
    {
      hide OpsBytes, EncodeFixed32, EncodeFixed64, SetCount, CountOf, LengthPrefixed;
      ghost var op := Op.Put(key, value);
      HeaderIs(sequence, ops, 0, |ops| + 1);
      OpsBytesConcat(ops, [op]);
      OneOp(op);
      rep := SetCount(rep, CountOf(rep) + 1);
      rep := rep + [VALUE];
      rep := rep + LengthPrefixed(key);
      rep := rep + LengthPrefixed(value);
      ops := ops + [op];
    }

    method Delete(key: Bytes)
      requires Inv() && |ops| < MAX_COUNT && Fits(Op.Delete(key))
      modifies this
      ensures Inv() && sequence == old(sequence) && ops == old(ops) + [Op.Delete(key)]
    {
      hide OpsBytes, EncodeFixed32, EncodeFixed64, SetCount, CountOf, LengthPrefixed;
      ghost var op := Op.Delete(key);
      HeaderIs(sequence, ops, 0, |ops| + 1);
      OpsBytesConcat(ops, [op]);
      OneOp(op);
      rep := SetCount(rep, CountOf(rep) + 1);
      rep := rep + [DELETION];
      rep := rep + LengthPrefixed(key);
      ops := ops + [op];
    }

    /** Append: the records of `source` follow those of this batch. */
    method Append(source: WriteBatch)
      requires Inv() && source.Inv() && source != this && |ops| + |source.ops| <= MAX_COUNT
      modifies this
      ensures Inv() && sequence == old(sequence) && ops == old(ops) + source.ops
    {
      hide OpsBytes, EncodeFixed32, EncodeFixed64, SetCount, CountOf, Fits;
      HeaderIs(sequence, ops, 0, |ops| + |source.ops|);
      HeaderIs(source.sequence, source.ops, 0, 0);
      OpsBytesConcat(ops, source.ops);
      rep := SetCount(rep, CountOf(rep) + CountOf(source.rep));
      rep := rep + source.rep[HEADER..];
      ops := ops + source.ops;
    }

    method SetSequenceNumber(s: nat)
      requires Inv() && s < 0x1_0000_0000_0000_0000
      modifies this
      ensures Inv() && sequence == s && ops == old(ops)
    {
      hide OpsBytes, EncodeFixed32, EncodeFixed64, SetSequence;
      HeaderIs(sequence, ops, s, 0);
      rep := SetSequence(rep, s);
      sequence := s;
    }

    method Count() returns (n: nat)
      requires Inv()
      ensures n == |ops|
    {
      HeaderIs(sequence, ops, 0, 0);
      n := CountOf(rep);
    }
  }

  /** WriteBatch::Iterate: the records handed to the handler, in order, and the status. */
  method Iterate(rep: Bytes) returns (ops: seq<Op>, status: Status)
    ensures |rep| < HEADER ==> status == TooSmall && ops == []
    ensures |rep| >= HEADER ==>
      && ops == ParseRecords(rep, HEADER).0
      && status == var s := ParseRecords(rep, HEADER).1; if s == OK && |ops| != CountOf(rep) then WrongCount else s
  {
    hide ParseRecord, CountOf;
    ops := [];
    if |rep| < HEADER {
      return ops, TooSmall;
    }
    var p, found := HEADER, 0;
    assert [] + ParseRecords(rep, HEADER).0 == ParseRecords(rep, HEADER).0;
    while p < |rep|
      invariant HEADER <= p <= |rep| && found == |ops|
      invariant var (rest, s) := ParseRecords(rep, p); ParseRecords(rep, HEADER) == (ops + rest, s)
      decreases |rep| - p
    {
      found := found + 1;
      match ParseRecord(rep, p)
      case Bad(s) =>
        return ops, s;
      case Record(op, next) =>
        var rest := ParseRecords(rep, next).0;
        assert ops + ([op] + rest) == ops + [op] + rest;
        ops := ops + [op];
        p := next;
    }
    status := if found != CountOf(rep) then WrongCount else OK;
  }

  /** What was put in a batch comes out of it. */
  lemma BatchRoundTrip(sequence: nat, ops: seq<Op>)
    requires CanBeWritten(sequence, ops)
    ensures var rep := BatchBytes(sequence, ops);
      && |rep| >= HEADER && SequenceOf(rep) == sequence && CountOf(rep) == |ops|
      && ParseRecords(rep, HEADER) == (ops, OK)
  {
    hide OpsBytes, EncodeFixed32, EncodeFixed64, SequenceOf, CountOf, Fits, HoldsAt;
    var rep := BatchBytes(sequence, ops);
    HeaderIs(sequence, ops, 0, 0);
    Whole(rep);
    HoldsParts(rep, 0, EncodeFixed64(sequence) + EncodeFixed32(|ops|), OpsBytes(ops));
    ParseAllWritten(rep, HEADER, ops);
  }

  // ----- A batch that was cut -----

  lemma CutRecord(op: Op, s: Bytes, p: nat)
    requires Fits(op) && CutAt(s, p, OpBytes(op)) && p < |s|
    ensures ParseRecord(s, p).Bad?
  {
    hide LengthPrefixed, GetLengthPrefixed;
    assert s[p] == OpBytes(op)[0];
    var first := LengthPrefixed(op.key);
    if |s| < p + 1 + |first| {
      CutFrom(s, p, OpBytes(op), 1, first);
      CutPrefixed(op.key, s, p + 1);
    } else {
      var value := LengthPrefixed(op.value);
      HoldsCut(s, p, OpBytes(op), 1, first);
      LengthPrefixedRoundTrip(op.key, s, p + 1, |s|);
      CutFrom(s, p, OpBytes(op), 1 + |first|, value);
      CutPrefixed(op.value, s, p + 1 + |first|);
    }
  }

  /** A part of what was cut is cut. */
  lemma CutFrom(s: Bytes, p: nat, w: Bytes, q: nat, u: Bytes)
    requires CutAt(s, p, w) && HoldsAt(w, q, u) && p + q <= |s| < p + q + |u|
    ensures CutAt(s, p + q, u)
  {
    forall i | p + q <= i < |s|
      ensures s[i] == u[i - (p + q)]
    {
      assert w[q..q + |u|][i - p - q] == w[i - p];
    }
  }

  /** A part before the cut is there. */
  lemma HoldsCut(s: Bytes, p: nat, w: Bytes, q: nat, u: Bytes)
    requires CutAt(s, p, w) && HoldsAt(w, q, u) && p + q + |u| <= |s|
    ensures HoldsAt(s, p + q, u)
  {
    forall i | 0 <= i < |u|
      ensures s[p + q..p + q + |u|][i] == u[i]
    {
      assert w[q..q + |u|][i] == w[q + i];
    }
  }

  /** The records of a batch that was cut anywhere: too few are found, or the last is malformed. */
  lemma {:induction false} CutIsSeen(ops: seq<Op>, s: Bytes, p: nat)
    requires CutAt(s, p, OpsBytes(ops)) && forall op :: op in ops ==> Fits(op)
    ensures var (found, status) := ParseRecords(s, p); status != OK || |found| < |ops|
    decreases |ops|
  {
    hide OpBytes, Fits, ParseRecord;
    if p < |s| {
      var op, rest := ops[0], ops[1..];
      var w := OpBytes(op);
      assert OpsBytes(ops) == w + OpsBytes(rest);
      assert HoldsAt(OpsBytes(ops), 0, w) && HoldsAt(OpsBytes(ops), |w|, OpsBytes(rest));
      if |s| < p + |w| {
        CutFrom(s, p, OpsBytes(ops), 0, w);
        CutRecord(op, s, p);
      } else {
        HoldsCut(s, p, OpsBytes(ops), 0, w);
        ParseWritten(s, p, op);
        CutFrom(s, p, OpsBytes(ops), |w|, OpsBytes(rest));
        CutIsSeen(rest, s, p + |w|);
      }
    }
  }
}

/** The log writer (db/log_writer.cc). */
module LogWriter {
  import opened InternalKey
  import opened Checksums
  import opened LogFormat
  import Crc32c

  class Writer {
    var dest: Bytes  // the contents of the file
    var blockOffset: nat
    const typeCrc: seq<bv32>

    ghost predicate Valid()
      reads this
    {
      && blockOffset <= BLOCK_SIZE && blockOffset % BLOCK_SIZE == |dest| % BLOCK_SIZE
      && |typeCrc| == MAX_RECORD_TYPE + 1
      && forall t: Byte :: t <= MAX_RECORD_TYPE ==> typeCrc[t] == Crc32c.Checksum(0, Bits([t]))
    }

    /** A writer of a file that already holds `contents`: a new log, or one opened again. */
    constructor (contents: Bytes)
      ensures Valid() && dest == contents
    {
      dest := contents;
      blockOffset := |contents| % BLOCK_SIZE;
      typeCrc := seq(MAX_RECORD_TYPE + 1, t requires 0 <= t < MAX_RECORD_TYPE + 1 => Crc32c.Checksum(0, Bits([t])));
    }

    method EmitPhysicalRecord(t: Byte, payload: Bytes)
      requires Valid() && t <= MAX_RECORD_TYPE && blockOffset + HEADER_SIZE + |payload| <= BLOCK_SIZE
      modifies `dest, `blockOffset
      ensures Valid() && dest == old(dest) + PhysicalRecord(t, payload)
      ensures blockOffset == old(blockOffset) + HEADER_SIZE + |payload|
    {
      hide Crc32c.Checksum, PayloadCrc, Bits, Stored;
      SameOffset(blockOffset, |dest|, HEADER_SIZE + |payload|);
      var tail := [|payload| % 256, |payload| / 256, t];
      var address: nat := *;
      var crc := Crc32c.Extend(typeCrc[t], Bits(payload), address);
      PayloadCrcExtends(t, payload);
      var header := Stored(crc) + tail;
      dest := dest + header;
      dest := dest + payload;
      blockOffset := blockOffset + HEADER_SIZE + |payload|;
      assert dest == old(dest) + (header + payload);
    }

    /** Switches to a new block when no header fits in this one. */
    method SwitchBlock()
      requires Valid()
      modifies `dest, `blockOffset
      ensures Valid()
      ensures dest == old(dest) + Zeros(Trailer(|old(dest)| % BLOCK_SIZE))
      ensures blockOffset == HeaderAt(|old(dest)| % BLOCK_SIZE)
    {
      var leftover := BLOCK_SIZE - blockOffset;
      if leftover < HEADER_SIZE {
        if leftover > 0 {
          dest := dest + Zeros(leftover);
        }
        blockOffset := 0;
      }
    }

    /** Fragments a record over the blocks that it meets. */
    method AddRecord(slice: Bytes)
      requires Valid()
      modifies `dest, `blockOffset
      ensures Valid() && dest == old(dest) + Fragments(|old(dest)| % BLOCK_SIZE, slice, true)
    {
      hide PhysicalRecord, KindOf, Valid, HeaderAt, Trailer, Fragments;
      ghost var whole := dest + Fragments(|dest| % BLOCK_SIZE, slice, true);
      var left := slice;
      var begin := true;
      var done := false;
      while !done
        invariant Valid()
        invariant if done then dest == whole else dest + Fragments(|dest| % BLOCK_SIZE, left, begin) == whole
        decreases !done, |left|, if |dest| % BLOCK_SIZE == BLOCK_SIZE - HEADER_SIZE then 1 else 0
      {
        ghost var before, offset := dest, |dest| % BLOCK_SIZE;
        SwitchBlock();
        var avail := BLOCK_SIZE - blockOffset - HEADER_SIZE;
        var n := if |left| < avail then |left| else avail;
        var end := |left| == n;
        var kind := if begin && end then FULL_TYPE else if begin then FIRST_TYPE
                    else if end then LAST_TYPE else MIDDLE_TYPE;
        KindCases(begin, end);
        EmitPhysicalRecord(kind, left[..n]);
        NextFragment(before, left, begin);
        left := left[n..];
        begin := false;
        done := left == [];
      }
    }
  }

  /** One turn of AddRecord takes the first of the fragments that are left. */
  lemma NextFragment(before: Bytes, left: Bytes, begin: bool)
    ensures var offset := |before| % BLOCK_SIZE;
      var n := FragmentLength(offset, left);
      var after := before + Zeros(Trailer(offset)) + PhysicalRecord(KindOf(begin, n == |left|), left[..n]);
      && before + Fragments(offset, left, begin)
           == (if n == |left| then after else after + Fragments(|after| % BLOCK_SIZE, left[n..], false))
      && (n < |left| ==> |after| % BLOCK_SIZE == 0)
      && (n == 0 && n < |left| ==> offset == BLOCK_SIZE - HEADER_SIZE)
  {
    hide PhysicalRecord, KindOf;
    var offset := |before| % BLOCK_SIZE;
    var n := FragmentLength(offset, left);
    var first := Zeros(Trailer(offset)) + PhysicalRecord(KindOf(begin, n == |left|), left[..n]);
    assert before + Zeros(Trailer(offset)) + PhysicalRecord(KindOf(begin, n == |left|), left[..n]) == before + first;
    if n < |left| {
      EndOfBlock(|before|, n);
      assert before + (first + Fragments(0, left[n..], false)) == before + first + Fragments(0, left[n..], false);
    }
  }

  lemma KindCases(begin: bool, end: bool)
    ensures KindOf(begin, end) == if begin && end then FULL_TYPE else if begin then FIRST_TYPE
                                  else if end then LAST_TYPE else MIDDLE_TYPE
  {
  }
}

/** The bytes of a log, told without the writer and the reader: blocks of 32 KiB, a header of a
    masked CRC, a length and a type before each piece of a record, and zeros where no header fits. */
module LogWire {
  import opened InternalKey
  import opened Checksums
  import opened LogFormat
  import Coding
  import Crc32c

  /** The checksum at `q`: that of the type and the payload, turned right by 15 bits, plus a constant;
      the least significant byte comes first. */
  predicate ChecksumAt(file: Bytes, q: nat, kind: Byte, payload: Bytes)
    requires q + 4 <= |file|
  {
    var crc := Crc32c.Checksum(0, Bits([kind] + payload));
    Masked(crc) == WordAt(file, q)
  }

  function Masked(crc: bv32): bv32 {
    ((crc >> 15) | (crc << 17)) + 0xa282_ead8
  }

  lemma MaskIsMasked(crc: bv32)
    ensures Crc32c.Mask(crc) == Masked(crc)
  {
  }

  function WordAt(file: Bytes, q: nat): bv32
    requires q + 4 <= |file|
  {
    Word(file[q..q + 4])
  }

  function Word(w: Bytes): bv32
    requires |w| == 4
  {
    Number(w) as bv32
  }

  function Number(w: Bytes): (n: nat)
    requires |w| == 4
    ensures n < 0x1_0000_0000
  {
    (w[0] as int) + 0x100 * (w[1] as int) + 0x1_0000 * (w[2] as int) + 0x100_0000 * (w[3] as int)
  }

  /** A piece of a record at `q`, inside one block. */
  predicate PieceAt(file: Bytes, q: nat, kind: Byte, payload: Bytes) {
    && q % 32768 + 7 + |payload| <= 32768 && q + 7 + |payload| <= |file|
    && ChecksumAt(file, q, kind, payload)
    && (file[q + 4] as int) + 256 * (file[q + 5] as int) == |payload| && file[q + 6] == kind
    && file[q + 7..q + 7 + |payload|] == payload
  }

  /** The next header after `p` is at `q`: there, or past the zeros at the end of the block. */
  predicate HeaderFrom(file: Bytes, p: nat, q: nat) {
    if 32768 - p % 32768 >= 7 then q == p
    else q == p - p % 32768 + 32768 && q <= |file| && forall i :: p <= i < q ==> file[i] == 0
  }

  datatype Piece = Piece(at: nat, payload: Bytes)

  /** A record from `p` to `end`: whole in one piece of type 1, or a first piece of type 2, pieces of
      type 3 and a last one of type 4; each but the last goes to the end of its block. */
  ghost predicate IsRecord(file: Bytes, p: nat, pieces: seq<Piece>, begin: bool, data: Bytes, end: nat)
    decreases |pieces|
  {
    && pieces != [] && HeaderFrom(file, p, pieces[0].at)
    && var next := pieces[0].at + 7 + |pieces[0].payload|;
    if |pieces| == 1 then
      pieces[0].payload == data && PieceAt(file, pieces[0].at, if begin then 1 else 4, data) && end == next
    else
      && PieceAt(file, pieces[0].at, if begin then 2 else 3, pieces[0].payload) && next % 32768 == 0
      && pieces[0].payload <= data
      && IsRecord(file, next, pieces[1..], false, data[|pieces[0].payload|..], end)
  }

  ghost predicate RecordAt(file: Bytes, p: nat, data: Bytes, end: nat) {
    exists pieces :: IsRecord(file, p, pieces, true, data, end)
  }

  /** The whole file: one record after the other. */
  ghost predicate IsLog(file: Bytes, p: nat, records: seq<Bytes>)
    decreases |records|
  {
    if records == [] then p == |file|
    else exists end: nat :: RecordAt(file, p, records[0], end) && IsLog(file, end, records[1..])
  }

  // ----- What the writer writes -----

  lemma StoredBytes(crc: bv32)
    ensures Word(Stored(crc)) == Crc32c.Mask(crc) == Masked(crc)
  {
    hide Crc32c.Mask, Masked, Word, Stored, UnmaskStored, Coding.DecodeFixed32;
    var w := Stored(crc);
    MaskIsMasked(crc);
    StoredRoundTrip(crc, []);
    assert w + [] == w == w[0..4];
    StoredIs(w, 0, crc);
  }

  lemma WordIs(w: Bytes)
    requires |w| == 4
    ensures Coding.DecodeFixed32(w) == Number(w)
  {
    assert Coding.DecodeFixed(w, 4) == (w[0] as int) + 256 * Coding.DecodeFixed(w[1..], 3);
    assert Coding.DecodeFixed(w[1..], 3) == (w[1] as int) + 256 * Coding.DecodeFixed(w[1..][1..], 2);
    assert Coding.DecodeFixed(w[1..][1..], 2) == (w[2] as int) + 256 * Coding.DecodeFixed(w[1..][1..][1..], 1);
    assert Coding.DecodeFixed(w[1..][1..][1..], 1) == (w[3] as int);
  }

  lemma PieceWritten(file: Bytes, q: nat, kind: Byte, payload: Bytes)
    requires q % 32768 + 7 + |payload| <= 32768 && Coding.HoldsAt(file, q, PhysicalRecord(kind, payload))
    ensures PieceAt(file, q, kind, payload)
  {
    hide Crc32c.Mask, Masked, Word, Crc32c.Checksum, Bits, Stored;
    var crc := PayloadCrc(kind, payload);
    StoredBytes(crc);
    var w := file[q..q + 7 + |payload|];
    assert w == PhysicalRecord(kind, payload);
    assert w[..4] == Stored(crc) == file[q..q + 4] && w[7..] == payload;
    forall i | 0 <= i < 7
      ensures file[q + i] == Header(kind, payload)[i]
    {
      assert w[i] == file[q + i];
    }
  }

  lemma ZerosWritten(file: Bytes, p: nat)
    requires Coding.HoldsAt(file, p, Zeros(Trailer(p % BLOCK_SIZE)))
    ensures HeaderFrom(file, p, p + Trailer(p % BLOCK_SIZE))
  {
    var n := Trailer(p % BLOCK_SIZE);
    assert file[p..p + n] == Zeros(n);
    forall i | p <= i < p + n
      ensures file[i] == 0
    {
      assert file[p..p + n][i - p] == 0;
    }
  }

  /** The fragments of one record are such a record. */
  lemma {:induction false} RecordWritten(file: Bytes, p: nat, data: Bytes, begin: bool) returns (pieces: seq<Piece>)
    requires Coding.HoldsAt(file, p, Fragments(p % BLOCK_SIZE, data, begin))
    ensures IsRecord(file, p, pieces, begin, data, p + |Fragments(p % BLOCK_SIZE, data, begin)|)
    decreases |data|, if BLOCK_SIZE - p % BLOCK_SIZE == HEADER_SIZE then 1 else 0
  {
    hide Coding.HoldsAt, PieceAt, HeaderFrom, PhysicalRecord, Zeros;
    var offset := p % BLOCK_SIZE;
    var n := FragmentLength(offset, data);
    var kind := KindOf(begin, n == |data|);
    var zeros, piece := Zeros(Trailer(offset)), PhysicalRecord(kind, data[..n]);
    var q := p + Trailer(offset);
    var next := q + 7 + n;
    if n == |data| {
      assert data[..n] == data;
      Coding.HoldsParts(file, p, zeros, piece);
      pieces := [Piece(q, data)];
    } else {
      Coding.HoldsParts(file, p, zeros + piece, Fragments(0, data[n..], false));
      Coding.HoldsParts(file, p, zeros, piece);
      EndOfBlock(p, n);
      var rest := RecordWritten(file, next, data[n..], false);
      pieces := [Piece(q, data[..n])] + rest;
      assert pieces[1..] == rest;
    }
    ZerosWritten(file, p);
    HeaderFits(p, n);
    PieceWritten(file, q, kind, data[..n]);
  }

  lemma HeaderFits(p: nat, n: nat)
    requires HeaderAt(p % BLOCK_SIZE) + HEADER_SIZE + n <= BLOCK_SIZE
    ensures (p + Trailer(p % BLOCK_SIZE)) % 32768 + 7 + n <= 32768
  {
    var b, o := p / 32768, p % 32768;
    assert p == 32768 * b + o;
    if Trailer(o) > 0 {
      StartOfBlock(b + 1);
      assert p + Trailer(o) == 32768 * (b + 1);
    }
  }

  lemma StartOfBlock(b: nat)
    ensures 32768 * b % 32768 == 0
  {
  }

  /** A log of records is a log in the documented format, with just these records. */
  lemma {:induction false} LogIsFormatted(file: Bytes, records: seq<Bytes>, i: nat)
    requires file == LogFile(records) && i <= |records|
    ensures IsLog(file, |LogFile(records[..i])|, records[i..])
    decreases |records| - i
  {
    hide LogFile, Fragments, IsRecord;
    var p := |LogFile(records[..i])|;
    if i == |records| {
      assert records[..i] == records;
    } else {
      LogIsFormatted(file, records, i + 1);
      LogFileGrows(records, i);
      LogFilePrefix(records, i + 1, |records|);
      assert records[..|records|] == records;
      var w := Fragments(p % BLOCK_SIZE, records[i], true);
      assert file[p..p + |w|] == w;
      var pieces := RecordWritten(file, p, records[i], true);
      assert RecordAt(file, p, records[i], p + |w|);
      assert records[i..][1..] == records[i + 1..];
    }
  }

  // ----- What the reader takes, whatever the file holds -----

  /** A piece that the reader took, of a type that it knows or not. */
  datatype Taken = Taken(at: nat, kind: Byte, payload: Bytes)

  ghost predicate Sound(file: Bytes, pieces: seq<Taken>) {
    forall i :: 0 <= i < |pieces| ==> PieceAt(file, pieces[i].at, pieces[i].kind, pieces[i].payload)
  }

  /** The pieces make the record: one of type 1, or types 2, 3 any number of times, and 4. */
  predicate Joins(pieces: seq<Taken>, begin: bool, data: Bytes)
    decreases |pieces|
  {
    && pieces != []
    && if |pieces| == 1 then pieces[0].kind == (if begin then 1 else 4) && pieces[0].payload == data
       else pieces[0].kind == (if begin then 2 else 3) && pieces[0].payload <= data
            && Joins(pieces[1..], false, data[|pieces[0].payload|..])
  }

  /** The pieces are in the order of their places, none before `p`. */
  predicate InOrder(pieces: seq<Taken>, p: nat)
    decreases |pieces|
  {
    pieces == [] || (pieces[0].at >= p && InOrder(pieces[1..], pieces[0].at + 7 + |pieces[0].payload|))
  }

  lemma StoredIs(file: Bytes, q: nat, crc: bv32)
    requires q + 4 <= |file| && UnmaskStored(Coding.DecodeFixed32(file[q..q + 4])) == crc
    ensures Crc32c.Mask(crc) == WordAt(file, q)
  {
    hide Crc32c.Mask, Crc32c.Unmask, Number, Coding.DecodeFixed32;
    WordIs(file[q..q + 4]);
    Crc32c.MaskUnmask(WordAt(file, q));
  }

  lemma SliceOfSlice(s: Bytes, a: nat, b: nat, i: nat, j: nat)
    requires i <= j && a + j <= b <= |s|
    ensures s[a..b][i..j] == s[a + i..a + j]
  {
    forall k | 0 <= k < j - i
      ensures s[a..b][i..j][k] == s[a + i..a + j][k]
    {
    }
  }

  lemma HeaderIsSound(file: Bytes, q: nat, e: nat, last: bool)
    requires q + 7 <= e <= |file| && e <= q - q % 32768 + 32768
    ensures var parsed := ParseHeader(file[q..e], last, true);
      parsed.physical.Fragment? ==>
        PieceAt(file, q, parsed.physical.kind, parsed.physical.payload) && q + parsed.next == q + 7 + |parsed.physical.payload|
  {
    hide Crc32c.Mask, Masked, Word, WordAt, Crc32c.Checksum, Bits, UnmaskStored, Coding.DecodeFixed32;
    var buffer := file[q..e];
    var parsed := ParseHeader(buffer, last, true);
    if parsed.physical.Fragment? {
      var kind, payload := parsed.physical.kind, parsed.physical.payload;
      assert buffer[..4] == file[q..q + 4];
      StoredIs(file, q, PayloadCrc(kind, payload));
      StoredBytes(PayloadCrc(kind, payload));
      SliceOfSlice(file, q, e, 7, 7 + |payload|);
    }
  }

  /** A fragment that the reader takes has the checksum of its type and payload. */
  lemma {:induction false} FragmentIsSound(file: Bytes, p: nat) returns (t: Taken)
    requires p <= |file| && ParsePhysical(file, p, true).physical.Fragment?
    ensures var parsed := ParsePhysical(file, p, true);
      && t.at >= p && t.kind == parsed.physical.kind && t.payload == parsed.physical.payload
      && PieceAt(file, t.at, t.kind, t.payload) && parsed.next == t.at + 7 + |t.payload|
    decreases |file| - p
  {
    hide PieceAt, ParseHeader;
    var e := BlockEnd(file, p);
    if e - p >= HEADER_SIZE {
      HeaderIsSound(file, p, e, IsLastBlock(file, p));
      t := Taken(p, ParsePhysical(file, p, true).physical.kind, ParsePhysical(file, p, true).physical.payload);
    } else {
      t := FragmentIsSound(file, e);
    }
  }

  /** A record that the reader hands over, of any file at all, is made of pieces with right checksums,
      in order and with nothing missing in the middle: none is ever made up. */
  lemma {:induction false} RecordIsSound(file: Bytes, p: nat, partial: Option<Bytes>) returns (pieces: seq<Taken>, whole: bool)
    requires p <= |file| && ParseLogical(file, p, true, partial).record.Some?
    ensures var data := ParseLogical(file, p, true, partial).record.value;
      && Sound(file, pieces) && InOrder(pieces, p)
      && if whole then Joins(pieces, true, data)
         else partial.Some? && partial.value <= data && Joins(pieces, false, data[|partial.value|..])
    decreases |file| - p
  {
    hide PieceAt, ParsePhysical;
    var parsed := ParsePhysical(file, p, true);
    var turn := Assemble(partial, parsed.physical).0;
    var data := ParseLogical(file, p, true, partial).record.value;
    if parsed.physical.Fragment? {
      var t := FragmentIsSound(file, p);
      if turn.Done? {
        pieces, whole := [t], t.kind == 1;
        assert !whole ==> data[|partial.value|..] == t.payload;
      } else {
        var rest, w := RecordIsSound(file, parsed.next, turn.partial);
        if w {
          pieces, whole := rest, true;
          OrderFrom(rest, parsed.next, p);
        } else {
          pieces, whole := [t] + rest, t.kind == 2;
          assert pieces[1..] == rest;
          JoinsOne(t, rest, whole, data, turn.partial.value, partial);
        }
      }
    } else {
      pieces, whole := RecordIsSound(file, parsed.next, turn.partial);
      OrderFrom(pieces, parsed.next, p);
    }
  }

  lemma OrderFrom(pieces: seq<Taken>, q: nat, p: nat)
    requires InOrder(pieces, q) && p <= q
    ensures InOrder(pieces, p)
  {
  }

  /** A piece in front of the others. */
  lemma JoinsOne(t: Taken, rest: seq<Taken>, begin: bool, data: Bytes, sofar: Bytes, partial: Option<Bytes>)
    requires t.kind == (if begin then 2 else 3) && sofar <= data && Joins(rest, false, data[|sofar|..])
    requires if begin then sofar == t.payload else partial.Some? && sofar == partial.value + t.payload
    ensures if begin then Joins([t] + rest, true, data)
            else partial.value <= data && Joins([t] + rest, false, data[|partial.value|..])
  {
    assert ([t] + rest)[1..] == rest;
    if !begin {
      assert data[|partial.value|..][|t.payload|..] == data[|sofar|..];
    }
  }

  // ----- Damage -----

  /** One byte of a payload that changed changes the checksum. */
  lemma PayloadDiffers(kind: Byte, payload: Bytes, other: Bytes, i: nat)
    requires |other| == |payload| && i < |payload| && other[i] != payload[i]
    requires forall j :: 0 <= j < |payload| && j != i ==> other[j] == payload[j]
    ensures PayloadCrc(kind, other) != PayloadCrc(kind, payload)
  {
    hide Crc32c.Checksum;
    ChangeIsSeen([kind] + payload, [kind] + other, i + 1);
  }

  /** A byte of a payload that was written and then changed: the reader reports a wrong checksum and
      takes nothing more from that block. */
  lemma DamageIsSeen(file: Bytes, damaged: Bytes, q: nat, kind: Byte, payload: Bytes, i: nat)
    requires PieceAt(file, q, kind, payload) && 1 <= kind <= 4 && i < |payload| && |damaged| == |file|
    requires damaged[q + 7 + i] != file[q + 7 + i]
    requires forall j :: 0 <= j < |file| && j != q + 7 + i ==> damaged[j] == file[j]
    ensures var e := BlockEnd(damaged, q);
      ParsePhysical(damaged, q, true) == Parsed(BadRecord, e, [Corruption(e - q, ChecksumMismatch)])
  {
    hide Crc32c.Mask, Masked, Word, WordAt, UnmaskStored, Crc32c.Checksum, Bits, Coding.DecodeFixed32, PayloadCrc;
    var e := BlockEnd(damaged, q);
    var buffer := damaged[q..e];
    var other := damaged[q + 7..q + 7 + |payload|];
    assert forall j :: 0 <= j < |payload| ==> payload[j] == file[q + 7..q + 7 + |payload|][j] == file[q + 7 + j];
    PayloadDiffers(kind, payload, other, i);
    assert e >= q + 7 + |payload|;
    SliceOfSlice(damaged, q, e, 0, 4);
    SliceOfSlice(damaged, q, e, 7, 7 + |payload|);
    assert buffer[..4] == buffer[0..4] && buffer[HEADER_SIZE..HEADER_SIZE + |payload|] == other;
    if PayloadCrc(kind, other) == UnmaskStored(Coding.DecodeFixed32(damaged[q..q + 4])) {
      StoredIs(damaged, q, PayloadCrc(kind, other));
      SameChecksum(damaged, file, q, kind, payload, PayloadCrc(kind, other));
    }
  }

  lemma SameChecksum(damaged: Bytes, file: Bytes, q: nat, kind: Byte, payload: Bytes, crc: bv32)
    requires q + 4 <= |file| == |damaged| && ChecksumAt(file, q, kind, payload)
    requires forall j :: q <= j < q + 4 ==> damaged[j] == file[j]
    requires Crc32c.Mask(crc) == WordAt(damaged, q)
    ensures crc == PayloadCrc(kind, payload)
  {
    hide Crc32c.Mask, Masked, Crc32c.Unmask, Crc32c.Checksum, Bits, Word;
    assert damaged[q..q + 4] == file[q..q + 4];
    StoredBytes(PayloadCrc(kind, payload));
    Crc32c.UnmaskMask(crc);
    Crc32c.UnmaskMask(PayloadCrc(kind, payload));
  }

  /** A length that leads out of its block is reported with all that is left of the block; in the last
      block, which may have been cut, it is the end of the log and nothing is reported. */
  lemma LengthIsSeen(file: Bytes, q: nat)
    requires q + 7 <= |file| && q % 32768 + 7 <= 32768
    requires q % 32768 + 7 + (file[q + 4] as int) + 256 * (file[q + 5] as int) > 32768
    ensures var e := q - q % 32768 + 32768;
      ParsePhysical(file, q, true)
         == if |file| < e then Parsed(Eof, |file|, []) else Parsed(BadRecord, e, [Corruption(e - q, BadRecordLength)])
  {
    var buffer := file[q..BlockEnd(file, q)];
    assert buffer[4] == file[q + 4] && buffer[5] == file[q + 5];
  }

  // ----- Nothing is lost without a report -----

  function Total(reports: seq<Corruption>): nat {
    if reports == [] then 0 else reports[0].bytes + Total(reports[1..])
  }

  lemma {:induction false} TotalAdds(a: seq<Corruption>, b: seq<Corruption>)
    ensures Total(a + b) == Total(a) + Total(b)
  {
    if a == [] {
      assert a + b == b;
    } else {
      TotalAdds(a[1..], b);
      assert (a + b)[1..] == a[1..] + b;
    }
  }

  function Size(records: seq<Bytes>): nat {
    if records == [] then 0 else |records[0]| + Size(records[1..])
  }

  /** The payload of every fragment from `p` on, and every byte that is skipped with a report. */
  function Offered(file: Bytes, p: nat): nat
    requires p <= |file|
    decreases |file| - p
  {
    var parsed := ParsePhysical(file, p, true);
    if parsed.physical.Eof? then Total(parsed.reports)
    else
      (if parsed.physical.Fragment? then |parsed.physical.payload| else 0) + Total(parsed.reports) + Offered(file, parsed.next)
  }

  /** The first pieces of a record of which the end is missing at the end of the log. */
  function Unfinished(file: Bytes, p: nat, partial: Option<Bytes>): nat
    requires p <= |file|
    decreases |file| - p
  {
    var parsed := ParsePhysical(file, p, true);
    if parsed.physical.Eof? then |Sofar(partial)|
    else
      match Assemble(partial, parsed.physical).0
      case Done(_) => Unfinished(file, parsed.next, None)
      case More(partial') => Unfinished(file, parsed.next, partial')
  }

  /** One fragment: what was there and what comes is in the record, in what goes on, or reported. */
  lemma PieceIsKept(partial: Option<Bytes>, physical: Physical)
    ensures var (turn, dropped) := Assemble(partial, physical);
      |Sofar(partial)| + (if physical.Fragment? then |physical.payload| else 0)
         == (match turn
             case Done(record) => if record.Some? then |record.value| else |Sofar(partial)|
             case More(partial') => |Sofar(partial')|) + Total(dropped)
  {
    var dropped := Assemble(partial, physical).1;
    assert dropped != [] ==> dropped[1..] == [];
  }

  lemma {:induction false} LogicalIsKept(file: Bytes, p: nat, partial: Option<Bytes>)
    requires p <= |file|
    ensures var l := ParseLogical(file, p, true, partial);
      |Sofar(partial)| + Offered(file, p)
         == Total(l.reports) + if l.record.Some? then |l.record.value| + Offered(file, l.next) else Unfinished(file, p, partial)
    ensures var l := ParseLogical(file, p, true, partial);
      l.record.Some? ==> Unfinished(file, p, partial) == Unfinished(file, l.next, None)
    decreases |file| - p
  {
    hide ParsePhysical, Assemble;
    var parsed := ParsePhysical(file, p, true);
    var (turn, dropped) := Assemble(partial, parsed.physical);
    PieceIsKept(partial, parsed.physical);
    TotalAdds(parsed.reports, dropped);
    EndIsEof(partial, parsed.physical);
    if turn.More? {
      LogicalIsKept(file, parsed.next, turn.partial);
      TotalAdds(parsed.reports + dropped, ParseLogical(file, parsed.next, true, turn.partial).reports);
    }
  }

  lemma EndIsEof(partial: Option<Bytes>, physical: Physical)
    ensures var turn := Assemble(partial, physical).0;
      (turn.Done? && turn.record.None? <==> physical.Eof?) && (physical.Eof? ==> Assemble(partial, physical).1 == [])
  {
  }

  /** Every byte of every fragment, and every byte that was skipped with a report, is in a record that
      was handed over, or reported, or of an unfinished record at the end: for any file at all. */
  lemma {:induction false} NothingIsLost(file: Bytes, p: nat)
    requires p <= |file|
    ensures var (records, reports) := ParseFrom(file, p, true);
      Offered(file, p) == Size(records) + Total(reports) + Unfinished(file, p, None)
    decreases |file| - p
  {
    hide ParsePhysical, ParseLogical, Offered, Unfinished;
    var l := ParseLogical(file, p, true, None);
    LogicalIsKept(file, p, None);
    if l.record.Some? {
      NothingIsLost(file, l.next);
      var rest := ParseFrom(file, l.next, true);
      TotalAdds(l.reports, rest.1);
      assert ([l.record.value] + rest.0)[1..] == rest.0;
    }
  }
}

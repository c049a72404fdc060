/** The log file format (db/log_format.h), what the writer puts in a file and how a whole file
    parses.  The crash-prefix theorem is here; the two classes are in log_writer.dfy and
    log_reader.dfy. */
module LogFormat {
  import opened InternalKey
  import opened Checksums
  import Coding
  import Crc32c

  const ZERO_TYPE := 0
  const FULL_TYPE := 1
  const FIRST_TYPE := 2
  const MIDDLE_TYPE := 3
  const LAST_TYPE := 4
  const MAX_RECORD_TYPE := LAST_TYPE

  const BLOCK_SIZE := 32768
  const HEADER_SIZE := 7

  // ----- Checksums -----

  /** The stored checksum covers the type and the payload. */
  function PayloadCrc(kind: Byte, payload: Bytes): bv32 {
    Crc32c.Checksum(0, Bits([kind] + payload))
  }

  /** The writer extends a checksum of the type alone. */
  lemma PayloadCrcExtends(kind: Byte, payload: Bytes)
    ensures Crc32c.Checksum(Crc32c.Checksum(0, Bits([kind])), Bits(payload)) == PayloadCrc(kind, payload)
  {
    BitsConcat([kind], payload);
    Crc32c.ExtendConcat(0, Bits([kind]), Bits(payload));
  }

  // ----- What the writer writes -----

  function Header(kind: Byte, payload: Bytes): (r: Bytes)
    requires |payload| < 0x1_0000
    ensures |r| == HEADER_SIZE
  {
    Stored(PayloadCrc(kind, payload)) + [|payload| % 256, |payload| / 256, kind]
  }

  function PhysicalRecord(kind: Byte, payload: Bytes): (r: Bytes)
    requires |payload| < 0x1_0000
    ensures |r| == HEADER_SIZE + |payload|
  {
    Header(kind, payload) + payload
  }

  function KindOf(begin: bool, end: bool): Byte {
    if begin && end then FULL_TYPE else if begin then FIRST_TYPE else if end then LAST_TYPE else MIDDLE_TYPE
  }

  function Zeros(n: nat): (r: Bytes)
    ensures |r| == n
  {
    seq(n, _ => 0)
  }

  /** Bytes of a block too few for a header. */
  function Trailer(offset: nat): nat
    requires offset < BLOCK_SIZE
  {
    if BLOCK_SIZE - offset < HEADER_SIZE then BLOCK_SIZE - offset else 0
  }

  /** Where the next header goes. */
  function HeaderAt(offset: nat): (r: nat)
    requires offset < BLOCK_SIZE
    ensures r + HEADER_SIZE <= BLOCK_SIZE
  {
    if BLOCK_SIZE - offset < HEADER_SIZE then 0 else offset
  }

  function FragmentLength(offset: nat, data: Bytes): (n: nat)
    requires offset < BLOCK_SIZE
    ensures n <= |data| && HeaderAt(offset) + HEADER_SIZE + n <= BLOCK_SIZE
    ensures n < |data| ==> HeaderAt(offset) + HEADER_SIZE + n == BLOCK_SIZE
  {
    var avail := BLOCK_SIZE - HeaderAt(offset) - HEADER_SIZE;
    if |data| < avail then |data| else avail
  }

  /** The fragments of `data`, for a file whose length is `offset` modulo the block size. */
  function Fragments(offset: nat, data: Bytes, begin: bool): (r: Bytes)
    requires offset < BLOCK_SIZE
    ensures |r| >= HEADER_SIZE
    decreases |data|, if BLOCK_SIZE - offset == HEADER_SIZE then 1 else 0
  {
    var n := FragmentLength(offset, data);
    var first := Zeros(Trailer(offset)) + PhysicalRecord(KindOf(begin, n == |data|), data[..n]);
    if n == |data| then first else first + Fragments(0, data[n..], false)
  }

  /** A log of whole records. */
  function LogFile(records: seq<Bytes>): Bytes {
    if records == [] then []
    else
      var before := LogFile(records[..|records| - 1]);
      before + Fragments(|before| % BLOCK_SIZE, records[|records| - 1], true)
  }

  // ----- How a file parses -----

  datatype Reason = BadRecordLength | ChecksumMismatch | PartialWithoutEnd1 | PartialWithoutEnd2
                  | MissingStart1 | MissingStart2 | ErrorInMiddle | UnknownType

  datatype Corruption = Corruption(bytes: nat, reason: Reason)

  datatype Physical = Eof | BadRecord | Fragment(kind: Byte, payload: Bytes)

  /** One physical record, where the next one starts and what was reported. */
  datatype Parsed = Parsed(physical: Physical, next: nat, reports: seq<Corruption>)

  function BlockStart(p: nat): nat {
    p - p % BLOCK_SIZE
  }

  /** The end of the block of `p`, or of the file. */
  function BlockEnd(file: Bytes, p: nat): (e: nat)
    requires p <= |file|
    ensures p <= e <= |file|
  {
    var e := BlockStart(p) + BLOCK_SIZE;
    if e <= |file| then e else |file|
  }

  /** The block of `p` is the short one at the end. */
  predicate IsLastBlock(file: Bytes, p: nat) {
    |file| < BlockStart(p) + BLOCK_SIZE
  }

  /** What `buffer`, the rest of a block, starts with; how much of it that takes. */
  function ParseHeader(buffer: Bytes, last: bool, checksum: bool): (r: Parsed)
    requires HEADER_SIZE <= |buffer|
    ensures 0 < r.next <= |buffer|
  {
    var length := (buffer[4] as int) + 256 * (buffer[5] as int);
    var kind := buffer[6];
    if HEADER_SIZE + length > |buffer| then
      if last then Parsed(Eof, |buffer|, [])
      else Parsed(BadRecord, |buffer|, [Corruption(|buffer|, BadRecordLength)])
    else if kind == ZERO_TYPE && length == 0 then Parsed(BadRecord, |buffer|, [])
    else
      var payload := buffer[HEADER_SIZE..HEADER_SIZE + length];
      if checksum && PayloadCrc(kind, payload) != UnmaskStored(Coding.DecodeFixed32(buffer[..4])) then
        Parsed(BadRecord, |buffer|, [Corruption(|buffer|, ChecksumMismatch)])
      else Parsed(Fragment(kind, payload), HEADER_SIZE + length, [])
  }

  function ParsePhysical(file: Bytes, p: nat, checksum: bool): (r: Parsed)
    requires p <= |file|
    ensures p <= r.next <= |file|
    ensures !r.physical.Eof? ==> p < r.next
    decreases |file| - p
  {
    var e := BlockEnd(file, p);
    if e - p >= HEADER_SIZE then
      var parsed := ParseHeader(file[p..e], IsLastBlock(file, p), checksum);
      parsed.(next := p + parsed.next)
    else if IsLastBlock(file, p) then Parsed(Eof, |file|, [])
    else ParsePhysical(file, e, checksum)
  }

  /** A logical record, or the end of the log. */
  datatype Logical = Logical(record: Option<Bytes>, next: nat, reports: seq<Corruption>)

  function Reporting(reports: seq<Corruption>, l: Logical): Logical {
    l.(reports := reports + l.reports)
  }

  /** What one physical record does to a record that is being reassembled. */
  datatype Turn = Done(record: Option<Bytes>) | More(partial: Option<Bytes>)

  function Assemble(partial: Option<Bytes>, physical: Physical): (Turn, seq<Corruption>) {
    var size := |Sofar(partial)|;
    match physical
    case Eof => (Done(None), [])
    case BadRecord => (More(None), if partial.Some? then [Corruption(size, ErrorInMiddle)] else [])
    case Fragment(kind, payload) =>
      if kind == FULL_TYPE then (Done(Some(payload)), if size > 0 then [Corruption(size, PartialWithoutEnd1)] else [])
      else if kind == FIRST_TYPE then
        (More(Some(payload)), if size > 0 then [Corruption(size, PartialWithoutEnd2)] else [])
      else if kind == MIDDLE_TYPE then
        if partial.None? then (More(None), [Corruption(|payload|, MissingStart1)])
        else (More(Some(partial.value + payload)), [])
      else if kind == LAST_TYPE then
        if partial.None? then (More(None), [Corruption(|payload|, MissingStart2)])
        else (Done(Some(partial.value + payload)), [])
      else (More(None), [Corruption(|payload| + size, UnknownType)])
  }

  function Sofar(partial: Option<Bytes>): Bytes {
    if partial.Some? then partial.value else []
  }

  /** Reassembly, with what of a fragmented record has been seen. */
  function ParseLogical(file: Bytes, p: nat, checksum: bool, partial: Option<Bytes>): (r: Logical)
    requires p <= |file|
    ensures p <= r.next <= |file|
    ensures r.record.Some? ==> p < r.next
    decreases |file| - p
  {
    var parsed := ParsePhysical(file, p, checksum);
    var (turn, dropped) := Assemble(partial, parsed.physical);
    match turn
    case Done(record) => Logical(record, parsed.next, parsed.reports + dropped)
    case More(partial') => Reporting(parsed.reports + dropped, ParseLogical(file, parsed.next, checksum, partial'))
  }

  /** Every record from `p` on, and every corruption reported. */
  function ParseFrom(file: Bytes, p: nat, checksum: bool): (seq<Bytes>, seq<Corruption>)
    requires p <= |file|
    decreases |file| - p
  {
    var l := ParseLogical(file, p, checksum, None);
    if l.record.None? then ([], l.reports)
    else
      var rest := ParseFrom(file, l.next, checksum);
      ([l.record.value] + rest.0, l.reports + rest.1)
  }

  // ----- Parsing what was written -----

  /** What the file holds from `p` on, as far as it reaches, is `w`. */
  ghost predicate Carries(file: Bytes, p: nat, w: Bytes)
    requires p <= |file|
  {
    forall i :: 0 <= i < |w| && p + i < |file| ==> file[p + i] == w[i]
  }

  lemma CarriesPart(file: Bytes, p: nat, a: Bytes, b: Bytes)
    requires p <= |file| && Carries(file, p, a + b)
    ensures Carries(file, p, a)
    ensures p + |a| <= |file| ==> Carries(file, p + |a|, b)
  {
    forall i | 0 <= i < |a| && p + i < |file| ensures file[p + i] == a[i] {
      assert (a + b)[i] == a[i];
    }
    if p + |a| <= |file| {
      forall i | 0 <= i < |b| && p + |a| + i < |file| ensures file[p + |a| + i] == b[i] {
        assert (a + b)[|a| + i] == b[i];
      }
    }
  }

  lemma HeaderFields(kind: Byte, payload: Bytes)
    requires |payload| < 0x1_0000
    ensures var h := Header(kind, payload);
      && (h[4] as int) + 256 * (h[5] as int) == |payload| && h[6] == kind
      && UnmaskStored(Coding.DecodeFixed32(h[..4])) == PayloadCrc(kind, payload)
  {
    hide PayloadCrc, Stored, UnmaskStored, Coding.DecodeFixed32;
    StoredRoundTrip(PayloadCrc(kind, payload), []);
    assert Header(kind, payload)[..4] == Stored(PayloadCrc(kind, payload)) + [];
  }

  /** At a header that was written: the fragment, or the end of the file if it was cut. */
  lemma ParseWrittenHeader(file: Bytes, p: nat, checksum: bool, kind: Byte, payload: Bytes)
    requires p <= |file| && p % BLOCK_SIZE + HEADER_SIZE + |payload| <= BLOCK_SIZE
    requires Carries(file, p, PhysicalRecord(kind, payload)) && kind != ZERO_TYPE
    ensures ParsePhysical(file, p, checksum)
         == if p + HEADER_SIZE + |payload| <= |file| then Parsed(Fragment(kind, payload), p + HEADER_SIZE + |payload|, [])
            else Parsed(Eof, |file|, [])
  {
    hide Header, PayloadCrc, UnmaskStored, Coding.DecodeFixed32;
    var h := Header(kind, payload);
    CarriesPart(file, p, h, payload);
    HeaderFields(kind, payload);
    if p + HEADER_SIZE <= |file| {
      var buffer := file[p..BlockEnd(file, p)];
      assert buffer[4] == h[4] && buffer[5] == h[5] && buffer[6] == h[6];
      assert buffer[..4] == h[..4];
      if p + HEADER_SIZE + |payload| <= |file| {
        assert buffer[HEADER_SIZE..HEADER_SIZE + |payload|] == payload;
      }
    }
  }

  /** The same, past the trailer of the block before. */
  lemma ParseWritten(file: Bytes, p: nat, checksum: bool, kind: Byte, payload: Bytes)
    requires p <= |file| && HeaderAt(p % BLOCK_SIZE) + HEADER_SIZE + |payload| <= BLOCK_SIZE
    requires Carries(file, p, Zeros(Trailer(p % BLOCK_SIZE)) + PhysicalRecord(kind, payload)) && kind != ZERO_TYPE
    ensures var end := p + Trailer(p % BLOCK_SIZE) + HEADER_SIZE + |payload|;
      ParsePhysical(file, p, checksum)
         == if end <= |file| then Parsed(Fragment(kind, payload), end, []) else Parsed(Eof, |file|, [])
  {
    hide ParseHeader, PhysicalRecord, Carries;
    var t := Trailer(p % BLOCK_SIZE);
    CarriesPart(file, p, Zeros(t), PhysicalRecord(kind, payload));
    if t == 0 {
      ParseWrittenHeader(file, p, checksum, kind, payload);
    } else if p + t <= |file| {
      assert (p + t) % BLOCK_SIZE == 0;
      ParseWrittenHeader(file, p + t, checksum, kind, payload);
    }
  }

  lemma ParseInnerFragment(file: Bytes, p: nat, checksum: bool, partial: Option<Bytes>, payload: Bytes, q: nat)
    requires p <= |file|
    requires ParsePhysical(file, p, checksum) == Parsed(Fragment(KindOf(partial.None?, false), payload), q, [])
    ensures ParseLogical(file, p, checksum, partial) == ParseLogical(file, q, checksum, Some(Sofar(partial) + payload))
  {
    hide ParsePhysical;
    var none: seq<Corruption> := [];
    var rest := ParseLogical(file, q, checksum, Some(Sofar(partial) + payload));
    assert partial.None? ==> Sofar(partial) + payload == payload;
    assert none + none == none && none + rest.reports == rest.reports;
    assert Reporting(none, rest) == rest;
  }

  lemma ParseFinalFragment(file: Bytes, p: nat, checksum: bool, partial: Option<Bytes>, payload: Bytes, q: nat)
    requires p <= |file|
    requires ParsePhysical(file, p, checksum) == Parsed(Fragment(KindOf(partial.None?, true), payload), q, [])
    ensures ParseLogical(file, p, checksum, partial) == Logical(Some(Sofar(partial) + payload), q, [])
  {
    hide ParsePhysical;
    assert partial.None? ==> Sofar(partial) + payload == payload;
  }

  lemma ParseLastPiece(file: Bytes, p: nat, checksum: bool, data: Bytes, partial: Option<Bytes>)
    requires p <= |file| && Carries(file, p, Fragments(p % BLOCK_SIZE, data, partial.None?))
    requires FragmentLength(p % BLOCK_SIZE, data) == |data|
    ensures var end := p + |Fragments(p % BLOCK_SIZE, data, partial.None?)|;
      ParseLogical(file, p, checksum, partial)
         == if end <= |file| then Logical(Some(Sofar(partial) + data), end, []) else Logical(None, |file|, [])
  {
    hide ParsePhysical, ParseLogical, PhysicalRecord, Carries, Trailer, FragmentLength, HeaderAt;
    var kind := KindOf(partial.None?, true);
    assert data[..|data|] == data;
    var first := Zeros(Trailer(p % BLOCK_SIZE)) + PhysicalRecord(kind, data);
    assert Fragments(p % BLOCK_SIZE, data, partial.None?) == first;
    ParseWritten(file, p, checksum, kind, data);
    if p + |first| <= |file| {
      ParseFinalFragment(file, p, checksum, partial, data, p + |first|);
    } else {
      ParseCut(file, p, checksum, partial);
    }
  }

  /** The fragments of one record reassemble to it; a record that was cut is dropped silently. */
  lemma {:induction false} ParseRecord(file: Bytes, p: nat, checksum: bool, data: Bytes, partial: Option<Bytes>)
    requires p <= |file| && Carries(file, p, Fragments(p % BLOCK_SIZE, data, partial.None?))
    ensures var end := p + |Fragments(p % BLOCK_SIZE, data, partial.None?)|;
      ParseLogical(file, p, checksum, partial)
         == if end <= |file| then Logical(Some(Sofar(partial) + data), end, []) else Logical(None, |file|, [])
    decreases |data|, if BLOCK_SIZE - p % BLOCK_SIZE == HEADER_SIZE then 1 else 0
  {
    hide ParsePhysical, ParseLogical, PhysicalRecord, Carries, Trailer, KindOf;
    var offset := p % BLOCK_SIZE;
    var n := FragmentLength(offset, data);
    if n == |data| {
      ParseLastPiece(file, p, checksum, data, partial);
    } else {
      var kind := KindOf(partial.None?, false);
      var first := Zeros(Trailer(offset)) + PhysicalRecord(kind, data[..n]);
      var rest := Fragments(0, data[n..], false);
      assert Fragments(offset, data, partial.None?) == first + rest;
      CarriesPart(file, p, first, rest);
      assert kind != ZERO_TYPE by { InnerKind(partial.None?); }
      ParseWritten(file, p, checksum, kind, data[..n]);
      var q := p + |first|;
      if q <= |file| {
        EndOfBlock(p, n);
        ParseInnerFragment(file, p, checksum, partial, data[..n], q);
        ParseRecord(file, q, checksum, data[n..], Some(Sofar(partial) + data[..n]));
        assert Sofar(partial) + data[..n] + data[n..] == Sofar(partial) + data;
      } else {
        ParseCut(file, p, checksum, partial);
      }
    }
  }

  lemma SameOffset(a: nat, b: nat, n: nat)
    requires a % BLOCK_SIZE == b % BLOCK_SIZE
    ensures (a + n) % BLOCK_SIZE == (b + n) % BLOCK_SIZE
  {
  }

  lemma InnerKind(begin: bool)
    ensures KindOf(begin, false) != ZERO_TYPE
  {
  }

  lemma ParseCut(file: Bytes, p: nat, checksum: bool, partial: Option<Bytes>)
    requires p <= |file| && ParsePhysical(file, p, checksum) == Parsed(Eof, |file|, [])
    ensures ParseLogical(file, p, checksum, partial) == Logical(None, |file|, [])
  {
  }

  lemma EndOfBlock(p: nat, n: nat)
    requires HeaderAt(p % BLOCK_SIZE) + HEADER_SIZE + n == BLOCK_SIZE
    ensures (p + Trailer(p % BLOCK_SIZE) + HEADER_SIZE + n) % BLOCK_SIZE == 0
  {
  }

  // ----- The log as a whole -----

  lemma LogFileGrows(records: seq<Bytes>, i: nat)
    requires i < |records|
    ensures var before := LogFile(records[..i]);
      LogFile(records[..i + 1]) == before + Fragments(|before| % BLOCK_SIZE, records[i], true)
  {
    hide Fragments;
    assert records[..i + 1][..i] == records[..i];
  }

  lemma {:induction false} LogFilePrefix(records: seq<Bytes>, i: nat, j: nat)
    requires i <= j <= |records|
    ensures LogFile(records[..i]) <= LogFile(records[..j])
    decreases j
  {
    hide LogFile, Fragments;
    if i < j {
      LogFilePrefix(records, i, j - 1);
      LogFileGrows(records, j - 1);
    }
  }

  /** How many records lie wholly in the first `k` bytes of the log. */
  function WholeRecords(records: seq<Bytes>, k: nat): (n: nat)
    ensures n <= |records|
  {
    if records == [] || |LogFile(records)| <= k then |records|
    else WholeRecords(records[..|records| - 1], k)
  }

  /** The count of whole records is right: the next one is cut. */
  lemma {:induction false} WholeRecordsSpan(records: seq<Bytes>, k: nat)
    ensures var n := WholeRecords(records, k);
      && |LogFile(records[..n])| <= k
      && (n < |records| ==> k < |LogFile(records[..n + 1])|)
  {
    hide Fragments;
    assert records[..|records|] == records;
    if records != [] && |LogFile(records)| > k {
      var before := records[..|records| - 1];
      WholeRecordsSpan(before, k);
      var n := WholeRecords(before, k);
      assert before[..n] == records[..n];
      if n < |before| {
        assert before[..n + 1] == records[..n + 1];
      }
    }
  }

  lemma PrefixCarries(file: Bytes, k: nat, a: Bytes, b: Bytes)
    requires |a| <= k <= |file| && a + b <= file
    ensures Carries(file[..k], |a|, b)
  {
    forall i | 0 <= i < |b| && |a| + i < k ensures file[..k][|a| + i] == b[i] {
      assert (a + b)[|a| + i] == b[i];
    }
  }

  lemma ParseNext(records: seq<Bytes>, k: nat, checksum: bool, i: nat)
    requires k <= |LogFile(records)| && i < |records| && |LogFile(records[..i])| <= k
    ensures var end := |LogFile(records[..i + 1])|;
      ParseLogical(LogFile(records)[..k], |LogFile(records[..i])|, checksum, None)
         == if end <= k then Logical(Some(records[i]), end, []) else Logical(None, k, [])
  {
    hide Fragments, ParseLogical, Carries, LogFile;
    var file := LogFile(records);
    var before := LogFile(records[..i]);
    LogFileGrows(records, i);
    LogFilePrefix(records, i + 1, |records|);
    assert records[..|records|] == records;
    PrefixCarries(file, k, before, Fragments(|before| % BLOCK_SIZE, records[i], true));
    ParseRecord(file[..k], |before|, checksum, records[i], None);
    assert [] + records[i] == records[i];
  }

  lemma {:induction false} ParseRest(records: seq<Bytes>, k: nat, checksum: bool, i: nat, n: nat)
    requires k <= |LogFile(records)| && i <= n <= |records| && |LogFile(records[..n])| <= k
    requires n < |records| ==> k < |LogFile(records[..n + 1])|
    ensures |LogFile(records[..i])| <= k
    ensures ParseFrom(LogFile(records)[..k], |LogFile(records[..i])|, checksum) == (records[i..n], [])
    decreases n - i
  {
    hide ParseLogical, LogFile;
    var file := LogFile(records)[..k];
    LogFilePrefix(records, i, n);
    if i < n {
      LogFilePrefix(records, i + 1, n);
      ParseNext(records, k, checksum, i);
      ParseRest(records, k, checksum, i + 1, n);
      assert records[i..n] == [records[i]] + records[i + 1..n];
      var none: seq<Corruption> := [];
      assert none + none == none;
    } else if n < |records| {
      ParseNext(records, k, checksum, i);
      assert records[i..n] == [];
    } else {
      assert records[..n] == records && records[i..n] == [];
      ParseAtEnd(file, checksum);
    }
  }

  lemma ParseAtEnd(file: Bytes, checksum: bool)
    ensures ParseFrom(file, |file|, checksum) == ([], [])
  {
  }

  /** The crash-prefix theorem: from any prefix of a log, exactly the records that lie wholly
      in it come back, in order, and nothing is reported. */
  lemma CrashPrefix(records: seq<Bytes>, k: nat, checksum: bool)
    requires k <= |LogFile(records)|
    ensures ParseFrom(LogFile(records)[..k], 0, checksum) == (records[..WholeRecords(records, k)], [])
  {
    hide ParseFrom, Fragments, WholeRecords;
    WholeRecordsSpan(records, k);
    ParseRest(records, k, checksum, 0, WholeRecords(records, k));
    assert records[..0] == [];
  }

  /** What was logged is read back. */
  lemma RoundTrip(records: seq<Bytes>, checksum: bool)
    ensures ParseFrom(LogFile(records), 0, checksum) == (records, [])
  {
    hide ParseFrom, LogFile;
    var file := LogFile(records);
    CrashPrefix(records, |file|, checksum);
    assert file[..|file|] == file && records[..|records|] == records;
  }
}

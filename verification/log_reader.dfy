/** The log reader (db/log_reader.cc), from the start of a file. */
module LogReader {
  import opened InternalKey
  import opened Checksums
  import opened LogFormat
  import Coding
  import Crc32c

  class Reader {
    const file: Bytes
    const checksum: bool
    var position: nat  // of the next read of the file
    var buffer: Bytes
    var eof: bool
    var reports: seq<Corruption>

    /** The buffer is what is left of the block that was read last. */
    ghost predicate Valid()
      reads `position, `buffer, `eof
    {
      && |buffer| <= position <= |file| && buffer == file[position - |buffer|..position]
      && (eof ==> position == |file|)
      && (!eof ==> position % BLOCK_SIZE == 0)
      && (|buffer| > 0 ==> position == BlockEnd(file, position - |buffer|))
      && (|buffer| > 0 ==> eof == IsLastBlock(file, position - |buffer|))
      && (eof ==> IsLastBlock(file, position - |buffer|))
    }

    /** Where the next physical record starts. */
    ghost function At(): (p: nat)
      requires Valid()
      reads `position, `buffer, `eof
      ensures p <= |file|
    {
      position - |buffer|
    }

    constructor (file: Bytes, checksum: bool)
      ensures Valid() && At() == 0 && reports == [] && this.file == file && this.checksum == checksum
    {
      this.file := file;
      this.checksum := checksum;
      position, buffer, eof, reports := 0, [], false, [];
      new;
      assert file[0..0] == [];
      assert 0 % BLOCK_SIZE == 0;
    }

    method ReportCorruption(bytes: nat, reason: Reason)
      modifies `reports
      ensures reports == old(reports) + [Corruption(bytes, reason)]
    {
      reports := reports + [Corruption(bytes, reason)];
    }

    /** What is left of a block is skipped. */
    method Clear()
      requires Valid()
      modifies `buffer
      ensures Valid() && At() == position
    {
      buffer := [];
    }

    method RemovePrefix(n: nat)
      requires Valid() && 0 < n <= |buffer|
      modifies `buffer
      ensures Valid() && At() == old(At()) + n
    {
      buffer := buffer[n..];
    }

    method ReadBlock()
      requires Valid() && !eof && |buffer| < HEADER_SIZE
      modifies `buffer, `position, `eof
      ensures Valid() && At() == old(position)
      ensures position == BlockEnd(file, At()) && eof == IsLastBlock(file, At())
    {
      var n := if |file| - position < BLOCK_SIZE then |file| - position else BLOCK_SIZE;
      buffer := file[position..position + n];
      position := position + n;
      eof := n < BLOCK_SIZE;
    }

    /** Reads blocks until a header fits, or the file ends. */
    method Fill() returns (ok: bool)
      requires Valid()
      modifies `buffer, `position, `eof
      ensures Valid()
      ensures ParsePhysical(file, old(At()), checksum)
           == if ok then ParsePhysical(file, At(), checksum) else Parsed(Eof, At(), [])
      ensures ok ==> |buffer| >= HEADER_SIZE
    {
      hide ParseHeader;
      while |buffer| < HEADER_SIZE
        invariant Valid()
        invariant ParsePhysical(file, At(), checksum) == ParsePhysical(file, old(At()), checksum)
        decreases !eof, |file| - position
      {
        if eof {
          buffer := [];
          return false;
        }
        ReadBlock();
      }
      return true;
    }

    /** The header that the buffer starts with. */
    method ReadHeader() returns (r: Physical)
      requires Valid() && |buffer| >= HEADER_SIZE
      modifies `buffer, `reports
      ensures Valid()
      ensures var parsed := ParseHeader(old(buffer), eof, checksum);
        r == parsed.physical && At() == old(At()) + parsed.next && reports == old(reports) + parsed.reports
    {
      hide UnmaskStored, Coding.DecodeFixed32, Valid, PayloadCrc;
      var length := (buffer[4] as int) + 256 * (buffer[5] as int);
      var kind := buffer[6];
      if HEADER_SIZE + length > |buffer| {
        var dropSize := |buffer|;
        Clear();
        if !eof {
          ReportCorruption(dropSize, BadRecordLength);
          return BadRecord;
        }
        return Eof;
      }
      if kind == ZERO_TYPE && length == 0 {
        Clear();
        return BadRecord;
      }
      var payload := buffer[HEADER_SIZE..HEADER_SIZE + length];
      if checksum {
        var right := ChecksumIsRight(buffer, kind, payload);
        if !right {
          var dropSize := |buffer|;
          Clear();
          ReportCorruption(dropSize, ChecksumMismatch);
          return BadRecord;
        }
      }
      RemovePrefix(HEADER_SIZE + length);
      return Fragment(kind, payload);
    }

    method ReadPhysicalRecord() returns (r: Physical)
      requires Valid()
      modifies `buffer, `position, `eof, `reports
      ensures Valid()
      ensures var parsed := ParsePhysical(file, old(At()), checksum);
        r == parsed.physical && At() == parsed.next && reports == old(reports) + parsed.reports
    {
      hide ParseHeader;
      var ok := Fill();
      if !ok {
        return Eof;
      }
      r := ReadHeader();
    }

    /** The next logical record, if there is one. */
    method ReadRecord() returns (record: Option<Bytes>)
      requires Valid()
      modifies `buffer, `position, `eof, `reports
      ensures Valid()
      ensures var l := ParseLogical(file, old(At()), checksum, None);
        record == l.record && At() == l.next && reports == old(reports) + l.reports
    {
      hide ParsePhysical, ParseLogical, Valid;
      var scratch: Bytes := [];
      var inFragmentedRecord := false;
      ghost var partial: Option<Bytes> := None;
      ReportingNone(ParseLogical(file, At(), checksum, None), reports);
      while true
        invariant Valid()
        invariant partial == (if inFragmentedRecord then Some(scratch) else None)
        invariant !inFragmentedRecord ==> scratch == []
        invariant Reporting(old(reports), ParseLogical(file, old(At()), checksum, None))
               == Reporting(reports, ParseLogical(file, At(), checksum, partial))
        decreases |file| - At()
      {
        LogicalStep(file, At(), checksum, partial, reports);
        var fragment := ReadPhysicalRecord();
        assert reports + [] == reports;
        match fragment {
        case Eof =>
          scratch := [];
          return None;
        case BadRecord =>
          if inFragmentedRecord {
            ReportCorruption(|scratch|, ErrorInMiddle);
            inFragmentedRecord := false;
            scratch := [];
          }
        case Fragment(kind, payload) =>
          if kind == FULL_TYPE {
            if inFragmentedRecord && scratch != [] {
              ReportCorruption(|scratch|, PartialWithoutEnd1);
            }
            return Some(payload);
          } else if kind == FIRST_TYPE {
            if inFragmentedRecord && scratch != [] {
              ReportCorruption(|scratch|, PartialWithoutEnd2);
            }
            scratch := payload;
            inFragmentedRecord := true;
          } else if kind == MIDDLE_TYPE {
            if !inFragmentedRecord {
              ReportCorruption(|payload|, MissingStart1);
            } else {
              scratch := scratch + payload;
            }
          } else if kind == LAST_TYPE {
            if !inFragmentedRecord {
              ReportCorruption(|payload|, MissingStart2);
            } else {
              return Some(scratch + payload);
            }
          } else {
            ReportCorruption(|payload| + if inFragmentedRecord then |scratch| else 0, UnknownType);
            inFragmentedRecord := false;
            scratch := [];
          }
        }
        partial := if inFragmentedRecord then Some(scratch) else None;
      }
    }

    /** Every record of the log, as recovery reads them. */
    method ReadAll() returns (records: seq<Bytes>)
      requires Valid()
      modifies `buffer, `position, `eof, `reports
      ensures Valid()
      ensures var all := ParseFrom(file, old(At()), checksum);
        records == all.0 && reports == old(reports) + all.1
    {
      hide ParseLogical, Valid, ParseFrom, Later;
      records := [];
      ghost var all := ParseFrom(file, At(), checksum);
      ghost var from: nat := At();
      FromNext(file, from, checksum);
      ghost var l := ParseLogical(file, from, checksum, None);
      Regroup(reports, l.reports, Later(file, from, checksum));
      var record := ReadRecord();
      assert records + ParseFrom(file, from, checksum).0 == all.0;
      while record.Some?
        invariant Valid()
        invariant 0 <= from <= |file| && var l := ParseLogical(file, from, checksum, None);
          record == l.record && At() == l.next
        invariant records + ParseFrom(file, from, checksum).0 == all.0
        invariant reports + Later(file, from, checksum) == old(reports) + all.1
        decreases |file| - At(), record.Some?
      {
        FromNext(file, from, checksum);
        from := At();
        Regroup(records, [record.value], ParseFrom(file, from, checksum).0);
        records := records + [record.value];
        FromNext(file, from, checksum);
        Regroup(reports, ParseLogical(file, from, checksum, None).reports, Later(file, from, checksum));
        record := ReadRecord();
      }
      FromNext(file, from, checksum);
      assert reports + [] == reports && records + [] == records;
    }
  }

  /** The checksum of the type and the payload, which follow each other in the buffer. */
  method ChecksumIsRight(buffer: Bytes, kind: Byte, payload: Bytes) returns (right: bool)
    requires |buffer| >= HEADER_SIZE + |payload| && buffer[6] == kind && buffer[HEADER_SIZE..HEADER_SIZE + |payload|] == payload
    ensures right == (PayloadCrc(kind, payload) == UnmaskStored(Coding.DecodeFixed32(buffer[..4])))
  {
    hide UnmaskStored, Coding.DecodeFixed32, Crc32c.Checksum;
    var address: nat := *;
    var actual := Crc32c.Extend(0, Bits(buffer[6..HEADER_SIZE + |payload|]), address);
    assert buffer[6..HEADER_SIZE + |payload|] == [kind] + payload;
    right := actual == UnmaskStored(Coding.DecodeFixed32(buffer[..4]));
  }

  lemma LogicalStep(file: Bytes, p: nat, checksum: bool, partial: Option<Bytes>, before: seq<Corruption>)
    requires p <= |file|
    ensures var parsed := ParsePhysical(file, p, checksum);
      var (turn, dropped) := Assemble(partial, parsed.physical);
      Reporting(before, ParseLogical(file, p, checksum, partial))
        == match turn
           case Done(record) => Logical(record, parsed.next, before + parsed.reports + dropped)
           case More(partial') =>
             Reporting(before + parsed.reports + dropped, ParseLogical(file, parsed.next, checksum, partial'))
  {
    hide ParsePhysical, Assemble;
    var parsed := ParsePhysical(file, p, checksum);
    var (turn, dropped) := Assemble(partial, parsed.physical);
    if turn.More? {
      var rest := ParseLogical(file, parsed.next, checksum, turn.partial);
      assert before + (parsed.reports + dropped + rest.reports) == before + parsed.reports + dropped + rest.reports;
    } else {
      assert before + (parsed.reports + dropped) == before + parsed.reports + dropped;
    }
  }

  lemma Regroup<T>(a: seq<T>, b: seq<T>, c: seq<T>)
    ensures a + (b + c) == a + b + c
  {
  }

  /** What is reported after the record at `p`. */
  function Later(file: Bytes, p: nat, checksum: bool): seq<Corruption>
    requires p <= |file|
  {
    var l := ParseLogical(file, p, checksum, None);
    if l.record.Some? then ParseFrom(file, l.next, checksum).1 else []
  }

  lemma FromNext(file: Bytes, p: nat, checksum: bool)
    requires p <= |file|
    ensures ParseFrom(file, p, checksum).1 == ParseLogical(file, p, checksum, None).reports + Later(file, p, checksum)
    ensures var l := ParseLogical(file, p, checksum, None);
      ParseFrom(file, p, checksum).0
        == (if l.record.Some? then [l.record.value] + ParseFrom(file, l.next, checksum).0 else [])
      && Later(file, p, checksum) == if l.record.Some? then ParseFrom(file, l.next, checksum).1 else []
  {
    hide ParseLogical;
  }

  lemma ReportingNone(l: Logical, reports: seq<Corruption>)
    ensures Reporting([], l) == l
  {
    assert [] + l.reports == l.reports;
  }
}

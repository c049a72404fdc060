/** Bytes that are on disk and may not change: what the formats come to, byte by byte, for values
    that show every tag, type and constant. */
module KnownBytes {
  import opened InternalKey
  import opened Coding
  import opened BlockFormat
  import opened WriteBatches
  import VersionEdits
  import TableFormat
  import FilterBlock
  import LogReplay
  import LogWire
  import TableBuilders
  import Checksums
  import Crc32c

  lemma SmallVarint(v: nat)
    requires v < 128
    ensures Varint(v) == [v]
  {
  }

  lemma SmallPrefixed(s: Bytes)
    requires |s| < 128
    ensures LengthPrefixed(s) == [|s|] + s
  {
    SmallVarint(|s|);
  }

  /** Eight bytes of a number below 256. */
  lemma SmallFixed(v: nat)
    requires v < 256
    ensures EncodeFixed64(v) == [v, 0, 0, 0, 0, 0, 0, 0] && EncodeFixed32(v) == [v, 0, 0, 0]
  {
    Zeros();
    assert Fixed(v, 4) == [v] + Fixed(0, 3) && Fixed(v, 8) == [v] + Fixed(0, 7);
  }

  lemma Zeros()
    ensures Fixed(0, 3) == [0, 0, 0] && Fixed(0, 7) == [0, 0, 0, 0, 0, 0, 0]
  {
    assert Fixed(0, 1) == [0] + Fixed(0, 0);
    assert Fixed(0, 2) == [0] + Fixed(0, 1);
    assert Fixed(0, 3) == [0] + Fixed(0, 2);
    assert Fixed(0, 4) == [0] + Fixed(0, 3);
    assert Fixed(0, 5) == [0] + Fixed(0, 4);
    assert Fixed(0, 6) == [0] + Fixed(0, 5);
  }

  /** An internal key: the user key, one byte for the kind, and seven for the sequence number. */
  lemma KeyLayout(sequence: nat, op: Op)
    ensures var k := LogReplay.EntryOf(op, sequence).key;
      && |k| == |op.key| + 8 && k[..|op.key|] == op.key && k[|op.key|] == (if op.Put? then 1 else 0)
      && forall i :: 0 <= i < 7 ==> (k[|op.key| + 1 + i] as int) == ByteOf(sequence, i)
  {
    var tag := sequence * 256 + LogReplay.KindOf(op);
    var k := LogReplay.EntryOf(op, sequence).key;
    assert k == op.key + Fixed(tag, 8) && Fixed(tag, 8) == [tag % 256] + Fixed(tag / 256, 7) && tag / 256 == sequence;
    forall i | 0 <= i < 7
      ensures (k[|op.key| + 1 + i] as int) == ByteOf(sequence, i)
    {
      FixedByte(sequence, 7, i);
    }
  }

  /** A batch: eight bytes for the sequence number, four for the count, and then each operation with
      its type in front. */
  lemma BatchLayout(sequence: nat, a: Bytes, b: Bytes, c: Bytes)
    ensures BatchBytes(sequence, [Put(a, b), Delete(c)])
         == EncodeFixed64(sequence) + [2, 0, 0, 0] + ([1] + LengthPrefixed(a) + LengthPrefixed(b)) + ([0] + LengthPrefixed(c))
  {
    hide LengthPrefixed, EncodeFixed64;
    SmallFixed(2);
    var ops := [Put(a, b), Delete(c)];
    assert ops[1..] == [Delete(c)] && [Delete(c)][1..] == [];
    assert OpsBytes([Delete(c)]) == OpBytes(Delete(c)) + OpsBytes([]);
    assert OpsBytes(ops) == OpBytes(Put(a, b)) + OpsBytes([Delete(c)]);
  }

  /** A field of an edit: comparator 1, log number 2, previous log number 9, next file 3, last
      sequence 4, compaction pointer 5, deleted file 6, new file 7, and then what it says. */
  lemma FieldLayout(f: VersionEdits.Field)
    ensures VersionEdits.EncodeField(f) ==
      match f
      case Comparator(name) => [1] + LengthPrefixed(name)
      case LogNumber(number) => [2] + Varint(number)
      case PrevLogNumber(number) => [9] + Varint(number)
      case NextFileNumber(number) => [3] + Varint(number)
      case LastSequence(number) => [4] + Varint(number)
      case CompactPointer(level, key) => [5] + (Varint(level) + LengthPrefixed(key))
      case DeletedFile(level, number) => [6] + (Varint(level) + Varint(number))
      case NewFile(level, file) =>
        [7] + (Varint(level) + (Varint(file.number) + (Varint(file.fileSize)
               + (LengthPrefixed(file.smallest) + LengthPrefixed(file.largest)))))
  {
    hide Varint, LengthPrefixed;
    SmallVarint(VersionEdits.TagOf(f));
  }

  /** All fields of an edit, in their order. */
  lemma FieldOrder(name: Bytes, log: nat, prev: nat, next: nat, last: nat, level: nat, key: Bytes, number: nat,
                   file: VersionEdits.FileMeta)
    ensures VersionEdits.Fields(VersionEdits.VersionEdit(Some(name), Some(log), Some(prev), Some(next), Some(last),
                                                         [(level, key)], [(level, number)], [(level, file)]))
         == [VersionEdits.Comparator(name), VersionEdits.LogNumber(log), VersionEdits.PrevLogNumber(prev),
             VersionEdits.NextFileNumber(next), VersionEdits.LastSequence(last), VersionEdits.CompactPointer(level, key),
             VersionEdits.DeletedFile(level, number), VersionEdits.NewFile(level, file)]
  {
  }

  /** Entries: the lengths shared, not shared and of the value, the rest of the key, the value. */
  lemma EntryLayout()
    ensures EntryBytes(0, KeyValue([97, 98], [120])) == [0, 2, 1, 97, 98, 120]
    ensures EntryBytes(1, KeyValue([97, 99], [121])) == [1, 1, 1, 99, 121]
    ensures Common([97, 98], [97, 99]) == 1
  {
    hide Varint;
    SmallVarint(0);
    SmallVarint(1);
    SmallVarint(2);
  }

  lemma RestartLayout()
    ensures Fixed32s([0]) + EncodeFixed32(1) == [0, 0, 0, 0, 1, 0, 0, 0]
    ensures RestartIndexes(16, 2) == [0]
  {
    hide EncodeFixed32;
    SmallFixed(0);
    SmallFixed(1);
    assert [0][..0] == [] && Fixed32s([]) == [];
    assert RestartIndexes(16, 1) == [0];
  }

  /** A block of two entries that share a byte; at its end the restart points and their number. */
  lemma BlockLayout()
    ensures BlockBytes([KeyValue([97, 98], [120]), KeyValue([97, 99], [121])], 16)
         == [0, 2, 1, 97, 98, 120, 1, 1, 1, 99, 121, 0, 0, 0, 0, 1, 0, 0, 0]
  {
    hide EncodeFixed32, Fixed32s, EntryBytes, Common, RestartIndexes;
    var entries := [KeyValue([97, 98], [120]), KeyValue([97, 99], [121])];
    EntryLayout();
    RestartLayout();
    assert Data(entries, 16, 1) == Data(entries, 16, 0) + EntryBytes(Shared(entries, 16, 0), entries[0]);
    assert Data(entries, 16, 2) == Data(entries, 16, 1) + EntryBytes(Shared(entries, 16, 1), entries[1]);
    assert Data(entries, 16, 2) == [0, 2, 1, 97, 98, 120, 1, 1, 1, 99, 121];
    assert Restarts(entries, 16, 2) == [0];
    assert BlockBytes(entries, 16) == Data(entries, 16, 2) + (Fixed32s([0]) + EncodeFixed32(1));
  }

  /** The end of a table: the handles of the metaindex and the index, zeros up to 40 bytes, and the
      magic number. */
  lemma FooterLayout()
    ensures TableFormat.Footer(TableFormat.BlockHandle(1, 2), TableFormat.BlockHandle(3, 4))
         == [1, 2, 3, 4] + seq(36, _ => 0) + [0x57, 0xfb, 0x80, 0x8b, 0x24, 0x75, 0x47, 0xdb]
  {
    SmallVarint(1);
    SmallVarint(2);
    SmallVarint(3);
    SmallVarint(4);
    FourBytes(0x57, 0xfb, 0x80, 0x8b);
    FourBytes(0x24, 0x75, 0x47, 0xdb);
  }

  lemma FourBytes(a: Byte, b: Byte, c: Byte, d: Byte)
    ensures var v: nat := (a as int) + 0x100 * (b as int) + 0x1_0000 * (c as int) + 0x100_0000 * (d as int);
      EncodeFixed32(v) == [a, b, c, d]
  {
    var v: nat := (a as int) + 0x100 * (b as int) + 0x1_0000 * (c as int) + 0x100_0000 * (d as int);
    var x: nat := (b as int) + 0x100 * (c as int) + 0x1_0000 * (d as int);
    var y: nat := (c as int) + 0x100 * (d as int);
    assert v / 256 == x && v % 256 == a as int && x / 256 == y && x % 256 == b as int;
    assert y / 256 == d as int && y % 256 == c as int;
    assert Fixed(d as int, 1) == [d] + Fixed(0, 0);
    assert Fixed(y, 2) == [c] + Fixed(d as int, 1);
    assert Fixed(x, 3) == [b] + Fixed(y, 2);
  }

  /** The end of a filter block: the offsets, where they start, and the logarithm of 2 KiB. */
  lemma FilterLayout()
    ensures FilterBlock.Contents([7, 8, 9], [0, 2]) == [7, 8, 9, 0, 0, 0, 0, 2, 0, 0, 0, 3, 0, 0, 0, 11]
  {
    hide EncodeFixed32, Fixed32s;
    TwoOffsets();
    SmallFixed(3);
  }

  lemma TwoOffsets()
    ensures Fixed32s([0, 2]) == [0, 0, 0, 0, 2, 0, 0, 0]
  {
    hide EncodeFixed32;
    SmallFixed(0);
    SmallFixed(2);
    assert [0, 2][..1] == [0] && [0][..0] == [] && Fixed32s([]) == [];
    assert Fixed32s([0]) == Fixed32s([]) + EncodeFixed32(0);
  }

  /** What follows a block: the type 0, and the masked checksum of the contents and the type, with the
      least significant byte first. */
  lemma TrailerLayout(contents: Bytes)
    ensures var t := TableFormat.Trailer(contents);
      && |t| == 5 && t[0] == 0
      && LogWire.Word(t[1..]) == LogWire.Masked(Crc32c.Checksum(0, Checksums.Bits(contents + [0])))
  {
    hide Crc32c.Checksum, Checksums.Bits, LogWire.Masked, LogWire.Word, Checksums.Stored;
    LogWire.StoredBytes(TableFormat.BlockCrc(contents));
    assert TableFormat.Trailer(contents)[1..] == Checksums.Stored(TableFormat.BlockCrc(contents));
  }

  /** The metaindex names a filter by "filter." and the name of its policy. */
  lemma FilterName(name: Bytes)
    ensures var key, text := TableBuilders.FilterKey(name), "filter.";
      |key| == 7 + |name| && key[7..] == name && forall i :: 0 <= i < 7 ==> key[i] as int == text[i] as int
  {
  }

  lemma BytesOfWord(w: Bytes, a: Byte, b: Byte, c: Byte, d: Byte)
    requires |w| >= 4
    requires DecodeFixed32(w) == (a as int) + 0x100 * (b as int) + 0x1_0000 * (c as int) + 0x100_0000 * (d as int)
    ensures w[..4] == [a, b, c, d]
  {
    hide DecodeFixed32;
    LogWire.WordIs(w[..4]);
    SameWord(w);
    var x, y: nat := (w[1] as int) + 0x100 * (w[2] as int) + 0x1_0000 * (w[3] as int),
                     (b as int) + 0x100 * (c as int) + 0x1_0000 * (d as int);
    FirstDigit(w[0], x, a, y);
    FirstDigit(w[1], (w[2] as int) + 0x100 * (w[3] as int), b, (c as int) + 0x100 * (d as int));
    FirstDigit(w[2], w[3] as int, c, d as int);
  }

  lemma FirstDigit(a: Byte, p: nat, b: Byte, q: nat)
    requires (a as int) + 256 * p == (b as int) + 256 * q
    ensures a == b && p == q
  {
  }

  lemma SameWord(w: Bytes)
    requires |w| >= 4
    ensures DecodeFixed32(w) == DecodeFixed32(w[..4])
  {
    assert w[1..][..3] == w[..4][1..] && w[1..][1..] == w[2..] && w[2..][1..] == w[3..];
    assert DecodeFixed(w, 4) == (w[0] as int) + 256 * DecodeFixed(w[1..], 3);
    assert DecodeFixed(w[1..], 3) == (w[1] as int) + 256 * DecodeFixed(w[2..], 2);
    assert DecodeFixed(w[2..], 2) == (w[2] as int) + 256 * DecodeFixed(w[3..], 1);
    assert DecodeFixed(w[3..], 1) == (w[3] as int) + 256 * DecodeFixed(w[3..][1..], 0);
    LogWire.WordIs(w[..4]);
  }

  /** Nothing but a file that ends in the magic number is taken for a table. */
  lemma MagicIsChecked(file: Bytes)
    requires TableFormat.DecodeFooter(file).Some?
    ensures |file| >= 48 && file[|file| - 8..] == [0x57, 0xfb, 0x80, 0x8b, 0x24, 0x75, 0x47, 0xdb]
  {
    hide DecodeFixed32, TableFormat.DecodeHandle;
    var footer := file[|file| - 48..];
    BytesOfWord(footer[40..], 0x57, 0xfb, 0x80, 0x8b);
    BytesOfWord(footer[44..], 0x24, 0x75, 0x47, 0xdb);
    assert footer[40..44] == footer[40..][..4] && footer[44..] == footer[44..][..4];
    assert file[|file| - 8..] == footer[40..44] + footer[44..];
  }
}

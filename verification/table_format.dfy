/** Blocks in a table file and the footer (table/format.h, table/format.cc). */
module TableFormat {
  import opened InternalKey
  import opened Coding
  import opened Checksums
  import Crc32c

  datatype BlockHandle = BlockHandle(offset: nat, size: nat)

  const MAX_HANDLE := 20
  const FOOTER_SIZE := 48
  const MAGIC_LOW := 0x8b80fb57
  const MAGIC_HIGH := 0xdb477524
  const TRAILER_SIZE := 5
  const NO_COMPRESSION: Byte := 0

  // ----- Handles -----

  /** BlockHandle::EncodeTo */
  function EncodeHandle(h: BlockHandle): Bytes {
    Varint(h.offset) + Varint(h.size)
  }

  /** BlockHandle::DecodeFrom; what follows the handle is allowed. */
  function DecodeHandle(s: Bytes, p: nat): (r: Option<(BlockHandle, nat)>)
    ensures r.Some? ==> p < r.value.1 <= |s|
  {
    match GetVarint64(s, p, |s|)
    case None => None
    case Some(offset) =>
      match GetVarint64(s, offset.next, |s|)
      case None => None
      case Some(size) => Some((BlockHandle(offset.value, size.value), size.next))
  }

  predicate HandleFits(h: BlockHandle) {
    h.offset < 0x1_0000_0000_0000_0000 && h.size < 0x1_0000_0000_0000_0000
  }

  lemma HandleRoundTrip(h: BlockHandle, s: Bytes, p: nat)
    requires HandleFits(h) && HoldsAt(s, p, EncodeHandle(h))
    ensures DecodeHandle(s, p) == Some((h, p + |EncodeHandle(h)|))
  {
    hide Varint, GetVarint64, HoldsAt;
    HoldsParts(s, p, Varint(h.offset), Varint(h.size));
    HoldsEnds(s, p + |Varint(h.offset)|, Varint(h.size));
    Varint64RoundTrip(h.offset, s, p, |s|);
    Varint64RoundTrip(h.size, s, p + |Varint(h.offset)|, |s|);
  }

  lemma HandleIsShort(h: BlockHandle)
    requires HandleFits(h)
    ensures |EncodeHandle(h)| <= MAX_HANDLE
  {
    hide Varint;
    Powers();
    VarintFits(h.offset, 10);
    VarintFits(h.size, 10);
  }

  // ----- Blocks -----

  /** The type of a block and the checksum of its contents and type. */
  function Trailer(contents: Bytes): (r: Bytes)
    ensures |r| == TRAILER_SIZE
  {
    [NO_COMPRESSION] + Stored(BlockCrc(contents))
  }

  function BlockCrc(contents: Bytes): bv32 {
    Crc32c.Checksum(0, Bits(contents + [NO_COMPRESSION]))
  }

  /** ReadBlock: none for a truncated read, a wrong checksum or a type that is not stored plainly. */
  function ReadBlock(file: Bytes, h: BlockHandle, verifyChecksums: bool): Option<Bytes> {
    var n := h.size;
    if h.offset + n + TRAILER_SIZE > |file| then None
    else
      var data := file[h.offset..h.offset + n + TRAILER_SIZE];
      if verifyChecksums && Crc32c.Checksum(0, Bits(data[..n + 1])) != UnmaskStored(DecodeFixed32(data[n + 1..])) then None
      else if data[n] == NO_COMPRESSION then Some(data[..n])
      else None
  }

  /** A block and its trailer are in the file. */
  ghost predicate StoredAt(file: Bytes, h: BlockHandle, contents: Bytes) {
    HoldsAt(file, h.offset, contents + Trailer(contents)) && h.size == |contents|
  }

  lemma StoredStays(file: Bytes, longer: Bytes, h: BlockHandle, contents: Bytes)
    requires StoredAt(file, h, contents) && file <= longer
    ensures StoredAt(longer, h, contents) && h.offset < |file| && h.size <= |file|
  {
    hide Trailer;
    var w := contents + Trailer(contents);
    assert longer[h.offset..h.offset + |w|] == file[h.offset..h.offset + |w|];
  }

  lemma StoredNow(file: Bytes, contents: Bytes)
    ensures StoredAt(file + contents + Trailer(contents), BlockHandle(|file|, |contents|), contents)
  {
    hide Trailer;
    assert file + contents + Trailer(contents) == file + (contents + Trailer(contents));
  }

  /** A block that was written is read back. */
  lemma ReadWritten(file: Bytes, h: BlockHandle, contents: Bytes, verifyChecksums: bool)
    requires StoredAt(file, h, contents)
    ensures ReadBlock(file, h, verifyChecksums) == Some(contents)
  {
    hide Crc32c.Checksum, Bits, UnmaskStored, DecodeFixed32, Stored;
    var n := |contents|;
    var data := file[h.offset..h.offset + n + TRAILER_SIZE];
    assert data == contents + Trailer(contents);
    assert data[..n] == contents && data[..n + 1] == contents + [NO_COMPRESSION];
    StoredRoundTrip(BlockCrc(contents), []);
    assert data[n + 1..] == Stored(BlockCrc(contents)) + [];
  }

  // ----- The footer -----

  /** Footer::EncodeTo: the two handles, padding, and the magic number. */
  function Footer(metaindex: BlockHandle, index: BlockHandle): Bytes {
    var handles := EncodeHandle(metaindex) + EncodeHandle(index);
    var padding := if |handles| < 2 * MAX_HANDLE then seq(2 * MAX_HANDLE - |handles|, _ => 0) else [];
    handles + padding + EncodeFixed32(MAGIC_LOW) + EncodeFixed32(MAGIC_HIGH)
  }

  /** Table::Open's and Footer::DecodeFrom's reading of the end of a file. */
  function DecodeFooter(file: Bytes): Option<(BlockHandle, BlockHandle)> {
    if |file| < FOOTER_SIZE then None
    else
      var footer := file[|file| - FOOTER_SIZE..];
      if DecodeFixed32(footer[FOOTER_SIZE - 8..]) != MAGIC_LOW || DecodeFixed32(footer[FOOTER_SIZE - 4..]) != MAGIC_HIGH then
        None
      else
        match DecodeHandle(footer, 0)
        case None => None
        case Some(metaindex) =>
          match DecodeHandle(footer, metaindex.1)
          case None => None
          case Some(index) => Some((metaindex.0, index.0))
  }

  lemma FooterRoundTrip(file: Bytes, metaindex: BlockHandle, index: BlockHandle)
    requires HandleFits(metaindex) && HandleFits(index)
    ensures DecodeFooter(file + Footer(metaindex, index)) == Some((metaindex, index))
  {
    hide EncodeHandle, DecodeHandle, EncodeFixed32, DecodeFixed32, HandleFits, HoldsAt;
    HandleIsShort(metaindex);
    HandleIsShort(index);
    var a, b := EncodeHandle(metaindex), EncodeHandle(index);
    var padding := seq(2 * MAX_HANDLE - |a + b|, _ => 0);
    var footer := Footer(metaindex, index);
    assert |footer| == FOOTER_SIZE && (file + footer)[|file + footer| - FOOTER_SIZE..] == footer;
    Fixed32RoundTrip(MAGIC_LOW, EncodeFixed32(MAGIC_HIGH));
    Fixed32RoundTrip(MAGIC_HIGH, []);
    assert footer[FOOTER_SIZE - 8..] == EncodeFixed32(MAGIC_LOW) + EncodeFixed32(MAGIC_HIGH);
    assert footer[FOOTER_SIZE - 4..] == EncodeFixed32(MAGIC_HIGH) + [];
    var rest := padding + EncodeFixed32(MAGIC_LOW) + EncodeFixed32(MAGIC_HIGH);
    assert footer == a + b + rest;
    Whole(footer);
    HoldsParts(footer, 0, a + b, rest);
    HoldsParts(footer, 0, a, b);
    HandleRoundTrip(metaindex, footer, 0);
    HandleRoundTrip(index, footer, |a|);
  }

  lemma FooterLength(metaindex: BlockHandle, index: BlockHandle)
    requires HandleFits(metaindex) && HandleFits(index)
    ensures |Footer(metaindex, index)| == FOOTER_SIZE
  {
    hide EncodeHandle, HandleFits, EncodeFixed32;
    HandleIsShort(metaindex);
    HandleIsShort(index);
  }

  // ----- Damage -----

  /** When one byte of a stored block or of its type has changed, a reader that verifies checksums
      refuses the block. */
  lemma DamageIsSeen(file: Bytes, damaged: Bytes, h: BlockHandle, contents: Bytes, i: nat)
    requires StoredAt(file, h, contents) && |damaged| == |file| && h.offset <= i <= h.offset + |contents|
    requires i < |file| && damaged[i] != file[i] && forall j :: 0 <= j < |file| && j != i ==> damaged[j] == file[j]
    ensures ReadBlock(damaged, h, true) == None
  {
    hide Crc32c.Checksum, Bits, UnmaskStored, DecodeFixed32, Stored;
    var n := |contents|;
    var was, data := file[h.offset..h.offset + n + TRAILER_SIZE], damaged[h.offset..h.offset + n + TRAILER_SIZE];
    assert was == contents + Trailer(contents);
    assert was[..n + 1] == contents + [NO_COMPRESSION] && was[n + 1..] == Stored(BlockCrc(contents)) + [];
    StoredRoundTrip(BlockCrc(contents), []);
    forall j | 0 <= j < n + TRAILER_SIZE
      ensures data[j] == damaged[h.offset + j] && was[j] == file[h.offset + j]
    {
    }
    assert data[n + 1..] == was[n + 1..];
    ChangeIsSeen(was[..n + 1], data[..n + 1], i - h.offset);
  }
}

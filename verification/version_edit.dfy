/** Version edits and their bytes (db/version_edit.h, db/version_edit.cc). */
module VersionEdits {
  import opened InternalKey
  import opened Coding

  /** A file as the manifest knows it: its keys are encoded internal keys. */
  datatype FileMeta = FileMeta(number: nat, fileSize: nat, smallest: Bytes, largest: Bytes)

  datatype VersionEdit = VersionEdit(
    comparator: Option<Bytes>,
    logNumber: Option<nat>,
    prevLogNumber: Option<nat>,
    nextFileNumber: Option<nat>,
    lastSequence: Option<nat>,
    compactPointers: seq<(nat, Bytes)>,
    deletedFiles: seq<(nat, nat)>,  // a set of (level, number), in order
    newFiles: seq<(nat, FileMeta)>)

  /** Clear.  Compaction pointers are not among the fields that it resets, but a decoded edit
      starts without any. */
  const CLEAR := VersionEdit(None, None, None, None, None, [], [], [])

  /** The order of deleted files. */
  predicate Less(a: (nat, nat), b: (nat, nat)) {
    a.0 < b.0 || (a.0 == b.0 && a.1 < b.1)
  }

  /** Inserting into the set of deleted files. */
  function Insert(a: (nat, nat), s: seq<(nat, nat)>): seq<(nat, nat)> {
    if s == [] || Less(a, s[0]) then [a] + s else if a == s[0] then s else [s[0]] + Insert(a, s[1..])
  }

  ghost predicate Ascending(s: seq<(nat, nat)>) {
    forall i, j :: 0 <= i < j < |s| ==> Less(s[i], s[j])
  }

  lemma {:induction false} InsertLast(a: (nat, nat), s: seq<(nat, nat)>)
    requires Ascending(s + [a])
    ensures Insert(a, s) == s + [a]
  {
    if s != [] {
      assert Less((s + [a])[0], (s + [a])[|s|]);
      assert s + [a] == [s[0]] + (s[1..] + [a]);
      forall i, j | 0 <= i < j < |s[1..] + [a]|
        ensures Less((s[1..] + [a])[i], (s[1..] + [a])[j])
      {
        assert (s[1..] + [a])[i] == (s + [a])[i + 1] && (s[1..] + [a])[j] == (s + [a])[j + 1];
      }
      InsertLast(a, s[1..]);
    }
  }

  // ----- One field -----

  /** A tagged field of an edit. */
  datatype Field =
    | Comparator(name: Bytes)
    | LogNumber(number: nat)
    | NextFileNumber(number: nat)
    | LastSequence(number: nat)
    | CompactPointer(level: nat, key: Bytes)
    | DeletedFile(level: nat, number: nat)
    | NewFile(level: nat, file: FileMeta)
    | PrevLogNumber(number: nat)

  function TagOf(f: Field): nat {
    match f
    case Comparator(_) => 1
    case LogNumber(_) => 2
    case NextFileNumber(_) => 3
    case LastSequence(_) => 4
    case CompactPointer(_, _) => 5
    case DeletedFile(_, _) => 6
    case NewFile(_, _) => 7
    case PrevLogNumber(_) => 9
  }

  function EncodeBody(f: Field): Bytes {
    match f
    case Comparator(name) => LengthPrefixed(name)
    case CompactPointer(level, key) => Varint(level) + LengthPrefixed(key)
    case DeletedFile(level, number) => Varint(level) + Varint(number)
    case NewFile(level, file) =>
      Varint(level) + (Varint(file.number) + (Varint(file.fileSize)
        + (LengthPrefixed(file.smallest) + LengthPrefixed(file.largest))))
    case LogNumber(number) => Varint(number)
    case NextFileNumber(number) => Varint(number)
    case LastSequence(number) => Varint(number)
    case PrevLogNumber(number) => Varint(number)
  }

  function EncodeField(f: Field): Bytes {
    Varint(TagOf(f)) + EncodeBody(f)
  }

  const LIMIT32: nat := 0x1_0000_0000
  const LIMIT64: nat := 0x1_0000_0000_0000_0000

  /** The numbers and lengths of a field fit their widths. */
  predicate Encodable(f: Field) {
    match f
    case Comparator(name) => |name| < LIMIT32
    case CompactPointer(level, key) => level < NUM_LEVELS && |key| < LIMIT32
    case DeletedFile(level, number) => level < NUM_LEVELS && number < LIMIT64
    case NewFile(level, file) =>
      level < NUM_LEVELS && file.number < LIMIT64 && file.fileSize < LIMIT64 && |file.smallest| < LIMIT32
      && |file.largest| < LIMIT32
    case LogNumber(number) => number < LIMIT64
    case NextFileNumber(number) => number < LIMIT64
    case LastSequence(number) => number < LIMIT64
    case PrevLogNumber(number) => number < LIMIT64
  }

  datatype ParsedField = ParsedField(field: Field, next: nat)

  /** GetLevel */
  function GetLevel(s: Bytes, p: nat): (r: Option<Parsed>)
    ensures r.Some? ==> p < r.value.next <= |s|
  {
    match GetVarint32(s, p, |s|)
    case None => None
    case Some(v) => if v.value < NUM_LEVELS then Some(v) else None
  }

  function DecodeNumber(s: Bytes, p: nat, make: nat -> Field): (r: Option<ParsedField>)
    ensures r.Some? ==> p < r.value.next <= |s|
  {
    match GetVarint64(s, p, |s|)
    case None => None
    case Some(v) => Some(ParsedField(make(v.value), v.next))
  }

  function DecodeNewFile(s: Bytes, p: nat): (r: Option<ParsedField>)
    ensures r.Some? ==> p < r.value.next <= |s|
  {
    match GetLevel(s, p)
    case None => None
    case Some(level) =>
      match GetVarint64(s, level.next, |s|)
      case None => None
      case Some(number) =>
        match GetVarint64(s, number.next, |s|)
        case None => None
        case Some(size) =>
          match GetLengthPrefixed(s, size.next, |s|)
          case None => None
          case Some(smallest) =>
            match GetLengthPrefixed(s, smallest.next, |s|)
            case None => None
            case Some(largest) =>
              var file := FileMeta(number.value, size.value, smallest.data, largest.data);
              Some(ParsedField(NewFile(level.value, file), largest.next))
  }

  /** The field with this tag at `p`. */
  function DecodeBody(tag: nat, s: Bytes, p: nat): (r: Option<ParsedField>)
    ensures r.Some? ==> p < r.value.next <= |s|
  {
    if tag == 1 then
      match GetLengthPrefixed(s, p, |s|)
      case None => None
      case Some(name) => Some(ParsedField(Comparator(name.data), name.next))
    else if tag == 2 then DecodeNumber(s, p, (n: nat) => LogNumber(n))
    else if tag == 9 then DecodeNumber(s, p, (n: nat) => PrevLogNumber(n))
    else if tag == 3 then DecodeNumber(s, p, (n: nat) => NextFileNumber(n))
    else if tag == 4 then DecodeNumber(s, p, (n: nat) => LastSequence(n))
    else if tag == 5 then
      match GetLevel(s, p)
      case None => None
      case Some(level) =>
        match GetLengthPrefixed(s, level.next, |s|)
        case None => None
        case Some(key) => Some(ParsedField(CompactPointer(level.value, key.data), key.next))
    else if tag == 6 then
      match GetLevel(s, p)
      case None => None
      case Some(level) =>
        match GetVarint64(s, level.next, |s|)
        case None => None
        case Some(number) => Some(ParsedField(DeletedFile(level.value, number.value), number.next))
    else if tag == 7 then DecodeNewFile(s, p)
    else None
  }

  function Add(edit: VersionEdit, f: Field): VersionEdit {
    match f
    case Comparator(name) => edit.(comparator := Some(name))
    case LogNumber(number) => edit.(logNumber := Some(number))
    case PrevLogNumber(number) => edit.(prevLogNumber := Some(number))
    case NextFileNumber(number) => edit.(nextFileNumber := Some(number))
    case LastSequence(number) => edit.(lastSequence := Some(number))
    case CompactPointer(level, key) => edit.(compactPointers := edit.compactPointers + [(level, key)])
    case DeletedFile(level, number) => edit.(deletedFiles := Insert((level, number), edit.deletedFiles))
    case NewFile(level, file) => edit.(newFiles := edit.newFiles + [(level, file)])
  }

  // ----- A whole edit -----

  /** EncodeTo's fields, in its order. */
  function Fields(edit: VersionEdit): seq<Field> {
    NumberFields(edit) + PointerFields(edit.compactPointers) + DeletedFields(edit.deletedFiles) + NewFields(edit.newFiles)
  }

  function NumberFields(edit: VersionEdit): seq<Field> {
    (if edit.comparator.Some? then [Comparator(edit.comparator.value)] else [])
    + (if edit.logNumber.Some? then [LogNumber(edit.logNumber.value)] else [])
    + (if edit.prevLogNumber.Some? then [PrevLogNumber(edit.prevLogNumber.value)] else [])
    + (if edit.nextFileNumber.Some? then [NextFileNumber(edit.nextFileNumber.value)] else [])
    + (if edit.lastSequence.Some? then [LastSequence(edit.lastSequence.value)] else [])
  }

  function PointerFields(s: seq<(nat, Bytes)>): (r: seq<Field>)
    ensures |r| == |s|
  {
    seq(|s|, i requires 0 <= i < |s| => CompactPointer(s[i].0, s[i].1))
  }

  function DeletedFields(s: seq<(nat, nat)>): (r: seq<Field>)
    ensures |r| == |s|
  {
    seq(|s|, i requires 0 <= i < |s| => DeletedFile(s[i].0, s[i].1))
  }

  function NewFields(s: seq<(nat, FileMeta)>): (r: seq<Field>)
    ensures |r| == |s|
  {
    seq(|s|, i requires 0 <= i < |s| => NewFile(s[i].0, s[i].1))
  }

  function EncodeFields(fields: seq<Field>): Bytes {
    if fields == [] then [] else EncodeField(fields[0]) + EncodeFields(fields[1..])
  }

  function Encode(edit: VersionEdit): Bytes {
    EncodeFields(Fields(edit))
  }

  ghost predicate IsEncodable(edit: VersionEdit) {
    (forall f :: f in Fields(edit) ==> Encodable(f)) && Ascending(edit.deletedFiles)
  }

  function AddAll(edit: VersionEdit, fields: seq<Field>): VersionEdit
    decreases |fields|
  {
    if fields == [] then edit else AddAll(Add(edit, fields[0]), fields[1..])
  }

  /** DecodeFrom, from `p` on; none for a corruption. */
  function DecodeFields(s: Bytes, p: nat, edit: VersionEdit): Option<VersionEdit>
    requires p <= |s|
    decreases |s| - p
  {
    match GetVarint32(s, p, |s|)
    case None => if p == |s| then Some(edit) else None
    case Some(tag) =>
      match DecodeBody(tag.value, s, tag.next)
      case None => None
      case Some(parsed) => DecodeFields(s, parsed.next, Add(edit, parsed.field))
  }

  function Decode(s: Bytes): Option<VersionEdit> {
    DecodeFields(s, 0, CLEAR)
  }

  // ----- Round trip -----

  lemma DecodeLevel(level: nat, s: Bytes, p: nat)
    requires level < NUM_LEVELS && HoldsAt(s, p, Varint(level))
    ensures GetLevel(s, p) == Some(Parsed(level, p + |Varint(level)|))
  {
    hide Varint, GetVarint32;
    Varint32RoundTrip(level, s, p, |s|);
  }

  lemma HoldsFits(s: Bytes, p: nat, w: Bytes)
    requires HoldsAt(s, p, w)
    ensures p + |w| <= |s|
  {
  }

  lemma NewFileLayout(level: nat, file: FileMeta, s: Bytes, p: nat)
    requires HoldsAt(s, p, EncodeBody(NewFile(level, file)))
    ensures var a, b, c := Varint(level), Varint(file.number), Varint(file.fileSize);
      var d, e := LengthPrefixed(file.smallest), LengthPrefixed(file.largest);
      && HoldsAt(s, p, a) && HoldsAt(s, p + |a|, b) && HoldsAt(s, p + |a| + |b|, c)
      && HoldsAt(s, p + |a| + |b| + |c|, d) && HoldsAt(s, p + |a| + |b| + |c| + |d|, e)
      && p + |a| + |b| + |c| + |d| + |e| <= |s|
      && |EncodeBody(NewFile(level, file))| == |a| + |b| + |c| + |d| + |e|
  {
    hide Varint, LengthPrefixed, HoldsAt;
    var a, b, c := Varint(level), Varint(file.number), Varint(file.fileSize);
    var d, e := LengthPrefixed(file.smallest), LengthPrefixed(file.largest);
    HoldsParts(s, p, a, b + (c + (d + e)));
    HoldsParts(s, p + |a|, b, c + (d + e));
    HoldsParts(s, p + |a| + |b|, c, d + e);
    HoldsParts(s, p + |a| + |b| + |c|, d, e);
    HoldsFits(s, p + |a| + |b| + |c| + |d|, e);
  }

  lemma DecodeNewFileBody(level: nat, file: FileMeta, s: Bytes, p: nat)
    requires Encodable(NewFile(level, file)) && HoldsAt(s, p, EncodeBody(NewFile(level, file)))
    ensures DecodeNewFile(s, p) == Some(ParsedField(NewFile(level, file), p + |EncodeBody(NewFile(level, file))|))
  {
    hide Varint, GetVarint64, GetLengthPrefixed, LengthPrefixed, HoldsAt, GetLevel, EncodeBody;
    NewFileLayout(level, file, s, p);
    var a, b, c := Varint(level), Varint(file.number), Varint(file.fileSize);
    var d := LengthPrefixed(file.smallest);
    DecodeLevel(level, s, p);
    Varint64RoundTrip(file.number, s, p + |a|, |s|);
    Varint64RoundTrip(file.fileSize, s, p + |a| + |b|, |s|);
    LengthPrefixedRoundTrip(file.smallest, s, p + |a| + |b| + |c|, |s|);
    LengthPrefixedRoundTrip(file.largest, s, p + |a| + |b| + |c| + |d|, |s|);
  }

  lemma DecodeBodyWritten(f: Field, s: Bytes, p: nat)
    requires Encodable(f) && HoldsAt(s, p, EncodeBody(f))
    ensures DecodeBody(TagOf(f), s, p) == Some(ParsedField(f, p + |EncodeBody(f)|))
  {
    hide Varint, GetVarint64, GetLengthPrefixed, LengthPrefixed, HoldsAt, GetLevel, DecodeNewFile;
    HoldsFits(s, p, EncodeBody(f));
    match f
    case Comparator(name) => LengthPrefixedRoundTrip(name, s, p, |s|);
    case LogNumber(number) => Varint64RoundTrip(number, s, p, |s|);
    case PrevLogNumber(number) => Varint64RoundTrip(number, s, p, |s|);
    case NextFileNumber(number) => Varint64RoundTrip(number, s, p, |s|);
    case LastSequence(number) => Varint64RoundTrip(number, s, p, |s|);
    case CompactPointer(level, key) =>
      HoldsParts(s, p, Varint(level), LengthPrefixed(key));
      DecodeLevel(level, s, p);
      LengthPrefixedRoundTrip(key, s, p + |Varint(level)|, |s|);
    case DeletedFile(level, number) =>
      HoldsParts(s, p, Varint(level), Varint(number));
      DecodeLevel(level, s, p);
      Varint64RoundTrip(number, s, p + |Varint(level)|, |s|);
    case NewFile(level, file) => DecodeNewFileBody(level, file, s, p);
  }

  lemma {:induction false} DecodeFieldsWritten(fields: seq<Field>, s: Bytes, p: nat, edit: VersionEdit)
    requires forall f :: f in fields ==> Encodable(f)
    requires p <= |s| && s[p..] == EncodeFields(fields)
    ensures DecodeFields(s, p, edit) == Some(AddAll(edit, fields))
    decreases |fields|
  {
    hide Varint, GetVarint32, EncodeBody, DecodeBody, Encodable, Add, TagOf;
    if fields == [] {
      EndOfInput(s);
    } else {
      var f := fields[0];
      var tag := Varint(TagOf(f));
      var rest := EncodeFields(fields[1..]);
      Tail(s, p, EncodeField(f), rest);
      HoldsParts(s, p, tag, EncodeBody(f));
      HoldsFits(s, p + |tag|, EncodeBody(f));
      SmallTag(f);
      Varint32RoundTrip(TagOf(f), s, p, |s|);
      DecodeBodyWritten(f, s, p + |tag|);
      DecodeFieldsWritten(fields[1..], s, p + |EncodeField(f)|, Add(edit, f));
    }
  }

  lemma SmallTag(f: Field)
    ensures TagOf(f) < 10
  {
  }

  lemma EndOfInput(s: Bytes)
    ensures GetVarint32(s, |s|, |s|) == None
  {
  }

  lemma Tail(s: Bytes, p: nat, a: Bytes, b: Bytes)
    requires p <= |s| && s[p..] == a + b
    ensures HoldsAt(s, p, a) && s[p + |a|..] == b
  {
    assert |s| == p + |a| + |b|;
    assert s[p..p + |a|] == s[p..][..|a|];
    assert s[p + |a|..] == s[p..][|a|..];
  }

  lemma {:induction false} AddAllConcat(edit: VersionEdit, a: seq<Field>, b: seq<Field>)
    ensures AddAll(edit, a + b) == AddAll(AddAll(edit, a), b)
    decreases |a|
  {
    hide Add;
    if a == [] {
      assert a + b == b;
    } else {
      assert (a + b)[1..] == a[1..] + b;
      AddAllConcat(Add(edit, a[0]), a[1..], b);
    }
  }

  lemma {:induction false} AddPointers(edit: VersionEdit, s: seq<(nat, Bytes)>)
    ensures AddAll(edit, PointerFields(s)) == edit.(compactPointers := edit.compactPointers + s)
    decreases |s|
  {
    if s == [] {
      assert edit.compactPointers + s == edit.compactPointers;
    } else {
      var more := Add(edit, CompactPointer(s[0].0, s[0].1));
      AddPointers(more, s[1..]);
      assert PointerFields(s)[1..] == PointerFields(s[1..]);
      assert edit.compactPointers + s == edit.compactPointers + [s[0]] + s[1..];
    }
  }

  lemma {:induction false} AddDeleted(edit: VersionEdit, s: seq<(nat, nat)>)
    requires Ascending(edit.deletedFiles + s)
    ensures AddAll(edit, DeletedFields(s)) == edit.(deletedFiles := edit.deletedFiles + s)
    decreases |s|
  {
    if s == [] {
      assert edit.deletedFiles + s == edit.deletedFiles;
    } else {
      var init := edit.deletedFiles + [s[0]];
      assert edit.deletedFiles + s == init + s[1..];
      assert init == (edit.deletedFiles + s)[..|init|];
      InsertLast(s[0], edit.deletedFiles);
      var more := edit.(deletedFiles := init);
      assert Add(edit, DeletedFile(s[0].0, s[0].1)) == more;
      AddDeleted(more, s[1..]);
      assert DeletedFields(s)[1..] == DeletedFields(s[1..]);
    }
  }

  lemma {:induction false} AddNew(edit: VersionEdit, s: seq<(nat, FileMeta)>)
    ensures AddAll(edit, NewFields(s)) == edit.(newFiles := edit.newFiles + s)
    decreases |s|
  {
    if s == [] {
      assert edit.newFiles + s == edit.newFiles;
    } else {
      var more := Add(edit, NewFile(s[0].0, s[0].1));
      AddNew(more, s[1..]);
      assert NewFields(s)[1..] == NewFields(s[1..]);
      assert edit.newFiles + s == edit.newFiles + [s[0]] + s[1..];
    }
  }

  lemma AddOne(edit: VersionEdit, fields: seq<Field>, f: Field, present: bool)
    ensures AddAll(edit, fields + if present then [f] else []) ==
            var init := AddAll(edit, fields); if present then Add(init, f) else init
  {
    hide Add;
    if present {
      AddAllConcat(edit, fields, [f]);
      assert AddAll(AddAll(edit, fields), [f]) == Add(AddAll(edit, fields), f);
    } else {
      assert fields + [] == fields;
    }
  }

  lemma NumberFieldsMakeEdit(edit: VersionEdit)
    ensures AddAll(CLEAR, NumberFields(edit)) == edit.(compactPointers := [], deletedFiles := [], newFiles := [])
  {
    hide AddAll;
    var a := if edit.comparator.Some? then [Comparator(edit.comparator.value)] else [];
    var b := a + if edit.logNumber.Some? then [LogNumber(edit.logNumber.value)] else [];
    var c := b + if edit.prevLogNumber.Some? then [PrevLogNumber(edit.prevLogNumber.value)] else [];
    var d := c + if edit.nextFileNumber.Some? then [NextFileNumber(edit.nextFileNumber.value)] else [];
    AddOne(CLEAR, [], Comparator(if edit.comparator.Some? then edit.comparator.value else []), edit.comparator.Some?);
    assert [] + a == a;
    AddNone(CLEAR);
    AddOne(CLEAR, a, LogNumber(Number(edit.logNumber)), edit.logNumber.Some?);
    AddOne(CLEAR, b, PrevLogNumber(Number(edit.prevLogNumber)), edit.prevLogNumber.Some?);
    AddOne(CLEAR, c, NextFileNumber(Number(edit.nextFileNumber)), edit.nextFileNumber.Some?);
    AddOne(CLEAR, d, LastSequence(Number(edit.lastSequence)), edit.lastSequence.Some?);
  }

  lemma AddNone(edit: VersionEdit)
    ensures AddAll(edit, []) == edit
  {
  }

  function Number(n: Option<nat>): nat {
    if n.Some? then n.value else 0
  }

  /** The fields of an edit make that edit. */
  lemma FieldsMakeEdit(edit: VersionEdit)
    requires Ascending(edit.deletedFiles)
    ensures AddAll(CLEAR, Fields(edit)) == edit
  {
    hide AddAll, NumberFields, PointerFields, DeletedFields, NewFields, Ascending;
    var numbers := NumberFields(edit);
    var pointers, deleted, new' :=
      PointerFields(edit.compactPointers), DeletedFields(edit.deletedFiles), NewFields(edit.newFiles);
    NumberFieldsMakeEdit(edit);
    AddAllConcat(CLEAR, numbers + pointers + deleted, new');
    AddAllConcat(CLEAR, numbers + pointers, deleted);
    AddAllConcat(CLEAR, numbers, pointers);
    var init := edit.(compactPointers := [], deletedFiles := [], newFiles := []);
    AddPointers(init, edit.compactPointers);
    assert [] + edit.compactPointers == edit.compactPointers;
    assert [] + edit.deletedFiles == edit.deletedFiles;
    AddDeleted(init.(compactPointers := edit.compactPointers), edit.deletedFiles);
    AddNew(edit.(newFiles := []), edit.newFiles);
    assert [] + edit.newFiles == edit.newFiles;
  }

  /** A record of the manifest is read back as the edit that was written. */
  lemma EditRoundTrip(edit: VersionEdit)
    requires IsEncodable(edit)
    ensures Decode(Encode(edit)) == Some(edit)
  {
    hide Fields, EncodeFields, DecodeFields, AddAll;
    var s := Encode(edit);
    assert s[0..] == s;
    DecodeFieldsWritten(Fields(edit), s, 0, CLEAR);
    FieldsMakeEdit(edit);
  }

  // ----- The code -----

  lemma {:induction false} EncodeFieldsAppends(fields: seq<Field>, f: Field)
    ensures EncodeFields(fields + [f]) == EncodeFields(fields) + EncodeField(f)
  {
    hide EncodeField;
    if fields != [] {
      assert (fields + [f])[1..] == fields[1..] + [f];
      EncodeFieldsAppends(fields[1..], f);
    } else {
      assert EncodeFields([]) == [] && fields + [f] == [f];
      assert EncodeField(f) + [] == EncodeField(f);
    }
  }

  /** EncodeTo */
  method EncodeTo(edit: VersionEdit) returns (dst: Bytes)
    ensures dst == Encode(edit)
  {
    hide EncodeFields, EncodeField;
    dst := EncodeNumbers(edit);
    ghost var done := NumberFields(edit);
    var pointers, deleted, files := edit.compactPointers, edit.deletedFiles, edit.newFiles;
    assert done + PointerFields(pointers)[..0] == done;
    for i := 0 to |pointers|
      invariant dst == EncodeFields(done + PointerFields(pointers)[..i])
    {
      var f := CompactPointer(pointers[i].0, pointers[i].1);
      EncodeFieldsAppends(done + PointerFields(pointers)[..i], f);
      assert done + PointerFields(pointers)[..i + 1] == done + PointerFields(pointers)[..i] + [f];
      dst := dst + EncodeField(f);
    }
    done := done + PointerFields(pointers);
    assert PointerFields(pointers)[..|pointers|] == PointerFields(pointers);
    assert done + DeletedFields(deleted)[..0] == done;
    for i := 0 to |deleted|
      invariant dst == EncodeFields(done + DeletedFields(deleted)[..i])
    {
      var f := DeletedFile(deleted[i].0, deleted[i].1);
      EncodeFieldsAppends(done + DeletedFields(deleted)[..i], f);
      assert done + DeletedFields(deleted)[..i + 1] == done + DeletedFields(deleted)[..i] + [f];
      dst := dst + EncodeField(f);
    }
    done := done + DeletedFields(deleted);
    assert DeletedFields(deleted)[..|deleted|] == DeletedFields(deleted);
    assert done + NewFields(files)[..0] == done;
    for i := 0 to |files|
      invariant dst == EncodeFields(done + NewFields(files)[..i])
    {
      var f := NewFile(files[i].0, files[i].1);
      EncodeFieldsAppends(done + NewFields(files)[..i], f);
      assert done + NewFields(files)[..i + 1] == done + NewFields(files)[..i] + [f];
      dst := dst + EncodeField(f);
    }
    assert NewFields(files)[..|files|] == NewFields(files);
  }

  /** The first part of EncodeTo, for the fields that have a flag. */
  method EncodeNumbers(edit: VersionEdit) returns (dst: Bytes)
    ensures dst == EncodeFields(NumberFields(edit))
  {
    hide EncodeField, EncodeFields;
    ghost var a := if edit.comparator.Some? then [Comparator(edit.comparator.value)] else [];
    ghost var b := a + if edit.logNumber.Some? then [LogNumber(edit.logNumber.value)] else [];
    ghost var c := b + if edit.prevLogNumber.Some? then [PrevLogNumber(edit.prevLogNumber.value)] else [];
    ghost var d := c + if edit.nextFileNumber.Some? then [NextFileNumber(edit.nextFileNumber.value)] else [];
    ghost var done: seq<Field> := [];
    dst := [];
    assert EncodeFields([]) == [] by { EncodeNothing(); }
    if edit.comparator.Some? {
      dst, done := Append(dst, done, Comparator(edit.comparator.value));
    }
    assert done == a;
    if edit.logNumber.Some? {
      dst, done := Append(dst, a, LogNumber(edit.logNumber.value));
    }
    assert done == b;
    if edit.prevLogNumber.Some? {
      dst, done := Append(dst, b, PrevLogNumber(edit.prevLogNumber.value));
    }
    assert done == c;
    if edit.nextFileNumber.Some? {
      dst, done := Append(dst, c, NextFileNumber(edit.nextFileNumber.value));
    }
    assert done == d;
    if edit.lastSequence.Some? {
      dst, done := Append(dst, d, LastSequence(edit.lastSequence.value));
    }
    assert done == NumberFields(edit);
  }

  lemma EncodeNothing()
    ensures EncodeFields([]) == []
  {
  }

  method Append(dst: Bytes, ghost done: seq<Field>, f: Field) returns (r: Bytes, ghost done': seq<Field>)
    requires dst == EncodeFields(done)
    ensures r == EncodeFields(done') && done' == done + [f]
  {
    hide EncodeField;
    EncodeFieldsAppends(done, f);
    r, done' := dst + EncodeField(f), done + [f];
  }

  /** DecodeFrom: none for a corruption. */
  method DecodeFrom(src: Bytes) returns (r: Option<VersionEdit>)
    ensures r == Decode(src)
  {
    hide DecodeBody, Add;
    var edit, p, bad := CLEAR, 0, false;
    var tag := GetVarint32(src, p, |src|);
    while !bad && tag.Some?
      invariant 0 <= p <= |src| && tag == GetVarint32(src, p, |src|)
      invariant Decode(src) == if bad then None else DecodeFields(src, p, edit)
      decreases !bad, |src| - p
    {
      match DecodeBody(tag.value.value, src, tag.value.next) {
        case None => bad := true;
        case Some(parsed) =>
          edit := Add(edit, parsed.field);
          p := parsed.next;
          tag := GetVarint32(src, p, |src|);
      }
    }
    r := if bad || p < |src| then None else Some(edit);
  }

  // ----- What is accepted at all -----

  /** Every level that an edit speaks of exists. */
  ghost predicate LevelsExist(edit: VersionEdit) {
    && (forall a :: a in edit.compactPointers ==> a.0 < 7)
    && (forall a :: a in edit.deletedFiles ==> a.0 < 7)
    && forall a :: a in edit.newFiles ==> a.0 < 7
  }

  lemma {:induction false} InsertedIs(a: (nat, nat), s: seq<(nat, nat)>, x: (nat, nat))
    ensures x in Insert(a, s) <==> x == a || x in s
  {
    if s != [] && !Less(a, s[0]) && a != s[0] {
      InsertedIs(a, s[1..], x);
      assert s == [s[0]] + s[1..];
    }
  }

  lemma FieldInLevels(tag: nat, s: Bytes, p: nat, edit: VersionEdit)
    requires DecodeBody(tag, s, p).Some? && LevelsExist(edit)
    ensures LevelsExist(Add(edit, DecodeBody(tag, s, p).value.field))
    ensures tag in {1, 2, 3, 4, 5, 6, 7, 9}
  {
    hide GetVarint32, GetVarint64, GetLengthPrefixed;
    var f := DecodeBody(tag, s, p).value.field;
    if f.DeletedFile? {
      forall x | x in Insert((f.level, f.number), edit.deletedFiles)
        ensures x.0 < 7
      {
        InsertedIs((f.level, f.number), edit.deletedFiles, x);
      }
    }
  }

  /** Whatever the bytes are: an edit that is taken speaks of no level that does not exist. */
  lemma {:induction false} DecodedInLevels(s: Bytes, p: nat, edit: VersionEdit)
    requires p <= |s| && LevelsExist(edit) && DecodeFields(s, p, edit).Some?
    ensures LevelsExist(DecodeFields(s, p, edit).value)
    decreases |s| - p
  {
    hide GetVarint32, DecodeBody, Add, LevelsExist;
    var tag := GetVarint32(s, p, |s|);
    if tag.Some? {
      FieldInLevels(tag.value.value, s, tag.value.next, edit);
      var parsed := DecodeBody(tag.value.value, s, tag.value.next).value;
      DecodedInLevels(s, parsed.next, Add(edit, parsed.field));
    }
  }
}

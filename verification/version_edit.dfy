/** VersionEdit of db/version_edit.cc: the records of the MANIFEST. */
module VersionEdits {
  import opened Wrappers
  import opened Coding
  import opened DbFormat

  datatype FileMetaData = FileMetaData(number: uint64, fileSize: uint64, smallest: bytes, largest: bytes)

  /** An edit as a value. 'deletedFiles' lists an ordered set of (level, number) pairs. */
  datatype Edit = Edit(
    comparator: Option<bytes>, logNumber: Option<uint64>, prevLogNumber: Option<uint64>,
    nextFileNumber: Option<uint64>, lastSequence: Option<uint64>,
    compactPointers: seq<(nat, bytes)>, deletedFiles: seq<(nat, uint64)>, newFiles: seq<(nat, FileMetaData)>)

  /** Clear keeps the compaction pointers. */
  function Cleared(e: Edit): Edit {
    Edit(None, None, None, None, None, e.compactPointers, [], [])
  }

  const FRESH := Edit(None, None, None, None, None, [], [], [])

  // ----- an edit is a list of tagged fields -----

  datatype Field =
    | Comparator(name: bytes)
    | LogNumber(number: uint64)
    | NextFileNumber(number: uint64)
    | LastSequence(number: uint64)
    | CompactPointer(level: nat, key: bytes)
    | DeletedFile(level: nat, number: uint64)
    | NewFile(level: nat, file: FileMetaData)
    | PrevLogNumber(number: uint64)

  predicate KeyOk(key: bytes) {
    key != [] && |key| < TWO_TO_32
  }

  predicate FieldOk(f: Field) {
    match f
    case Comparator(name) => |name| < TWO_TO_32
    case CompactPointer(level, key) => level < NUM_LEVELS && KeyOk(key)
    case DeletedFile(level, _) => level < NUM_LEVELS
    case NewFile(level, file) => level < NUM_LEVELS && KeyOk(file.smallest) && KeyOk(file.largest)
    case _ => true
  }

  function FileBytes(f: FileMetaData): bytes {
    Varint(f.number) + (Varint(f.fileSize) + (PutLengthPrefixed(f.smallest) + PutLengthPrefixed(f.largest)))
  }

  /** A field behind its tag. Levels are small, so that a byte holds them. */
  function FieldBytes(f: Field): bytes
    requires FieldOk(f)
  {
    match f
    case Comparator(name) => [1] + PutLengthPrefixed(name)
    case LogNumber(number) => [2] + Varint(number)
    case NextFileNumber(number) => [3] + Varint(number)
    case LastSequence(number) => [4] + Varint(number)
    case CompactPointer(level, key) => [5] + (EncodeVarint32(level) + PutLengthPrefixed(key))
    case DeletedFile(level, number) => [6] + (EncodeVarint32(level) + Varint(number))
    case NewFile(level, file) => [7] + (EncodeVarint32(level) + FileBytes(file))
    case PrevLogNumber(number) => [9] + Varint(number)
  }

  ghost predicate FieldsOk(fields: seq<Field>) {
    forall f :: f in fields ==> FieldOk(f)
  }

  function FieldsBytes(fields: seq<Field>): bytes
    requires FieldsOk(fields)
  {
    if fields == [] then [] else FieldBytes(fields[0]) + FieldsBytes(fields[1..])
  }

  // ----- parsing, on any bytes -----

  function GetLevel(s: bytes): (r: Option<Parsed<nat>>)
    ensures r.Some? ==> r.value.size <= |s| && r.value.value < NUM_LEVELS
  {
    match GetVarint32(s)
    case None => None
    case Some(v) => if v.value < NUM_LEVELS then Some(v) else None
  }

  function GetNumber(s: bytes): (r: Option<Parsed<uint64>>)
    ensures r.Some? ==> r.value.size <= |s|
  {
    match GetVarint64(s)
    case None => None
    case Some(v) => Some(Parsed(v.value, v.size))
  }

  function GetFile(s: bytes): (r: Option<Parsed<FileMetaData>>)
    ensures r.Some? ==> r.value.size <= |s|
  {
    match GetNumber(s)
    case None => None
    case Some(number) =>
      var s1 := s[number.size..];
      match GetNumber(s1)
      case None => None
      case Some(fileSize) =>
        var s2 := s1[fileSize.size..];
        match GetLengthPrefixed(s2)
        case None => None
        case Some(smallest) =>
          var s3 := s2[smallest.size..];
          match GetLengthPrefixed(s3)
          case None => None
          case Some(largest) =>
            Some(Parsed(FileMetaData(number.value, fileSize.value, smallest.value, largest.value),
                        number.size + (fileSize.size + (smallest.size + largest.size))))
  }

  /** What follows a tag; None is an error. */
  function ParseBody(tag: nat, s: bytes): (r: Option<Parsed<Field>>)
    ensures r.Some? ==> r.value.size <= |s|
  {
    if tag == 1 then
      match GetLengthPrefixed(s)
      case None => None
      case Some(name) => Some(Parsed(Comparator(name.value), name.size))
    else if tag == 2 || tag == 3 || tag == 4 || tag == 9 then
      match GetNumber(s)
      case None => None
      case Some(v) =>
        var n := v.value;
        Some(Parsed(if tag == 2 then LogNumber(n) else if tag == 3 then NextFileNumber(n)
                    else if tag == 4 then LastSequence(n) else PrevLogNumber(n), v.size))
    else if tag == 5 || tag == 6 || tag == 7 then
      match GetLevel(s)
      case None => None
      case Some(level) =>
        var rest := s[level.size..];
        if tag == 5 then
          match GetLengthPrefixed(rest)
          case None => None
          case Some(key) => Some(Parsed(CompactPointer(level.value, key.value), level.size + key.size))
        else if tag == 6 then
          match GetNumber(rest)
          case None => None
          case Some(v) => Some(Parsed(DeletedFile(level.value, v.value), level.size + v.size))
        else
          match GetFile(rest)
          case None => None
          case Some(file) => Some(Parsed(NewFile(level.value, file.value), level.size + file.size))
    else None
  }

  /** All fields up to the first error, and whether there was none. */
  function ParseFields(input: bytes): (seq<Field>, bool)
    decreases |input|
  {
    match GetVarint32(input)
    case None => ([], input == [])
    case Some(tag) =>
      match ParseBody(tag.value, input[tag.size..])
      case None => ([], false)
      case Some(f) =>
        var (more, whole) := ParseFields(input[tag.size + f.size..]);
        ([f.value] + more, whole)
  }

  // ----- fields come back -----

  lemma Cut(a: bytes, b: bytes)
    ensures (a + b)[|a|..] == b
  {
  }

  lemma Associate(a: bytes, b: bytes, c: bytes)
    ensures a + b + c == a + (b + c)
  {
  }

  lemma LevelRoundTrip(level: nat, rest: bytes)
    requires level < NUM_LEVELS
    ensures GetLevel(EncodeVarint32(level) + rest) == Some(Parsed(level, |EncodeVarint32(level)|))
    ensures (EncodeVarint32(level) + rest)[|EncodeVarint32(level)|..] == rest
  {
    Varint32RoundTrip(level, rest);
    Cut(EncodeVarint32(level), rest);
  }

  lemma NumberRoundTrip(number: uint64, rest: bytes)
    ensures GetNumber(Varint(number) + rest) == Some(Parsed(number, |Varint(number)|))
    ensures (Varint(number) + rest)[|Varint(number)|..] == rest
  {
    Varint64RoundTrip(number, rest);
    Cut(Varint(number), rest);
  }

  lemma SliceRoundTrip(s: bytes, rest: bytes)
    requires |s| < TWO_TO_32
    ensures GetLengthPrefixed(PutLengthPrefixed(s) + rest) == Some(Parsed(s, |PutLengthPrefixed(s)|))
    ensures (PutLengthPrefixed(s) + rest)[|PutLengthPrefixed(s)|..] == rest
  {
    LengthPrefixedRoundTrip(s, rest);
    Cut(PutLengthPrefixed(s), rest);
  }

  lemma FileRoundTrip(f: FileMetaData, rest: bytes)
    requires KeyOk(f.smallest) && KeyOk(f.largest)
    ensures GetFile(FileBytes(f) + rest) == Some(Parsed(f, |FileBytes(f)|))
  {
    hide GetNumber, Varint, PutLengthPrefixed, GetLengthPrefixed;
    var (a, b, c, d) := (Varint(f.number), Varint(f.fileSize), PutLengthPrefixed(f.smallest),
                         PutLengthPrefixed(f.largest));
    Associate(a, b + (c + d), rest);
    Associate(b, c + d, rest);
    Associate(c, d, rest);
    NumberRoundTrip(f.number, b + (c + (d + rest)));
    NumberRoundTrip(f.fileSize, c + (d + rest));
    SliceRoundTrip(f.smallest, d + rest);
    SliceRoundTrip(f.largest, rest);
  }

  function Tag(f: Field): byte {
    match f
    case Comparator(_) => 1
    case LogNumber(_) => 2
    case NextFileNumber(_) => 3
    case LastSequence(_) => 4
    case CompactPointer(_, _) => 5
    case DeletedFile(_, _) => 6
    case NewFile(_, _) => 7
    case PrevLogNumber(_) => 9
  }

  lemma BodyRoundTrip(f: Field, rest: bytes)
    requires FieldOk(f)
    ensures FieldBytes(f) != [] && FieldBytes(f)[0] == Tag(f)
    ensures ParseBody(Tag(f), FieldBytes(f)[1..] + rest) == Some(Parsed(f, |FieldBytes(f)| - 1))
  {
    hide GetNumber, GetLevel, GetFile, FileBytes, Varint, EncodeVarint32, PutLengthPrefixed, GetLengthPrefixed;
    match f
    case Comparator(name) => SliceRoundTrip(name, rest);
    case LogNumber(number) => NumberRoundTrip(number, rest);
    case NextFileNumber(number) => NumberRoundTrip(number, rest);
    case LastSequence(number) => NumberRoundTrip(number, rest);
    case PrevLogNumber(number) => NumberRoundTrip(number, rest);
    case CompactPointer(level, key) =>
      Associate(EncodeVarint32(level), PutLengthPrefixed(key), rest);
      LevelRoundTrip(level, PutLengthPrefixed(key) + rest);
      SliceRoundTrip(key, rest);
    case DeletedFile(level, number) =>
      Associate(EncodeVarint32(level), Varint(number), rest);
      LevelRoundTrip(level, Varint(number) + rest);
      NumberRoundTrip(number, rest);
    case NewFile(level, file) =>
      Associate(EncodeVarint32(level), FileBytes(file), rest);
      LevelRoundTrip(level, FileBytes(file) + rest);
      FileRoundTrip(file, rest);
  }

  lemma TagByte(t: byte, rest: bytes)
    requires t < 128
    ensures GetVarint32([t] + rest) == Some(Parsed(t, 1))
  {
    Varint32RoundTrip(t, rest);
  }

  lemma {:induction false} FieldsRoundTrip(fields: seq<Field>)
    requires FieldsOk(fields)
    ensures ParseFields(FieldsBytes(fields)) == (fields, true)
  {
    hide FieldBytes, ParseBody, FieldOk;
    if fields != [] {
      var (f, rest) := (fields[0], FieldsBytes(fields[1..]));
      BodyRoundTrip(f, rest);
      var body := FieldBytes(f)[1..];
      assert FieldBytes(f) + rest == [Tag(f)] + (body + rest) && (FieldBytes(f) + rest)[1..] == body + rest;
      TagByte(Tag(f), body + rest);
      Cut(FieldBytes(f), rest);
      FieldsRoundTrip(fields[1..]);
      assert [f] + fields[1..] == fields;
    }
  }

  // ----- an edit is its fields -----

  function PairBefore(a: (nat, uint64), b: (nat, uint64)): bool {
    a.0 < b.0 || (a.0 == b.0 && a.1 < b.1)
  }

  /** Inserting into an ordered set of pairs. */
  function Insert(pairs: seq<(nat, uint64)>, p: (nat, uint64)): seq<(nat, uint64)> {
    if pairs == [] then [p]
    else if pairs[0] == p then pairs
    else if PairBefore(p, pairs[0]) then [p] + pairs
    else [pairs[0]] + Insert(pairs[1..], p)
  }

  ghost predicate Ordered(pairs: seq<(nat, uint64)>) {
    forall i, j :: 0 <= i < j < |pairs| ==> PairBefore(pairs[i], pairs[j])
  }

  /** Insert behaves as on a set and keeps the order, so that deletedFiles is one in every edit. */
  lemma {:induction false} InsertIsSet(pairs: seq<(nat, uint64)>, p: (nat, uint64))
    requires Ordered(pairs)
    ensures Ordered(Insert(pairs, p)) && forall q :: q in Insert(pairs, p) <==> q in pairs || q == p
  {
    if pairs != [] {
      assert pairs == [pairs[0]] + pairs[1..];
      InsertIsSet(pairs[1..], p);
      var rest := Insert(pairs[1..], p);
      forall i | 0 <= i < |rest| && PairBefore(pairs[0], p) ensures PairBefore(pairs[0], rest[i]) {
        assert rest[i] in rest;
      }
    }
  }

  function ApplyField(e: Edit, f: Field): Edit {
    match f
    case Comparator(name) => e.(comparator := Some(name))
    case LogNumber(number) => e.(logNumber := Some(number))
    case NextFileNumber(number) => e.(nextFileNumber := Some(number))
    case LastSequence(number) => e.(lastSequence := Some(number))
    case CompactPointer(level, key) => e.(compactPointers := e.compactPointers + [(level, key)])
    case DeletedFile(level, number) => e.(deletedFiles := Insert(e.deletedFiles, (level, number)))
    case NewFile(level, file) => e.(newFiles := e.newFiles + [(level, file)])
    case PrevLogNumber(number) => e.(prevLogNumber := Some(number))
  }

  function ApplyFields(e: Edit, fields: seq<Field>): Edit
    decreases |fields|
  {
    if fields == [] then e else ApplyFields(ApplyField(e, fields[0]), fields[1..])
  }

  function Singles(e: Edit): seq<Field> {
    (if e.comparator.Some? then [Comparator(e.comparator.value)] else [])
    + (if e.logNumber.Some? then [LogNumber(e.logNumber.value)] else [])
    + (if e.prevLogNumber.Some? then [PrevLogNumber(e.prevLogNumber.value)] else [])
    + (if e.nextFileNumber.Some? then [NextFileNumber(e.nextFileNumber.value)] else [])
    + (if e.lastSequence.Some? then [LastSequence(e.lastSequence.value)] else [])
  }

  function Pointers(ps: seq<(nat, bytes)>): (fields: seq<Field>)
    ensures |fields| == |ps|
  {
    seq(|ps|, i requires 0 <= i < |ps| => CompactPointer(ps[i].0, ps[i].1))
  }

  function Deletions(ps: seq<(nat, uint64)>): (fields: seq<Field>)
    ensures |fields| == |ps|
  {
    seq(|ps|, i requires 0 <= i < |ps| => DeletedFile(ps[i].0, ps[i].1))
  }

  function Additions(ps: seq<(nat, FileMetaData)>): (fields: seq<Field>)
    ensures |fields| == |ps|
  {
    seq(|ps|, i requires 0 <= i < |ps| => NewFile(ps[i].0, ps[i].1))
  }

  /** The order in which an edit is written. */
  function Fields(e: Edit): seq<Field> {
    Singles(e) + (Pointers(e.compactPointers) + (Deletions(e.deletedFiles) + Additions(e.newFiles)))
  }

  lemma {:induction false} ApplyAppend(e: Edit, a: seq<Field>, b: seq<Field>)
    ensures ApplyFields(e, a + b) == ApplyFields(ApplyFields(e, a), b)
    decreases |a|
  {
    hide ApplyField;
    if a == [] {
      assert a + b == b;
    } else {
      assert (a + b)[0] == a[0] && (a + b)[1..] == a[1..] + b;
      ApplyAppend(ApplyField(e, a[0]), a[1..], b);
    }
  }

  lemma ApplyOne(e: Edit, f: Field)
    ensures ApplyFields(e, [f]) == ApplyField(e, f)
  {
    assert ApplyFields(e, [f]) == ApplyFields(ApplyField(e, f), [f][1..]);
  }

  lemma ApplySingles(e: Edit, d: Edit)
    requires d.comparator.None? && d.logNumber.None? && d.prevLogNumber.None? && d.nextFileNumber.None?
    requires d.lastSequence.None?
    ensures ApplyFields(d, Singles(e))
         == d.(comparator := e.comparator, logNumber := e.logNumber, prevLogNumber := e.prevLogNumber,
               nextFileNumber := e.nextFileNumber, lastSequence := e.lastSequence)
  {
    hide ApplyFields;
    var a := if e.comparator.Some? then [Comparator(e.comparator.value)] else [];
    var b := if e.logNumber.Some? then [LogNumber(e.logNumber.value)] else [];
    var c := if e.prevLogNumber.Some? then [PrevLogNumber(e.prevLogNumber.value)] else [];
    var f := if e.nextFileNumber.Some? then [NextFileNumber(e.nextFileNumber.value)] else [];
    var g := if e.lastSequence.Some? then [LastSequence(e.lastSequence.value)] else [];
    ApplyAppend(d, a + b + c + f, g);
    ApplyAppend(d, a + b + c, f);
    ApplyAppend(d, a + b, c);
    ApplyAppend(d, a, b);
    var d1 := d.(comparator := e.comparator);
    var d2 := d1.(logNumber := e.logNumber);
    var d3 := d2.(prevLogNumber := e.prevLogNumber);
    var d4 := d3.(nextFileNumber := e.nextFileNumber);
    ApplyOptional(d, a);
    ApplyOptional(d1, b);
    ApplyOptional(d2, c);
    ApplyOptional(d3, f);
    ApplyOptional(d4, g);
  }

  lemma ApplyOptional(e: Edit, fields: seq<Field>)
    requires |fields| <= 1
    ensures ApplyFields(e, fields) == if fields == [] then e else ApplyField(e, fields[0])
  {
    if fields != [] {
      assert fields == [fields[0]];
      ApplyOne(e, fields[0]);
    }
  }

  lemma {:induction false} ApplyPointers(e: Edit, ps: seq<(nat, bytes)>)
    ensures ApplyFields(e, Pointers(ps)) == e.(compactPointers := e.compactPointers + ps)
    decreases |ps|
  {
    if ps == [] {
      assert e.compactPointers + ps == e.compactPointers;
    } else {
      var last := ps[|ps| - 1];
      assert Pointers(ps) == Pointers(ps[..|ps| - 1]) + [CompactPointer(last.0, last.1)];
      ApplyPointers(e, ps[..|ps| - 1]);
      ApplyAppend(e, Pointers(ps[..|ps| - 1]), [CompactPointer(last.0, last.1)]);
      ApplyOne(e.(compactPointers := e.compactPointers + ps[..|ps| - 1]), CompactPointer(last.0, last.1));
      assert e.compactPointers + ps == e.compactPointers + ps[..|ps| - 1] + [last];
    }
  }

  lemma {:induction false} ApplyAdditions(e: Edit, ps: seq<(nat, FileMetaData)>)
    ensures ApplyFields(e, Additions(ps)) == e.(newFiles := e.newFiles + ps)
    decreases |ps|
  {
    if ps == [] {
      assert e.newFiles + ps == e.newFiles;
    } else {
      var last := ps[|ps| - 1];
      assert Additions(ps) == Additions(ps[..|ps| - 1]) + [NewFile(last.0, last.1)];
      ApplyAdditions(e, ps[..|ps| - 1]);
      ApplyAppend(e, Additions(ps[..|ps| - 1]), [NewFile(last.0, last.1)]);
      ApplyOne(e.(newFiles := e.newFiles + ps[..|ps| - 1]), NewFile(last.0, last.1));
      assert e.newFiles + ps == e.newFiles + ps[..|ps| - 1] + [last];
    }
  }

  lemma {:induction false} InsertLast(pairs: seq<(nat, uint64)>, p: (nat, uint64))
    requires forall i :: 0 <= i < |pairs| ==> PairBefore(pairs[i], p)
    ensures Insert(pairs, p) == pairs + [p]
  {
    if pairs != [] {
      InsertLast(pairs[1..], p);
      assert [pairs[0]] + (pairs[1..] + [p]) == pairs + [p];
    }
  }

  lemma {:induction false} ApplyDeletions(e: Edit, ps: seq<(nat, uint64)>)
    requires e.deletedFiles == [] && Ordered(ps)
    ensures ApplyFields(e, Deletions(ps)) == e.(deletedFiles := ps)
    decreases |ps|
  {
    if ps != [] {
      var last := ps[|ps| - 1];
      assert Deletions(ps) == Deletions(ps[..|ps| - 1]) + [DeletedFile(last.0, last.1)];
      ApplyDeletions(e, ps[..|ps| - 1]);
      ApplyAppend(e, Deletions(ps[..|ps| - 1]), [DeletedFile(last.0, last.1)]);
      ApplyOne(e.(deletedFiles := ps[..|ps| - 1]), DeletedFile(last.0, last.1));
      InsertLast(ps[..|ps| - 1], last);
      assert ps == ps[..|ps| - 1] + [last];
    }
  }

  /** Applying the fields of an edit to a cleared one gives the edit, behind the compaction pointers that
      Clear has left there. */
  lemma FieldsRestore(e: Edit, d: Edit)
    requires Ordered(e.deletedFiles)
    ensures ApplyFields(Cleared(d), Fields(e)) == e.(compactPointers := d.compactPointers + e.compactPointers)
  {
    hide ApplyFields, Singles, Pointers, Deletions, Additions, Ordered;
    var d0 := Cleared(d);
    var d1 := d0.(comparator := e.comparator, logNumber := e.logNumber, prevLogNumber := e.prevLogNumber,
                  nextFileNumber := e.nextFileNumber, lastSequence := e.lastSequence);
    var d2 := d1.(compactPointers := d.compactPointers + e.compactPointers);
    var d3 := d2.(deletedFiles := e.deletedFiles);
    var (b, c, f) := (Pointers(e.compactPointers), Deletions(e.deletedFiles), Additions(e.newFiles));
    ApplyAppend(d0, Singles(e), b + (c + f));
    ApplyAppend(d1, b, c + f);
    ApplyAppend(d2, c, f);
    ApplySingles(e, d0);
    ApplyPointers(d1, e.compactPointers);
    ApplyDeletions(d2, e.deletedFiles);
    ApplyAdditions(d3, e.newFiles);
    assert [] + e.newFiles == e.newFiles;
  }

  /** What EncodeTo asks for: levels below the limit, keys that are there, sizes that fit. */
  ghost predicate EditOk(e: Edit) {
    && (e.comparator.Some? ==> |e.comparator.value| < TWO_TO_32)
    && (forall p :: p in e.compactPointers ==> p.0 < NUM_LEVELS && KeyOk(p.1))
    && (forall p :: p in e.deletedFiles ==> p.0 < NUM_LEVELS)
    && (forall p :: p in e.newFiles ==> p.0 < NUM_LEVELS && KeyOk(p.1.smallest) && KeyOk(p.1.largest))
    && Ordered(e.deletedFiles)
  }

  lemma FieldsAreOk(e: Edit)
    requires EditOk(e)
    ensures FieldsOk(Singles(e)) && FieldsOk(Pointers(e.compactPointers))
    ensures FieldsOk(Deletions(e.deletedFiles)) && FieldsOk(Additions(e.newFiles)) && FieldsOk(Fields(e))
  {
    hide Ordered;
    assert forall f :: f in Pointers(e.compactPointers) ==> FieldOk(f);
    assert forall f :: f in Deletions(e.deletedFiles) ==> FieldOk(f);
    assert forall f :: f in Additions(e.newFiles) ==> FieldOk(f);
  }

  lemma {:induction false} BytesAppend(a: seq<Field>, b: seq<Field>)
    requires FieldsOk(a) && FieldsOk(b)
    ensures FieldsOk(a + b) && FieldsBytes(a + b) == FieldsBytes(a) + FieldsBytes(b)
  {
    hide FieldBytes, FieldOk;
    if a == [] {
      assert a + b == b;
    } else {
      assert (a + b)[0] == a[0] && (a + b)[1..] == a[1..] + b;
      BytesAppend(a[1..], b);
    }
  }

  lemma OneField(f: Field)
    requires FieldOk(f)
    ensures FieldsOk([f]) && FieldsBytes([f]) == FieldBytes(f)
  {
    hide FieldBytes;
    assert FieldsBytes([f]) == FieldBytes(f) + FieldsBytes([f][1..]);
  }

  // ----- the class -----

  datatype Status = Ok | Corruption

  class VersionEdit {
    var edit: Edit

    constructor ()
      ensures edit == FRESH
    {
      edit := FRESH;
    }

    method Clear()
      modifies this
      ensures edit == Cleared(old(edit))
    {
      edit := edit.(comparator := None, logNumber := None, prevLogNumber := None, nextFileNumber := None,
                    lastSequence := None, deletedFiles := [], newFiles := []);
    }

    method EncodeTo(dst0: bytes) returns (dst: bytes)
      requires EditOk(edit)
      ensures FieldsOk(Fields(edit)) && dst == dst0 + FieldsBytes(Fields(edit))
    {
      hide FieldBytes, FieldOk, Ordered, FieldsBytes, FieldsOk, Singles, Pointers, Deletions, Additions;
      FieldsAreOk(edit);
      NoFields(dst0);
      var e := edit;
      ghost var fields;
      dst, fields := EncodeSingles(e, dst0);
      assert fields == Singles(e) + Pointers(e.compactPointers)[..0];
      for i := 0 to |e.compactPointers|
        invariant FieldsOk(fields) && dst == dst0 + FieldsBytes(fields)
        invariant fields == Singles(e) + Pointers(e.compactPointers)[..i]
      {
        var f := CompactPointer(e.compactPointers[i].0, e.compactPointers[i].1);
        PartStep(Singles(e), Pointers(e.compactPointers), i);
        PointerAt(e.compactPointers, i);
        dst, fields := PutField(true, f, dst, dst0, fields);
      }
      ghost var b := Singles(e) + Pointers(e.compactPointers);
      PartDone(Singles(e), Pointers(e.compactPointers), |e.compactPointers|);
      for i := 0 to |e.deletedFiles|
        invariant FieldsOk(fields) && dst == dst0 + FieldsBytes(fields)
        invariant fields == b + Deletions(e.deletedFiles)[..i]
      {
        var f := DeletedFile(e.deletedFiles[i].0, e.deletedFiles[i].1);
        PartStep(b, Deletions(e.deletedFiles), i);
        DeletionAt(e.deletedFiles, i);
        dst, fields := PutField(true, f, dst, dst0, fields);
      }
      ghost var c := b + Deletions(e.deletedFiles);
      PartDone(b, Deletions(e.deletedFiles), |e.deletedFiles|);
      for i := 0 to |e.newFiles|
        invariant FieldsOk(fields) && dst == dst0 + FieldsBytes(fields)
        invariant fields == c + Additions(e.newFiles)[..i]
      {
        var f := NewFile(e.newFiles[i].0, e.newFiles[i].1);
        PartStep(c, Additions(e.newFiles), i);
        AdditionAt(e.newFiles, i);
        dst, fields := PutField(true, f, dst, dst0, fields);
      }
      PartDone(c, Additions(e.newFiles), |e.newFiles|);
      Regroup(Singles(e), Pointers(e.compactPointers), Deletions(e.deletedFiles), Additions(e.newFiles));
    }

    method DecodeFrom(src: bytes) returns (status: Status)
      modifies this
      ensures edit == ApplyFields(Cleared(old(edit)), ParseFields(src).0)
      ensures status == Ok <==> ParseFields(src).1
    {
      hide ParseBody, ApplyField;
      Clear();
      var input := src;
      status := Ok;
      var tag := GetVarint32(input);
      while status == Ok && tag.Some?
        invariant tag == GetVarint32(input)
        invariant status == Ok ==>
                    ApplyFields(edit, ParseFields(input).0) == ApplyFields(Cleared(old(edit)), ParseFields(src).0)
        invariant status == Ok ==> ParseFields(input).1 == ParseFields(src).1
        invariant status != Ok ==> edit == ApplyFields(Cleared(old(edit)), ParseFields(src).0) && !ParseFields(src).1
        decreases |input|, status == Ok
      {
        var body := ParseBody(tag.value.value, input[tag.value.size..]);
        if body.None? {
          status := Corruption;
        } else {
          ApplyFirst(edit, body.value.value, ParseFields(input[tag.value.size + body.value.size..]).0);
          edit := ApplyField(edit, body.value.value);
          input := input[tag.value.size + body.value.size..];
          tag := GetVarint32(input);
        }
      }
      if status == Ok && input != [] {
        status := Corruption;
      }
    }
  }

  lemma ApplyFirst(e: Edit, f: Field, more: seq<Field>)
    ensures ApplyFields(e, [f] + more) == ApplyFields(ApplyField(e, f), more)
  {
    hide ApplyField;
    assert ([f] + more)[1..] == more;
  }

  lemma NoFields(dst0: bytes)
    ensures FieldsOk([]) && dst0 == dst0 + FieldsBytes([])
  {
  }

  lemma PartStep(a: seq<Field>, b: seq<Field>, i: nat)
    requires i < |b| && FieldsOk(b)
    ensures a + b[..i] + [b[i]] == a + b[..i + 1] && FieldOk(b[i])
  {
    hide FieldOk;
    assert b[..i + 1] == b[..i] + [b[i]] && b[i] in b;
  }

  lemma PartDone(a: seq<Field>, b: seq<Field>, n: nat)
    requires n == |b|
    ensures a + b[..n] == a + b == a + b + []
  {
    assert b[..n] == b;
  }

  lemma Regroup(a: seq<Field>, b: seq<Field>, c: seq<Field>, d: seq<Field>)
    ensures a + b + c + d == a + (b + (c + d))
  {
  }

  lemma PointerAt(ps: seq<(nat, bytes)>, i: nat)
    requires i < |ps|
    ensures Pointers(ps)[i] == CompactPointer(ps[i].0, ps[i].1)
  {
  }

  lemma DeletionAt(ps: seq<(nat, uint64)>, i: nat)
    requires i < |ps|
    ensures Deletions(ps)[i] == DeletedFile(ps[i].0, ps[i].1)
  {
  }

  lemma AdditionAt(ps: seq<(nat, FileMetaData)>, i: nat)
    requires i < |ps|
    ensures Additions(ps)[i] == NewFile(ps[i].0, ps[i].1)
  {
  }

  /** Appends a field, if it is there, to the ones written since dst0. */
  method PutField(present: bool, f: Field, dst: bytes, ghost dst0: bytes, ghost fields: seq<Field>)
    returns (dst': bytes, ghost fields': seq<Field>)
    requires (present ==> FieldOk(f)) && FieldsOk(fields) && dst == dst0 + FieldsBytes(fields)
    ensures fields' == fields + if present then [f] else []
    ensures FieldsOk(fields') && dst' == dst0 + FieldsBytes(fields')
  {
    hide FieldBytes, FieldOk;
    if present {
      OneField(f);
      BytesAppend(fields, [f]);
      Associate(dst0, FieldsBytes(fields), FieldBytes(f));
      dst', fields' := dst + FieldBytes(f), fields + [f];
    } else {
      assert fields + [] == fields;
      dst', fields' := dst, fields;
    }
  }

  lemma NothingBefore(fields: seq<Field>)
    ensures [] + fields == fields
  {
  }

  function OrZero(o: Option<uint64>): uint64 {
    if o.Some? then o.value else 0
  }

  method EncodeSingles(e: Edit, dst0: bytes) returns (dst: bytes, ghost fields: seq<Field>)
    requires e.comparator.Some? ==> |e.comparator.value| < TWO_TO_32
    ensures fields == Singles(e) && FieldsOk(fields) && dst == dst0 + FieldsBytes(fields)
  {
    hide FieldBytes, FieldsBytes, FieldsOk, Pointers;
    NoFields(dst0);
    dst, fields := dst0, [];
    var name := if e.comparator.Some? then e.comparator.value else [];
    dst, fields := PutField(e.comparator.Some?, Comparator(name), dst, dst0, fields);
    dst, fields := PutField(e.logNumber.Some?, LogNumber(OrZero(e.logNumber)), dst, dst0, fields);
    dst, fields := PutField(e.prevLogNumber.Some?, PrevLogNumber(OrZero(e.prevLogNumber)), dst, dst0, fields);
    dst, fields := PutField(e.nextFileNumber.Some?, NextFileNumber(OrZero(e.nextFileNumber)), dst, dst0, fields);
    dst, fields := PutField(e.lastSequence.Some?, LastSequence(OrZero(e.lastSequence)), dst, dst0, fields);
    NothingBefore(if e.comparator.Some? then [Comparator(name)] else []);
    assert fields == Singles(e);
  }

  /** Decoding what was encoded restores every part of the edit. Only the compaction pointers depend on the
      object decoded into: they are appended to those it had, since Clear does not remove them. */
  method WriteThenRead(from: VersionEdit, to: VersionEdit) returns (status: Status)
    requires EditOk(from.edit) && to != from
    modifies to
    ensures status == Ok
    ensures to.edit == from.edit.(compactPointers := old(to.edit.compactPointers) + from.edit.compactPointers)
  {
    var record := from.EncodeTo([]);
    EditRoundTrip(from.edit, to.edit);
    assert [] + record == record;
    status := to.DecodeFrom(record);
  }

  lemma EditRoundTrip(e: Edit, d: Edit)
    requires EditOk(e)
    ensures FieldsOk(Fields(e))
    ensures ParseFields([] + FieldsBytes(Fields(e))).1
    ensures ApplyFields(Cleared(d), ParseFields([] + FieldsBytes(Fields(e))).0)
         == e.(compactPointers := d.compactPointers + e.compactPointers)
  {
    hide FieldsOk, FieldsBytes, Fields, ParseFields, ApplyFields;
    FieldsAreOk(e);
    FieldsRoundTrip(Fields(e));
    assert [] + FieldsBytes(Fields(e)) == FieldsBytes(Fields(e));
    FieldsRestore(e, d);
  }
}

/** The formats on disk in numbers: where each byte is and what it is, independent of the functions that both
    writers and readers are specified with. See db/log_format.h, and the comments at the head of
    db/write_batch.cc and in db/dbformat.h. */
module Formats {
  import opened Wrappers
  import opened Coding
  import opened DbFormat
  import opened LogFormat
  import opened WriteBatches
  import VersionEdits

  /** The n bytes of a number, least significant first. */
  function LittleEndian(v: nat, n: nat): (r: bytes)
    ensures |r| == n
  {
    if n == 0 then [] else [v % 256] + LittleEndian(v / 256, n - 1)
  }

  lemma Unroll4(v: nat)
    ensures LittleEndian(v, 4) == [v % 256, v / 256 % 256, v / 256 / 256 % 256, v / 256 / 256 / 256 % 256]
  {
    var (v1, v2, v3) := (v / 256, v / 256 / 256, v / 256 / 256 / 256);
    assert LittleEndian(v3, 1) == [v3 % 256] + LittleEndian(v3 / 256, 0);
    assert LittleEndian(v2, 2) == [v2 % 256] + LittleEndian(v3, 1);
    assert LittleEndian(v1, 3) == [v1 % 256] + LittleEndian(v2, 2);
    assert LittleEndian(v, 4) == [v % 256] + LittleEndian(v1, 3);
  }

  lemma Fixed32IsLittleEndian(v: uint32)
    ensures Fixed32(v) == LittleEndian(v, 4)
  {
    hide LittleEndian;
    Unroll4(v);
    assert v / 0x1_0000 == v / 256 / 256 && v / 0x100_0000 == v / 256 / 256 / 256;
  }

  lemma Low(v: nat)
    ensures var w := v % TWO_TO_32;
            && w % 256 == v % 256 && w / 256 % 256 == v / 256 % 256
            && w / 256 / 256 % 256 == v / 256 / 256 % 256 && w / 256 / 256 / 256 % 256 == v / 256 / 256 / 256 % 256
  {
    var w, h := v % TWO_TO_32, v / TWO_TO_32;
    assert v == w + TWO_TO_32 * h;
    assert v / 256 == w / 256 + 0x100_0000 * h;
    assert v / 256 / 256 == w / 256 / 256 + 0x1_0000 * h;
    assert v / 256 / 256 / 256 == w / 256 / 256 / 256 + 256 * h;
  }

  lemma Eight(v: nat)
    ensures LittleEndian(v, 8) == LittleEndian(v % TWO_TO_32, 4) + LittleEndian(v / TWO_TO_32, 4)
  {
    hide LittleEndian;
    Unroll4(v);
    Unroll4(v % TWO_TO_32);
    Low(v);
    InTwo(v, 4, 4);
    UpperOfFour(v);
  }

  function Upper(v: nat, m: nat): nat {
    if m == 0 then v else Upper(v / 256, m - 1)
  }

  lemma UpperOfFour(v: nat)
    ensures Upper(v, 4) == v / TWO_TO_32
  {
    var (v1, v2, v3) := (v / 256, v / 256 / 256, v / 256 / 256 / 256);
    assert Upper(v3, 1) == Upper(v3 / 256, 0) == v3 / 256;
    assert Upper(v2, 2) == Upper(v3, 1) && Upper(v1, 3) == Upper(v2, 2) && Upper(v, 4) == Upper(v1, 3);
  }

  lemma {:induction false} InTwo(v: nat, m: nat, n: nat)
    ensures LittleEndian(v, m + n) == LittleEndian(v, m) + LittleEndian(Upper(v, m), n)
  {
    if m > 0 {
      InTwo(v / 256, m - 1, n);
      hide LittleEndian;
      Unfold(v, m + n);
      Unfold(v, m);
    } else {
      assert LittleEndian(v, 0) + LittleEndian(v, n) == LittleEndian(v, n);
    }
  }

  lemma Unfold(v: nat, n: nat)
    requires n > 0
    ensures LittleEndian(v, n) == [v % 256] + LittleEndian(v / 256, n - 1)
  {
  }

  lemma Fixed64IsLittleEndian(v: uint64)
    ensures Fixed64(v) == LittleEndian(v, 8)
  {
    hide LittleEndian;
    Fixed32IsLittleEndian(v % TWO_TO_32);
    Fixed32IsLittleEndian(v / TWO_TO_32);
    Eight(v);
  }

  // ----- logs -----

  /** The stored checksum: rotated right by 15 bits, plus a constant. */
  function Stored(crc: uint32): uint32 {
    (crc / 32768 + crc % 32768 * 131072 + 0xa282ead8) % 0x1_0000_0000
  }

  /** The log of one record that fits a block: the checksum of the type and the record, the length in two
      bytes, the type 1, and the record. */
  lemma RecordInOneBlock(crc: Crc, record: bytes)
    requires |record| <= 32768 - 7
    ensures LogOf(crc, [record])
         == LittleEndian(Stored(crc.Value([1] + record)), 4) + LittleEndian(|record|, 2) + [1] + record
  {
    hide *;
    OneFragment(crc, record);
    HeaderBytes(crc, record);
  }

  lemma HeaderBytes(crc: Crc, record: bytes)
    requires |record| <= 0xffff
    ensures Physical(crc, 1, record)
         == LittleEndian(Stored(crc.Value([1] + record)), 4) + LittleEndian(|record|, 2) + [1] + record
  {
    hide *;
    var value := crc.Value([1] + record);
    HeaderIs(crc, record);
    MaskIsStored(value);
    Fixed32IsLittleEndian(Stored(value));
    TwoBytes(|record|);
    ThreeBytes(Fixed32(Mask(value)), |record| % 256, |record| / 256);
  }

  lemma HeaderIs(crc: Crc, record: bytes)
    requires |record| <= 0xffff
    ensures Physical(crc, 1, record)
         == Fixed32(Mask(crc.Value([1] + record))) + [|record| % 256, |record| / 256, 1] + record
  {
    hide Mask, Fixed32, Crc.Value, Crc.Extend;
    ExtendOfValue(crc, [1], record);
  }

  lemma ThreeBytes(a: bytes, b: byte, c: byte)
    ensures a + [b, c, 1] == a + [b, c] + [1]
  {
  }

  lemma MaskIsStored(crc: uint32)
    ensures Mask(crc) == Stored(crc)
  {
  }

  lemma TwoBytes(n: nat)
    requires n <= 0xffff
    ensures LittleEndian(n, 2) == [n % 256, n / 256]
  {
    assert LittleEndian(n / 256, 1) == [n / 256 % 256] + LittleEndian(n / 256 / 256, 0);
  }

  lemma OneFragment(crc: Crc, record: bytes)
    requires |record| <= 32768 - 7
    ensures LogOf(crc, [record]) == Physical(crc, 1, record)
  {
    hide Physical;
    assert Avail(0) == 32768 - 7 && Padding(0) == 0 && record[..|record|] == record;
    assert Zeros(0) + Physical(crc, 1, record) == Physical(crc, 1, record);
    assert Fragments(crc, 0, true, record) == Fragment(crc, 0, true, record);
    LayoutOfOne(crc, record);
  }

  lemma LayoutOfOne(crc: Crc, record: bytes)
    ensures LogOf(crc, [record]) == Fragments(crc, 0, true, record)
  {
    hide Fragments;
    var put := PutRecord(crc);
    assert put(0, record) == Fragments(crc, 0, true, record);
    assert Layout(put, 0, [record]) == put(0, record) + Layout(put, |put(0, record)|, [record][1..]);
    assert Layout(put, |put(0, record)|, []) == [];
  }

  /** A longer record fills its first block with a fragment of type 2, and has one of type 3 in the second
      block if it goes on behind that, and of type 4 if not. */
  lemma RecordOverBlocks(crc: Crc, record: bytes)
    requires |record| > 32768 - 7
    ensures var log := LogOf(crc, [record]);
            && |log| > 32768 + 7 && log[..32768] == Physical(crc, 2, record[..32761])
            && log[6] == 2 && log[32768 + 6] == if |record| > 2 * 32761 then 3 else 4
  {
    hide Header;
    LayoutOfOne(crc, record);
    var (first, rest) := (Fragment(crc, 0, true, record), record[32761..]);
    assert Avail(0) == 32761 && Padding(0) == 0 && AfterFragment(0, record) == 32768;
    assert FragmentLength(0, record) == 32761;
    assert first == Zeros(0) + Physical(crc, 2, record[..32761]) == Physical(crc, 2, record[..32761]);
    var second := Fragments(crc, 32768, false, rest);
    assert Fragments(crc, 0, true, record) == first + second;
    SecondBlock(crc, rest);
    TypeIsSeventh(crc, 2, record[..32761]);
  }

  lemma SecondBlock(crc: Crc, rest: bytes)
    requires rest != []
    ensures |Fragments(crc, 32768, false, rest)| > 7
    ensures Fragments(crc, 32768, false, rest)[6] == if |rest| > 32761 then 3 else 4
  {
    hide Header, Physical;
    var n := FragmentLength(32768, rest);
    assert Avail(32768) == 32761 && Padding(32768) == 0;
    var t := if |rest| > 32761 then 3 else 4;
    assert Fragment(crc, 32768, false, rest) == Zeros(0) + Physical(crc, t, rest[..n]) == Physical(crc, t, rest[..n]);
    TypeIsSeventh(crc, t, rest[..n]);
    assert Fragments(crc, 32768, false, rest)[..7 + n] == Fragment(crc, 32768, false, rest);
  }

  lemma TypeIsSeventh(crc: Crc, t: byte, payload: bytes)
    requires |payload| <= 0xffff
    ensures |Physical(crc, t, payload)| == 7 + |payload| && Physical(crc, t, payload)[6] == t
  {
  }

  /** Where a block ends. Less than seven bytes are filled with zeros; exactly seven hold the header of an
      empty first fragment. */
  lemma EndOfBlock(crc: Crc, p: nat, record: bytes)
    ensures var left := 32768 - p % 32768;
            && (left < 7 ==>
                  && |Fragments(crc, p, true, record)| > left
                  && (forall k :: 0 <= k < left ==> Fragments(crc, p, true, record)[k] == 0)
                  && Fragments(crc, p, true, record)[left..] == Fragments(crc, p + left, true, record))
            && (left == 7 && record != [] ==>
                  Fragments(crc, p, true, record) == Physical(crc, 2, []) + Fragments(crc, p + 7, false, record))
  {
    hide Physical;
    var left := 32768 - p % 32768;
    if left < 7 {
      PaddedFragment(crc, p, record);
    } else if left == 7 && record != [] {
      assert Avail(p) == 0 && Padding(p) == 0 && record[..0] == [] && record[0..] == record;
      assert Fragment(crc, p, true, record) == Zeros(0) + Physical(crc, 2, []) == Physical(crc, 2, []);
    }
  }

  lemma PaddedFragment(crc: Crc, p: nat, record: bytes)
    requires 32768 - p % 32768 < 7
    ensures var left := 32768 - p % 32768;
            Fragments(crc, p, true, record) == Zeros(left) + Fragments(crc, p + left, true, record)
  {
    hide Physical;
    var left := 32768 - p % 32768;
    var n := FragmentLength(p, record);
    assert Padding(p) == left && Padding(p + left) == 0 && Avail(p + left) == Avail(p) == 32761;
    var physical := Physical(crc, FragmentType(true, n == |record|), record[..n]);
    assert Fragment(crc, p + left, true, record) == Zeros(0) + physical == physical;
    assert Fragment(crc, p, true, record) == Zeros(left) + physical;
    if n < |record| {
      var rest := Fragments(crc, AfterFragment(p, record), false, record[n..]);
      assert Zeros(left) + physical + rest == Zeros(left) + (physical + rest);
    }
  }

  // ----- write batches -----

  /** What a batch begins with: its sequence number in eight bytes and the number of its operations in four. */
  lemma BatchHead(sequence: uint64, ops: seq<Op>)
    requires |ops| < 0x1_0000_0000
    ensures Contents(sequence, ops)
         == LittleEndian(sequence, 8) + LittleEndian(|ops|, 4) + Contents(sequence, ops)[12..]
  {
    Fixed64IsLittleEndian(sequence);
    Fixed32IsLittleEndian(|ops|);
    SmallCount(|ops|);
    hide LittleEndian, OpsBytes, Fixed64, Fixed32;
    Behind(Fixed64(sequence), Fixed32(|ops|), OpsBytes(ops));
  }

  lemma SmallCount(n: nat)
    requires n < TWO_TO_32
    ensures n % TWO_TO_32 == n
  {
  }

  lemma Behind(a: bytes, b: bytes, c: bytes)
    requires |a| == 8 && |b| == 4
    ensures a + b + c == a + b + (a + b + c)[12..]
  {
  }

  /** And its first operation: a put is the byte 1, a deletion the byte 0, with the key and the value behind
      their lengths; then come the others. */
  lemma BatchOperation(sequence: uint64, ops: seq<Op>)
    requires ops != [] && Encodable(ops[0])
    ensures var first :=
              match ops[0]
              case PutOp(key, value) => [1] + Varint(|key|) + key + Varint(|value|) + value
              case DeleteOp(key) => [0] + Varint(|key|) + key;
            Contents(sequence, ops)[12..] == first + Contents(sequence, ops[1..])[12..]
  {
    OneOperation(ops[0]);
    hide Fixed64, Fixed32, Varint, EncodeVarint32, PutOpBytes;
    BehindHead(Fixed64(sequence), Fixed32(|ops| % TWO_TO_32), OpsBytes(ops));
    BehindHead(Fixed64(sequence), Fixed32(|ops[1..]| % TWO_TO_32), OpsBytes(ops[1..]));
  }

  lemma OneOperation(op: Op)
    requires Encodable(op)
    ensures PutOpBytes(op)
         == match op
            case PutOp(key, value) => [1] + Varint(|key|) + key + Varint(|value|) + value
            case DeleteOp(key) => [0] + Varint(|key|) + key
  {
    hide Varint, PutLengthPrefixed;
    LengthInFront(op.key);
    if op.PutOp? {
      LengthInFront(op.value);
      InFront([1], Varint(|op.key|), op.key, Varint(|op.value|) + op.value);
      InFront([1] + Varint(|op.key|) + op.key, Varint(|op.value|), op.value, []);
    }
  }

  lemma LengthInFront(s: bytes)
    requires |s| < TWO_TO_32
    ensures PutLengthPrefixed(s) == Varint(|s|) + s
  {
    hide *;
    SmallCount(|s|);
    LengthModulo(s, |s|);
    UnrolledVarintIsLoop(|s|);
  }

  lemma LengthModulo(s: bytes, n: uint32)
    requires |s| % TWO_TO_32 == n
    ensures PutLengthPrefixed(s) == EncodeVarint32(n) + s
  {
    hide EncodeVarint32;
  }

  lemma InFront(a: bytes, b: bytes, c: bytes, d: bytes)
    ensures a + (b + c) + d == a + b + c + d
  {
  }

  lemma BehindHead(a: bytes, b: bytes, c: bytes)
    requires |a| == 8 && |b| == 4
    ensures (a + b + c)[12..] == c
  {
  }

  /** No other byte begins an operation, and no other number a field of an edit. */
  lemma UnknownTagsFail(input: bytes, tag: nat, rest: bytes)
    ensures input != [] && input[0] > 1 ==> ParseOp(input).None?
    ensures tag == 0 || tag == 8 || tag > 9 ==> VersionEdits.ParseBody(tag, rest).None?
  {
  }

  // ----- internal keys -----

  /** The tag behind a user key: the sequence number in the upper seven bytes, and 1 for a value, 0 for a
      deletion, in the lowest. */
  lemma InternalKeyBytes(key: ParsedInternalKey)
    requires key.sequence <= MAX_SEQUENCE
    ensures AppendInternalKey(key)
         == key.userKey + [if key.kind.TypeValue? then 1 else 0] + LittleEndian(key.sequence, 7)
  {
    var tag: nat := PackSequenceAndType(key.sequence, key.kind);
    Fixed64IsLittleEndian(tag);
    Unfold(tag, 8);
    assert tag / 256 == key.sequence && tag % 256 == if key.kind.TypeValue? then 1 else 0;
    hide LittleEndian, Fixed64;
  }

  // ----- the MANIFEST -----

  /** The tag numbers of the fields of an edit. */
  lemma EditTags(f: VersionEdits.Field)
    requires VersionEdits.FieldOk(f)
    ensures VersionEdits.FieldBytes(f) != []
    ensures VersionEdits.FieldBytes(f)[0]
         == match f
            case Comparator(_) => 1
            case LogNumber(_) => 2
            case NextFileNumber(_) => 3
            case LastSequence(_) => 4
            case CompactPointer(_, _) => 5
            case DeletedFile(_, _) => 6
            case NewFile(_, _) => 7
            case PrevLogNumber(_) => 9
  {
  }

  /** There are seven levels; a greater one is an error. */
  lemma LevelsAreChecked(level: uint32, rest: bytes)
    ensures VersionEdits.GetLevel(Varint(level) + rest)
         == if level < 7 then Some(Parsed(level, |Varint(level)|)) else None
  {
    UnrolledVarintIsLoop(level);
    Coding.Varint32RoundTrip(level, rest);
  }

  lemma EditNumbers(number: uint64, level: nat)
    requires level < 7
    ensures VersionEdits.FieldBytes(VersionEdits.LogNumber(number)) == [2] + Varint(number)
    ensures VersionEdits.FieldBytes(VersionEdits.DeletedFile(level, number)) == [6] + [level] + Varint(number)
  {
  }
}

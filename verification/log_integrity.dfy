/** What a reader returns from any file, damaged in any way: only records that are there byte for byte as the
    writer writes them, each a full fragment, or a first, middle ones and a last that lie behind each other. */
module LogIntegrity {
  import opened Coding
  import opened LogFormat
  import opened LogReader
  import opened LogRoundTrip

  /** A physical record and its place in the file. */
  datatype Part = Part(at: nat, t: byte, payload: bytes) {
    function End(): nat {
      at + HEADER_SIZE + |payload|
    }
  }

  /** It is there, with the checksum of its type and payload. */
  ghost predicate InFile(crc: Crc, file: bytes, part: Part) {
    && |part.payload| <= 0xffff && part.End() <= |file|
    && file[part.at..part.End()] == Physical(crc, part.t, part.payload)
  }

  /** Each lies where the one before it ends, but for the padding of a block. */
  ghost predicate InARow(crc: Crc, file: bytes, parts: seq<Part>) {
    && (forall k :: 0 <= k < |parts| ==> InFile(crc, file, parts[k]))
    && (forall k :: 0 < k < |parts| ==> parts[k].at == parts[k - 1].End() + Padding(parts[k - 1].End()))
  }

  function Joined(parts: seq<Part>): bytes {
    if parts == [] then [] else Joined(parts[..|parts| - 1]) + parts[|parts| - 1].payload
  }

  /** A first fragment and middle ones. */
  ghost predicate Begun(parts: seq<Part>) {
    parts != [] && parts[0].t == 2 && forall k :: 0 < k < |parts| ==> parts[k].t == 3
  }

  ghost predicate MakesRecord(parts: seq<Part>, record: bytes) {
    && parts != [] && record == Joined(parts)
    && if |parts| == 1 then parts[0].t == 1
       else Begun(parts[..|parts| - 1]) && parts[|parts| - 1].t == 4
  }

  // ----- checksums that match -----

  lemma Digits(b: byte, more: nat)
    ensures (b + 256 * more) % 256 == b && (b + 256 * more) / 256 == more
  {
  }

  lemma Fixed32OfDecoded(s: bytes)
    requires |s| == 4
    ensures Fixed32(DecodeFixed32(s)) == s
  {
    var (b1: int, b2: int, b3: int) := (s[1], s[2], s[3]);
    var v := DecodeFixed32(s);
    assert v == s[0] + 256 * (b1 + 256 * (b2 + 256 * b3));
    Digits(s[0], b1 + 256 * (b2 + 256 * b3));
    Digits(s[1], b2 + 256 * b3);
    Digits(s[2], b3);
    hide DecodeFixed32;
    ByteByByte(v);
  }

  lemma ByteByByte(v: uint32)
    ensures v / 0x1_0000 == v / 256 / 256 && v / 0x100_0000 == v / 256 / 256 / 256
  {
  }

  lemma MaskOfUnmasked(masked: uint32)
    ensures Mask(Unmask(masked)) == masked
  {
    var rot := (masked - MASK_DELTA) % TWO_TO_32;
    assert (rot / 0x2_0000 + rot % 0x2_0000 * 0x8000) % 0x8000 == rot / 0x2_0000;
    assert (rot / 0x2_0000 + rot % 0x2_0000 * 0x8000) / 0x8000 == rot % 0x2_0000;
  }

  /** A buffer whose checksum matches begins with the physical record of its type and payload. */
  lemma MatchIsPhysical(crc: Crc, b: bytes, length: nat)
    requires |b| >= HEADER_SIZE + length && length == b[4] + 256 * (b[5] as int)
    requires crc.Value(b[6..HEADER_SIZE + length]) == Unmask(DecodeFixed32(b[..4]))
    ensures length <= 0xffff
    ensures b[..HEADER_SIZE + length] == Physical(crc, b[6], b[HEADER_SIZE..HEADER_SIZE + length])
  {
    var payload := b[HEADER_SIZE..HEADER_SIZE + length];
    assert b[6..HEADER_SIZE + length] == [b[6]] + payload;
    ExtendOfValue(crc, [b[6]], payload);
    MaskOfUnmasked(DecodeFixed32(b[..4]));
    Fixed32OfDecoded(b[..4]);
    hide Mask, Unmask, DecodeFixed32, Fixed32;
    assert b[..HEADER_SIZE + length] == b[..4] + [b[4], b[5], b[6]] + payload;
    assert length % 256 == b[4] && length / 256 == b[5];
  }

  // ----- reading -----

  /** The types of fragments. */
  predicate IsFragment(code: nat) {
    code == 1 || code == 2 || code == 3 || code == 4
  }

  lemma FilledStays(file: bytes, st: State, p: nat) returns (q: nat)
    requires At(file, st, p)
    ensures p <= q && At(file, Filled(file, st), q)
  {
    q := if |st.buffer| < HEADER_SIZE && !st.eof then st.end else p;
  }

  /** Dropping the buffer. */
  lemma EmptiedAt(file: bytes, st: State, p: nat, st': State)
    requires At(file, st, p) && st' == st.(buffer := [], drops := st'.drops)
    ensures p <= st.end && At(file, st', st.end)
  {
  }

  lemma ConsumedAt(file: bytes, st: State, p: nat, n: nat, st': State)
    requires At(file, st, p) && n <= |st.buffer| && st' == st.(buffer := st.buffer[n..])
    ensures At(file, st', p + n) && file[p..p + n] == st.buffer[..n]
  {
  }

  /** Either the checksum matches and the record is taken, or the buffer is dropped. */
  ghost predicate Taken(crc: Crc, st: State, r: PhysicalResult)
    requires |st.buffer| >= HEADER_SIZE
  {
    var b, length := st.buffer, st.buffer[4] + 256 * (st.buffer[5] as int);
    && HEADER_SIZE + length <= |b| && crc.Value(b[6..HEADER_SIZE + length]) == Unmask(DecodeFixed32(b[..4]))
    && r == PhysicalRead(b[6], b[HEADER_SIZE..HEADER_SIZE + length], st.(buffer := b[HEADER_SIZE + length..]))
  }

  lemma TakenOrDropped(crc: Crc, st: State)
    requires |st.buffer| >= HEADER_SIZE
    ensures var r := TakeRecord(crc, st);
            Taken(crc, st, r) || (!IsFragment(r.code) && r.st == st.(buffer := [], drops := r.st.drops))
  {
    hide Unmask, DecodeFixed32;
  }

  /** A record whose checksum does not match is reported, and the rest of its block is not used. */
  lemma MismatchIsReported(crc: Crc, st: State)
    requires |st.buffer| >= HEADER_SIZE
    requires var b, length := st.buffer, st.buffer[4] + 256 * (st.buffer[5] as int);
             && HEADER_SIZE + length <= |b| && (b[6] != 0 || length != 0)
             && crc.Value(b[6..HEADER_SIZE + length]) != Unmask(DecodeFixed32(b[..4]))
    ensures var r := TakeRecord(crc, st);
            r.code == BAD_RECORD && r.fragment == [] && r.st.buffer == [] && r.st.drops == st.drops + 1
  {
    hide Unmask, DecodeFixed32;
  }

  lemma TakenIs(crc: Crc, file: bytes, st: State, p: nat) returns (p': nat)
    requires At(file, st, p) && |st.buffer| >= HEADER_SIZE
    ensures var r := TakeRecord(crc, st);
            && p <= p' && At(file, r.st, p')
            && (IsFragment(r.code) ==>
                  InFile(crc, file, Part(p, r.code, r.fragment)) && p' == p + HEADER_SIZE + |r.fragment|)
  {
    var (r, b) := (TakeRecord(crc, st), st.buffer);
    TakenOrDropped(crc, st);
    hide At, Unmask, DecodeFixed32, Physical, TakeRecord;
    AtInFile(file, st, p);
    if Taken(crc, st, r) {
      var length := b[4] + 256 * (b[5] as int);
      ConsumedAt(file, st, p, HEADER_SIZE + length, r.st);
      MatchIsPhysical(crc, b, length);
      p' := p + HEADER_SIZE + length;
      AtInFile(file, r.st, p');
    } else {
      EmptiedAt(file, st, p, r.st);
      p' := st.end;
    }
  }

  /** A fragment that is returned is in the file, right behind what was read before but for padding. */
  lemma PhysicalIs(crc: Crc, file: bytes, st: State, p: nat) returns (p': nat)
    requires At(file, st, p)
    ensures st.end <= |file|
    ensures var r := ReadPhysical(crc, file, st);
            && p <= p' && At(file, r.st, p')
            && (IsFragment(r.code) ==>
                  var part := Part(p + Padding(p), r.code, r.fragment);
                  InFile(crc, file, part) && p' == part.End())
  {
    AtInFile(file, st, p);
    FilledAt(file, st, p);
    var f := Filled(file, st);
    if |f.buffer| >= HEADER_SIZE {
      hide At, TakeRecord, Filled, InFile, Padding;
      p' := TakenIs(crc, file, f, p + Padding(p));
    } else {
      var q := FilledStays(file, st, p);
      EmptiedAt(file, f, q, f.(buffer := []));
      p' := f.end;
    }
  }

  // ----- records -----

  /** The fragments of the record in progress: they end where reading goes on. */
  ghost predicate InProgress(crc: Crc, file: bytes, parts: seq<Part>, scratch: bytes, p: nat) {
    Begun(parts) && InARow(crc, file, parts) && scratch == Joined(parts) && p == parts[|parts| - 1].End()
  }

  lemma OneMore(crc: Crc, file: bytes, parts: seq<Part>, part: Part)
    requires parts != [] && InARow(crc, file, parts) && InFile(crc, file, part)
    requires part.at == parts[|parts| - 1].End() + Padding(parts[|parts| - 1].End())
    ensures InARow(crc, file, parts + [part]) && Joined(parts + [part]) == Joined(parts) + part.payload
  {
    hide InFile, Padding;
    assert (parts + [part])[..|parts|] == parts;
  }

  lemma JustOne(crc: Crc, file: bytes, part: Part)
    requires InFile(crc, file, part)
    ensures InARow(crc, file, [part]) && Joined([part]) == part.payload
  {
    assert [part][..0] == [];
  }

  /** A record that is returned lies in the file, from 'low' on and before the place reached then. */
  ghost predicate LiesBetween(crc: Crc, file: bytes, low: nat, parts: seq<Part>, record: bytes, high: nat) {
    && MakesRecord(parts, record) && InARow(crc, file, parts)
    && low <= parts[0].at && parts[|parts| - 1].End() <= high
  }

  lemma {:induction false} LogicalIs(crc: Crc, file: bytes, st: State, p: nat, scratch: bytes, inFragment: bool,
                                     low: nat, parts: seq<Part>) returns (made: seq<Part>, p': nat)
    requires At(file, st, p) && st.end <= |file| && low <= p
    requires inFragment ==> InProgress(crc, file, parts, scratch, p) && low <= parts[0].at
    ensures var (record, st') := ReadLogical(crc, file, st, scratch, inFragment);
            && p <= p' && At(file, st', p')
            && (record.Some? ==> LiesBetween(crc, file, low, made, record.value, p'))
    decreases Unread(file, st)
  {
    hide At, ReadPhysical, InFile, Padding;
    var read := ReadPhysical(crc, file, st);
    var q := PhysicalIs(crc, file, st, p);
    AtInFile(file, read.st, q);
    var part := if IsFragment(read.code) then Part(p + Padding(p), read.code, read.fragment) else Part(0, 0, []);
    var more := parts + [part];
    if IsFragment(read.code) {
      JustOne(crc, file, part);
      if inFragment {
        OneMore(crc, file, parts, part);
        assert more[..|parts|] == parts;
      }
    }
    match HandleRecord(read.code, read.fragment, read.st, scratch, inFragment)
    case Return(record, st') =>
      made, p' := if read.code == 1 then [part] else more, q;
      SameAt(file, read.st, q, st');
    case Again(st', scratch', inFragment') =>
      SameAt(file, read.st, q, st');
      made, p' := LogicalIs(crc, file, st', q, scratch', inFragment', low, if read.code == 2 then [part] else more);
  }

  lemma SameAt(file: bytes, st: State, p: nat, st': State)
    requires At(file, st, p) && st' == st.(drops := st'.drops)
    ensures At(file, st', p)
  {
  }

  /** The records lie behind each other. */
  ghost predicate LieInOrder(crc: Crc, file: bytes, low: nat, made: seq<seq<Part>>, records: seq<bytes>)
    decreases |records|
  {
    && |made| == |records|
    && (records != [] ==>
          && made[0] != []
          && LiesBetween(crc, file, low, made[0], records[0], made[0][|made[0]| - 1].End())
          && LieInOrder(crc, file, made[0][|made[0]| - 1].End(), made[1..], records[1..]))
  }

  lemma {:induction false} LowerStill(crc: Crc, file: bytes, low: nat, low': nat, made: seq<seq<Part>>,
                                      records: seq<bytes>)
    requires LieInOrder(crc, file, low, made, records) && low' <= low
    ensures LieInOrder(crc, file, low', made, records)
  {
  }

  lemma {:induction false} AllAre(crc: Crc, file: bytes, st: State, p: nat) returns (made: seq<seq<Part>>)
    requires At(file, st, p) && st.end <= |file|
    ensures LieInOrder(crc, file, p, made, ReadAll(crc, file, st).0)
    decreases Unread(file, st)
  {
    hide At, ReadLogical, InARow, MakesRecord;
    var (record, st') := ReadLogical(crc, file, st, [], false);
    var parts, p' := LogicalIs(crc, file, st, p, [], false, p, []);
    if record.None? {
      made := [];
    } else {
      AtInFile(file, st', p');
      var more := AllAre(crc, file, st', p');
      NotEmpty(parts, record.value);
      made := [parts] + more;
      assert made[1..] == more;
      LowerStill(crc, file, p', parts[|parts| - 1].End(), more, ReadAll(crc, file, st').0);
    }
  }

  lemma NotEmpty(parts: seq<Part>, record: bytes)
    requires MakesRecord(parts, record)
    ensures parts != []
  {
  }

  /** Whatever is in the file, every record read from it is there as the writer writes records, checksums and
      all, and the records lie in the order in which they are read. */
  lemma RecordsAreWritten(crc: Crc, file: bytes) returns (made: seq<seq<Part>>)
    ensures LieInOrder(crc, file, 0, made, ReadAll(crc, file, START).0)
  {
    assert file[0..0] == [];
    made := AllAre(crc, file, START, 0);
  }
}

/** The log file format of db/log_format.h: 32 KiB blocks of physical records, each a checksum, a
    length, a type and a payload that never crosses a block boundary. */
module LogFormat {
  import opened Coding

  const BLOCK_SIZE: nat := 32768
  const HEADER_SIZE: nat := 7

  // Record types; zero is reserved for preallocated files.
  const FULL_TYPE: byte := 1
  const FIRST_TYPE: byte := 2
  const MIDDLE_TYPE: byte := 3
  const LAST_TYPE: byte := 4

  // ----- checksums -----

  function CrcFold(step: (uint32, byte) -> uint32, l: uint32, data: bytes): uint32
    decreases |data|
  {
    if data == [] then l else CrcFold(step, step(l, data[0]), data[1..])
  }

  /** Exclusive or with all ones. */
  function Flip(l: uint32): uint32 {
    0xffffffff - l
  }

  /** A checksum that folds a step over the bytes, conditioned before and after, as CRC32C does. Nothing
      about logs depends on which step it is. */
  datatype Crc = Crc(step: (uint32, byte) -> uint32) {
    /** The checksum of concat(A, data), where l is the checksum of A. */
    function Extend(l: uint32, data: bytes): uint32 {
      Flip(CrcFold(step, Flip(l), data))
    }

    function Value(data: bytes): uint32 {
      Extend(0, data)
    }
  }

  lemma {:induction false} CrcFoldAppend(step: (uint32, byte) -> uint32, l: uint32, a: bytes, b: bytes)
    ensures CrcFold(step, l, a + b) == CrcFold(step, CrcFold(step, l, a), b)
    decreases |a|
  {
    if a == [] {
      assert a + b == b;
    } else {
      assert (a + b)[1..] == a[1..] + b && (a + b)[0] == a[0];
      CrcFoldAppend(step, step(l, a[0]), a[1..], b);
    }
  }

  lemma ExtendOfValue(crc: Crc, a: bytes, b: bytes)
    ensures crc.Extend(crc.Value(a), b) == crc.Value(a + b)
  {
    CrcFoldAppend(crc.step, Flip(0), a, b);
  }

  // ----- physical records -----

  /** The stored checksum extends the precomputed checksum of the type byte by the payload, masked. */
  function Header(crc: Crc, t: byte, payload: bytes): (r: bytes)
    requires |payload| <= 0xffff
    ensures |r| == HEADER_SIZE
  {
    Fixed32(Mask(crc.Extend(crc.Value([t]), payload))) + [|payload| % 256, |payload| / 256, t]
  }

  /** What EmitPhysicalRecord writes. */
  function Physical(crc: Crc, t: byte, payload: bytes): (r: bytes)
    requires |payload| <= 0xffff
    ensures |r| == HEADER_SIZE + |payload|
  {
    Header(crc, t, payload) + payload
  }

  /** The parts of a physical record as ReadPhysicalRecord takes them apart. */
  lemma PhysicalParts(crc: Crc, t: byte, payload: bytes)
    requires |payload| <= 0xffff
    ensures var r := Physical(crc, t, payload);
            && r[4] + 256 * (r[5] as int) == |payload| && r[6] == t && r[7..] == payload
            && Unmask(DecodeFixed32(r[..4])) == crc.Value([r[6]] + r[7..])
  {
    var r := Physical(crc, t, payload);
    var value := crc.Extend(crc.Value([t]), payload);
    assert r[..4] == Fixed32(Mask(value)) && r[7..] == payload;
    Fixed32RoundTrip(Mask(value));
    MaskRoundTrip(value);
    ExtendOfValue(crc, [t], payload);
  }

  // ----- records over blocks -----

  function Zeros(n: nat): (r: bytes)
    ensures |r| == n
  {
    seq(n, _ => 0)
  }

  /** The trailer that fills a block with no room for another header. */
  function Padding(p: nat): (n: nat)
    ensures n < HEADER_SIZE
    ensures (p + n) % BLOCK_SIZE <= BLOCK_SIZE - HEADER_SIZE
    ensures n > 0 ==> (p + n) % BLOCK_SIZE == 0
  {
    var leftover := BLOCK_SIZE - p % BLOCK_SIZE;
    if leftover < HEADER_SIZE then leftover else 0
  }

  lemma WithinBlock(p: nat, n: nat, after: nat)
    requires p % BLOCK_SIZE + n <= BLOCK_SIZE && after == p + n
    ensures after % BLOCK_SIZE == if p % BLOCK_SIZE + n == BLOCK_SIZE then 0 else p % BLOCK_SIZE + n
  {
  }

  /** How much payload the next physical record of a file of length p can take. */
  function Avail(p: nat): nat {
    BLOCK_SIZE - (p + Padding(p)) % BLOCK_SIZE - HEADER_SIZE
  }

  function FragmentLength(p: nat, data: bytes): (n: nat)
    ensures n <= |data| && n <= Avail(p)
  {
    if |data| < Avail(p) then |data| else Avail(p)
  }

  function FragmentType(begin: bool, end: bool): byte {
    if begin && end then FULL_TYPE
    else if begin then FIRST_TYPE
    else if end then LAST_TYPE
    else MIDDLE_TYPE
  }

  /** The padding and the next physical record that AddRecord puts at the end of a file of length p. */
  function Fragment(crc: Crc, p: nat, begin: bool, data: bytes): (r: bytes)
    ensures |r| == Padding(p) + HEADER_SIZE + FragmentLength(p, data)
  {
    var n := FragmentLength(p, data);
    Zeros(Padding(p)) + Physical(crc, FragmentType(begin, n == |data|), data[..n])
  }

  /** The file length after that physical record. */
  function AfterFragment(p: nat, data: bytes): nat {
    p + Padding(p) + HEADER_SIZE + FragmentLength(p, data)
  }

  /** A fragment is empty only when its header just fits; the next one then has a whole block. */
  lemma Progress(p: nat, data: bytes)
    requires FragmentLength(p, data) < |data|
    ensures FragmentLength(p, data) == 0 ==> Avail(p) == 0 && Avail(AfterFragment(p, data)) > 0
  {
  }

  /** All that AddRecord still writes for the rest of a record, at the end of a file of length p. */
  function Fragments(crc: Crc, p: nat, begin: bool, data: bytes): bytes
    decreases |data|, Avail(p) == 0
  {
    var n := FragmentLength(p, data);
    if n == |data| then Fragment(crc, p, begin, data)
    else
      Progress(p, data);
      Fragment(crc, p, begin, data) + Fragments(crc, AfterFragment(p, data), false, data[n..])
  }

  function PutRecord(crc: Crc): (nat, bytes) -> bytes {
    (p: nat, record: bytes) => Fragments(crc, p, true, record)
  }

  /** Items laid end to end from position p on, where the form of an item may depend on its position. */
  function Layout(put: (nat, bytes) -> bytes, p: nat, items: seq<bytes>): bytes
    decreases |items|
  {
    if items == [] then []
    else
      var first := put(p, items[0]);
      first + Layout(put, p + |first|, items[1..])
  }

  lemma {:induction false} LayoutAppend(put: (nat, bytes) -> bytes, p: nat, a: seq<bytes>, b: seq<bytes>)
    ensures Layout(put, p, a + b) == Layout(put, p, a) + Layout(put, p + |Layout(put, p, a)|, b)
    decreases |a|
  {
    if a == [] {
      assert a + b == b;
    } else {
      assert (a + b)[0] == a[0] && (a + b)[1..] == a[1..] + b;
      LayoutAppend(put, p + |put(p, a[0])|, a[1..], b);
    }
  }

  lemma LayoutExtend(put: (nat, bytes) -> bytes, items: seq<bytes>, i: nat)
    requires i < |items|
    ensures Layout(put, 0, items[..i + 1])
         == Layout(put, 0, items[..i]) + put(|Layout(put, 0, items[..i])|, items[i])
  {
    assert items[..i + 1] == items[..i] + [items[i]];
    LayoutAppend(put, 0, items[..i], [items[i]]);
    var p := |Layout(put, 0, items[..i])|;
    assert Layout(put, p, [items[i]]) == put(p, items[i]) + Layout(put, p + |put(p, items[i])|, []);
  }

  /** The bytes of a log that holds these records. */
  function LogOf(crc: Crc, records: seq<bytes>): bytes {
    Layout(PutRecord(crc), 0, records)
  }
}

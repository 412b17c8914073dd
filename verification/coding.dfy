/** Endian-neutral byte coding of util/coding.cc, and the masking arithmetic of util/crc32c.h.
    A byte is an integer below 256; 'v | 128' on a 7-bit group is written 'v + 128'. */
module Coding {
  import opened Wrappers

  const TWO_TO_32: nat := 0x1_0000_0000
  const TWO_TO_64: nat := 0x1_0000_0000_0000_0000

  type byte = x: int | 0 <= x < 256
  type bytes = seq<byte>
  type uint32 = x: int | 0 <= x < TWO_TO_32
  type uint64 = x: int | 0 <= x < TWO_TO_64

  // ----- fixed-width integers, least significant byte first -----

  function Fixed32(v: uint32): (r: bytes)
    ensures |r| == 4
  {
    [v % 256, v / 256 % 256, v / 0x1_0000 % 256, v / 0x100_0000]
  }

  function DecodeFixed32(s: bytes): (v: uint32)
    requires |s| == 4
  {
    var (b0: int, b1: int, b2: int, b3: int) := (s[0], s[1], s[2], s[3]);
    b0 + 256 * b1 + 0x1_0000 * b2 + 0x100_0000 * b3
  }

  function Fixed64(v: uint64): (r: bytes)
    ensures |r| == 8
  {
    Fixed32(v % TWO_TO_32) + Fixed32(v / TWO_TO_32)
  }

  function DecodeFixed64(s: bytes): (v: uint64)
    requires |s| == 8
  {
    DecodeFixed32(s[..4]) + TWO_TO_32 * DecodeFixed32(s[4..])
  }

  lemma Fixed32RoundTrip(v: uint32)
    ensures DecodeFixed32(Fixed32(v)) == v
  {
    assert v / 0x1_0000 == v / 256 / 256 && v / 0x100_0000 == v / 256 / 256 / 256;
  }

  lemma Fixed64RoundTrip(v: uint64)
    ensures DecodeFixed64(Fixed64(v)) == v
  {
    var r := Fixed64(v);
    assert r[..4] == Fixed32(v % TWO_TO_32) && r[4..] == Fixed32(v / TWO_TO_32);
    Fixed32RoundTrip(v % TWO_TO_32);
    Fixed32RoundTrip(v / TWO_TO_32);
  }

  // ----- base-128 varints -----

  function Varint(v: nat): (r: bytes)
    ensures |r| >= 1
    decreases v
  {
    if v < 128 then [v] else [v % 128 + 128] + Varint(v / 128)
  }

  /** The unrolled 32-bit encoder. */
  function EncodeVarint32(v: uint32): bytes {
    if v < 0x80 then [v]
    else if v < 0x4000 then [v % 128 + 128, v / 128]
    else if v < 0x20_0000 then [v % 128 + 128, v / 128 % 128 + 128, v / 0x4000]
    else if v < 0x1000_0000 then
      [v % 128 + 128, v / 128 % 128 + 128, v / 0x4000 % 128 + 128, v / 0x20_0000]
    else
      [v % 128 + 128, v / 128 % 128 + 128, v / 0x4000 % 128 + 128, v / 0x20_0000 % 128 + 128,
       v / 0x1000_0000]
  }

  lemma VarintUnfolds(v: nat)
    ensures v < 128 ==> Varint(v) == [v]
    ensures v >= 128 ==> Varint(v) == [v % 128 + 128] + Varint(v / 128)
  {
  }

  lemma Quotients(v: nat)
    ensures v / 128 / 128 == v / 0x4000 && v / 0x4000 / 128 == v / 0x20_0000 && v / 0x20_0000 / 128 == v / 0x1000_0000
  {
  }

  lemma UnrolledVarintIsLoop(v: uint32)
    ensures EncodeVarint32(v) == Varint(v)
  {
    hide Varint;
    Quotients(v);
    VarintUnfolds(v);
    VarintUnfolds(v / 128);
    VarintUnfolds(v / 0x4000);
    VarintUnfolds(v / 0x20_0000);
    VarintUnfolds(v / 0x1000_0000);
  }

  /** The result of a parse: what was read and how many bytes it took. */
  datatype Parsed<+T> = Parsed(value: T, size: nat)

  function Pow128(k: nat): (r: nat)
    ensures r >= 1
  {
    if k == 0 then 1 else 128 * Pow128(k - 1)
  }

  /** The decoding loop shared by GetVarint32Ptr (5 bytes, modulo 2^32) and GetVarint64Ptr
      (10 bytes, modulo 2^64): byte number k is at shift 7 * k. */
  function GetVarint(s: bytes, width: nat, modulus: nat, k: nat, acc: nat): (r: Option<Parsed<nat>>)
    requires modulus > 0
    ensures r.Some? ==> k < r.value.size <= k + |s| && r.value.value < modulus
    decreases |s|
  {
    if k >= width || s == [] then None
    else
      var next := (acc + s[0] % 128 * Pow128(k)) % modulus;
      if s[0] < 128 then Some(Parsed(next, k + 1))
      else GetVarint(s[1..], width, modulus, k + 1, next)
  }

  function GetVarint32(s: bytes): Option<Parsed<nat>> {
    GetVarint(s, 5, TWO_TO_32, 0, 0)
  }

  function GetVarint64(s: bytes): Option<Parsed<nat>> {
    GetVarint(s, 10, TWO_TO_64, 0, 0)
  }

  lemma {:induction false} VarintLength(v: nat, n: nat)
    requires v < Pow128(n)
    ensures n > 0 ==> |Varint(v)| <= n
  {
    if n > 1 && v >= 128 {
      VarintLength(v / 128, n - 1);
    }
  }

  lemma SplitProduct(v: nat, p: nat)
    ensures v * p == v % 128 * p + v / 128 * (128 * p)
    ensures 0 <= v % 128 * p <= v * p
  {
    var (q, r) := (v / 128, v % 128);
    assert v == r + 128 * q;
    assert v * p == r * p + (128 * q) * p;
    assert (128 * q) * p == q * (128 * p);
  }

  lemma SmallMod(x: nat, m: nat)
    requires x < m
    ensures x % m == x
  {
  }

  lemma {:induction false} VarintRoundTrip(v: nat, rest: bytes, width: nat, modulus: nat, k: nat, acc: nat)
    requires k + |Varint(v)| <= width
    requires acc + v * Pow128(k) < modulus
    ensures GetVarint(Varint(v) + rest, width, modulus, k, acc)
         == Some(Parsed(acc + v * Pow128(k), k + |Varint(v)|))
    decreases v
  {
    var s := Varint(v) + rest;
    var p := Pow128(k);
    SplitProduct(v, p);
    var next := acc + v % 128 * p;
    SmallMod(next, modulus);
    if v < 128 {
      assert s[0] == v;
    } else {
      assert s[0] % 128 == v % 128 && s[0] >= 128;
      assert s[1..] == Varint(v / 128) + rest;
      assert Pow128(k + 1) == 128 * p;
      VarintRoundTrip(v / 128, rest, width, modulus, k + 1, next);
    }
  }

  lemma Varint32RoundTrip(v: uint32, rest: bytes)
    ensures GetVarint32(EncodeVarint32(v) + rest) == Some(Parsed(v, |EncodeVarint32(v)|))
  {
    UnrolledVarintIsLoop(v);
    assert Pow128(5) == 0x8_0000_0000;
    VarintLength(v, 5);
    VarintRoundTrip(v, rest, 5, TWO_TO_32, 0, 0);
  }

  lemma Varint64RoundTrip(v: uint64, rest: bytes)
    ensures GetVarint64(Varint(v) + rest) == Some(Parsed(v, |Varint(v)|))
  {
    assert Pow128(5) == 0x8_0000_0000;
    assert Pow128(10) == Pow128(5) * 0x8_0000_0000;
    VarintLength(v, 10);
    VarintRoundTrip(v, rest, 10, TWO_TO_64, 0, 0);
  }

  // ----- length-prefixed slices -----

  function PutLengthPrefixed(s: bytes): bytes {
    EncodeVarint32(|s| % TWO_TO_32) + s
  }

  function GetLengthPrefixed(s: bytes): (r: Option<Parsed<bytes>>)
    ensures r.Some? ==> r.value.size <= |s|
  {
    match GetVarint32(s)
    case None => None
    case Some(len) =>
      if |s| - len.size < len.value then None
      else Some(Parsed(s[len.size..len.size + len.value], len.size + len.value))
  }

  lemma LengthPrefixedRoundTrip(s: bytes, rest: bytes)
    requires |s| < TWO_TO_32
    ensures GetLengthPrefixed(PutLengthPrefixed(s) + rest) == Some(Parsed(s, |PutLengthPrefixed(s)|))
  {
    var input := PutLengthPrefixed(s) + rest;
    assert input == EncodeVarint32(|s|) + (s + rest);
    Varint32RoundTrip(|s|, s + rest);
  }

  // ----- checksum masking -----

  const MASK_DELTA: nat := 0xa282ead8

  /** Rotate right by 15 bits, then add a constant, modulo 2^32. */
  function Mask(crc: uint32): uint32 {
    (crc / 0x8000 + crc % 0x8000 * 0x2_0000 + MASK_DELTA) % TWO_TO_32
  }

  function Unmask(masked: uint32): uint32 {
    var rot := (masked - MASK_DELTA) % TWO_TO_32;
    rot / 0x2_0000 + rot % 0x2_0000 * 0x8000
  }

  lemma MaskRoundTrip(crc: uint32)
    ensures Unmask(Mask(crc)) == crc
  {
    var rot := crc / 0x8000 + crc % 0x8000 * 0x2_0000;
    assert (Mask(crc) - MASK_DELTA) % TWO_TO_32 == rot;
    assert rot / 0x2_0000 == crc % 0x8000 && rot % 0x2_0000 == crc / 0x8000;
  }
}

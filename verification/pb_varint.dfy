/** The variable-length integers of nanopb: pb_encode_varint, the 64-bit and the 32-bit decoder, and
    zigzag coding. See "Base 128 Varints" and "Signed Integers" in the Protocol Buffers encoding guide. */
module PbVarints {
  import opened Wrappers
  import opened Coding

  const TWO_TO_31: int := 0x8000_0000
  const TWO_TO_63: int := 0x8000_0000_0000_0000

  type int64 = x: int | -TWO_TO_63 <= x < TWO_TO_63

  // ----- encoding -----

  /** The groups of a value, each with the continuation bit. */
  function Groups(v: nat): bytes {
    if v == 0 then [] else [v % 128 + 128] + Groups(v / 128)
  }

  lemma {:induction false} GroupsAreVarint(v: nat)
    requires v > 0
    ensures var g := Groups(v);
            |g| >= 1 && g[|g| - 1] >= 128 && Varint(v) == g[..|g| - 1] + [g[|g| - 1] - 128]
  {
    if v >= 128 {
      GroupsAreVarint(v / 128);
      var g, h := Groups(v), Groups(v / 128);
      assert g[..|g| - 1] == [v % 128 + 128] + h[..|h| - 1];
    }
  }

  lemma TenBytes(v: uint64)
    ensures |Varint(v)| <= 10
  {
    assert Pow128(5) == 0x8_0000_0000;
    assert Pow128(10) == Pow128(5) * 0x8_0000_0000;
    VarintLength(v, 10);
  }

  lemma NextGroup(buffer: bytes, v: nat)
    requires v > 0
    ensures buffer + Groups(v) == buffer + [v % 128 + 128] + Groups(v / 128)
  {
    assert buffer + ([v % 128 + 128] + Groups(v / 128)) == buffer + [v % 128 + 128] + Groups(v / 128);
  }

  lemma NoGroups(value: nat)
    ensures Groups(0) == [] && [] + Groups(value) == Groups(value)
  {
  }

  method EncodeVarint(value: nat) returns (buffer: bytes)
    ensures buffer == Varint(value) && 1 <= |buffer|
    ensures value < TWO_TO_64 ==> |buffer| <= 10
  {
    if value < TWO_TO_64 {
      TenBytes(value);
    }
    hide Groups;
    NoGroups(value);
    if value <= 0x7f {
      return [value];
    }
    buffer := [];
    var v: nat := value;
    while v != 0
      invariant buffer + Groups(v) == Groups(value)
      decreases v
    {
      NextGroup(buffer, v);
      buffer := buffer + [v % 128 + 128];
      v := v / 128;
    }
    GroupsAreVarint(value);
    buffer := buffer[|buffer| - 1 := buffer[|buffer| - 1] - 128];
  }

  // ----- the 32-bit decoder -----

  function Pow2(n: nat): (p: nat)
    ensures p > 0
  {
    if n == 0 then 1 else 2 * Pow2(n - 1)
  }

  /** Bitwise or. */
  function Or(a: nat, b: nat): nat {
    if a == 0 && b == 0 then 0
    else (if a % 2 == 1 || b % 2 == 1 then 1 else 0) + 2 * Or(a / 2, b / 2)
  }

  lemma {:induction false} OrBelow(a: nat, b: nat, n: nat)
    requires a < Pow2(n) && b < Pow2(n)
    ensures Or(a, b) < Pow2(n)
  {
    if n > 0 {
      OrBelow(a / 2, b / 2, n - 1);
    }
  }

  lemma {:induction false} OrNothing(b: nat)
    ensures Or(0, b) == b
  {
    if b > 0 {
      OrNothing(b / 2);
    }
  }

  lemma OrEven(a: nat, b: nat)
    ensures Or(a, 2 * b) == a % 2 + 2 * Or(a / 2, b)
  {
    assert a == 0 && b == 0 ==> Or(0, 0) == 0;
  }

  /** Numbers without a common bit are added. */
  lemma {:induction false} OrAdds(a: nat, q: nat, n: nat)
    requires a < Pow2(n)
    ensures Or(a, q * Pow2(n)) == a + q * Pow2(n)
    decreases n
  {
    hide Or;
    if n > 0 {
      OrAdds(a / 2, q, n - 1);
      Doubled(q, Pow2(n - 1));
      OrEven(a, q * Pow2(n - 1));
    } else {
      OrNothing(q);
    }
  }

  lemma Doubled(q: nat, p: nat)
    ensures q * (2 * p) == 2 * (q * p)
  {
  }

  /** The operators on 32-bit words. */
  function Or32(a: uint32, b: uint32): uint32 {
    OrBelow32(a, b);
    Or(a, b)
  }

  lemma OrBelow32(a: nat, b: nat)
    requires a < TWO_TO_32 && b < TWO_TO_32
    ensures Or(a, b) < TWO_TO_32
  {
    Powers2();
    OrBelow(a, b, 32);
  }

  function Shift32(a: nat, n: nat): uint32 {
    a * Pow2(n) % TWO_TO_32
  }

  lemma Powers2()
    ensures Pow2(7) == 0x80 && Pow2(14) == 0x4000 && Pow2(21) == 0x20_0000 && Pow2(28) == 0x1000_0000
    ensures Pow2(32) == TWO_TO_32
  {
  }

  /** The shift at the byte after the first k: a counter of eight bits. */
  function Bitpos(k: nat): nat {
    if k == 0 then 0 else (Bitpos(k - 1) + 7) % 256
  }

  lemma {:induction false} EarlyBitpos(k: nat)
    requires k <= 36
    ensures Bitpos(k) == 7 * k
  {
    if k > 0 {
      EarlyBitpos(k - 1);
    }
  }

  /** From the fifth byte on, bits beyond the 32nd must be zero or repeat the sign. */
  predicate Overflows(b: byte, k: nat, result: nat) {
    Bitpos(k) >= 32 && b % 128 != 0 && (result < TWO_TO_31 || b != if Bitpos(k) < 63 then 0xff else 0x01)
  }

  function AddGroup(b: byte, k: nat, result: nat): (r: nat)
    requires result < TWO_TO_32
    ensures r < TWO_TO_32
  {
    if Bitpos(k) >= 32 then result else Or32(result, Shift32(b % 128, Bitpos(k)))
  }

  /** The decoder of 32-bit values from its second byte on; k is the number of bytes read. */
  function Rest32(s: bytes, k: nat, result: nat): (r: Option<Parsed<nat>>)
    requires result < TWO_TO_32
    ensures r.Some? ==> k < r.value.size <= k + |s| && r.value.value < TWO_TO_32
    decreases |s|
  {
    if s == [] || Overflows(s[0], k, result) then None
    else if s[0] >= 128 then Rest32(s[1..], k + 1, AddGroup(s[0], k, result))
    else if Bitpos(k + 1) == 35 && s[0] >= 16 then None
    else Some(Parsed(AddGroup(s[0], k, result), k + 1))
  }

  lemma RestUnfolds(s: bytes, k: nat, result: nat)
    requires result < TWO_TO_32
    ensures Bitpos(k) >= 32 ==> AddGroup(if s == [] then 0 else s[0], k, result) == result
    ensures Rest32(s, k, result)
         == if s == [] || Overflows(s[0], k, result) then None
            else if s[0] >= 128 then Rest32(s[1..], k + 1, AddGroup(s[0], k, result))
            else if Bitpos(k + 1) == 35 && s[0] >= 16 then None
            else Some(Parsed(AddGroup(s[0], k, result), k + 1))
  {
  }

  /** The first five groups do not overlap. */
  lemma EarlyGroup(b: byte, k: nat, result: nat)
    requires 1 <= k <= 4 && result < Pow128(k)
    ensures result < TWO_TO_32 && !Overflows(b, k, result) && (Bitpos(k + 1) == 35 <==> k == 4)
    ensures AddGroup(b, k, result) == (result + b % 128 * Pow128(k)) % TWO_TO_32
  {
    hide Or, Pow2, Pow128, Bitpos;
    Powers();
    Powers2();
    EarlyBitpos(k);
    EarlyBitpos(k + 1);
    if k == 4 {
      FifthGroup(b % 128, result);
    } else {
      assert Pow128(k) == Pow2(7 * k);
      BelowNext(result, b % 128, Pow128(k));
      SmallMod(b % 128 * Pow128(k), TWO_TO_32);
      SmallMod(result + b % 128 * Pow128(k), TWO_TO_32);
      OrAdds(result, b % 128, 7 * k);
    }
  }

  /** Of the fifth group, four bits fit. */
  lemma FifthGroup(g: nat, result: nat)
    requires result < 0x1000_0000
    ensures Or(result, g * 0x1000_0000 % TWO_TO_32) == (result + g * 0x1000_0000) % TWO_TO_32
  {
    hide Or, Pow2;
    Powers2();
    var low, top := g % 16, g / 16;
    assert g * 0x1000_0000 == low * 0x1000_0000 + top * TWO_TO_32 by { assert g == 16 * top + low; }
    ModAdds(low * 0x1000_0000, top);
    ModAdds(result + low * 0x1000_0000, top);
    OrAdds(result, low, 28);
  }

  lemma ModAddsMore(a: nat, q: nat)
    ensures (a + q * TWO_TO_32) % TWO_TO_32 == a % TWO_TO_32
  {
    var r := a / TWO_TO_32;
    assert a == r * TWO_TO_32 + a % TWO_TO_32;
    assert a + q * TWO_TO_32 == (r + q) * TWO_TO_32 + a % TWO_TO_32;
    ModAdds(a % TWO_TO_32, r + q);
  }

  lemma ModAdds(a: nat, q: nat)
    requires a < TWO_TO_32
    ensures (a + q * TWO_TO_32) % TWO_TO_32 == a
  {
  }

  function DecodeVarint32(s: bytes): (r: Option<Parsed<nat>>)
    ensures r.Some? ==> 0 < r.value.size <= |s| && r.value.value < TWO_TO_32
  {
    if s == [] then None
    else if s[0] < 128 then Some(Parsed(s[0], 1))
    else Rest32(s[1..], 1, s[0] - 128)
  }

  /** The 64-bit decoder is the loop of Coding with ten bytes at most. */
  function DecodeVarint64(s: bytes): (r: Option<Parsed<nat>>)
    ensures r.Some? ==> 0 < r.value.size <= |s| && r.value.value < TWO_TO_64
  {
    GetVarint64(s)
  }

  // ----- what the 32-bit decoder makes of canonical encodings -----

  lemma Powers()
    ensures Pow128(1) == 0x80 && Pow128(2) == 0x4000 && Pow128(3) == 0x20_0000 && Pow128(4) == 0x1000_0000
    ensures Pow128(5) == 0x8_0000_0000 && Pow128(9) == TWO_TO_63
  {
    assert Pow128(9) == 128 * 128 * 128 * 128 * Pow128(5);
  }

  /** The groups beyond the 35th bit that the decoder lets pass: zeros, or ones behind a set sign bit, up
      to the tenth byte that then holds just a one. */
  predicate Passes(w: nat, k: nat, sign: bool)
    decreases w
  {
    if w < 128 then w == 0 || (sign && w == 1 && k >= 9)
    else (w % 128 == 0 || (sign && w % 128 == 127 && k < 9)) && Passes(w / 128, k + 1, sign)
  }

  lemma {:induction false} HighBytes(w: nat, rest: bytes, k: nat, result: nat)
    requires 5 <= k && k + |Varint(w)| <= 36 && result < TWO_TO_32
    ensures var r := Rest32(Varint(w) + rest, k, result);
            r == if Passes(w, k, result >= TWO_TO_31) then Some(Parsed(result, k + |Varint(w)|)) else None
    decreases w
  {
    hide Varint, AddGroup, Rest32, Bitpos;
    var s := Varint(w) + rest;
    VarintByByte(w, rest);
    EarlyBitpos(k);
    EarlyBitpos(k + 1);
    RestUnfolds(s, k, result);
    if w >= 128 {
      HighBytes(w / 128, rest, k + 1, result);
    }
  }

  /** The decoder's answer for w, the part of the value above the first k bytes, whose sum is 'low'. */
  ghost function Answer(w: nat, k: nat, low: nat): Option<Parsed<nat>>
    requires 1 <= k <= 5 && low < TWO_TO_32
  {
    var v := low + w * Pow128(k);
    if v < TWO_TO_32 then Some(Parsed(v, k + |Varint(w)|))
    else if w >= Pow128(5 - k) && Passes(w / Pow128(5 - k), 5, v % TWO_TO_32 >= TWO_TO_31) then
      Some(Parsed(v % TWO_TO_32, k + |Varint(w)|))
    else None
  }

  lemma FifthByte(w: nat, rest: bytes, low: nat)
    requires low < 0x1000_0000 && |Varint(w)| <= 10
    ensures Rest32(Varint(w) + rest, 4, low) == Answer(w, 4, low)
  {
    Powers();
    assert Pow128(1) == 128;
    hide Varint, Pow128, Passes, Rest32, AddGroup, Overflows, Bitpos;
    var s := Varint(w) + rest;
    VarintByByte(w, rest);
    RestUnfolds(s, 4, low);
    EarlyGroup(s[0], 4, low);
    if w >= 128 {
      FifthOfMany(w, rest, low);
    } else if w < 16 {
      SmallMod(w, 128);
      SmallMod(low + w * 0x1000_0000, TWO_TO_32);
    }
  }

  lemma FifthOfMany(w: nat, rest: bytes, low: nat)
    requires low < 0x1000_0000 && 128 <= w && |Varint(w)| <= 10
    ensures Rest32(Varint(w) + rest, 4, low) == Answer(w, 4, low)
  {
    Powers();
    assert Pow128(1) == 128;
    hide Varint, Pow128, Passes, Rest32, AddGroup, Overflows, Bitpos;
    var s := Varint(w) + rest;
    VarintByByte(w, rest);
    RestUnfolds(s, 4, low);
    EarlyGroup(s[0], 4, low);
    Shifted(w, low);
    HighBytes(w / 128, rest, 5, AddGroup(s[0], 4, low));
    LowSeven(w);
  }

  lemma LowSeven(w: nat)
    ensures (w % 128 + 128) % 128 == w % 128
  {
  }

  lemma Shifted(w: nat, low: nat)
    requires low < 0x1000_0000
    ensures (low + w * 0x1000_0000) % TWO_TO_32 == (low + w % 128 * 0x1000_0000) % TWO_TO_32
  {
    var q := w / 128;
    var a := low + w % 128 * 0x1000_0000;
    assert low + w * 0x1000_0000 == a + 8 * q * TWO_TO_32 by { assert w == 128 * q + w % 128; }
    ModAddsMore(a, 8 * q);
  }

  lemma DivTwice(w: nat, k: nat)
    requires 1 <= k <= 4
    ensures w / 128 / Pow128(k) == w / Pow128(k + 1)
    ensures w / 128 >= Pow128(k) <==> w >= Pow128(k + 1)
  {
    Powers();
    if k == 1 {
      assert w / 128 / 0x80 == w / 0x4000;
    } else if k == 2 {
      assert w / 128 / 0x4000 == w / 0x20_0000;
    } else if k == 3 {
      assert w / 128 / 0x20_0000 == w / 0x1000_0000;
    } else {
      assert w / 128 / 0x1000_0000 == w / 0x8_0000_0000;
    }
  }

  lemma VarintByByte(w: nat, rest: bytes)
    ensures w < 128 ==> (Varint(w) + rest)[0] == w && |Varint(w)| == 1
    ensures w >= 128 ==> (Varint(w) + rest)[0] == w % 128 + 128 && (Varint(w) + rest)[1..] == Varint(w / 128) + rest
                         && |Varint(w)| == 1 + |Varint(w / 128)|
  {
    assert w >= 128 ==> Varint(w) == [w % 128 + 128] + Varint(w / 128);
    hide Varint;
    if w >= 128 {
      Behind(w % 128 + 128, Varint(w / 128), rest);
    }
  }

  lemma Behind(b: byte, s: bytes, rest: bytes)
    ensures ([b] + s + rest)[0] == b && ([b] + s + rest)[1..] == s + rest
  {
  }

  /** One more of the first five bytes. */
  lemma AnswerStep(w: nat, k: nat, low: nat)
    requires 1 <= k <= 3 && low < Pow128(k) <= 0x20_0000 && w >= 128
    ensures low + w % 128 * Pow128(k) < Pow128(k + 1) == 128 * Pow128(k)
    ensures Answer(w, k, low) == Answer(w / 128, k + 1, low + w % 128 * Pow128(k))
  {
    hide Passes, Varint;
    var p := Pow128(k);
    BelowNext(low, w % 128, p);
    SplitProduct(w, p);
    DivTwice(w, 4 - k);
    VarintByByte(w, []);
  }

  lemma LowStep(s: bytes, k: nat, result: nat)
    requires s != [] && 1 <= k <= 3 && result < Pow128(k) && result + s[0] % 128 * Pow128(k) < TWO_TO_32
    ensures var next := result + s[0] % 128 * Pow128(k);
            Rest32(s, k, result) == if s[0] >= 128 then Rest32(s[1..], k + 1, next) else Some(Parsed(next, k + 1))
  {
    hide Rest32, Pow128, AddGroup;
    EarlyGroup(s[0], k, result);
    RestUnfolds(s, k, result);
    SmallMod(result + s[0] % 128 * Pow128(k), TWO_TO_32);
  }

  lemma {:induction false} LowBytes(w: nat, rest: bytes, k: nat, low: nat)
    requires 1 <= k <= 4 && low < Pow128(k) && Pow128(k) <= 0x1000_0000 && |Varint(w)| <= 10
    ensures Rest32(Varint(w) + rest, k, low) == Answer(w, k, low)
    decreases 4 - k
  {
    hide Passes, Varint, Pow128, Rest32;
    Powers();
    if k == 4 {
      FifthByte(w, rest, low);
    } else {
      var next := low + w % 128 * Pow128(k);
      BelowNext(low, w % 128, Pow128(k));
      VarintByByte(w, rest);
      assert (Varint(w) + rest)[0] % 128 == w % 128;
      LowStep(Varint(w) + rest, k, low);
      if w >= 128 {
        AnswerStep(w, k, low);
        LowBytes(w / 128, rest, k + 1, next);
      } else {
        SmallMod(w, 128);
      }
    }
  }

  lemma BelowNext(low: nat, d: nat, p: nat)
    requires low < p && d < 128
    ensures low + d * p < 128 * p
  {
    assert d * p <= 127 * p;
  }

  /** On the encoding of any 64-bit value, exactly. */
  lemma Decode32OfVarint(v: uint64, rest: bytes)
    ensures DecodeVarint32(Varint(v) + rest)
         == if v < TWO_TO_32 then Some(Parsed(v, |Varint(v)|))
            else if v >= 0x8_0000_0000 && Passes(v / 0x8_0000_0000, 5, v % TWO_TO_32 >= TWO_TO_31) then
              Some(Parsed(v % TWO_TO_32, |Varint(v)|))
            else None
  {
    hide Rest32, Passes, Varint, Pow128;
    Powers();
    VarintByByte(v, rest);
    TenBytes(v);
    if v >= 128 {
      LowBytes(v / 128, rest, 1, v % 128);
      DivTwice(v, 4);
    }
  }

  /** The 32-bit decoder inverts the encoder below 2^32. */
  lemma Varint32RoundTrip(v: uint32, rest: bytes)
    ensures DecodeVarint32(Varint(v) + rest) == Some(Parsed(v, |Varint(v)|))
  {
    Decode32OfVarint(v, rest);
  }

  /** What passes has nothing at all above the 35th bit, or the top bit of all. */
  lemma {:induction false} PassesAreLarge(w: nat, k: nat, sign: bool)
    requires 5 <= k <= 9 && 0 < w < 2 * Pow128(9 - k) && Passes(w, k, sign)
    ensures sign && w >= Pow128(9 - k)
    decreases w
  {
    Powers();
    if w >= 128 {
      assert Pow128(9 - k) == 128 * Pow128(8 - k);
      PassesAreLarge(w / 128, k + 1, sign);
    }
  }

  /** Every value from 2^32 up to 2^63 is rejected. */
  lemma MiddleIsRejected(v: uint64, rest: bytes)
    requires TWO_TO_32 <= v < TWO_TO_63
    ensures DecodeVarint32(Varint(v) + rest) == None
  {
    Powers();
    Decode32OfVarint(v, rest);
    if v >= 0x8_0000_0000 && Passes(v / 0x8_0000_0000, 5, v % TWO_TO_32 >= TWO_TO_31) {
      assert Pow128(4) * 0x8_0000_0000 == TWO_TO_63;
      PassesAreLarge(v / 0x8_0000_0000, 5, v % TWO_TO_32 >= TWO_TO_31);
      assert false;
    }
  }

  /** A negative 32-bit integer, sign-extended to 64 bits as the encoder does it, comes back as its
      two's complement. */
  lemma NegativesComeBack(i: int, rest: bytes)
    requires -TWO_TO_31 <= i < 0
    ensures DecodeVarint32(Varint(i + TWO_TO_64) + rest) == Some(Parsed(i + TWO_TO_32, 10))
  {
    hide Passes, Varint, DecodeVarint32;
    var v := i + TWO_TO_64;
    Decode32OfVarint(v, rest);
    AllOnesPass();
    HighOnes(v);
    TenGroups(v);
  }

  lemma AllOnesPass()
    ensures Passes(0x1fff_ffff, 5, true)
  {
    assert Passes(0xff, 8, true);
    assert Passes(0x7fff, 7, true);
    assert Passes(0x3f_ffff, 6, true);
  }

  lemma HighOnes(v: uint64)
    requires v >= TWO_TO_64 - TWO_TO_31
    ensures v / 0x8_0000_0000 == 0x1fff_ffff && v % TWO_TO_32 == v - TWO_TO_64 + TWO_TO_32
  {
  }

  lemma {:induction false} VarintAtLeast(v: nat, n: nat)
    requires v >= Pow128(n)
    ensures |Varint(v)| > n
  {
    if n > 0 {
      VarintAtLeast(v / 128, n - 1);
    }
  }

  lemma TenGroups(v: uint64)
    requires v >= TWO_TO_63
    ensures |Varint(v)| == 10
  {
    Powers();
    VarintAtLeast(v, 9);
    TenBytes(v);
  }

  // ----- zigzag -----

  /** ~(value << 1) for a negative value, value << 1 otherwise, on 64-bit words. */
  function ZigZag(value: int64): (r: uint64)
    ensures r == if value < 0 then -2 * value - 1 else 2 * value
  {
    var shifted := 2 * value % TWO_TO_64;
    if value < 0 then TWO_TO_64 - 1 - shifted else shifted
  }

  function AsSigned(v: uint64): int64 {
    if v < TWO_TO_63 then v else v - TWO_TO_64
  }

  function UnZigZag(v: uint64): int64 {
    if v % 2 == 1 then AsSigned(TWO_TO_64 - 1 - v / 2) else AsSigned(v / 2)
  }

  /** Zigzag coding is a bijection between the signed and the unsigned 64-bit integers. */
  lemma ZigZagIsBijection(value: int64, v: uint64)
    ensures UnZigZag(ZigZag(value)) == value
    ensures ZigZag(UnZigZag(v)) == v
  {
    var x: int := value;
    assert x >= 0 ==> ZigZag(value) % 2 == 0 && ZigZag(value) / 2 == x;
    assert x < 0 ==> ZigZag(value) % 2 == 1 && ZigZag(value) / 2 == -x - 1;
  }
}

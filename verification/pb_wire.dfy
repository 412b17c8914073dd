/** The wire format of Protocol Buffers in numbers, and what pb_decode takes and refuses. See "Message
    Structure" in the Protocol Buffers encoding guide. */
module PbWire {
  import opened Wrappers
  import opened Coding
  import opened PbVarints
  import opened PbMessages
  import opened PbDecoding
  import opened PbRoundTrip
  import opened PbMerge

  // ----- what is written -----

  /** The wire type of each kind of field, in the lowest three bits of its key. */
  lemma KeysOnTheWire(f: Field, v: Value)
    requires ShapedValue(f, v)
    ensures var wireType := match f.ltype
                            case TBool => 0
                            case TVarint => 0
                            case TUVarint => 0
                            case TSVarint => 0
                            case TFixed64 => 1
                            case TBytes => 2
                            case TString => 2
                            case TSubmessage(_) => 2
                            case TFixedBytes => 2
                            case TFixed32 => 5;
            EncodeTagged(f, v)
            == if EncodeValue(f, v).None? then None
               else Some(Varint(8 * f.tag + wireType) + EncodeValue(f, v).value)
  {
    hide EncodeValue, Varint, ShapedValue;
  }

  function As64Bits(n: int): nat
    requires -0x8000_0000_0000_0000 <= n
  {
    if n < 0 then n + 0x1_0000_0000_0000_0000 else n
  }

  /** Numbers are written as varints, negative ones in 64-bit two's complement, or least significant byte
      first; strings behind their length. */
  lemma ValuesOnTheWire(f: Field, v: Value)
    requires ShapedValue(f, v) && !f.ltype.TSubmessage?
    ensures EncodeValue(f, v)
         == match f.ltype
            case TBool => Some(if v.n == 0 then [0] else [1])
            case TVarint =>
              if IsIntSize(f.dataSize) then Some(Varint(As64Bits(v.n))) else None
            case TUVarint =>
              if IsIntSize(f.dataSize) then Some(Varint(As64Bits(v.n))) else None
            case TSVarint =>
              if IsIntSize(f.dataSize) then Some(Varint(if v.n < 0 then -2 * v.n - 1 else 2 * v.n)) else None
            case TFixed32 => Some(Fixed32(v.n % 0x1_0000_0000))
            case TFixed64 => Some(Fixed64(v.n % 0x1_0000_0000_0000_0000))
            case TBytes => if |v.b| + 4 <= f.dataSize then Some(Varint(|v.b|) + v.b) else None
            case TString => Some(Varint(|v.b|) + v.b)
            case TFixedBytes => Some(Varint(|v.b|) + v.b)
  {
    hide Varint, Fixed32, Fixed64;
    VarintUnfolds(0);
    VarintUnfolds(1);
  }

  // ----- what is left out -----

  /** The number zero, or no bytes. */
  ghost predicate IsNothing(f: Field, v: Value)
    requires ShapedValue(f, v) && !f.ltype.TSubmessage?
  {
    if f.ltype.TFixedBytes? then f.dataSize == 0
    else if f.ltype.TBytes? || f.ltype.TString? then v.b == []
    else v.n == 0
  }

  /** A proto3 field that is no submessage is left out exactly when it is zero, or empty. */
  lemma ZerosAreLeftOut(f: Field, m: Message, i: nat)
    requires i < |m.slots| && ShapedSlot(f, m, i) && f.rule.Singular? && !f.ltype.TSubmessage?
    requires m.slots[i].One? && ShapedValue(f, m.slots[i].v)
    ensures EncodeField(f, m, i) == Some([]) <==> IsNothing(f, m.slots[i].v)
  {
    hide EncodeValue, Varint;
  }

  /** An array of a fixed count has elements. */
  ghost predicate NoEmptyArrays(d: Schema) {
    forall i :: 0 <= i < |d.fields| && d.fields[i].rule.FixedCount? ==> d.fields[i].rule.count > 0
  }

  lemma {:induction false} NothingFrom(d: Schema, m: Message, i: nat)
    requires Shaped(d, m) && i <= |d.fields|
    ensures EncodeFrom(d, m, i) == Some([])
       <==> forall j :: i <= j < |d.fields| ==> EncodeField(d.fields[j], m, j) == Some([])
    decreases |d.fields| - i
  {
    hide EncodeField, ShapedSlot;
    if i < |d.fields| {
      NothingFrom(d, m, i + 1);
      var (e, rest) := (EncodeField(d.fields[i], m, i), EncodeFrom(d, m, i + 1));
      if e.Some? && rest.Some? {
        BothEmpty(e.value, rest.value);
      }
    }
  }

  lemma BothEmpty(a: bytes, b: bytes)
    ensures a + b == [] <==> a == [] && b == []
  {
    assert |a + b| == |a| + |b|;
  }

  /** Of a union that has a member set, just that member is written. */
  lemma FieldIsEmpty(d: Schema, m: Message, i: nat)
    requires SchemaOk(d) && Shaped(d, m) && MessageFits(d, m) && NoEmptyArrays(d) && i < |d.fields|
    ensures IsDefault(d.fields[i], m, i) ==> EncodeField(d.fields[i], m, i) == Some([])
    ensures EncodeField(d.fields[i], m, i) == Some([]) && !d.fields[i].rule.Oneof? ==> IsDefault(d.fields[i], m, i)
    ensures d.fields[i].rule.Oneof? && EncodeField(d.fields[i], m, i) == Some([]) ==>
              m.unions[d.fields[i].rule.union].which != d.fields[i].tag
  {
    var f, s := d.fields[i], m.slots[i];
    assert FieldOk(f, d.unions) && ShapedSlot(f, m, i) && SlotFits(f, m, i);
    if IsArray(f) && s.items != [] {
      ArrayIsNotEmpty(f, s);
    } else if Single(f, m, i).Some? {
      TaggedIsNotEmpty(f, Single(f, m, i).value);
    }
    hide EncodeTagged, EncodeValue, EncodeArray, Varint, ShapedValue, IsZero, ValueFits;
  }

  lemma TaggedIsNotEmpty(f: Field, v: Value)
    requires ShapedValue(f, v)
    ensures EncodeTagged(f, v) != Some([])
  {
    hide EncodeValue, ShapedValue;
    var e := EncodeValue(f, v);
    assert e.Some? ==> |FieldKey(f) + e.value| >= |FieldKey(f)|;
  }

  lemma ArrayIsNotEmpty(f: Field, s: Slot)
    requires s.Many? && ItemsShaped(f, s.items) && s.items != []
    ensures EncodeArray(f, s) != Some([])
  {
    hide EncodeValue, Varint, ShapedValue, EncodePacked;
  }

  /** A submessage passes the proto3 check exactly when it would be encoded as no bytes. */
  lemma ZeroIsEmpty(d: Schema, m: Message)
    requires SchemaOk(d) && Shaped(d, m) && MessageFits(d, m) && NoEmptyArrays(d)
    ensures AllDefault(d, m) <==> EncodeMessage(d, m) == Some([])
  {
    NothingFrom(d, m, 0);
    forall i | 0 <= i < |d.fields|
      ensures IsDefault(d.fields[i], m, i) ==> EncodeField(d.fields[i], m, i) == Some([])
      ensures EncodeMessage(d, m) == Some([]) ==> IsDefault(d.fields[i], m, i)
    {
      FieldIsEmpty(d, m, i);
      if EncodeMessage(d, m) == Some([]) && d.fields[i].rule.Oneof? {
        NoMemberIsSet(d, m, d.fields[i].rule.union);
      }
    }
  }

  lemma NoMemberIsSet(d: Schema, m: Message, u: nat)
    requires SchemaOk(d) && Shaped(d, m) && MessageFits(d, m) && NoEmptyArrays(d)
    requires EncodeMessage(d, m) == Some([])
    ensures u < d.unions ==> m.unions[u].which == 0
  {
    if u < d.unions && m.unions[u].which != 0 {
      assert HasMember(d, u, m.unions[u].which);
      var j :| 0 <= j < |d.fields| && d.fields[j].rule == Oneof(u) && d.fields[j].tag == m.unions[u].which;
      NothingFrom(d, m, 0);
      FieldIsEmpty(d, m, j);
      assert false;
    }
  }

  // ----- what is refused -----

  /** Two's complement numbers of so many bits. */
  function AsInt64(v: nat): int {
    if v < 0x8000_0000_0000_0000 then v else v - 0x1_0000_0000_0000_0000
  }

  function AsInt32(v: nat): int {
    var low := v % 0x1_0000_0000;
    if low < 0x8000_0000 then low else low - 0x1_0000_0000
  }

  predicate FitsSigned(n: int, size: nat) {
    || (size == 1 && -128 <= n < 128)
    || (size == 2 && -32768 <= n < 32768)
    || (size == 4 && -0x8000_0000 <= n < 0x8000_0000)
    || (size == 8 && -0x8000_0000_0000_0000 <= n < 0x8000_0000_0000_0000)
  }

  predicate FitsUnsigned(n: nat, size: nat) {
    || (size == 1 && n < 256)
    || (size == 2 && n < 65536)
    || (size == 4 && n < 0x1_0000_0000)
    || (size == 8 && n < 0x1_0000_0000_0000_0000)
  }

  function IfFits(fits: bool, n: int, size: nat): Option<Parsed<Value>> {
    if fits then Some(Parsed(Num(n), size)) else None
  }

  /** Every 64-bit varint: which integer it is in a field of some type and size, or that it does not fit.
      Of a signed field of up to 32 bits only the lowest 32 bits count. */
  lemma IntegersAreChecked(f: Field, v: uint64, rest: bytes)
    ensures f.ltype.TBool? && v < 0x1_0000_0000 ==>
              DecodeScalar(f, Varint(v) + rest) == Some(Parsed(Num(if v == 0 then 0 else 1), |Varint(v)|))
    ensures f.ltype.TVarint? ==>
              var n := if f.dataSize == 8 then AsInt64(v) else AsInt32(v);
              DecodeScalar(f, Varint(v) + rest) == IfFits(FitsSigned(n, f.dataSize), n, |Varint(v)|)
    ensures f.ltype.TUVarint? ==>
              DecodeScalar(f, Varint(v) + rest) == IfFits(FitsUnsigned(v, f.dataSize), v, |Varint(v)|)
    ensures f.ltype.TSVarint? ==>
              var n := if v % 2 == 0 then v / 2 else -(v / 2) - 1;
              DecodeScalar(f, Varint(v) + rest) == IfFits(FitsSigned(n, f.dataSize), n, |Varint(v)|)
  {
    Varint64ComesBack(v, rest);
    if v < 0x1_0000_0000 {
      PbVarints.Varint32RoundTrip(v, rest);
    }
    hide DecodeVarint64, DecodeVarint32, Varint;
  }

  /** Every string: bytes must fit behind their size, strings in front of their terminator, and end at a zero
      byte; fixed-length bytes have that length, or are empty, which stands for zeros. */
  lemma LengthsAreChecked(f: Field, b: bytes, rest: bytes)
    requires |b| < 0x1_0000_0000
    ensures f.ltype.TBytes? ==>
              DecodeScalar(f, Prefixed(b) + rest)
              == if |b| + 4 <= f.dataSize then Some(Parsed(Blob(b), |Prefixed(b)|)) else None
    ensures f.ltype.TString? ==>
              DecodeScalar(f, Prefixed(b) + rest)
              == if |b| + 1 <= f.dataSize then Some(Parsed(Blob(UpToZero(b)), |Prefixed(b)|)) else None
    ensures f.ltype.TFixedBytes? ==>
              DecodeScalar(f, Prefixed(b) + rest)
              == if b == [] then Some(Parsed(Blob(Zeros(f.dataSize)), |Prefixed(b)|))
                 else if |b| == f.dataSize then Some(Parsed(Blob(b), |Prefixed(b)|)) else None
  {
    PrefixedRoundTrip(b, rest);
    hide ReadString, Prefixed;
  }

  lemma {:induction false} UpToFirstZero(b: bytes, k: nat)
    requires k < |b| && b[k] == 0 && 0 !in b[..k]
    ensures UpToZero(b) == b[..k]
  {
    if k > 0 {
      assert b[0] in b[..k] && b[1..][..k - 1] == b[..k][1..];
      UpToFirstZero(b[1..], k - 1);
    }
  }

  /** There are no fields of wire types 3, 4, 6 and 7: an unknown field of such a type spoils the message. */
  lemma BadWireTypesFail(d: Schema, st: LoopState, wireType: nat, tag: nat, rest: bytes)
    requires ShapedState(d, st) && (wireType == 3 || wireType == 4 || wireType == 6 || wireType == 7)
    requires 0 < tag <= MAX_TAG && forall i :: 0 <= i < |d.fields| ==> d.fields[i].tag != tag
    ensures Loop(d, st, Key(wireType, tag) + rest).None?
  {
    hide DecodeVarint32, SchemaOk, Shaped, Key, DecodeField;
    KeyRoundTrip(wireType, tag, rest);
    assert FindFrom(d, tag, 0).None?;
    assert Step(d, st, Key(wireType, tag) + rest).Fail?;
  }

  /** A zero key ends the message, whatever follows. */
  lemma ZeroKeyEnds(d: Schema, m: Message, a: bytes, rest: bytes)
    requires SchemaOk(d) && Shaped(d, m) && Clean(d, Begin(m), a)
    ensures DecodeMessage(d, m, a + ([0] + rest)) == DecodeMessage(d, m, a)
  {
    LoopAppend(d, Begin(m), a, [0] + rest);
    var st := Loop(d, Begin(m), a).value;
    assert Varint(0) == [0];
    PbVarints.Varint32RoundTrip(0, rest);
    assert Step(d, st, [0] + rest).Stop?;
    assert Loop(d, st, [0] + rest) == Some(st);
  }

  /** An array with too many elements is not encoded, and a value that does not encode spoils the message. */
  lemma LongArraysFail(f: Field, s: Slot)
    requires s.Many? && ItemsShaped(f, s.items) && s.items != [] && |s.items| > ArraySize(f.rule)
    ensures EncodeArray(f, s).None?
  {
  }

  lemma {:induction false} AnyFailureFails(d: Schema, m: Message, i: nat)
    requires Shaped(d, m) && i <= |d.fields|
    ensures EncodeFrom(d, m, i).None? <==> exists j :: i <= j < |d.fields| && EncodeField(d.fields[j], m, j).None?
    decreases |d.fields| - i
  {
    hide EncodeField, ShapedSlot;
    if i < |d.fields| {
      AnyFailureFails(d, m, i + 1);
    }
  }

  // ----- required fields -----

  function RequiredFields(d: Schema): set<nat> {
    set i | 0 <= i < |d.fields| && d.fields[i].rule.Required?
  }

  lemma {:induction false} IndexGrows(d: Schema, i: nat, j: nat)
    requires i < j <= |d.fields|
    ensures RequiredIndex(d, i) + (if d.fields[i].rule.Required? then 1 else 0) <= RequiredIndex(d, j)
    decreases j
  {
    if i + 1 < j {
      IndexGrows(d, i, j - 1);
    }
  }

  /** With up to 64 required fields, a message in which every field decodes is accepted exactly when all of
      them occur in it. */
  lemma AllRequiredMustOccur(d: Schema, m: Message, s: bytes)
    requires SchemaOk(d) && Shaped(d, m) && NoFixedCount(d) && Loop(d, Begin(m), s).Some?
    requires RequiredIndex(d, |d.fields|) <= 64
    ensures DecodeMessage(d, m, s).Some? <==> forall i :: i in RequiredFields(d) ==> i in Occurring(d, Begin(m), s)
  {
    RequiredExactly(d, m, s);
    forall i | 0 <= i < |d.fields| && d.fields[i].rule.Required? ensures Tracked(d, i) {
      IndexGrows(d, i, |d.fields|);
    }
    hide Loop, SchemaOk, Shaped, Occurring;
  }
}

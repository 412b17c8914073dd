/** Laws of the decoding loop: concatenated encodings merge, unknown fields make no difference, and the
    required fields decide success. See "Last One Wins" in the Protocol Buffers encoding guide. */
module PbMerge {
  import opened Wrappers
  import opened Coding
  import opened PbVarints
  import opened PbMessages
  import opened PbDecoding
  import opened PbRoundTrip

  // ----- what has been read does not depend on what follows -----

  lemma {:induction false} Rest32Prefix(s: bytes, t: bytes, k: nat, result: nat)
    requires result < TWO_TO_32 && Rest32(s, k, result).Some?
    ensures Rest32(s + t, k, result) == Rest32(s, k, result)
    decreases |s|
  {
    assert (s + t)[0] == s[0] && (s + t)[1..] == s[1..] + t;
    if s[0] >= 128 {
      Rest32Prefix(s[1..], t, k + 1, AddGroup(s[0], k, result));
    }
  }

  lemma Varint32Prefix(s: bytes, t: bytes)
    requires DecodeVarint32(s).Some?
    ensures DecodeVarint32(s + t) == DecodeVarint32(s)
  {
    hide Rest32;
    assert (s + t)[0] == s[0] && (s + t)[1..] == s[1..] + t;
    if s[0] >= 128 {
      Rest32Prefix(s[1..], t, 1, s[0] - 128);
    }
  }

  lemma {:induction false} GetVarintPrefix(s: bytes, t: bytes, width: nat, modulus: nat, k: nat, acc: nat)
    requires modulus > 0 && GetVarint(s, width, modulus, k, acc).Some?
    ensures GetVarint(s + t, width, modulus, k, acc) == GetVarint(s, width, modulus, k, acc)
    decreases |s|
  {
    assert (s + t)[0] == s[0] && (s + t)[1..] == s[1..] + t;
    if s[0] >= 128 {
      GetVarintPrefix(s[1..], t, width, modulus, k + 1, (acc + s[0] % 128 * Pow128(k)) % modulus);
    }
  }

  lemma Varint64Prefix(s: bytes, t: bytes)
    requires DecodeVarint64(s).Some?
    ensures DecodeVarint64(s + t) == DecodeVarint64(s)
  {
    GetVarintPrefix(s, t, 10, TWO_TO_64, 0, 0);
  }

  lemma SlicePrefix(s: bytes, t: bytes, i: nat, j: nat)
    requires i <= j <= |s|
    ensures (s + t)[i..j] == s[i..j]
    ensures (s + t)[i..] == s[i..] + t
  {
  }

  lemma StringPrefix(s: bytes, t: bytes)
    requires ReadString(s).Some?
    ensures ReadString(s + t) == ReadString(s)
  {
    hide DecodeVarint32;
    Varint32Prefix(s, t);
    var len := DecodeVarint32(s).value;
    SlicePrefix(s, t, len.size, len.size + len.value);
  }

  lemma {:induction false} SkipVarintPrefix(s: bytes, t: bytes)
    requires SkipVarint(s).Some?
    ensures SkipVarint(s + t) == SkipVarint(s)
  {
    assert (s + t)[0] == s[0] && (s + t)[1..] == s[1..] + t;
    if s[0] >= 128 {
      SkipVarintPrefix(s[1..], t);
    }
  }

  lemma SkipFieldPrefix(s: bytes, t: bytes, wireType: nat)
    requires SkipField(s, wireType).Some?
    ensures SkipField(s + t, wireType) == SkipField(s, wireType)
  {
    hide SkipVarint, ReadString;
    if wireType == WT_VARINT {
      SkipVarintPrefix(s, t);
    } else if wireType == WT_STRING {
      StringPrefix(s, t);
    }
  }

  lemma ScalarPrefix(f: Field, s: bytes, t: bytes)
    requires !f.ltype.TSubmessage? && DecodeScalar(f, s).Some?
    ensures DecodeScalar(f, s + t) == DecodeScalar(f, s)
  {
    hide DecodeVarint32, DecodeVarint64, ReadString, DecodeFixed32, DecodeFixed64, UnZigZag, AsSigned, Signed32;
    hide HalfRange, UpToZero;
    if f.ltype.TBool? {
      Varint32Prefix(s, t);
    } else if f.ltype.TVarint? || f.ltype.TUVarint? || f.ltype.TSVarint? {
      Varint64Prefix(s, t);
    } else if f.ltype.TFixed32? {
      SlicePrefix(s, t, 0, 4);
    } else if f.ltype.TFixed64? {
      SlicePrefix(s, t, 0, 8);
    } else {
      StringPrefix(s, t);
    }
  }

  lemma ValuePrefix(f: Field, target: Value, s: bytes, t: bytes)
    requires f.ltype.TSubmessage? ==> target.Sub? && SchemaOk(f.ltype.schema) && Shaped(f.ltype.schema, target.m)
    requires DecodeValue(f, target, s).Some?
    ensures DecodeValue(f, target, s + t) == DecodeValue(f, target, s)
  {
    hide DecodeScalar, DecodeMessage, ReadString, SchemaOk, Shaped;
    if f.ltype.TSubmessage? {
      StringPrefix(s, t);
    } else {
      ScalarPrefix(f, s, t);
    }
  }

  lemma StaticPrefix(d: Schema, st: LoopState, i: nat, wireType: nat, s: bytes, t: bytes)
    requires ShapedState(d, st) && i < |d.fields|
    requires (d.fields[i].rule.FixedCount? ==> st.fixed.Some? && st.fixed.value.index == i)
    requires DecodeStatic(d, st, i, wireType, s).Some?
    ensures DecodeStatic(d, st, i, wireType, s + t) == DecodeStatic(d, st, i, wireType, s)
  {
    var f := d.fields[i];
    assert ShapedSlot(f, st.m, i) && FieldOk(f, d.unions);
    hide DecodeValue, DecodePacked, ReadString, Store, StoreItems, SchemaOk, Shaped, ShapedSlot, ShapedValue, FieldOk;
    if (f.rule.Repeated? || f.rule.FixedCount?) && wireType == WT_STRING && f.ltype.Packable() {
      StringPrefix(s, t);
    } else {
      ValuePrefix(f, Target(d, st.m, i), s, t);
    }
  }

  lemma StepPrefix(d: Schema, st: LoopState, s: bytes, t: bytes)
    requires ShapedState(d, st) && Step(d, st, s).Next?
    ensures Step(d, st, s + t) == Step(d, st, s)
  {
    hide DecodeStatic, DecodeVarint32, SkipField, FindFrom, SchemaOk, Shaped, EnterFixed, See;
    Varint32Prefix(s, t);
    var key := DecodeVarint32(s).value;
    var (tag, rest) := (key.value / 8, s[key.size..]);
    SlicePrefix(s, t, key.size, |s|);
    var i := FindFrom(d, tag, 0);
    if i.Some? {
      FieldPrefix(d, st, i.value, key.value % 8, rest, t);
    } else if tag == 0 && d.fields == [] {
      Varint32Prefix(rest, t);
    } else {
      SkipFieldPrefix(rest, t, key.value % 8);
    }
  }

  lemma FieldPrefix(d: Schema, st: LoopState, i: nat, wireType: nat, s: bytes, t: bytes)
    requires ShapedState(d, st) && i < |d.fields| && DecodeField(d, st, i, wireType, s).Some?
    ensures DecodeField(d, st, i, wireType, s + t) == DecodeField(d, st, i, wireType, s)
  {
    hide DecodeStatic;
    var entered := EnterFixed(d, st, i);
    StaticPrefix(d, See(d, entered.value, i), i, wireType, s, t);
  }

  // ----- concatenation -----

  /** The loop gets through all of these bytes, without meeting a zero key. */
  ghost predicate Clean(d: Schema, st: LoopState, s: bytes)
    requires ShapedState(d, st)
    decreases |s|
  {
    s == [] || (Step(d, st, s).Next? && Clean(d, Step(d, st, s).st, s[Step(d, st, s).size..]))
  }

  /** Decoding a concatenation is decoding one part after the other. */
  lemma {:induction false} LoopAppend(d: Schema, st: LoopState, a: bytes, b: bytes)
    requires ShapedState(d, st) && Clean(d, st, a)
    ensures Loop(d, st, a).Some? && Loop(d, st, a + b) == Loop(d, Loop(d, st, a).value, b)
    decreases |a|
  {
    hide Step, SchemaOk, Shaped;
    if a == [] {
      assert a + b == b;
    } else {
      StepPrefix(d, st, a, b);
      var r := Step(d, st, a);
      assert (a + b)[r.size..] == a[r.size..] + b;
      LoopAppend(d, r.st, a[r.size..], b);
    }
  }

  predicate NothingToTrack(d: Schema) {
    forall i :: 0 <= i < |d.fields| ==> !d.fields[i].rule.Required? && !d.fields[i].rule.FixedCount?
  }

  lemma StaticTracksNothing(d: Schema, st: LoopState, i: nat, wireType: nat, s: bytes)
    requires ShapedState(d, st) && i < |d.fields| && !d.fields[i].rule.FixedCount?
    requires DecodeStatic(d, st, i, wireType, s).Some?
    ensures DecodeStatic(d, st, i, wireType, s).value.value.seen == st.seen
    ensures DecodeStatic(d, st, i, wireType, s).value.value.fixed == st.fixed
  {
    assert ShapedSlot(d.fields[i], st.m, i) && FieldOk(d.fields[i], d.unions);
    hide DecodeValue, DecodePacked, ReadString, SchemaOk, Shaped, ShapedValue, FieldOk;
  }

  lemma StepTracksNothing(d: Schema, st: LoopState, s: bytes)
    requires ShapedState(d, st) && NothingToTrack(d) && Step(d, st, s).Next?
    ensures Step(d, st, s).st.seen == st.seen && Step(d, st, s).st.fixed == st.fixed
  {
    hide DecodeStatic, DecodeVarint32, SkipField, SchemaOk, Shaped;
    var key := DecodeVarint32(s).value;
    var i := FindFrom(d, key.value / 8, 0);
    if i.Some? {
      StaticTracksNothing(d, st, i.value, key.value % 8, s[key.size..]);
    }
  }

  lemma {:induction false} LoopTracksNothing(d: Schema, st: LoopState, s: bytes)
    requires ShapedState(d, st) && NothingToTrack(d) && Loop(d, st, s).Some?
    ensures Loop(d, st, s).value.seen == st.seen && Loop(d, st, s).value.fixed == st.fixed
    decreases |s|
  {
    hide Step, SchemaOk, Shaped;
    if s != [] && Step(d, st, s).Next? {
      StepTracksNothing(d, st, s);
      LoopTracksNothing(d, Step(d, st, s).st, s[Step(d, st, s).size..]);
    }
  }

  ghost function Begin(m: Message): LoopState {
    LoopState(m, {}, None)
  }

  /** Without required and fixed-count fields: decoding a ++ b into a struct is decoding a, and then b
      into the result. */
  lemma MergeLaw(d: Schema, m: Message, a: bytes, b: bytes)
    requires SchemaOk(d) && Shaped(d, m) && NothingToTrack(d) && Clean(d, Begin(m), a)
    ensures DecodeMessage(d, m, a).Some?
    ensures DecodeMessage(d, m, a + b) == DecodeMessage(d, DecodeMessage(d, m, a).value, b)
  {
    LoopAppend(d, Begin(m), a, b);
    LoopTracksNothing(d, Begin(m), a);
    hide Loop, SchemaOk, Shaped;
    var st := Loop(d, Begin(m), a).value;
    assert st == Begin(st.m);
  }

  // ----- unknown fields -----

  /** A key no field has, and data that its wire type allows to be skipped. */
  ghost predicate UnknownField(d: Schema, u: bytes) {
    exists wireType, tag, data :: IsUnknown(d, u, wireType, tag, data)
  }

  ghost predicate IsUnknown(d: Schema, u: bytes, wireType: nat, tag: nat, data: bytes) {
    && wireType < 8 && 0 < tag <= MAX_TAG && (forall i :: 0 <= i < |d.fields| ==> d.fields[i].tag != tag)
    && u == Key(wireType, tag) + data && SkipField(data, wireType) == Some(|data|)
  }

  lemma UnknownStep(d: Schema, st: LoopState, u: bytes, b: bytes)
    requires ShapedState(d, st) && UnknownField(d, u)
    ensures u != [] && Step(d, st, u + b) == Next(st, |u|)
  {
    var wireType, tag, data :| IsUnknown(d, u, wireType, tag, data);
    hide DecodeVarint32, SkipField, SchemaOk, Shaped, Key, DecodeField;
    KeyRoundTrip(wireType, tag, data + b);
    Regroup(Key(wireType, tag), data, b);
    SkipFieldPrefix(data, b, wireType);
    assert FindFrom(d, tag, 0).None?;
  }

  /** An unknown field between top-level fields changes nothing. */
  lemma UnknownFieldsIgnored(d: Schema, m: Message, a: bytes, u: bytes, b: bytes)
    requires SchemaOk(d) && Shaped(d, m) && Clean(d, Begin(m), a) && UnknownField(d, u)
    ensures DecodeMessage(d, m, a + u + b) == DecodeMessage(d, m, a + b)
  {
    Regroup(a, u, b);
    LoopAppend(d, Begin(m), a, u + b);
    LoopAppend(d, Begin(m), a, b);
    var st := Loop(d, Begin(m), a).value;
    UnknownStep(d, st, u, b);
    assert (u + b)[|u|..] == b;
    hide Step, SchemaOk, Shaped;
    assert Loop(d, st, u + b) == Loop(d, st, b);
  }

  // ----- forward compatibility: fields of another schema -----

  lemma {:induction false} SkipsVarint(v: nat)
    ensures SkipVarint(Varint(v)) == Some(|Varint(v)|)
  {
    if v >= 128 {
      SkipsVarint(v / 128);
      assert Varint(v)[1..] == Varint(v / 128);
    }
  }

  /** What is encoded can be skipped by its wire type alone. */
  lemma ValueIsSkippable(f: Field, v: Value, unions: nat)
    requires FieldOk(f, unions) && ShapedValue(f, v) && ValueFits(f, v)
    ensures EncodeValue(f, v).Some?
    ensures SkipField(EncodeValue(f, v).value, WireType(f.ltype)) == Some(|EncodeValue(f, v).value|)
  {
    ValueEncodes(f, v, unions);
    hide SkipVarint, ReadString, ZigZag, Prefixed, Varint, EncodeMessage, MessageFits, SchemaOk;
    var e := EncodeValue(f, v).value;
    assert e + [] == e;
    match f.ltype
    case TBool => SkipsVarint(if v.n != 0 then 1 else 0);
    case TVarint => SkipsVarint(v.n % TWO_TO_64);
    case TUVarint => SkipsVarint(v.n % TWO_TO_64);
    case TSVarint => SkipsVarint(ZigZag(v.n));
    case TFixed32 =>
    case TFixed64 =>
    case TSubmessage(d) => PrefixedRoundTrip(EncodeMessage(d, v.m).value, []);
    case _ => PrefixedRoundTrip(v.b, []);
  }

  ghost predicate Unknown(other: Schema, tag: nat) {
    0 < tag <= MAX_TAG && forall i :: 0 <= i < |other.fields| ==> other.fields[i].tag != tag
  }

  /** One turn over an unknown key and data that can be skipped. */
  lemma SkipTurn(other: Schema, st: LoopState, wireType: nat, tag: nat, data: bytes, rest: bytes)
    requires ShapedState(other, st) && Unknown(other, tag) && wireType < 8 && SkipField(data, wireType) == Some(|data|)
    ensures Loop(other, st, Key(wireType, tag) + data + rest) == Loop(other, st, rest)
  {
    hide SkipField, SchemaOk, Shaped, Key;
    assert IsUnknown(other, Key(wireType, tag) + data, wireType, tag, data);
    UnknownStep(other, st, Key(wireType, tag) + data, rest);
    hide Step, UnknownField;
    LoopNext(other, st, Key(wireType, tag) + data, rest);
  }

  lemma {:induction false} EachSkipped(other: Schema, st: LoopState, f: Field, s: Slot, k: nat, unions: nat,
                                       rest: bytes)
    requires ShapedState(other, st) && Unknown(other, f.tag) && FieldOk(f, unions)
    requires s.Many? && ItemsShaped(f, s.items) && k <= |s.items|
    requires forall j :: 0 <= j < |s.items| ==> ValueFits(f, s.items[j])
    ensures EncodeEach(f, s, k).Some?
    ensures Loop(other, st, EncodeEach(f, s, k).value + rest) == Loop(other, st, rest)
    decreases |s.items| - k
  {
    hide Loop, EncodeValue, ShapedValue, ValueFits, FieldOk, Key, SkipField, Unknown, SchemaOk, Shaped;
    if k == |s.items| {
      assert [] + rest == rest;
    } else {
      EachSkipped(other, st, f, s, k + 1, unions, rest);
      ValueIsSkippable(f, s.items[k], unions);
      var more := EncodeEach(f, s, k + 1).value;
      SkipTurn(other, st, WireType(f.ltype), f.tag, EncodeValue(f, s.items[k]).value, more + rest);
      Regroup(FieldKey(f) + EncodeValue(f, s.items[k]).value, more, rest);
    }
  }

  lemma ArraySkipped(other: Schema, st: LoopState, f: Field, s: Slot, unions: nat, rest: bytes)
    requires ShapedState(other, st) && Unknown(other, f.tag) && FieldOk(f, unions) && IsArray(f)
    requires s.Many? && ItemsShaped(f, s.items) && ItemsFits(f, s)
    ensures EncodeArray(f, s).Some?
    ensures Loop(other, st, EncodeArray(f, s).value + rest) == Loop(other, st, rest)
  {
    EachSkipped(other, st, f, s, 0, unions, rest);
    EachEncodes(f, s, 0, unions);
    hide Loop, EncodeValue, EncodeEach, EncodePacked, ShapedValue, ValueFits, FieldOk, Key, SkipField, Unknown;
    hide SchemaOk;
    hide Shaped, ReadString, Prefixed;
    assert [] + rest == rest;
    if s.items != [] && f.ltype.Packable() {
      var packed := EncodePacked(f, s, 0).value;
      PrefixedIsSkippable(packed);
      SkipTurn(other, st, WT_STRING, f.tag, Prefixed(packed), rest);
    }
  }

  lemma SingleSkipped(other: Schema, st: LoopState, f: Field, v: Value, unions: nat, rest: bytes)
    requires ShapedState(other, st) && Unknown(other, f.tag)
    requires FieldOk(f, unions) && ShapedValue(f, v) && ValueFits(f, v)
    ensures EncodeTagged(f, v).Some?
    ensures Loop(other, st, EncodeTagged(f, v).value + rest) == Loop(other, st, rest)
  {
    ValueIsSkippable(f, v, unions);
    hide Loop, EncodeValue, ShapedValue, ValueFits, FieldOk, Key, SkipField, Unknown, SchemaOk, Shaped;
    SkipTurn(other, st, WireType(f.ltype), f.tag, EncodeValue(f, v).value, rest);
  }

  lemma FieldSkipped(other: Schema, st: LoopState, d: Schema, m: Message, i: nat, rest: bytes)
    requires ShapedState(other, st) && SchemaOk(d) && Shaped(d, m) && MessageFits(d, m) && i < |d.fields|
    requires Unknown(other, d.fields[i].tag)
    ensures i < |m.slots| && ShapedSlot(d.fields[i], m, i) && EncodeField(d.fields[i], m, i).Some?
    ensures Loop(other, st, EncodeField(d.fields[i], m, i).value + rest) == Loop(other, st, rest)
  {
    FieldEncodes(d, m, i);
    var f, s := d.fields[i], m.slots[i];
    assert FieldOk(f, d.unions) && ShapedSlot(f, m, i) && SlotFits(f, m, i);
    hide Loop, EncodeTagged, EncodeArray, ShapedValue, ValueFits, FieldOk, Unknown, SchemaOk, Shaped, IsZero;
    hide MessageFits;
    assert [] + rest == rest;
    if IsArray(f) {
      assert ItemsFits(f, s);
      ArraySkipped(other, st, f, s, d.unions, rest);
    } else if Single(f, m, i).Some? {
      SingleSkipped(other, st, f, Single(f, m, i).value, d.unions, rest);
    }
  }

  lemma PrefixedIsSkippable(b: bytes)
    requires |b| < TWO_TO_32
    ensures SkipField(Prefixed(b), WT_STRING) == Some(|Prefixed(b)|)
  {
    hide ReadString, Prefixed;
    PrefixedRoundTrip(b, []);
    assert Prefixed(b) + [] == Prefixed(b);
  }

  lemma {:induction false} FieldsSkipped(other: Schema, st: LoopState, d: Schema, m: Message, i: nat, rest: bytes)
    requires ShapedState(other, st) && SchemaOk(d) && Shaped(d, m) && MessageFits(d, m) && i <= |d.fields|
    requires forall j :: i <= j < |d.fields| ==> Unknown(other, d.fields[j].tag)
    ensures EncodeFrom(d, m, i).Some?
    ensures Loop(other, st, EncodeFrom(d, m, i).value + rest) == Loop(other, st, rest)
    decreases |d.fields| - i
  {
    hide Loop, SchemaOk, Shaped, MessageFits, EncodeField, Unknown;
    if i == |d.fields| {
      assert [] + rest == rest;
    } else {
      FieldsSkipped(other, st, d, m, i + 1, rest);
      var more := EncodeFrom(d, m, i + 1).value;
      FieldSkipped(other, st, d, m, i, more + rest);
      Regroup(EncodeField(d.fields[i], m, i).value, more, rest);
    }
  }

  /** A reader whose schema has none of the writer's fields takes nothing from the writer's message, and is
      not disturbed by it either. */
  lemma ForeignMessageIgnored(other: Schema, m0: Message, d: Schema, m: Message, rest: bytes)
    requires SchemaOk(other) && Shaped(other, m0) && SchemaOk(d) && Shaped(d, m) && MessageFits(d, m)
    requires forall j :: 0 <= j < |d.fields| ==> Unknown(other, d.fields[j].tag)
    ensures EncodeMessage(d, m).Some?
    ensures DecodeMessage(other, m0, EncodeMessage(d, m).value + rest) == DecodeMessage(other, m0, rest)
  {
    FieldsSkipped(other, Begin(m0), d, m, 0, rest);
    hide Loop, SchemaOk, Shaped;
  }

  // ----- required fields -----

  /** The fields that occur at the top level, in order. */
  ghost function Occurring(d: Schema, st: LoopState, s: bytes): seq<nat>
    requires ShapedState(d, st)
    decreases |s|
  {
    if s == [] || !Step(d, st, s).Next? then []
    else
      var i := FindFrom(d, DecodeVarint32(s).value.value / 8, 0);
      (if i.Some? then [i.value] else []) + Occurring(d, Step(d, st, s).st, s[Step(d, st, s).size..])
  }

  predicate NoFixedCount(d: Schema) {
    forall i :: 0 <= i < |d.fields| ==> !d.fields[i].rule.FixedCount?
  }

  lemma StepSees(d: Schema, st: LoopState, s: bytes)
    requires ShapedState(d, st) && NoFixedCount(d) && Step(d, st, s).Next?
    ensures DecodeVarint32(s).Some?
    ensures var i := FindFrom(d, DecodeVarint32(s).value.value / 8, 0);
            && Step(d, st, s).st.fixed == st.fixed
            && Step(d, st, s).st.seen == st.seen + if i.Some? && Tracked(d, i.value) then {i.value} else {}
  {
    hide DecodeStatic, DecodeVarint32, SkipField, SchemaOk, Shaped, Tracked;
    var key := DecodeVarint32(s).value;
    var i := FindFrom(d, key.value / 8, 0);
    if i.Some? {
      StaticTracksNothing(d, See(d, st, i.value), i.value, key.value % 8, s[key.size..]);
    }
  }

  lemma {:induction false} LoopSees(d: Schema, st: LoopState, s: bytes)
    requires ShapedState(d, st) && NoFixedCount(d) && Loop(d, st, s).Some?
    ensures Loop(d, st, s).value.fixed == st.fixed
    ensures forall i :: 0 <= i < |d.fields| && Tracked(d, i) ==>
              (i in Loop(d, st, s).value.seen <==> i in st.seen || i in Occurring(d, st, s))
    decreases |s|
  {
    hide Step, SchemaOk, Shaped, Tracked, DecodeVarint32, FindFrom;
    if s != [] && Step(d, st, s).Next? {
      StepSees(d, st, s);
      LoopSees(d, Step(d, st, s).st, s[Step(d, st, s).size..]);
    }
  }

  /** When every field in the input decodes, pb_decode_noinit succeeds exactly when each of the first 64
      required fields occurs at least once, in whatever order and however often. */
  lemma RequiredExactly(d: Schema, m: Message, s: bytes)
    requires SchemaOk(d) && Shaped(d, m) && NoFixedCount(d) && Loop(d, Begin(m), s).Some?
    ensures DecodeMessage(d, m, s).Some?
       <==> forall i :: 0 <= i < |d.fields| && Tracked(d, i) ==> i in Occurring(d, Begin(m), s)
  {
    LoopSees(d, Begin(m), s);
    hide Loop, SchemaOk, Shaped, Tracked, Occurring;
  }
}

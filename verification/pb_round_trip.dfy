/** Decoding what was encoded gives back the message, for every schema and every well-formed message. */
module PbRoundTrip {
  import opened Wrappers
  import opened Coding
  import opened PbVarints
  import opened PbMessages
  import opened PbDecoding

  // ----- what comes back -----

  /** What decoding makes of an encoded message: the same in all that the struct means, except that a
      proto3 field that is zero is not encoded and comes back as its default. Values without their
      has-flag, and unset members of unions, do not count. */
  ghost predicate BackValue(f: Field, v: Value, w: Value)
    requires ShapedValue(f, v) && ShapedValue(f, w)
    decreases v, 0
  {
    if f.ltype.TSubmessage? then Back(f.ltype.schema, v.m, w.m) else v == w
  }

  ghost predicate BackSlot(f: Field, m: Message, m': Message, i: nat)
    requires i < |m.slots| && i < |m'.slots| && ShapedSlot(f, m, i) && ShapedSlot(f, m', i)
    decreases m, 0
  {
    var (s, s') := (m.slots[i], m'.slots[i]);
    match f.rule
    case Required => BackValue(f, s.v, s'.v)
    case Singular => if IsZero(f, s.v) then s'.v == DefaultValue(f) else BackValue(f, s.v, s'.v)
    case Optional => s.has == s'.has && (s.has ==> BackValue(f, s.v, s'.v))
    case Repeated(_) => BackItems(f, s, s')
    case FixedCount(_) => BackItems(f, s, s')
    case Oneof(u) =>
      m.unions[u].which == f.tag ==> m'.unions[u].which == f.tag && BackValue(f, m.unions[u].v, m'.unions[u].v)
  }

  ghost predicate BackItems(f: Field, s: Slot, s': Slot)
    requires s.Many? && s'.Many? && ItemsShaped(f, s.items) && ItemsShaped(f, s'.items)
    decreases s, 0
  {
    |s.items| == |s'.items| && forall k :: 0 <= k < |s.items| ==> BackValue(f, s.items[k], s'.items[k])
  }

  ghost predicate Back(d: Schema, m: Message, m': Message)
    requires Shaped(d, m) && Shaped(d, m')
    decreases m, 1
  {
    && (forall i :: 0 <= i < |d.fields| ==> BackSlot(d.fields[i], m, m', i))
    && (forall u :: 0 <= u < d.unions ==> m.unions[u].which == m'.unions[u].which)
  }

  // ----- well-formed messages -----

  /** In the range of its type, and everything with a length prefix below 2^32 bytes. */
  ghost predicate ValueFits(f: Field, v: Value)
    requires ShapedValue(f, v)
    decreases v, 0
  {
    match f.ltype
    case TBool => v.n == 0 || v.n == 1
    case TVarint => IsIntSize(f.dataSize) && -HalfRange(f.dataSize) <= v.n < HalfRange(f.dataSize)
    case TUVarint => IsIntSize(f.dataSize) && 0 <= v.n < 2 * HalfRange(f.dataSize)
    case TSVarint => IsIntSize(f.dataSize) && -HalfRange(f.dataSize) <= v.n < HalfRange(f.dataSize)
    case TFixed32 => 0 <= v.n < TWO_TO_32
    case TFixed64 => 0 <= v.n < TWO_TO_64
    case TBytes => |v.b| + BYTES_HEADER <= f.dataSize
    case TString => true
    case TFixedBytes => true
    case TSubmessage(d) =>
      && MessageFits(d, v.m)
      && (EncodeMessage(d, v.m).Some? ==> |EncodeMessage(d, v.m).value| < TWO_TO_32)
  }

  /** Counts within their arrays. */
  ghost predicate SlotFits(f: Field, m: Message, i: nat)
    requires i < |m.slots| && ShapedSlot(f, m, i)
    decreases m, 0
  {
    var s := m.slots[i];
    match f.rule
    case Required => ValueFits(f, s.v)
    case Singular => ValueFits(f, s.v)
    case Optional => s.has ==> ValueFits(f, s.v)
    case Repeated(_) => ItemsFits(f, s)
    case FixedCount(_) => ItemsFits(f, s)
    case Oneof(u) => m.unions[u].which == f.tag ==> ValueFits(f, m.unions[u].v)
  }

  ghost predicate ItemsFits(f: Field, s: Slot)
    requires s.Many? && ItemsShaped(f, s.items)
    decreases s, 0
  {
    && |s.items| <= ArraySize(f.rule) && (forall k :: 0 <= k < |s.items| ==> ValueFits(f, s.items[k]))
    && (EncodePacked(f, s, 0).Some? ==> |EncodePacked(f, s, 0).value| < TWO_TO_32)
  }

  ghost predicate HasMember(d: Schema, u: nat, tag: nat) {
    exists i :: 0 <= i < |d.fields| && d.fields[i].rule == Oneof(u) && d.fields[i].tag == tag
  }

  ghost predicate MessageFits(d: Schema, m: Message)
    requires Shaped(d, m)
    decreases m, 1
  {
    && (forall i :: 0 <= i < |d.fields| ==> SlotFits(d.fields[i], m, i))
    && (forall u :: 0 <= u < d.unions && m.unions[u].which != 0 ==> HasMember(d, u, m.unions[u].which))
  }

  /** There is room for the terminator of a string in its buffer. */
  ghost predicate Terminated(f: Field, v: Value)
    requires ShapedValue(f, v)
    decreases v, 0
  {
    match f.ltype
    case TString => |v.b| + 1 <= f.dataSize
    case TSubmessage(d) => AllTerminated(d, v.m)
    case _ => true
  }

  ghost predicate SlotTerminated(f: Field, m: Message, i: nat)
    requires i < |m.slots| && ShapedSlot(f, m, i)
    decreases m, 0
  {
    var s := m.slots[i];
    match f.rule
    case Required => Terminated(f, s.v)
    case Singular => !IsZero(f, s.v) ==> Terminated(f, s.v)
    case Optional => s.has ==> Terminated(f, s.v)
    case Repeated(_) => ItemsTerminated(f, s)
    case FixedCount(_) => ItemsTerminated(f, s)
    case Oneof(u) => m.unions[u].which == f.tag ==> Terminated(f, m.unions[u].v)
  }

  ghost predicate ItemsTerminated(f: Field, s: Slot)
    requires s.Many? && ItemsShaped(f, s.items)
    decreases s, 0
  {
    forall k :: 0 <= k < |s.items| ==> Terminated(f, s.items[k])
  }

  /** So it is for every string that is encoded, at all levels. */
  ghost predicate AllTerminated(d: Schema, m: Message)
    requires Shaped(d, m)
    decreases m, 1
  {
    forall i :: 0 <= i < |d.fields| ==> SlotTerminated(d.fields[i], m, i)
  }

  ghost predicate ValueOk(f: Field, v: Value)
    requires ShapedValue(f, v)
  {
    ValueFits(f, v) && Terminated(f, v)
  }

  ghost predicate SlotOk(f: Field, m: Message, i: nat)
    requires i < |m.slots| && ShapedSlot(f, m, i)
  {
    SlotFits(f, m, i) && SlotTerminated(f, m, i)
  }

  ghost predicate ItemsOk(f: Field, s: Slot)
    requires s.Many? && ItemsShaped(f, s.items)
  {
    ItemsFits(f, s) && ItemsTerminated(f, s)
  }

  ghost predicate MessageOk(d: Schema, m: Message)
    requires Shaped(d, m)
  {
    MessageFits(d, m) && AllTerminated(d, m)
  }

  // ----- single values -----

  lemma SizeBytes(n: nat)
    requires IsIntSize(n)
    ensures HalfRange(n) <= TWO_TO_63 && (n != 8 ==> HalfRange(n) <= TWO_TO_31)
  {
  }

  /** Sign extension to 64 bits and truncation to the field's size cancel. */
  lemma SignedComesBack(n: int, size: nat)
    requires IsIntSize(size) && -HalfRange(size) <= n < HalfRange(size)
    ensures n == if size == 8 then AsSigned(n % TWO_TO_64) else Signed32(n % TWO_TO_64)
  {
    SizeBytes(size);
    assert n % TWO_TO_64 == if n < 0 then n + TWO_TO_64 else n;
    if size != 8 {
      assert n % TWO_TO_64 % TWO_TO_32 == if n < 0 then n + TWO_TO_32 else n;
    }
  }

  lemma PrefixedRoundTrip(b: bytes, rest: bytes)
    requires |b| < TWO_TO_32
    ensures ReadString(Prefixed(b) + rest) == Some(Parsed(b, |Prefixed(b)|))
  {
    var s := Prefixed(b) + rest;
    assert s == Varint(|b|) + (b + rest);
    PbVarints.Varint32RoundTrip(|b|, b + rest);
  }

  lemma FixedBytesRoundTrip(s: bytes, rest: bytes)
    ensures (s + rest)[..|s|] == s
  {
  }

  lemma ScalarRoundTrip(f: Field, v: Value, rest: bytes)
    requires !f.ltype.TSubmessage? && ShapedValue(f, v) && ValueOk(f, v) && f.dataSize < TWO_TO_32
    ensures EncodeValue(f, v).Some?
    ensures DecodeScalar(f, EncodeValue(f, v).value + rest) == Some(Parsed(v, |EncodeValue(f, v).value|))
  {
    hide DecodeVarint32, DecodeVarint64, Varint, ReadString, Prefixed, Fixed32, Fixed64, DecodeFixed32, DecodeFixed64;
    hide ZigZag, UnZigZag;
    match f.ltype
    case TBool => PbVarints.Varint32RoundTrip(if v.n != 0 then 1 else 0, rest);
    case TVarint =>
      SignedComesBack(v.n, f.dataSize);
      Varint64ComesBack(v.n % TWO_TO_64, rest);
    case TUVarint =>
      SizeBytes(f.dataSize);
      SmallMod(v.n, TWO_TO_64);
      Varint64ComesBack(v.n, rest);
    case TSVarint =>
      SizeBytes(f.dataSize);
      ZigZagIsBijection(v.n, 0);
      Varint64ComesBack(ZigZag(v.n), rest);
    case TFixed32 =>
      FixedBytesRoundTrip(Fixed32(v.n), rest);
      Fixed32RoundTrip(v.n);
    case TFixed64 =>
      FixedBytesRoundTrip(Fixed64(v.n), rest);
      Fixed64RoundTrip(v.n);
    case TBytes => PrefixedRoundTrip(v.b, rest);
    case TString => PrefixedRoundTrip(v.b, rest);
    case TFixedBytes =>
      PrefixedRoundTrip(v.b, rest);
      assert v.b == [] ==> v.b == Zeros(f.dataSize);
  }

  lemma Varint64ComesBack(v: uint64, rest: bytes)
    ensures DecodeVarint64(Varint(v) + rest) == Some(Parsed(v, |Varint(v)|))
  {
    Varint64RoundTrip(v, rest);
  }

  // ----- keys -----

  lemma FindUnique(d: Schema, i: nat, from: nat)
    requires SchemaOk(d) && from <= i < |d.fields|
    ensures FindFrom(d, d.fields[i].tag, from) == Some(i)
    decreases i - from
  {
    if from < i {
      FindUnique(d, i, from + 1);
    }
  }

  lemma KeyRoundTrip(wireType: nat, tag: nat, s: bytes)
    requires wireType < 8 && 0 < tag <= MAX_TAG
    ensures DecodeVarint32(Key(wireType, tag) + s) == Some(Parsed(tag * 8 + wireType, |Key(wireType, tag)|))
    ensures (Key(wireType, tag) + s)[|Key(wireType, tag)|..] == s
    ensures (tag * 8 + wireType) / 8 == tag && (tag * 8 + wireType) % 8 == wireType
  {
    hide DecodeVarint32, Varint;
    PbVarints.Varint32RoundTrip(tag * 8 + wireType, s);
  }

  /** The loop at the key of a field. */
  lemma KeyStep(d: Schema, st: LoopState, i: nat, wireType: nat, s: bytes)
    requires ShapedState(d, st) && i < |d.fields| && wireType < 8
    ensures 0 < d.fields[i].tag <= MAX_TAG
    ensures var (key, r) := (Key(wireType, d.fields[i].tag), DecodeField(d, st, i, wireType, s));
            Step(d, st, key + s) == if r.None? then Fail else Next(r.value.value, |key| + r.value.size)
  {
    hide DecodeField, DecodeVarint32, Key, FindFrom, Shaped;
    assert FieldOk(d.fields[i], d.unions);
    KeyRoundTrip(wireType, d.fields[i].tag, s);
    FindUnique(d, i, 0);
  }

  lemma LoopNext(d: Schema, st: LoopState, a: bytes, rest: bytes)
    requires ShapedState(d, st) && a != [] && Step(d, st, a + rest).Next? && Step(d, st, a + rest).size == |a|
    ensures ShapedState(d, Step(d, st, a + rest).st)
    ensures Loop(d, st, a + rest) == Loop(d, Step(d, st, a + rest).st, rest)
  {
    hide Step, Shaped, SchemaOk;
    assert (a + rest)[|a|..] == rest;
  }

  lemma Regroup(a: bytes, b: bytes, c: bytes)
    ensures a + b + c == a + (b + c)
  {
  }

  /** A key and a field that decodes behind it are one turn of the loop. */
  lemma FieldTurn(d: Schema, st: LoopState, i: nat, wireType: nat, body: bytes, rest: bytes, st': LoopState)
    requires ShapedState(d, st) && i < |d.fields| && wireType < 8
    requires DecodeField(d, st, i, wireType, body + rest) == Some(Parsed(st', |body|))
    ensures ShapedState(d, st')
    ensures Loop(d, st, Key(wireType, d.fields[i].tag) + body + rest) == Loop(d, st', rest)
  {
    hide DecodeField, Step, Loop, Shaped, SchemaOk, Varint;
    var key := Key(wireType, d.fields[i].tag);
    KeyStep(d, st, i, wireType, body + rest);
    Regroup(key, body, rest);
    assert key + body != [];
    LoopNext(d, st, key + body, rest);
  }

  // ----- field by field -----

  /** The first i fields have been decoded, the others are still at their defaults. */
  ghost predicate Progress(d: Schema, m: Message, i: nat, st: LoopState)
    requires ShapedState(d, st) && Shaped(d, m)
  {
    && (forall j :: 0 <= j < |d.fields| ==>
          if j < i then BackSlot(d.fields[j], m, st.m, j) else st.m.slots[j] == DefaultSlot(d.fields[j]))
    && (forall u :: 0 <= u < d.unions ==> st.m.unions[u].which == 0 || st.m.unions[u].which == m.unions[u].which)
    && (forall j :: 0 <= j < i && j < |d.fields| && Tracked(d, j) ==> j in st.seen)
    && FixedComplete(d, st) && (st.fixed.Some? ==> st.fixed.value.index < i)
  }

  lemma StartProgress(d: Schema, m: Message)
    requires SchemaOk(d) && Shaped(d, m)
    ensures ShapedState(d, LoopState(Defaults(d), {}, None)) && Progress(d, m, 0, LoopState(Defaults(d), {}, None))
  {
    DefaultsShaped(d);
  }

  /** A field that is not encoded. */
  lemma Skipped(d: Schema, m: Message, i: nat, st: LoopState)
    requires ShapedState(d, st) && Shaped(d, m) && i < |d.fields| && Progress(d, m, i, st)
    requires ShapedSlot(d.fields[i], m, i)
    requires var f := d.fields[i];
             match f.rule
             case Required => false
             case Singular => IsZero(f, m.slots[i].v)
             case Optional => !m.slots[i].has
             case Oneof(u) => m.unions[u].which != f.tag
             case _ => m.slots[i].items == []
    ensures Progress(d, m, i + 1, st)
  {
    var f := d.fields[i];
    hide IsZero, Back, EncodeValue;
    assert FieldOk(f, d.unions) && ShapedSlot(f, m, i) && ShapedSlot(f, st.m, i);
    assert st.m.slots[i] == DefaultSlot(f);
    assert BackSlot(f, m, st.m, i);
  }

  /** Storing one field leaves the others as they came back. */
  lemma StoreKeepsOther(d: Schema, m: Message, i: nat, st: LoopState, w: Value, j: nat)
    requires ShapedState(d, st) && Shaped(d, m) && i < |d.fields| && j < |d.fields| && i != j
    requires CanStore(d, st, i) && ShapedState(d, Store(d, st, i, w))
    requires d.fields[i].rule.Oneof? ==>
               d.fields[i].rule.union < |m.unions| && m.unions[d.fields[i].rule.union].which == d.fields[i].tag
    requires ShapedSlot(d.fields[j], m, j) && ShapedSlot(d.fields[j], st.m, j) && BackSlot(d.fields[j], m, st.m, j)
    ensures ShapedSlot(d.fields[j], Store(d, st, i, w).m, j) && BackSlot(d.fields[j], m, Store(d, st, i, w).m, j)
  {
    hide BackValue, BackItems, ShapedValue, SchemaOk, IsZero;
    assert ShapedSlot(d.fields[j], Store(d, st, i, w).m, j);
    if d.fields[j].tag == d.fields[i].tag {
      SameTagSameField(d, i, j);
    }
  }

  /** The value of a single field comes back. */
  ghost predicate SingleBack(f: Field, m: Message, i: nat, w: Value)
    requires i < |m.slots| && ShapedSlot(f, m, i) && ShapedValue(f, w)
  {
    match f.rule
    case Required => BackValue(f, m.slots[i].v, w)
    case Singular => !IsZero(f, m.slots[i].v) && BackValue(f, m.slots[i].v, w)
    case Optional => m.slots[i].has && BackValue(f, m.slots[i].v, w)
    case Oneof(u) => m.unions[u].which == f.tag && BackValue(f, m.unions[u].v, w)
    case _ => false
  }

  /** A single value that has been decoded and stored. */
  lemma Stored(d: Schema, m: Message, i: nat, st: LoopState, w: Value)
    requires ShapedState(d, st) && Shaped(d, m) && i < |d.fields| && Progress(d, m, i, st)
    requires ShapedSlot(d.fields[i], m, i) && ShapedValue(d.fields[i], w) && SingleBack(d.fields[i], m, i, w)
    ensures CanStore(d, See(d, st, i), i)
    ensures var st' := Store(d, See(d, st, i), i, w); ShapedState(d, st') && Progress(d, m, i + 1, st')
  {
    hide BackValue, ShapedValue, SchemaOk, IsZero, DefaultSlot;
    StoreShaped(d, See(d, st, i), i, w);
    var st' := Store(d, See(d, st, i), i, w);
    assert ShapedSlot(d.fields[i], st'.m, i);
    assert BackSlot(d.fields[i], m, st'.m, i);
    hide BackSlot;
    forall j | 0 <= j < i ensures ShapedSlot(d.fields[j], m, j) && BackSlot(d.fields[j], m, st'.m, j) {
      assert ShapedSlot(d.fields[j], m, j) && ShapedSlot(d.fields[j], st.m, j) && BackSlot(d.fields[j], m, st.m, j);
      StoreKeepsOther(d, m, i, See(d, st, i), w, j);
    }
  }

  /** For single values, the target is the default. */
  lemma TargetIsDefault(d: Schema, m: Message, i: nat, st: LoopState)
    requires ShapedState(d, st) && Shaped(d, m) && i < |d.fields| && Progress(d, m, i, st)
    ensures d.fields[i].ltype.TSubmessage? ==> Target(d, See(d, st, i).m, i) == Sub(Defaults(d.fields[i].ltype.schema))
  {
    var f := d.fields[i];
    hide Back, BackValue, EncodeValue;
    assert FieldOk(f, d.unions) && ShapedSlot(f, st.m, i);
    assert st.m.slots[i] == DefaultSlot(f);
    if f.ltype.TSubmessage? {
      assert DefaultValue(f) == ZeroValue(f) == Sub(Defaults(f.ltype.schema));
    }
  }

  /** The turn of the loop for a single value. */
  lemma SingleTurn(d: Schema, m: Message, i: nat, st: LoopState, body: bytes, rest: bytes, w: Value)
    requires ShapedState(d, st) && Shaped(d, m) && i < |d.fields| && Progress(d, m, i, st)
    requires !d.fields[i].rule.Repeated? && !d.fields[i].rule.FixedCount? && ShapedValue(d.fields[i], w)
    requires var t := d.fields[i].ltype;
             t.TSubmessage? ==> SchemaOk(t.schema) && Shaped(t.schema, Defaults(t.schema))
    requires DecodeValue(d.fields[i], DefaultTarget(d.fields[i]), body + rest) == Some(Parsed(w, |body|))
    ensures CanStore(d, See(d, st, i), i)
    ensures var st' := Store(d, See(d, st, i), i, w);
            ShapedState(d, st') && Loop(d, st, FieldKey(d.fields[i]) + body + rest) == Loop(d, st', rest)
  {
    var st1 := See(d, st, i);
    TargetIsDefault(d, m, i, st);
    StoreShaped(d, st1, i, w);
    hide Progress, Loop, Step, Store, SchemaOk, Shaped, Key;
    assert ShapedState(d, st1) by { SeeShaped(d, st, i); }
    TargetOfScalar(d.fields[i], Target(d, st1.m, i), body + rest);
    assert DecodeStatic(d, st1, i, WireType(d.fields[i].ltype),
                        body + rest) == Some(Parsed(Store(d, st1, i, w), |body|));
    assert DecodeField(d, st, i, WireType(d.fields[i].ltype), body + rest) == Some(Parsed(Store(d, st1, i, w), |body|));
    FieldTurn(d, st, i, WireType(d.fields[i].ltype), body, rest, Store(d, st1, i, w));
  }

  lemma SeeShaped(d: Schema, st: LoopState, i: nat)
    requires ShapedState(d, st) && i < |d.fields|
    ensures ShapedState(d, See(d, st, i))
  {
  }

  function DefaultTarget(f: Field): Value {
    if f.ltype.TSubmessage? then Sub(Defaults(f.ltype.schema)) else Num(0)
  }

  /** Only submessages look at their target. */
  lemma TargetOfScalar(f: Field, target: Value, s: bytes)
    requires f.ltype.TSubmessage? ==>
               target == DefaultTarget(f) && SchemaOk(f.ltype.schema) && Shaped(f.ltype.schema, target.m)
    ensures DecodeValue(f, target, s) == DecodeValue(f, DefaultTarget(f), s)
  {
  }

  // ----- arrays -----

  predicate IsArray(f: Field) {
    f.rule.Repeated? || f.rule.FixedCount?
  }

  /** How long the array is in the struct after k elements. */
  function LengthAt(f: Field, k: nat): nat {
    if f.rule.FixedCount? then f.rule.count else k
  }

  /** The fields before i, and the first k elements of field i, have been decoded. */
  ghost predicate ArrayProgress(d: Schema, m: Message, i: nat, k: nat, st: LoopState)
    requires ShapedState(d, st) && Shaped(d, m) && i < |d.fields| && IsArray(d.fields[i])
  {
    && (forall j :: 0 <= j < |d.fields| && j != i ==>
          if j < i then BackSlot(d.fields[j], m, st.m, j) else st.m.slots[j] == DefaultSlot(d.fields[j]))
    && (forall u :: 0 <= u < d.unions ==> st.m.unions[u].which == 0 || st.m.unions[u].which == m.unions[u].which)
    && (forall j :: 0 <= j < i && Tracked(d, j) ==> j in st.seen)
    && ItemsProgress(d.fields[i], m, i, k, st.m)
    && (if d.fields[i].rule.FixedCount? && k > 0 then st.fixed == Some(FixedPos(i, k))
        else FixedComplete(d, st) && (st.fixed.Some? ==> st.fixed.value.index < i))
  }

  ghost predicate ItemsProgress(f: Field, m: Message, i: nat, k: nat, m': Message)
    requires i < |m.slots| && i < |m'.slots| && ShapedSlot(f, m, i) && ShapedSlot(f, m', i) && IsArray(f)
  {
    var (items, items') := (m.slots[i].items, m'.slots[i].items);
    k <= |items| && k <= |items'| == LengthAt(f, k) && forall q :: 0 <= q < k ==> BackValue(f, items[q], items'[q])
  }

  lemma ArrayBegins(d: Schema, m: Message, i: nat, st: LoopState)
    requires ShapedState(d, st) && Shaped(d, m) && i < |d.fields| && IsArray(d.fields[i]) && Progress(d, m, i, st)
    ensures ArrayProgress(d, m, i, 0, st)
  {
    hide BackValue, ShapedValue, SchemaOk, DefaultValue, ZeroValue;
    assert ShapedSlot(d.fields[i], m, i) && ShapedSlot(d.fields[i], st.m, i);
    assert st.m.slots[i] == DefaultSlot(d.fields[i]);
  }

  lemma ArrayEnds(d: Schema, m: Message, i: nat, st: LoopState)
    requires ShapedState(d, st) && Shaped(d, m) && i < |d.fields| && IsArray(d.fields[i]) && m.slots[i].Many?
    requires m.slots[i].items != [] && ArrayProgress(d, m, i, |m.slots[i].items|, st)
    ensures Progress(d, m, i + 1, st)
  {
    hide BackValue, ShapedValue, SchemaOk;
    var f := d.fields[i];
    assert ShapedSlot(f, m, i) && ShapedSlot(f, st.m, i);
    assert BackItems(f, m.slots[i], st.m.slots[i]);
    assert BackSlot(f, m, st.m, i);
  }

  /** The state in which the next element of the array is decoded. */
  ghost function Entered(d: Schema, st: LoopState, i: nat, k: nat): LoopState
    requires i < |d.fields|
  {
    if d.fields[i].rule.FixedCount? then st.(fixed := Some(FixedPos(i, k))) else st
  }

  lemma Entering(d: Schema, m: Message, i: nat, k: nat, st: LoopState)
    requires ShapedState(d, st) && Shaped(d, m) && i < |d.fields| && IsArray(d.fields[i])
    requires ArrayProgress(d, m, i, k, st)
    ensures var st1 := Entered(d, st, i, k);
            && EnterFixed(d, st, i) == Some(st1) && See(d, st1, i) == st1 && ShapedState(d, st1)
            && st1.m.slots[i].Many? && ArrayPos(st1, d.fields[i], st1.m.slots[i].items) == k
  {
    hide BackValue, ShapedValue, SchemaOk, BackSlot, DefaultSlot;
    assert ShapedSlot(d.fields[i], st.m, i) && ShapedSlot(d.fields[i], m, i);
  }

  /** One more element has been stored. */
  lemma ItemStored(d: Schema, m: Message, i: nat, k: nat, st: LoopState, w: Value)
    requires ShapedState(d, st) && Shaped(d, m) && i < |d.fields| && IsArray(d.fields[i])
    requires ArrayProgress(d, m, i, k, st)
    requires m.slots[i].Many? && k < |m.slots[i].items| <= ArraySize(d.fields[i].rule)
    requires ItemsShaped(d.fields[i], m.slots[i].items)
    requires ShapedValue(d.fields[i], w) && BackValue(d.fields[i], m.slots[i].items[k], w)
    ensures var st1 := Entered(d, st, i, k);
            && ShapedState(d, st1) && CanStore(d, st1, i)
            && ShapedState(d, Store(d, st1, i, w)) && ArrayProgress(d, m, i, k + 1, Store(d, st1, i, w))
  {
    hide BackValue, ShapedValue, SchemaOk, DefaultSlot;
    var st1 := Entered(d, st, i, k);
    Entering(d, m, i, k, st);
    StoreShaped(d, st1, i, w);
    var st' := Store(d, st1, i, w);
    assert ShapedSlot(d.fields[i], m, i) && ShapedSlot(d.fields[i], st.m, i) && ShapedSlot(d.fields[i], st'.m, i);
    assert ItemsProgress(d.fields[i], m, i, k + 1, st'.m);
    hide BackSlot, ItemsProgress;
    forall j | 0 <= j < i ensures ShapedSlot(d.fields[j], m, j) && BackSlot(d.fields[j], m, st'.m, j) {
      assert ShapedSlot(d.fields[j], m, j) && ShapedSlot(d.fields[j], st.m, j) && BackSlot(d.fields[j], m, st.m, j);
      StoreKeepsOther(d, m, i, st1, w, j);
    }
  }

  /** The turn of the loop for one element of an unpacked array. */
  lemma ElementTurn(d: Schema, m: Message, i: nat, k: nat, st: LoopState, body: bytes, rest: bytes, w: Value)
    requires ShapedState(d, st) && Shaped(d, m) && i < |d.fields| && IsArray(d.fields[i])
    requires ArrayProgress(d, m, i, k, st)
    requires m.slots[i].Many? && k < |m.slots[i].items| <= ArraySize(d.fields[i].rule)
    requires ItemsShaped(d.fields[i], m.slots[i].items)
    requires !d.fields[i].ltype.Packable() && ShapedValue(d.fields[i], w)
    requires BackValue(d.fields[i], m.slots[i].items[k], w)
    requires var t := d.fields[i].ltype;
             t.TSubmessage? ==> SchemaOk(t.schema) && Shaped(t.schema, Defaults(t.schema))
    requires DecodeValue(d.fields[i], DefaultTarget(d.fields[i]), body + rest) == Some(Parsed(w, |body|))
    ensures var st1 := Entered(d, st, i, k);
            && CanStore(d, st1, i) && ShapedState(d, Store(d, st1, i, w))
            && Loop(d, st, FieldKey(d.fields[i]) + body + rest) == Loop(d, Store(d, st1, i, w), rest)
  {
    var f, st1 := d.fields[i], Entered(d, st, i, k);
    Entering(d, m, i, k, st);
    ItemStored(d, m, i, k, st, w);
    hide ArrayProgress, BackValue, Loop, Step, Store, SchemaOk, Shaped, Key, ShapedValue;
    TargetOfItem(d, st1.m, i);
    TargetOfScalar(f, Target(d, st1.m, i), body + rest);
    assert DecodeStatic(d, st1, i, WireType(f.ltype), body + rest) == Some(Parsed(Store(d, st1, i, w), |body|));
    FieldTurn(d, st, i, WireType(f.ltype), body, rest, Store(d, st1, i, w));
  }

  lemma TargetOfItem(d: Schema, m: Message, i: nat)
    requires SchemaOk(d) && Shaped(d, m) && i < |d.fields| && IsArray(d.fields[i])
    ensures d.fields[i].ltype.TSubmessage? ==> Target(d, m, i) == DefaultTarget(d.fields[i])
  {
    assert FieldOk(d.fields[i], d.unions);
  }

  /** A packed array decodes to its elements, over whatever the array held. */
  lemma {:induction false} PackedRoundTrip(f: Field, s: Slot, items: seq<Value>, k: nat)
    requires f.ltype.Packable() && IsArray(f) && f.dataSize < TWO_TO_32 && s.Many? && ItemsShaped(f, s.items)
    requires k <= |s.items| <= ArraySize(f.rule)
    requires forall j :: 0 <= j < |s.items| ==> ValueOk(f, s.items[j])
    requires |items| == LengthAt(f, k) && (f.rule.FixedCount? ==> |s.items| == f.rule.count)
    requires forall q :: 0 <= q < k ==> items[q] == s.items[q]
    ensures EncodePacked(f, s, k).Some?
    ensures DecodePacked(f, items, k, EncodePacked(f, s, k).value) == Some((s.items, |s.items|))
    decreases |s.items| - k
  {
    hide DecodeScalar, EncodeValue, ShapedValue, ValueOk;
    if k < |s.items| {
      var v := s.items[k];
      PackedRoundTrip(f, s, PutItem(items, k, v), k + 1);
      var rest := EncodePacked(f, s, k + 1).value;
      ScalarRoundTrip(f, v, rest);
      var e := EncodeValue(f, v).value;
      assert (e + rest)[|e|..] == rest;
      assert DecodeScalar(f, e + rest) == Some(Parsed(v, |e|));
      assert |e| > 0 by { ScalarSize(f, e + rest); }
    } else {
      assert items == s.items;
    }
  }

  lemma ScalarSize(f: Field, s: bytes)
    requires !f.ltype.TSubmessage?
    ensures DecodeScalar(f, s).Some? ==> DecodeScalar(f, s).value.size > 0
  {
    hide DecodeScalar;
  }

  /** The turn of the loop for a packed array. */
  lemma PackedTurn(d: Schema, m: Message, i: nat, st: LoopState, rest: bytes)
    requires ShapedState(d, st) && Shaped(d, m) && i < |d.fields| && IsArray(d.fields[i]) && Progress(d, m, i, st)
    requires d.fields[i].ltype.Packable() && m.slots[i].Many? && m.slots[i].items != []
    requires ItemsShaped(d.fields[i], m.slots[i].items)
    requires ItemsOk(d.fields[i], m.slots[i]) && d.fields[i].dataSize < TWO_TO_32
    ensures EncodePacked(d.fields[i], m.slots[i], 0).Some?
    ensures var (items, body) := (m.slots[i].items, EncodePacked(d.fields[i], m.slots[i], 0).value);
            var st' := StoreItems(d, Entered(d, st, i, 0), i, items, |items|);
            && ShapedState(d, st') && ArrayProgress(d, m, i, |items|, st')
            && Loop(d, st, Key(WT_STRING, d.fields[i].tag) + Prefixed(body) + rest) == Loop(d, st', rest)
  {
    var f, s, st1 := d.fields[i], m.slots[i], Entered(d, st, i, 0);
    ArrayBegins(d, m, i, st);
    Entering(d, m, i, 0, st);
    assert ShapedSlot(f, m, i) && ShapedSlot(f, st1.m, i) && ItemsProgress(f, m, i, 0, st.m);
    hide EncodePacked, EncodeValue, DecodePacked, Loop, Step, SchemaOk, Key, ShapedValue, Prefixed, ReadString;
    hide BackValue, ValueOk, ArrayProgress;
    PackedRoundTrip(f, s, st1.m.slots[i].items, 0);
    var body := EncodePacked(f, s, 0).value;
    PrefixedRoundTrip(body, rest);
    StoreItemsShaped(d, st1, i, s.items, |s.items|);
    var st' := StoreItems(d, st1, i, s.items, |s.items|);
    assert DecodeStatic(d, st1, i, WT_STRING, Prefixed(body) + rest) == Some(Parsed(st', |Prefixed(body)|));
    FieldTurn(d, st, i, WT_STRING, Prefixed(body), rest, st');
    PackedStored(d, m, i, st);
  }

  lemma PackedStored(d: Schema, m: Message, i: nat, st: LoopState)
    requires ShapedState(d, st) && Shaped(d, m) && i < |d.fields| && IsArray(d.fields[i])
    requires ArrayProgress(d, m, i, 0, st)
    requires d.fields[i].ltype.Packable() && m.slots[i].Many? && m.slots[i].items != []
    requires ItemsShaped(d.fields[i], m.slots[i].items)
    ensures var st' := StoreItems(d, Entered(d, st, i, 0), i, m.slots[i].items, |m.slots[i].items|);
            ShapedState(d, st') && ArrayProgress(d, m, i, |m.slots[i].items|, st')
  {
    hide ShapedValue, SchemaOk, DefaultSlot;
    var f, s, st1 := d.fields[i], m.slots[i], Entered(d, st, i, 0);
    Entering(d, m, i, 0, st);
    assert ShapedSlot(f, m, i);
    StoreItemsShaped(d, st1, i, s.items, |s.items|);
    var st' := StoreItems(d, st1, i, s.items, |s.items|);
    forall j | 0 <= j < |d.fields| && j != i
      ensures if j < i then BackSlot(d.fields[j], m, st'.m, j) else st'.m.slots[j] == DefaultSlot(d.fields[j])
    {
      assert ShapedSlot(d.fields[j], m, j) && ShapedSlot(d.fields[j], st.m, j) && ShapedSlot(d.fields[j], st'.m, j);
      assert j < i ==> BackSlot(d.fields[j], m, st.m, j);
    }
    assert ShapedSlot(f, st'.m, i);
    assert ItemsProgress(f, m, i, |s.items|, st'.m);
  }

  // ----- well-formed messages encode -----

  /** The value that a single field encodes, if it encodes one. */
  function Single(f: Field, m: Message, i: nat): Option<Value>
    requires i < |m.slots| && ShapedSlot(f, m, i)
  {
    match f.rule
    case Oneof(u) => if m.unions[u].which == f.tag then Some(m.unions[u].v) else None
    case Optional => if m.slots[i].has then Some(m.slots[i].v) else None
    case Required => Some(m.slots[i].v)
    case Singular => Some(m.slots[i].v)
    case _ => None
  }

  lemma {:induction false} ValueEncodes(f: Field, v: Value, unions: nat)
    requires FieldOk(f, unions) && ShapedValue(f, v) && ValueFits(f, v)
    ensures EncodeValue(f, v).Some?
    decreases v, 0
  {
    if f.ltype.TSubmessage? {
      FieldsEncode(f.ltype.schema, v.m, 0);
    }
  }

  lemma {:induction false} EachEncodes(f: Field, s: Slot, k: nat, unions: nat)
    requires FieldOk(f, unions) && s.Many? && ItemsShaped(f, s.items) && k <= |s.items|
    requires forall j :: 0 <= j < |s.items| ==> ValueFits(f, s.items[j])
    ensures EncodeEach(f, s, k).Some? && EncodePacked(f, s, k).Some?
    decreases s, 0, |s.items| - k
  {
    if k < |s.items| {
      ValueEncodes(f, s.items[k], unions);
      EachEncodes(f, s, k + 1, unions);
    }
  }

  lemma {:induction false} FieldEncodes(d: Schema, m: Message, i: nat)
    requires SchemaOk(d) && Shaped(d, m) && MessageFits(d, m) && i < |d.fields|
    ensures ShapedSlot(d.fields[i], m, i) && EncodeField(d.fields[i], m, i).Some?
    decreases m, 0, 0
  {
    var f, s := d.fields[i], m.slots[i];
    assert FieldOk(f, d.unions) && ShapedSlot(f, m, i) && SlotFits(f, m, i);
    hide SchemaOk, Shaped, MessageFits, EncodeValue, EncodeEach, EncodePacked, IsZero, ValueFits, ShapedValue, FieldOk;
    if IsArray(f) {
      assert ItemsFits(f, s);
      EachEncodes(f, s, 0, d.unions);
    } else if Single(f, m, i).Some? {
      ValueEncodes(f, Single(f, m, i).value, d.unions);
    }
  }

  lemma {:induction false} FieldsEncode(d: Schema, m: Message, i: nat)
    requires SchemaOk(d) && Shaped(d, m) && MessageFits(d, m) && i <= |d.fields|
    ensures EncodeFrom(d, m, i).Some?
    decreases m, 1, |d.fields| - i
  {
    hide SchemaOk, Shaped, MessageFits, EncodeField;
    if i < |d.fields| {
      FieldEncodes(d, m, i);
      FieldsEncode(d, m, i + 1);
    }
  }

  // ----- the theorem -----

  lemma {:induction false} ValueRoundTrip(f: Field, v: Value, unions: nat, rest: bytes) returns (w: Value)
    requires FieldOk(f, unions) && ShapedValue(f, v) && ValueOk(f, v)
    ensures f.ltype.TSubmessage? ==> SchemaOk(f.ltype.schema) && Shaped(f.ltype.schema, Defaults(f.ltype.schema))
    ensures EncodeValue(f, v).Some?
    ensures DecodeValue(f, DefaultTarget(f),
                        EncodeValue(f, v).value + rest) == Some(Parsed(w, |EncodeValue(f, v).value|))
    ensures ShapedValue(f, w) && BackValue(f, v, w)
    decreases v, 0
  {
    hide DecodeScalar, DecodeMessage, EncodeMessage, ReadString, Prefixed, MessageOk;
    if f.ltype.TSubmessage? {
      var d := f.ltype.schema;
      var m' := MessageRoundTrip(d, v.m);
      PrefixedRoundTrip(EncodeMessage(d, v.m).value, rest);
      w := Sub(m');
    } else {
      ScalarRoundTrip(f, v, rest);
      w := v;
    }
  }

  /** One element of an unpacked array. */
  lemma {:induction false} ElementRoundTrip(d: Schema, m: Message, i: nat, k: nat, st: LoopState, rest: bytes)
    returns (st': LoopState)
    requires ShapedState(d, st) && Shaped(d, m) && i < |d.fields| && IsArray(d.fields[i])
    requires ArrayProgress(d, m, i, k, st) && FieldOk(d.fields[i], d.unions) && !d.fields[i].ltype.Packable()
    requires m.slots[i].Many? && ItemsShaped(d.fields[i], m.slots[i].items) && ItemsFits(d.fields[i], m.slots[i])
    requires k < |m.slots[i].items| && ValueOk(d.fields[i], m.slots[i].items[k])
    ensures EncodeEach(d.fields[i], m.slots[i], k).Some? && EncodeEach(d.fields[i], m.slots[i], k + 1).Some?
    ensures ShapedState(d, st') && ArrayProgress(d, m, i, k + 1, st')
    ensures Loop(d, st, EncodeEach(d.fields[i], m.slots[i], k).value + rest)
         == Loop(d, st', EncodeEach(d.fields[i], m.slots[i], k + 1).value + rest)
    decreases m, 0, 0
  {
    var f, s := d.fields[i], m.slots[i];
    hide ArrayProgress, BackValue, Loop, Step, Store, SchemaOk, Shaped, Key, ShapedValue, DecodeValue, EncodeValue;
    hide ValueFits, Terminated, FieldOk;
    EachEncodes(f, s, k + 1, d.unions);
    var more := EncodeEach(f, s, k + 1).value;
    var w := ValueRoundTrip(f, s.items[k], d.unions, more + rest);
    var body := EncodeValue(f, s.items[k]).value;
    ElementTurn(d, m, i, k, st, body, more + rest, w);
    ItemStored(d, m, i, k, st, w);
    Regroup(FieldKey(f) + body, more, rest);
    st' := Store(d, Entered(d, st, i, k), i, w);
  }

  lemma {:induction false} EachRoundTrip(d: Schema, m: Message, i: nat, k: nat, st: LoopState, rest: bytes)
    returns (st': LoopState)
    requires ShapedState(d, st) && Shaped(d, m) && i < |d.fields| && IsArray(d.fields[i])
    requires ArrayProgress(d, m, i, k, st)
    requires m.slots[i].Many? && ItemsShaped(d.fields[i], m.slots[i].items) && ItemsOk(d.fields[i], m.slots[i])
    requires !d.fields[i].ltype.Packable()
    requires k <= |m.slots[i].items| && FieldOk(d.fields[i], d.unions)
    ensures EncodeEach(d.fields[i], m.slots[i], k).Some?
    ensures ShapedState(d, st') && ArrayProgress(d, m, i, |m.slots[i].items|, st')
    ensures Loop(d, st, EncodeEach(d.fields[i], m.slots[i], k).value + rest) == Loop(d, st', rest)
    decreases m, 0, |m.slots[i].items| - k
  {
    var s := m.slots[i];
    hide ArrayProgress, BackValue, Loop, SchemaOk, Shaped, ShapedValue, EncodeValue, ValueFits, Terminated, FieldOk;
    if k == |s.items| {
      assert [] + rest == rest;
      st' := st;
    } else {
      st' := ElementRoundTrip(d, m, i, k, st, rest);
      st' := EachRoundTrip(d, m, i, k + 1, st', rest);
    }
  }

  lemma {:induction false} SingleRoundTrip(d: Schema, m: Message, i: nat, st: LoopState, rest: bytes)
    returns (st': LoopState)
    requires ShapedState(d, st) && Shaped(d, m) && i < |d.fields| && Progress(d, m, i, st)
    requires !IsArray(d.fields[i])
    requires ShapedSlot(d.fields[i], m, i) && Single(d.fields[i], m, i).Some? && FieldOk(d.fields[i], d.unions)
    requires SlotOk(d.fields[i], m, i)
    requires d.fields[i].rule.Singular? ==> !IsZero(d.fields[i], m.slots[i].v)
    ensures EncodeTagged(d.fields[i], Single(d.fields[i], m, i).value).Some?
    ensures ShapedState(d, st') && Progress(d, m, i + 1, st')
    ensures Loop(d, st, EncodeTagged(d.fields[i], Single(d.fields[i], m, i).value).value + rest) == Loop(d, st', rest)
    decreases m, 0, 0
  {
    var f := d.fields[i];
    var v := Single(f, m, i).value;
    hide Progress, BackValue, Loop, Step, Store, SchemaOk, Shaped, Key, ShapedValue, DecodeValue, EncodeValue;
    hide MessageOk, ValueOk, FieldOk;
    var w := ValueRoundTrip(f, v, d.unions, rest);
    Stored(d, m, i, st, w);
    SingleTurn(d, m, i, st, EncodeValue(f, v).value, rest, w);
    st' := Store(d, See(d, st, i), i, w);
  }

  lemma {:induction false} FieldRoundTrip(d: Schema, m: Message, i: nat, st: LoopState, rest: bytes)
    returns (st': LoopState)
    requires ShapedState(d, st) && Shaped(d, m) && i < |d.fields| && Progress(d, m, i, st)
    requires ShapedSlot(d.fields[i], m, i) && FieldOk(d.fields[i], d.unions) && SlotOk(d.fields[i], m, i)
    ensures EncodeField(d.fields[i], m, i).Some?
    ensures ShapedState(d, st') && Progress(d, m, i + 1, st')
    ensures Loop(d, st, EncodeField(d.fields[i], m, i).value + rest) == Loop(d, st', rest)
    decreases m, 1, 0
  {
    var f, s := d.fields[i], m.slots[i];
    hide Progress, ArrayProgress, BackValue, Loop, Step, StoreItems, SchemaOk, Shaped, Key, ShapedValue;
    hide EncodeTagged, EncodeEach, EncodePacked, EncodeValue, MessageOk, ValueOk, FieldOk, IsZero;
    if IsArray(f) && s.items != [] {
      if f.ltype.Packable() {
        assert f.dataSize < TWO_TO_32 by { FieldOkSize(f, d.unions); }
        PackedTurn(d, m, i, st, rest);
        st' := StoreItems(d, Entered(d, st, i, 0), i, s.items, |s.items|);
      } else {
        ArrayBegins(d, m, i, st);
        st' := EachRoundTrip(d, m, i, 0, st, rest);
      }
      ArrayEnds(d, m, i, st');
    } else if !IsArray(f) && Single(f, m, i).Some? && !(f.rule.Singular? && IsZero(f, s.v)) {
      st' := SingleRoundTrip(d, m, i, st, rest);
    } else {
      Skipped(d, m, i, st);
      assert [] + rest == rest;
      st' := st;
    }
  }

  lemma FieldOkSize(f: Field, unions: nat)
    requires FieldOk(f, unions)
    ensures f.dataSize < TWO_TO_32
  {
  }

  lemma {:induction false} FieldsRoundTrip(d: Schema, m: Message, i: nat, st: LoopState) returns (last: LoopState)
    requires ShapedState(d, st) && Shaped(d, m) && MessageOk(d, m) && i <= |d.fields| && Progress(d, m, i, st)
    ensures EncodeFrom(d, m, i).Some?
    ensures ShapedState(d, last) && Progress(d, m, |d.fields|, last)
    ensures Loop(d, st, EncodeFrom(d, m, i).value) == Some(last)
    decreases m, 2, |d.fields| - i
  {
    hide Progress, Step, BackValue, ShapedValue, EncodeField, SlotFits, SlotTerminated;
    if i == |d.fields| {
      last := st;
    } else {
      FieldsEncode(d, m, i + 1);
      var rest := EncodeFrom(d, m, i + 1).value;
      assert FieldOk(d.fields[i], d.unions) && ShapedSlot(d.fields[i], m, i) && SlotOk(d.fields[i], m, i);
      var st' := FieldRoundTrip(d, m, i, st, rest);
      last := FieldsRoundTrip(d, m, i + 1, st');
    }
  }

  /** For every schema and every well-formed message: encoding succeeds, and decoding the bytes succeeds
      and gives back the same message, up to zeros that are not encoded. */
  lemma {:induction false} MessageRoundTrip(d: Schema, m: Message) returns (m': Message)
    requires SchemaOk(d) && Shaped(d, m) && MessageOk(d, m)
    ensures Shaped(d, Defaults(d)) && EncodeMessage(d, m).Some?
    ensures DecodeMessage(d, Defaults(d), EncodeMessage(d, m).value) == Some(m')
    ensures Shaped(d, m') && Back(d, m, m')
    decreases m, 3
  {
    DefaultsShaped(d);
    StartProgress(d, m);
    var last := FieldsRoundTrip(d, m, 0, LoopState(Defaults(d), {}, None));
    m' := last.m;
    ProgressDone(d, m, last);
  }

  lemma ProgressDone(d: Schema, m: Message, last: LoopState)
    requires ShapedState(d, last) && Shaped(d, m) && MessageOk(d, m) && Progress(d, m, |d.fields|, last)
    ensures Back(d, m, last.m) && FixedComplete(d, last) && RequiredSeen(d, last.seen)
  {
    hide BackValue, ShapedValue, SchemaOk, DefaultSlot;
    forall u | 0 <= u < d.unions ensures m.unions[u].which == last.m.unions[u].which {
      if m.unions[u].which != 0 {
        assert HasMember(d, u, m.unions[u].which);
        var j :| 0 <= j < |d.fields| && d.fields[j].rule == Oneof(u) && d.fields[j].tag == m.unions[u].which;
        assert ShapedSlot(d.fields[j], m, j) && ShapedSlot(d.fields[j], last.m, j);
        assert BackSlot(d.fields[j], m, last.m, j);
      }
    }
  }

  // ----- the same message -----

  /** Equal in what the struct means: values without their has-flag, and unset members of unions, do not
      count. */
  ghost predicate SameValue(f: Field, v: Value, w: Value)
    requires ShapedValue(f, v) && ShapedValue(f, w)
    decreases v, 0
  {
    if f.ltype.TSubmessage? then Same(f.ltype.schema, v.m, w.m) else v == w
  }

  ghost predicate SameSlot(f: Field, m: Message, m': Message, i: nat)
    requires i < |m.slots| && i < |m'.slots| && ShapedSlot(f, m, i) && ShapedSlot(f, m', i)
    decreases m, 0
  {
    var (s, s') := (m.slots[i], m'.slots[i]);
    match f.rule
    case Required => SameValue(f, s.v, s'.v)
    case Singular => SameValue(f, s.v, s'.v)
    case Optional => s.has == s'.has && (s.has ==> SameValue(f, s.v, s'.v))
    case Repeated(_) => SameItems(f, s, s')
    case FixedCount(_) => SameItems(f, s, s')
    case Oneof(u) =>
      m.unions[u].which == f.tag ==> m'.unions[u].which == f.tag && SameValue(f, m.unions[u].v, m'.unions[u].v)
  }

  ghost predicate SameItems(f: Field, s: Slot, s': Slot)
    requires s.Many? && s'.Many? && ItemsShaped(f, s.items) && ItemsShaped(f, s'.items)
    decreases s, 0
  {
    |s.items| == |s'.items| && forall k :: 0 <= k < |s.items| ==> SameValue(f, s.items[k], s'.items[k])
  }

  ghost predicate Same(d: Schema, m: Message, m': Message)
    requires Shaped(d, m) && Shaped(d, m')
    decreases m, 1
  {
    && (forall i :: 0 <= i < |d.fields| ==> SameSlot(d.fields[i], m, m', i))
    && (forall u :: 0 <= u < d.unions ==> m.unions[u].which == m'.unions[u].which)
  }

  // ----- which zeros come back -----

  /** Zero is what an omitted field decodes to, in submessages too. */
  predicate ZeroDefault(f: Field)
    decreases f
  {
    if f.ltype.TSubmessage? then
      forall i :: 0 <= i < |f.ltype.schema.fields| && f.ltype.schema.fields[i].rule.Singular? ==>
                    ZeroDefault(f.ltype.schema.fields[i])
    else
      DefaultValue(f) == ZeroValue(f)
  }

  /** Every proto3 field that is zero has zero as its default, at all levels that are encoded. */
  ghost predicate ZerosKept(d: Schema, m: Message)
    requires Shaped(d, m)
    decreases m, 1
  {
    forall i :: 0 <= i < |d.fields| ==> ZeroKept(d.fields[i], m, i)
  }

  ghost predicate ZeroKept(f: Field, m: Message, i: nat)
    requires i < |m.slots| && ShapedSlot(f, m, i)
    decreases m, 0
  {
    var s := m.slots[i];
    match f.rule
    case Required => ZerosKeptIn(f, s.v)
    case Singular => if IsZero(f, s.v) then ZeroDefault(f) else ZerosKeptIn(f, s.v)
    case Optional => s.has ==> ZerosKeptIn(f, s.v)
    case Repeated(_) => ZerosKeptInAll(f, s)
    case FixedCount(_) => ZerosKeptInAll(f, s)
    case Oneof(u) => m.unions[u].which == f.tag ==> ZerosKeptIn(f, m.unions[u].v)
  }

  ghost predicate ZerosKeptInAll(f: Field, s: Slot)
    requires s.Many? && ItemsShaped(f, s.items)
    decreases s, 0
  {
    forall k :: 0 <= k < |s.items| ==> ZerosKeptIn(f, s.items[k])
  }

  ghost predicate ZerosKeptIn(f: Field, v: Value)
    requires ShapedValue(f, v)
    decreases v, 0
  {
    f.ltype.TSubmessage? ==> ZerosKept(f.ltype.schema, v.m)
  }

  /** A value that passes the proto3 check is the default exactly when the default is zero. */
  lemma {:induction false} ZeroIsDefault(f: Field, v: Value, unions: nat)
    requires FieldOk(f, unions) && ShapedValue(f, v) && ValueFits(f, v) && IsZero(f, v)
    ensures ShapedValue(f, DefaultValue(f)) && (SameValue(f, v, DefaultValue(f)) <==> ZeroDefault(f))
    decreases v, 0
  {
    ZeroValueShaped(f, unions);
    if f.ltype.TSubmessage? {
      AllDefaultIsDefaults(f.ltype.schema, v.m);
    }
  }

  /** A message all of whose fields pass the proto3 check is the default message exactly when the
      defaults of its proto3 fields are zero. */
  lemma {:induction false} AllDefaultIsDefaults(d: Schema, m: Message)
    requires SchemaOk(d) && Shaped(d, m) && MessageFits(d, m) && AllDefault(d, m)
    ensures Shaped(d, Defaults(d))
    ensures Same(d, m, Defaults(d))
       <==> forall i :: 0 <= i < |d.fields| && d.fields[i].rule.Singular? ==> ZeroDefault(d.fields[i])
    decreases m, 1
  {
    DefaultsShaped(d);
    forall i | 0 <= i < |d.fields|
      ensures SameSlot(d.fields[i], m, Defaults(d), i) <==> (d.fields[i].rule.Singular? ==> ZeroDefault(d.fields[i]))
    {
      DefaultSlotSame(d, m, i);
    }
    forall u | 0 <= u < d.unions ensures m.unions[u].which == 0 {
      forall i | 0 <= i < |d.fields| && d.fields[i].rule == Oneof(u) ensures m.unions[u].which == 0 {
        assert IsDefault(d.fields[i], m, i);
      }
      assert m.unions[u].which != 0 ==> HasMember(d, u, m.unions[u].which);
    }
  }

  lemma {:induction false} DefaultSlotSame(d: Schema, m: Message, i: nat)
    requires SchemaOk(d) && Shaped(d, m) && MessageFits(d, m) && AllDefault(d, m) && i < |d.fields|
    requires Shaped(d, Defaults(d))
    ensures SameSlot(d.fields[i], m, Defaults(d), i) <==> (d.fields[i].rule.Singular? ==> ZeroDefault(d.fields[i]))
    decreases m, 0
  {
    var f := d.fields[i];
    assert FieldOk(f, d.unions) && ShapedSlot(f, m, i) && ShapedSlot(f, Defaults(d), i) && SlotFits(f, m, i);
    assert IsDefault(f, m, i);
    assert Defaults(d).slots[i] == DefaultSlot(f);
    if f.rule.Singular? {
      assert DefaultSlot(f) == One(DefaultValue(f));
      ZeroIsDefault(f, m.slots[i].v, d.unions);
    }
  }

  /** What comes back is the same exactly when no zero is lost. */
  lemma {:induction false} BackIsSame(d: Schema, m: Message, m': Message)
    requires SchemaOk(d) && Shaped(d, m) && MessageOk(d, m) && Shaped(d, m') && Back(d, m, m')
    ensures Same(d, m, m') <==> ZerosKept(d, m)
    decreases m, 1
  {
    forall i | 0 <= i < |d.fields| ensures SameSlot(d.fields[i], m, m', i) <==> ZeroKept(d.fields[i], m, i) {
      BackSlotIsSame(d, m, m', i);
    }
  }

  lemma {:induction false} BackSlotIsSame(d: Schema, m: Message, m': Message, i: nat)
    requires SchemaOk(d) && Shaped(d, m) && MessageOk(d, m) && Shaped(d, m') && Back(d, m, m') && i < |d.fields|
    ensures SameSlot(d.fields[i], m, m', i) <==> ZeroKept(d.fields[i], m, i)
    decreases m, 0
  {
    var (f, s, s') := (d.fields[i], m.slots[i], m'.slots[i]);
    assert FieldOk(f, d.unions) && ShapedSlot(f, m, i) && ShapedSlot(f, m', i) && SlotOk(f, m, i);
    assert BackSlot(f, m, m', i);
    hide FieldOk, SchemaOk, Shaped, ShapedValue, MessageOk, ValueOk, SameValue, BackValue, ZerosKeptIn, IsZero;
    hide ZeroDefault;
    if IsArray(f) {
      assert ItemsOk(f, s) && BackItems(f, s, s');
      BackItemsIsSame(f, s, s', d.unions);
    } else if f.rule.Singular? && IsZero(f, s.v) {
      ZeroIsDefault(f, s.v, d.unions);
    } else if f.rule.Oneof? && m.unions[f.rule.union].which == f.tag {
      BackValueIsSame(f, m.unions[f.rule.union].v, m'.unions[f.rule.union].v, d.unions);
    } else if !f.rule.Oneof? && (f.rule.Optional? ==> s.has) {
      BackValueIsSame(f, s.v, s'.v, d.unions);
    }
  }

  lemma {:induction false} BackItemsIsSame(f: Field, s: Slot, s': Slot, unions: nat)
    requires FieldOk(f, unions) && s.Many? && ItemsShaped(f, s.items) && ItemsOk(f, s)
    requires s'.Many? && ItemsShaped(f, s'.items) && BackItems(f, s, s')
    ensures SameItems(f, s, s') <==> ZerosKeptInAll(f, s)
    decreases s, 0
  {
    hide FieldOk, ShapedValue, ValueOk, SameValue, BackValue, ZerosKeptIn, EncodePacked;
    forall k | 0 <= k < |s.items| ensures SameValue(f, s.items[k], s'.items[k]) <==> ZerosKeptIn(f, s.items[k]) {
      BackValueIsSame(f, s.items[k], s'.items[k], unions);
    }
  }

  lemma {:induction false} BackValueIsSame(f: Field, v: Value, w: Value, unions: nat)
    requires FieldOk(f, unions) && ShapedValue(f, v) && ValueOk(f, v) && ShapedValue(f, w) && BackValue(f, v, w)
    ensures SameValue(f, v, w) <==> ZerosKeptIn(f, v)
    decreases v, 0
  {
    if f.ltype.TSubmessage? {
      BackIsSame(f.ltype.schema, v.m, w.m);
    }
  }

  /** For pb_decode: the bytes of a well-formed message always decode, and give back the same message
      exactly when every proto3 field in it that is zero has zero as its default. */
  lemma DecodeOfEncode(d: Schema, m: Message)
    requires SchemaOk(d) && Shaped(d, m) && MessageOk(d, m)
    ensures EncodeMessage(d, m).Some?
    ensures var r := Decode(d, EncodeMessage(d, m).value);
            r.Some? && Shaped(d, r.value) && Back(d, m, r.value) && (Same(d, m, r.value) <==> ZerosKept(d, m))
  {
    var m' := MessageRoundTrip(d, m);
    BackIsSame(d, m, m');
  }
}

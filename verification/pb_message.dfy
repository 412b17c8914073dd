/** Messages of nanopb and the bytes that pb_encode makes of them. A message is the value of a C struct of
    statically allocated fields, a schema its pb_field_t array. Builds with 32-bit pb_size_t
    (PB_FIELD_32BIT), without callbacks, extensions and pointer fields. */
module PbMessages {
  import opened Wrappers
  import opened Coding
  import opened PbVarints

  const BYTES_HEADER: nat := 4  // the size member in front of a bytes field
  const MAX_TAG: nat := 0x1fff_ffff

  datatype Schema = Schema(fields: seq<Field>, unions: nat)

  datatype LType =
    | TBool | TVarint | TUVarint | TSVarint | TFixed32 | TFixed64
    | TBytes | TString | TSubmessage(schema: Schema) | TFixedBytes
  {
    predicate Packable() {
      !TBytes? && !TString? && !TSubmessage? && !TFixedBytes?
    }
  }

  /** The repetition rules. Optional has a has_ flag, Singular (proto3) has none; Repeated has a count
      member, FixedCount has none; Oneof names its union. */
  datatype Rule = Required | Optional | Singular | Repeated(max: nat) | FixedCount(count: nat) | Oneof(union: nat)

  datatype Field = Field(tag: nat, ltype: LType, rule: Rule, dataSize: nat, default: Option<Value>)

  /** A string is the contents of its buffer up to the terminator, or all of it if there is none. */
  datatype Value = Num(n: int) | Blob(b: bytes) | Sub(m: Message)

  datatype Slot = One(v: Value) | Maybe(has: bool, v: Value) | Many(items: seq<Value>) | InUnion

  /** Which member of a union is set (0 for none), and its value. */
  datatype UnionState = UnionState(which: nat, v: Value)

  datatype Message = Message(slots: seq<Slot>, unions: seq<UnionState>)

  // ----- values of the C types -----

  ghost predicate ShapedValue(f: Field, v: Value)
    decreases v, 0
  {
    match f.ltype
    case TBytes => v.Blob?
    case TString => v.Blob? && |v.b| <= f.dataSize && 0 !in v.b
    case TFixedBytes => v.Blob? && |v.b| == f.dataSize
    case TSubmessage(d) => v.Sub? && Shaped(d, v.m)
    case TSVarint => v.Num? && -TWO_TO_63 <= v.n < TWO_TO_63
    case _ => v.Num? && -TWO_TO_63 <= v.n < TWO_TO_64
  }

  ghost predicate ShapedSlot(f: Field, m: Message, i: nat)
    requires i < |m.slots|
    decreases m, 0
  {
    var s := m.slots[i];
    match f.rule
    case Required => s.One? && ShapedValue(f, s.v)
    case Singular => s.One? && ShapedValue(f, s.v)
    case Optional => s.Maybe? && ShapedValue(f, s.v)
    case Repeated(_) => s.Many? && forall k :: 0 <= k < |s.items| ==> ShapedValue(f, s.items[k])
    case FixedCount(count) => s.Many? && |s.items| == count && forall k :: 0 <= k < |s.items| ==>
          ShapedValue(f, s.items[k])
    case Oneof(u) => s.InUnion? && u < |m.unions| && (m.unions[u].which == f.tag ==> ShapedValue(f, m.unions[u].v))
  }

  ghost predicate Shaped(d: Schema, m: Message)
    decreases m, 1
  {
    && |m.slots| == |d.fields| && |m.unions| == d.unions
    && (forall i :: 0 <= i < |d.fields| ==> ShapedSlot(d.fields[i], m, i))
  }

  // ----- encoding -----

  const WT_VARINT: nat := 0
  const WT_64BIT: nat := 1
  const WT_STRING: nat := 2
  const WT_32BIT: nat := 5

  function WireType(t: LType): nat {
    match t
    case TFixed32 => WT_32BIT
    case TFixed64 => WT_64BIT
    case TBytes => WT_STRING
    case TString => WT_STRING
    case TSubmessage(_) => WT_STRING
    case TFixedBytes => WT_STRING
    case _ => WT_VARINT
  }

  function Key(wireType: nat, tag: nat): bytes {
    Varint(tag * 8 + wireType)
  }

  function FieldKey(f: Field): bytes {
    Key(WireType(f.ltype), f.tag)
  }

  /** One write after another; the first failure ends it. */
  function Then(a: Option<bytes>, b: Option<bytes>): Option<bytes> {
    if a.None? || b.None? then None else Some(a.value + b.value)
  }

  function Prefixed(b: bytes): bytes {
    Varint(|b|) + b
  }

  predicate IsIntSize(n: nat) {
    n == 1 || n == 2 || n == 4 || n == 8
  }

  /** The field encoders: None where they report an error. */
  ghost function EncodeValue(f: Field, v: Value): Option<bytes>
    requires ShapedValue(f, v)
    decreases v, 0
  {
    match f.ltype
    case TBool => Some(Varint(if v.n != 0 then 1 else 0))
    case TVarint => if IsIntSize(f.dataSize) then Some(Varint(v.n % TWO_TO_64)) else None
    case TUVarint => if IsIntSize(f.dataSize) then Some(Varint(v.n % TWO_TO_64)) else None
    case TSVarint => if IsIntSize(f.dataSize) then Some(Varint(ZigZag(v.n))) else None
    case TFixed32 => Some(Fixed32(v.n % TWO_TO_32))
    case TFixed64 => Some(Fixed64(v.n % TWO_TO_64))
    case TBytes => if |v.b| + BYTES_HEADER > f.dataSize then None else Some(Prefixed(v.b))
    case TString => Some(Prefixed(v.b))
    case TFixedBytes => Some(Prefixed(v.b))
    case TSubmessage(d) =>
      var e := EncodeMessage(d, v.m);
      if e.None? then None else Some(Prefixed(e.value))
  }

  /** pb_check_proto3_default_value for one field. */
  ghost predicate IsDefault(f: Field, m: Message, i: nat)
    requires i < |m.slots| && ShapedSlot(f, m, i)
    decreases m, 0
  {
    match f.rule
    case Required => false
    case Repeated(_) => m.slots[i].items == []
    case FixedCount(_) => false
    case Oneof(u) => m.unions[u].which == 0
    case Optional => !m.slots[i].has
    case Singular => IsZero(f, m.slots[i].v)
  }

  ghost predicate IsZero(f: Field, v: Value)
    requires ShapedValue(f, v)
    decreases v, 0
  {
    match f.ltype
    case TBytes => v.b == []
    case TString => v.b == []
    case TFixedBytes => f.dataSize == 0
    case TSubmessage(d) => AllDefault(d, v.m)
    case _ => v.n == 0
  }

  ghost predicate AllDefault(d: Schema, m: Message)
    requires Shaped(d, m)
    decreases m, 1
  {
    forall i :: 0 <= i < |d.fields| ==> IsDefault(d.fields[i], m, i)
  }

  ghost function EncodePacked(f: Field, s: Slot, k: nat): Option<bytes>
    requires s.Many? && k <= |s.items| && forall j :: 0 <= j < |s.items| ==> ShapedValue(f, s.items[j])
    decreases s, 0, |s.items| - k
  {
    if k == |s.items| then Some([])
    else Then(EncodeValue(f, s.items[k]), EncodePacked(f, s, k + 1))
  }

  ghost function EncodeEach(f: Field, s: Slot, k: nat): Option<bytes>
    requires s.Many? && k <= |s.items| && forall j :: 0 <= j < |s.items| ==> ShapedValue(f, s.items[j])
    decreases s, 0, |s.items| - k
  {
    if k == |s.items| then Some([])
    else Then(Then(Some(FieldKey(f)), EncodeValue(f, s.items[k])), EncodeEach(f, s, k + 1))
  }

  function ArraySize(rule: Rule): nat {
    match rule
    case Repeated(max) => max
    case FixedCount(count) => count
    case _ => 0
  }

  ghost function EncodeArray(f: Field, s: Slot): Option<bytes>
    requires s.Many? && forall j :: 0 <= j < |s.items| ==> ShapedValue(f, s.items[j])
    decreases s, 1
  {
    if s.items == [] then Some([])
    else if |s.items| > ArraySize(f.rule) then None
    else if f.ltype.Packable() then
      var packed := EncodePacked(f, s, 0);
      if packed.None? then None else Some(Key(WT_STRING, f.tag) + Prefixed(packed.value))
    else EncodeEach(f, s, 0)
  }

  ghost function EncodeTagged(f: Field, v: Value): Option<bytes>
    requires ShapedValue(f, v)
    decreases v, 1
  {
    Then(Some(FieldKey(f)), EncodeValue(f, v))
  }

  ghost function EncodeField(f: Field, m: Message, i: nat): Option<bytes>
    requires i < |m.slots| && ShapedSlot(f, m, i)
    decreases m, 0
  {
    var s := m.slots[i];
    match f.rule
    case Required => EncodeTagged(f, s.v)
    case Optional => if s.has then EncodeTagged(f, s.v) else Some([])
    case Singular => if IsZero(f, s.v) then Some([]) else EncodeTagged(f, s.v)
    case Repeated(_) => EncodeArray(f, s)
    case FixedCount(_) => EncodeArray(f, s)
    case Oneof(u) => if m.unions[u].which == f.tag then EncodeTagged(f, m.unions[u].v) else Some([])
  }

  ghost function EncodeFrom(d: Schema, m: Message, i: nat): Option<bytes>
    requires Shaped(d, m) && i <= |d.fields|
    decreases m, 1, |d.fields| - i
  {
    if i == |d.fields| then Some([])
    else Then(EncodeField(d.fields[i], m, i), EncodeFrom(d, m, i + 1))
  }

  /** pb_encode. */
  ghost function EncodeMessage(d: Schema, m: Message): Option<bytes>
    requires Shaped(d, m)
    decreases m, 2
  {
    EncodeFrom(d, m, 0)
  }

  // ----- default values -----

  function ZeroValue(f: Field): Value
    decreases f, 0
  {
    match f.ltype
    case TBytes => Blob([])
    case TString => Blob([])
    case TFixedBytes => Blob(seq(f.dataSize, i => 0))
    case TSubmessage(d) => Sub(Defaults(d))
    case _ => Num(0)
  }

  /** What pb_message_set_to_defaults leaves in a field's data. */
  function DefaultValue(f: Field): Value
    decreases f, 1
  {
    if f.default.None? || f.ltype.TSubmessage? then ZeroValue(f) else f.default.value
  }

  /** For a fixed-count array, the elements nobody has received yet. */
  function DefaultSlot(f: Field): Slot
    decreases f, 2
  {
    match f.rule
    case Required => One(DefaultValue(f))
    case Singular => One(DefaultValue(f))
    case Optional => Maybe(false, DefaultValue(f))
    case Repeated(_) => Many([])
    case FixedCount(count) => Many(seq(count, k => ZeroValue(f)))
    case Oneof(_) => InUnion
  }

  function Defaults(d: Schema): Message
    decreases d
  {
    Message(seq(|d.fields|, i requires 0 <= i < |d.fields| => DefaultSlot(d.fields[i])),
            seq(d.unions, u => UnionState(0, Num(0))))
  }

  /** Schemas as the generator makes them. */
  ghost predicate SchemaOk(d: Schema)
    decreases d
  {
    && (forall i :: 0 <= i < |d.fields| ==> FieldOk(d.fields[i], d.unions))
    && (forall i, j :: 0 <= i < j < |d.fields| ==> d.fields[i].tag != d.fields[j].tag)
  }

  ghost predicate FieldOk(f: Field, unions: nat)
    decreases f
  {
    && 0 < f.tag <= MAX_TAG && f.dataSize < TWO_TO_32
    && (f.ltype.TSubmessage? ==> SchemaOk(f.ltype.schema))
    && (f.ltype.TVarint? || f.ltype.TUVarint? || f.ltype.TSVarint? ==> IsIntSize(f.dataSize))
    && (f.rule.Oneof? ==> f.rule.union < unions)
    && (f.default.Some? && !f.ltype.TSubmessage? ==> ShapedValue(f, f.default.value))
  }

  lemma {:induction false} ZeroValueShaped(f: Field, unions: nat)
    requires FieldOk(f, unions)
    ensures ShapedValue(f, ZeroValue(f)) && ShapedValue(f, DefaultValue(f))
    decreases f, 0
  {
    if f.ltype.TSubmessage? {
      DefaultsShaped(f.ltype.schema);
    }
  }

  /** The default message has the shape of the struct. */
  lemma {:induction false} DefaultsShaped(d: Schema)
    requires SchemaOk(d)
    ensures Shaped(d, Defaults(d))
    decreases d, 0
  {
    forall i | 0 <= i < |d.fields| ensures ShapedSlot(d.fields[i], Defaults(d), i) {
      assert FieldOk(d.fields[i], d.unions);
      ZeroValueShaped(d.fields[i], d.unions);
    }
  }
}

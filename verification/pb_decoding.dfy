/** What pb_decode makes of any bytes: the specification that the decoder of PbDecode meets. */
module PbDecoding {
  import opened Wrappers
  import opened Coding
  import opened PbVarints
  import opened PbMessages

  const MAX_REQUIRED_FIELDS: nat := 64

  // ----- single values -----

  function Signed32(v: nat): int {
    var low := v % TWO_TO_32;
    if low < TWO_TO_31 then low else low - TWO_TO_32
  }

  /** 2^(8 * size - 1). */
  function HalfRange(size: nat): int
    requires IsIntSize(size)
  {
    if size == 1 then 0x80 else if size == 2 then 0x8000 else if size == 4 then TWO_TO_31 else TWO_TO_63
  }

  function ReadBytes(s: bytes, n: nat): Option<bytes> {
    if |s| < n then None else Some(s[..n])
  }

  /** A length and that many bytes. */
  function ReadString(s: bytes): (r: Option<Parsed<bytes>>)
    ensures r.Some? ==> 0 < r.value.size <= |s| && |r.value.value| < TWO_TO_32 && |r.value.value| < r.value.size
  {
    match DecodeVarint32(s)
    case None => None
    case Some(len) =>
      if |s| - len.size < len.value then None
      else Some(Parsed(s[len.size..len.size + len.value], len.size + len.value))
  }

  /** A C string ends at its first zero. */
  function UpToZero(b: bytes): (r: bytes)
    ensures 0 !in r && |r| <= |b|
    ensures 0 !in b ==> r == b
  {
    if b == [] || b[0] == 0 then [] else [b[0]] + UpToZero(b[1..])
  }

  function Zeros(n: nat): (r: bytes)
    ensures |r| == n
  {
    seq(n, i => 0)
  }

  /** The field decoders that do not recurse: None where they report an error. */
  function DecodeScalar(f: Field, s: bytes): (r: Option<Parsed<Value>>)
    requires !f.ltype.TSubmessage?
    ensures r.Some? ==> 0 < r.value.size <= |s| && ShapedValue(f, r.value.value)
  {
    match f.ltype
    case TBool =>
      var v := DecodeVarint32(s);
      if v.None? then None else Some(Parsed(Num(if v.value.value != 0 then 1 else 0), v.value.size))
    case TVarint =>
      var v := DecodeVarint64(s);
      if v.None? || !IsIntSize(f.dataSize) then None
      else
        var n: int := if f.dataSize == 8 then AsSigned(v.value.value) else Signed32(v.value.value);
        if -HalfRange(f.dataSize) <= n < HalfRange(f.dataSize) then Some(Parsed(Num(n), v.value.size)) else None
    case TUVarint =>
      var v := DecodeVarint64(s);
      if v.None? || !IsIntSize(f.dataSize) || v.value.value >= 2 * HalfRange(f.dataSize) then None
      else Some(Parsed(Num(v.value.value), v.value.size))
    case TSVarint =>
      var v := DecodeVarint64(s);
      if v.None? || !IsIntSize(f.dataSize) then None
      else
        var n: int := UnZigZag(v.value.value);
        if -HalfRange(f.dataSize) <= n < HalfRange(f.dataSize) then Some(Parsed(Num(n), v.value.size)) else None
    case TFixed32 => if |s| < 4 then None else Some(Parsed(Num(DecodeFixed32(s[..4])), 4))
    case TFixed64 => if |s| < 8 then None else Some(Parsed(Num(DecodeFixed64(s[..8])), 8))
    case TBytes =>
      var b := ReadString(s);
      if b.None? || |b.value.value| + BYTES_HEADER > f.dataSize then None
      else Some(Parsed(Blob(b.value.value), b.value.size))
    case TString =>
      var b := ReadString(s);
      if b.None? || |b.value.value| + 1 > f.dataSize then None
      else Some(Parsed(Blob(UpToZero(b.value.value)), b.value.size))
    case TFixedBytes =>
      var b := ReadString(s);
      if b.None? then None
      else if b.value.value == [] then Some(Parsed(Blob(Zeros(f.dataSize)), b.value.size))
      else if |b.value.value| != f.dataSize then None
      else Some(Parsed(Blob(b.value.value), b.value.size))
  }

  // ----- skipping -----

  function SkipVarint(s: bytes): (r: Option<nat>)
    ensures r.Some? ==> 0 < r.value <= |s|
  {
    if s == [] then None
    else if s[0] < 128 then Some(1)
    else
      var more := SkipVarint(s[1..]);
      if more.None? then None else Some(1 + more.value)
  }

  function SkipField(s: bytes, wireType: nat): (r: Option<nat>)
    ensures r.Some? ==> 0 < r.value <= |s|
  {
    if wireType == WT_VARINT then SkipVarint(s)
    else if wireType == WT_64BIT then (if |s| < 8 then None else Some(8))
    else if wireType == WT_STRING then
      var b := ReadString(s);
      if b.None? then None else Some(b.value.size)
    else if wireType == WT_32BIT then (if |s| < 4 then None else Some(4))
    else None
  }

  // ----- messages -----

  /** The array of fixed count being received, and how many of its elements have come. */
  datatype FixedPos = FixedPos(index: nat, size: nat)

  /** The struct, the required fields seen, and the fixed-count array in progress. */
  datatype LoopState = LoopState(m: Message, seen: set<nat>, fixed: Option<FixedPos>)

  datatype Turn = Stop | Fail | Next(st: LoopState, size: nat)

  function FindFrom(d: Schema, tag: nat, i: nat): (r: Option<nat>)
    requires i <= |d.fields|
    ensures r.Some? ==> r.value < |d.fields| && d.fields[r.value].tag == tag
    ensures r.None? ==> forall j :: i <= j < |d.fields| ==> d.fields[j].tag != tag
    decreases |d.fields| - i
  {
    if i == |d.fields| then None
    else if d.fields[i].tag == tag then Some(i)
    else FindFrom(d, tag, i + 1)
  }

  /** How many required fields there are before field i. */
  function RequiredIndex(d: Schema, i: nat): nat
    requires i <= |d.fields|
  {
    if i == 0 then 0 else RequiredIndex(d, i - 1) + if d.fields[i - 1].rule.Required? then 1 else 0
  }

  predicate Tracked(d: Schema, i: nat)
    requires i < |d.fields|
  {
    d.fields[i].rule.Required? && RequiredIndex(d, i) < MAX_REQUIRED_FIELDS
  }

  /** Storing the element after the first 'size' ones of an array. */
  function PutItem(items: seq<Value>, size: nat, v: Value): seq<Value> {
    if size < |items| then items[size := v] else items + [v]
  }

  /** The elements of a packed array, to the end of its substream. */
  function DecodePacked(f: Field, items: seq<Value>, size: nat, s: bytes): Option<(seq<Value>, nat)>
    requires f.ltype.Packable()
    decreases |s|
  {
    if s == [] then Some((items, size))
    else if size >= ArraySize(f.rule) then None
    else
      var v := DecodeScalar(f, s);
      if v.None? then None
      else DecodePacked(f, PutItem(items, size, v.value.value), size + 1, s[v.value.size..])
  }

  ghost predicate ShapedState(d: Schema, st: LoopState) {
    && SchemaOk(d) && Shaped(d, st.m)
    && (st.fixed.Some? ==> st.fixed.value.index < |d.fields|)
  }

  /** Entering a fixed-count array: the one before it must be complete. */
  function EnterFixed(d: Schema, st: LoopState, i: nat): Option<LoopState>
    requires i < |d.fields| && (st.fixed.Some? ==> st.fixed.value.index < |d.fields|)
  {
    if !d.fields[i].rule.FixedCount? || (st.fixed.Some? && st.fixed.value.index == i) then Some(st)
    else if !FixedComplete(d, st) then None
    else Some(st.(fixed := Some(FixedPos(i, 0))))
  }

  predicate FixedComplete(d: Schema, st: LoopState)
    requires st.fixed.Some? ==> st.fixed.value.index < |d.fields|
  {
    st.fixed.Some? ==> st.fixed.value.size == ArraySize(d.fields[st.fixed.value.index].rule)
  }

  function See(d: Schema, st: LoopState, i: nat): LoopState
    requires i < |d.fields|
  {
    if Tracked(d, i) then st.(seen := st.seen + {i}) else st
  }

  /** Where the value of a field is decoded into: array elements and members of unions start from the
      defaults, other submessages are merged. */
  function Target(d: Schema, m: Message, i: nat): (v: Value)
    requires SchemaOk(d) && Shaped(d, m) && i < |d.fields|
    ensures d.fields[i].ltype.TSubmessage? ==> v.Sub? && Shaped(d.fields[i].ltype.schema, v.m)
  {
    var f := d.fields[i];
    assert FieldOk(f, d.unions) && ShapedSlot(f, m, i);
    match f.rule
    case Required => m.slots[i].v
    case Singular => m.slots[i].v
    case Optional => m.slots[i].v
    case _ =>
      ZeroValueShaped(f, d.unions);
      ZeroValue(f)
  }

  function ArrayPos(st: LoopState, f: Field, items: seq<Value>): nat {
    if f.rule.FixedCount? then (if st.fixed.Some? then st.fixed.value.size else 0) else |items|
  }

  /** Storing a decoded value. */
  function Store(d: Schema, st: LoopState, i: nat, v: Value): LoopState
    requires i < |d.fields| == |st.m.slots|
    requires d.fields[i].rule.Oneof? ==> d.fields[i].rule.union < |st.m.unions|
    requires d.fields[i].rule.Repeated? || d.fields[i].rule.FixedCount? ==> st.m.slots[i].Many?
  {
    var (f, m) := (d.fields[i], st.m);
    match f.rule
    case Required => st.(m := m.(slots := m.slots[i := One(v)]))
    case Singular => st.(m := m.(slots := m.slots[i := One(v)]))
    case Optional => st.(m := m.(slots := m.slots[i := Maybe(true, v)]))
    case Oneof(u) => st.(m := m.(unions := m.unions[u := UnionState(f.tag, v)]))
    case _ => StoreItems(d, st, i, PutItem(m.slots[i].items, ArrayPos(st, f, m.slots[i].items), v),
                         ArrayPos(st, f, m.slots[i].items) + 1)
  }

  function StoreItems(d: Schema, st: LoopState, i: nat, items: seq<Value>, size: nat): LoopState
    requires i < |d.fields| == |st.m.slots|
  {
    st.(m := st.m.(slots := st.m.slots[i := Many(items)]),
        fixed := if d.fields[i].rule.FixedCount? then Some(FixedPos(i, size)) else st.fixed)
  }

  /** Storing keeps the shape of the struct. */
  lemma StoreShaped(d: Schema, st: LoopState, i: nat, v: Value)
    requires ShapedState(d, st) && i < |d.fields| && ShapedValue(d.fields[i], v)
    requires d.fields[i].rule.FixedCount? ==> ArrayPos(st, d.fields[i], []) < ArraySize(d.fields[i].rule)
    ensures CanStore(d, st, i) && ShapedState(d, Store(d, st, i, v))
  {
    hide SchemaOk, ShapedValue;
    assert ShapedSlot(d.fields[i], st.m, i);
    var m' := Store(d, st, i, v).m;
    forall j | 0 <= j < |d.fields| ensures ShapedSlot(d.fields[j], m', j) {
      assert ShapedSlot(d.fields[j], st.m, j);
      if d.fields[i].rule.Oneof? && d.fields[j].rule.Oneof? && d.fields[j].tag == d.fields[i].tag {
        SameTagSameField(d, i, j);
      }
    }
  }

  lemma SameTagSameField(d: Schema, i: nat, j: nat)
    requires SchemaOk(d) && i < |d.fields| && j < |d.fields| && d.fields[i].tag == d.fields[j].tag
    ensures i == j
  {
  }

  ghost predicate CanStore(d: Schema, st: LoopState, i: nat) {
    && i < |d.fields| == |st.m.slots|
    && (d.fields[i].rule.Oneof? ==> d.fields[i].rule.union < |st.m.unions|)
    && (d.fields[i].rule.Repeated? || d.fields[i].rule.FixedCount? ==> st.m.slots[i].Many?)
  }

  ghost predicate ItemsShaped(f: Field, items: seq<Value>) {
    forall k :: 0 <= k < |items| ==> ShapedValue(f, items[k])
  }

  lemma {:induction false} PackedShaped(f: Field, items: seq<Value>, size: nat, s: bytes)
    requires f.ltype.Packable() && ItemsShaped(f, items) && (f.rule.FixedCount? ==> |items| == f.rule.count)
    ensures var r := DecodePacked(f, items, size, s);
            r.Some? ==> ItemsShaped(f, r.value.0) && (f.rule.FixedCount? ==> |r.value.0| == f.rule.count)
    decreases |s|
  {
    hide DecodeScalar, ShapedValue;
    if s != [] && size < ArraySize(f.rule) {
      var v := DecodeScalar(f, s);
      if v.Some? {
        PackedShaped(f, PutItem(items, size, v.value.value), size + 1, s[v.value.size..]);
      }
    }
  }

  lemma StoreItemsShaped(d: Schema, st: LoopState, i: nat, items: seq<Value>, size: nat)
    requires ShapedState(d, st) && i < |d.fields| && ItemsShaped(d.fields[i], items)
    requires d.fields[i].rule.Repeated? || (d.fields[i].rule.FixedCount? && |items| == d.fields[i].rule.count)
    ensures ShapedState(d, StoreItems(d, st, i, items, size))
  {
    hide SchemaOk, ShapedValue;
    var m' := StoreItems(d, st, i, items, size).m;
    forall j | 0 <= j < |d.fields| ensures ShapedSlot(d.fields[j], m', j) {
      assert ShapedSlot(d.fields[j], st.m, j);
    }
  }

  /** Everything pb_decode_noinit does with a field it has found. */
  ghost function DecodeField(d: Schema, st: LoopState, i: nat, wireType: nat, s: bytes): (r: Option<Parsed<LoopState>>)
    requires ShapedState(d, st) && i < |d.fields|
    ensures r.Some? ==> 0 < r.value.size <= |s| && ShapedState(d, r.value.value)
    decreases |s|, 3
  {
    var entered := EnterFixed(d, st, i);
    if entered.None? then None else DecodeStatic(d, See(d, entered.value, i), i, wireType, s)
  }

  /** decode_static_field. */
  ghost function DecodeStatic(d: Schema, st: LoopState, i: nat, wireType: nat, s: bytes): (r: Option<Parsed<LoopState>>)
    requires ShapedState(d, st) && i < |d.fields|
    requires d.fields[i].rule.FixedCount? ==> st.fixed.Some? && st.fixed.value.index == i
    ensures r.Some? ==> 0 < r.value.size <= |s| && ShapedState(d, r.value.value)
    decreases |s|, 2
  {
    var f := d.fields[i];
    assert ShapedSlot(f, st.m, i) && FieldOk(f, d.unions);
    var isArray := f.rule.Repeated? || f.rule.FixedCount?;
    var pos := if isArray then ArrayPos(st, f, st.m.slots[i].items) else 0;
    if isArray && wireType == WT_STRING && f.ltype.Packable() then
      var sub := ReadString(s);
      if sub.None? then None
      else
        var r := DecodePacked(f, st.m.slots[i].items, pos, sub.value.value);
        if r.None? then None
        else
          PackedShaped(f, st.m.slots[i].items, pos, sub.value.value);
          StoreItemsShaped(d, st, i, r.value.0, r.value.1);
          Some(Parsed(StoreItems(d, st, i, r.value.0, r.value.1), sub.value.size))
    else if isArray && pos >= ArraySize(f.rule) then None
    else
      var v := DecodeValue(f, Target(d, st.m, i), s);
      if v.None? then None
      else
        StoreShaped(d, st, i, v.value.value);
        Some(Parsed(Store(d, st, i, v.value.value), v.value.size))
  }

  /** One value; a submessage is decoded into its target. */
  ghost function DecodeValue(f: Field, target: Value, s: bytes): (r: Option<Parsed<Value>>)
    requires f.ltype.TSubmessage? ==> target.Sub? && SchemaOk(f.ltype.schema) && Shaped(f.ltype.schema, target.m)
    ensures r.Some? ==> 0 < r.value.size <= |s| && ShapedValue(f, r.value.value)
    decreases |s|, 1
  {
    if f.ltype.TSubmessage? then
      var sub := ReadString(s);
      if sub.None? then None
      else
        var m := DecodeMessage(f.ltype.schema, target.m, sub.value.value);
        if m.None? then None else Some(Parsed(Sub(m.value), sub.value.size))
    else DecodeScalar(f, s)
  }

  /** One turn of the loop of pb_decode_noinit: a key, and the field or the unknown data behind it. */
  ghost function Step(d: Schema, st: LoopState, s: bytes): (r: Turn)
    requires ShapedState(d, st)
    ensures r.Next? ==> 0 < r.size <= |s| && ShapedState(d, r.st)
    decreases |s|, 0
  {
    var key := DecodeVarint32(s);
    if key.None? then Fail
    else if key.value.value == 0 then Stop
    else
      var (tag, wireType, rest) := (key.value.value / 8, key.value.value % 8, s[key.value.size..]);
      var i := FindFrom(d, tag, 0);
      if i.Some? then
        var r := DecodeField(d, st, i.value, wireType, rest);
        if r.None? then Fail else Next(r.value.value, key.value.size + r.value.size)
      else if tag == 0 && d.fields == [] then
        var v := DecodeVarint32(rest);
        if v.None? then Fail else Next(st, key.value.size + v.value.size)
      else
        var n := SkipField(rest, wireType);
        if n.None? then Fail else Next(st, key.value.size + n.value)
  }

  /** The loop, to the end of the stream or to a zero key. */
  ghost function Loop(d: Schema, st: LoopState, s: bytes): (r: Option<LoopState>)
    requires ShapedState(d, st)
    ensures r.Some? ==> ShapedState(d, r.value)
    decreases |s|, 1
  {
    if s == [] then Some(st)
    else
      match Step(d, st, s)
      case Stop => Some(st)
      case Fail => None
      case Next(st', size) => Loop(d, st', s[size..])
  }

  predicate RequiredSeen(d: Schema, seen: set<nat>) {
    forall i :: 0 <= i < |d.fields| && Tracked(d, i) ==> i in seen
  }

  /** pb_decode_noinit: into a message that is there. */
  ghost function DecodeMessage(d: Schema, m: Message, s: bytes): (r: Option<Message>)
    requires SchemaOk(d) && Shaped(d, m)
    ensures r.Some? ==> Shaped(d, r.value)
    decreases |s|, 2
  {
    var r := Loop(d, LoopState(m, {}, None), s);
    if r.None? || !FixedComplete(d, r.value) || !RequiredSeen(d, r.value.seen) then None else Some(r.value.m)
  }

  /** pb_decode: into a message of defaults. */
  ghost function Decode(d: Schema, s: bytes): Option<Message>
    requires SchemaOk(d)
  {
    DefaultsShaped(d);
    DecodeMessage(d, Defaults(d), s)
  }
}

/** pb_encode and the encoders it calls, over output streams that write or only count. */
module PbEncode {
  import opened Wrappers
  import opened Coding
  import PbVarints
  import opened PbMessages

  /** pb_ostream_t: with no callback it is a sizing stream; otherwise 'out' is what has been written
      through its state pointer. */
  class OStream {
    const sizing: bool
    const maxSize: nat
    var out: bytes
    var bytesWritten: nat

    predicate Valid()
      reads this
    {
      sizing || bytesWritten <= maxSize
    }

    constructor Sizing()
      ensures Valid() && sizing && bytesWritten == 0 && out == []
    {
      sizing, maxSize := true, 0;
      out, bytesWritten := [], 0;
    }

    constructor FromBuffer(out: bytes, room: nat)
      ensures Valid() && !sizing && maxSize == room && bytesWritten == 0 && this.out == out
    {
      sizing, maxSize := false, room;
      this.out, bytesWritten := out, 0;
    }

    /** pb_write. */
    method Write(b: bytes) returns (ok: bool)
      requires Valid()
      modifies this
      ensures Valid() && Outcome(sizing, maxSize, old(bytesWritten), old(out), Some(b), ok, bytesWritten, out)
    {
      if |b| > 0 && !sizing {
        if bytesWritten + |b| > maxSize {
          return false;
        }
        out := out + b;
      }
      assert b == [] ==> out + b == out;
      bytesWritten := bytesWritten + |b|;
      return true;
    }

    /** pb_write without data, on a sizing stream. */
    method Count(n: nat)
      requires sizing
      modifies this
      ensures bytesWritten == old(bytesWritten) + n && out == old(out)
    {
      bytesWritten := bytesWritten + n;
    }

    method EncodeVarint(value: nat) returns (ok: bool)
      requires Valid()
      modifies this
      ensures Valid()
      ensures Outcome(sizing, maxSize, old(bytesWritten), old(out), Some(Varint(value)), ok, bytesWritten, out)
    {
      var buffer := PbVarints.EncodeVarint(value);
      ok := Write(buffer);
    }

    method EncodeTag(wireType: nat, tag: nat) returns (ok: bool)
      requires Valid()
      modifies this
      ensures Valid()
      ensures Outcome(sizing, maxSize, old(bytesWritten), old(out), Some(Key(wireType, tag)), ok, bytesWritten, out)
    {
      ok := EncodeVarint(tag * 8 + wireType);
    }

    method EncodeString(b: bytes) returns (ok: bool)
      requires Valid()
      modifies this
      ensures Valid() && Outcome(sizing, maxSize, old(bytesWritten), old(out), Some(Prefixed(b)), ok, bytesWritten, out)
    {
      ghost var w, o := bytesWritten, out;
      ok := EncodeVarint(|b|);
      if !ok {
        return;
      }
      OutcomeThen(sizing, maxSize, w, o, Some(Varint(|b|)), bytesWritten, out, Some(b));
      ok := Write(b);
    }
  }

  /** How writing these bytes ends: always well on a sizing stream, on a writing one exactly when there is
      room for all of them; a result of None is an error on both. */
  ghost predicate Outcome(sizing: bool, maxSize: nat, w: nat, o: bytes, spec: Option<bytes>, ok: bool, w': nat,
                          o': bytes) {
    && (ok <==> spec.Some? && (sizing || w + |spec.value| <= maxSize))
    && (ok ==> w' == w + |spec.value| && o' == if sizing then o else o + spec.value)
  }

  /** One write after another. */
  lemma OutcomeThen(sizing: bool, maxSize: nat, w: nat, o: bytes, a: Option<bytes>, w1: nat, o1: bytes,
                    b: Option<bytes>)
    requires Outcome(sizing, maxSize, w, o, a, true, w1, o1)
    ensures forall ok, w2, o2 ::
              Outcome(sizing, maxSize, w1, o1, b, ok, w2, o2) ==> Outcome(sizing, maxSize, w, o, Then(a, b), ok, w2, o2)
  {
    assert b.Some? ==> o + a.value + b.value == o + (a.value + b.value);
  }

  lemma OutcomeFails(sizing: bool, maxSize: nat, w: nat, o: bytes, a: Option<bytes>, w1: nat, o1: bytes,
                     b: Option<bytes>)
    requires Outcome(sizing, maxSize, w, o, a, false, w1, o1)
    ensures forall w2, o2 :: Outcome(sizing, maxSize, w, o, Then(a, b), false, w2, o2)
  {
  }

  /** Nothing written, successfully. */
  lemma OutcomeNothing(sizing: bool, maxSize: nat, w: nat, o: bytes)
    requires sizing || w <= maxSize
    ensures Outcome(sizing, maxSize, w, o, Some([]), true, w, o)
  {
    assert o + [] == o;
  }

  // ----- the proto3 check -----

  /** pb_check_proto3_default_value. */
  method CheckDefault(f: Field, m: Message, i: nat) returns (isDefault: bool)
    requires i < |m.slots| && ShapedSlot(f, m, i)
    ensures isDefault == IsDefault(f, m, i)
    decreases m, 0
  {
    match f.rule
    case Required => return false;
    case Repeated(_) => return m.slots[i].items == [];
    case FixedCount(_) => return false;
    case Oneof(u) => return m.unions[u].which == 0;
    case Optional => return !m.slots[i].has;
    case Singular => isDefault := CheckZero(f, m.slots[i].v);
  }

  method CheckZero(f: Field, v: Value) returns (isZero: bool)
    requires ShapedValue(f, v)
    ensures isZero == IsZero(f, v)
    decreases v, 0
  {
    match f.ltype {
      case TBytes => return v.b == [];
      case TString => return v.b == [];
      case TFixedBytes => return f.dataSize == 0;
      case TSubmessage(d) =>
        for i := 0 to |d.fields|
          invariant forall j :: 0 <= j < i ==> IsDefault(d.fields[j], v.m, j)
        {
          assert ShapedSlot(d.fields[i], v.m, i);
          var isDefault := CheckDefault(d.fields[i], v.m, i);
          if !isDefault {
            return false;
          }
        }
        return true;
      case _ => return v.n == 0;
    }
  }

  // ----- encoding -----

  /** However writing the rest ends from here, the whole ends the same way. */
  ghost predicate Continues(sizing: bool, maxSize: nat, w: nat, o: bytes, whole: Option<bytes>, w1: nat, o1: bytes,
                            rest: Option<bytes>) {
    forall ok, w2, o2 :: Outcome(sizing, maxSize, w1, o1, rest, ok, w2, o2) ==>
          Outcome(sizing, maxSize, w, o, whole, ok, w2, o2)
  }

  lemma Onward(sizing: bool, maxSize: nat, w: nat, o: bytes, whole: Option<bytes>,
               w1: nat, o1: bytes, part: Option<bytes>, w2: nat, o2: bytes, rest: Option<bytes>)
    requires Continues(sizing, maxSize, w, o, whole, w1, o1, Then(part, rest))
    requires Outcome(sizing, maxSize, w1, o1, part, true, w2, o2)
    ensures Continues(sizing, maxSize, w, o, whole, w2, o2, rest)
  {
    OutcomeThen(sizing, maxSize, w1, o1, part, w2, o2, rest);
  }

  lemma GiveUp(sizing: bool, maxSize: nat, w: nat, o: bytes, whole: Option<bytes>,
               w1: nat, o1: bytes, part: Option<bytes>, w2: nat, o2: bytes, rest: Option<bytes>)
    requires Continues(sizing, maxSize, w, o, whole, w1, o1, Then(part, rest))
    requires Outcome(sizing, maxSize, w1, o1, part, false, w2, o2)
    ensures Outcome(sizing, maxSize, w, o, whole, false, w2, o2)
  {
    OutcomeFails(sizing, maxSize, w1, o1, part, w2, o2, rest);
  }

  /** pb_encode_submessage: the size from a first pass, then a second pass into a substream of just that
      size. The size does not change between the passes. */
  method EncodeSubmessage(stream: OStream, d: Schema, m: Message) returns (ok: bool)
    requires stream.Valid() && Shaped(d, m)
    modifies stream
    ensures stream.Valid()
    ensures var e := EncodeMessage(d, m);
            Outcome(stream.sizing, stream.maxSize, old(stream.bytesWritten), old(stream.out),
                    if e.None? then None else Some(Prefixed(e.value)), ok, stream.bytesWritten, stream.out)
    decreases m, 3
  {
    hide Shaped, EncodeMessage;
    var substream := new OStream.Sizing();
    ok := Encode(substream, d, m);
    if !ok {
      return;
    }
    ghost var e := EncodeMessage(d, m).value;
    var size := substream.bytesWritten;
    ghost var w, o := stream.bytesWritten, stream.out;
    ok := stream.EncodeVarint(size);
    if !ok {
      return;
    }
    OutcomeThen(stream.sizing, stream.maxSize, w, o, Some(Varint(size)), stream.bytesWritten, stream.out, Some(e));
    if stream.sizing {
      stream.Count(size);
      return true;
    }
    if stream.bytesWritten + size > stream.maxSize {
      return false;
    }
    substream := new OStream.FromBuffer(stream.out, size);
    var status := Encode(substream, d, m);
    assert substream.bytesWritten == size;
    stream.bytesWritten := stream.bytesWritten + substream.bytesWritten;
    stream.out := substream.out;
    return status;
  }

  /** The field encoders. */
  method EncodeOne(stream: OStream, f: Field, v: Value) returns (ok: bool)
    requires stream.Valid() && ShapedValue(f, v)
    modifies stream
    ensures stream.Valid()
    ensures Outcome(stream.sizing, stream.maxSize, old(stream.bytesWritten), old(stream.out), EncodeValue(f, v), ok,
                    stream.bytesWritten, stream.out)
    decreases v, 1
  {
    hide Varint, Prefixed, Fixed32, Fixed64, PbVarints.ZigZag, Shaped, EncodeMessage;
    match f.ltype {
      case TBool => ok := stream.EncodeVarint(if v.n != 0 then 1 else 0);
      case TVarint =>
        if !IsIntSize(f.dataSize) {
          return false;
        }
        ok := stream.EncodeVarint(v.n % TWO_TO_64);
      case TUVarint =>
        if !IsIntSize(f.dataSize) {
          return false;
        }
        ok := stream.EncodeVarint(v.n % TWO_TO_64);
      case TSVarint =>
        if !IsIntSize(f.dataSize) {
          return false;
        }
        ok := stream.EncodeVarint(PbVarints.ZigZag(v.n));
      case TFixed32 => ok := stream.Write(Fixed32(v.n % TWO_TO_32));
      case TFixed64 => ok := stream.Write(Fixed64(v.n % TWO_TO_64));
      case TBytes =>
        if |v.b| + BYTES_HEADER > f.dataSize {
          return false;
        }
        ok := stream.EncodeString(v.b);
      case TString => ok := stream.EncodeString(v.b);
      case TFixedBytes => ok := stream.EncodeString(v.b);
      case TSubmessage(d) => ok := EncodeSubmessage(stream, d, v.m);
    }
  }

  /** A key and a value. */
  method EncodeTaggedValue(stream: OStream, f: Field, v: Value) returns (ok: bool)
    requires stream.Valid() && ShapedValue(f, v)
    modifies stream
    ensures stream.Valid()
    ensures Outcome(stream.sizing, stream.maxSize, old(stream.bytesWritten), old(stream.out), EncodeTagged(f, v), ok,
                    stream.bytesWritten, stream.out)
    decreases v, 2
  {
    hide EncodeValue, ShapedValue, Key;
    ghost var w, o := stream.bytesWritten, stream.out;
    ok := stream.EncodeTag(WireType(f.ltype), f.tag);
    if !ok {
      OutcomeFails(stream.sizing, stream.maxSize, w, o, Some(FieldKey(f)), stream.bytesWritten, stream.out,
                   EncodeValue(f, v));
      return;
    }
    OutcomeThen(stream.sizing, stream.maxSize, w, o, Some(FieldKey(f)), stream.bytesWritten, stream.out,
                EncodeValue(f, v));
    ok := EncodeOne(stream, f, v);
  }

  ghost predicate ItemsShapedIn(f: Field, s: Slot) {
    s.Many? && forall k :: 0 <= k < |s.items| ==> ShapedValue(f, s.items[k])
  }

  method EncodeItems(stream: OStream, f: Field, s: Slot) returns (ok: bool)
    requires stream.Valid() && ItemsShapedIn(f, s)
    modifies stream
    ensures stream.Valid()
    ensures Outcome(stream.sizing, stream.maxSize, old(stream.bytesWritten), old(stream.out), EncodePacked(f, s, 0),
                    ok, stream.bytesWritten, stream.out)
    decreases s, 1
  {
    hide EncodeValue, ShapedValue, Then, Outcome;
    ghost var w, o, whole := stream.bytesWritten, stream.out, EncodePacked(f, s, 0);
    for i := 0 to |s.items|
      invariant stream.Valid()
      invariant Continues(stream.sizing, stream.maxSize, w, o, whole, stream.bytesWritten, stream.out,
                          EncodePacked(f, s, i))
    {
      ghost var w1, o1 := stream.bytesWritten, stream.out;
      ok := EncodeOne(stream, f, s.items[i]);
      if !ok {
        GiveUp(stream.sizing, stream.maxSize, w, o, whole, w1, o1, EncodeValue(f, s.items[i]), stream.bytesWritten,
               stream.out, EncodePacked(f, s, i + 1));
        return;
      }
      Onward(stream.sizing, stream.maxSize, w, o, whole, w1, o1, EncodeValue(f, s.items[i]), stream.bytesWritten,
             stream.out, EncodePacked(f, s, i + 1));
    }
    OutcomeNothing(stream.sizing, stream.maxSize, stream.bytesWritten, stream.out);
    return true;
  }

  method EncodeElements(stream: OStream, f: Field, s: Slot) returns (ok: bool)
    requires stream.Valid() && ItemsShapedIn(f, s)
    modifies stream
    ensures stream.Valid()
    ensures Outcome(stream.sizing, stream.maxSize, old(stream.bytesWritten), old(stream.out), EncodeEach(f, s, 0), ok,
                    stream.bytesWritten, stream.out)
    decreases s, 1
  {
    hide EncodeValue, ShapedValue, Then, Outcome, FieldKey;
    ghost var w, o, whole := stream.bytesWritten, stream.out, EncodeEach(f, s, 0);
    for i := 0 to |s.items|
      invariant stream.Valid()
      invariant Continues(stream.sizing, stream.maxSize, w, o, whole, stream.bytesWritten, stream.out,
                          EncodeEach(f, s, i))
    {
      ghost var w1, o1 := stream.bytesWritten, stream.out;
      ok := EncodeTaggedValue(stream, f, s.items[i]);
      if !ok {
        GiveUp(stream.sizing, stream.maxSize, w, o, whole, w1, o1, EncodeTagged(f, s.items[i]), stream.bytesWritten,
               stream.out, EncodeEach(f, s, i + 1));
        return;
      }
      Onward(stream.sizing, stream.maxSize, w, o, whole, w1, o1, EncodeTagged(f, s.items[i]), stream.bytesWritten,
             stream.out, EncodeEach(f, s, i + 1));
    }
    OutcomeNothing(stream.sizing, stream.maxSize, stream.bytesWritten, stream.out);
    return true;
  }

  /** Fixed-size elements need no sizing pass. */
  lemma {:induction false} FixedSizes(f: Field, s: Slot, k: nat)
    requires ItemsShapedIn(f, s) && k <= |s.items| && (f.ltype.TFixed32? || f.ltype.TFixed64?)
    ensures EncodePacked(f, s, k).Some?
    ensures |EncodePacked(f, s, k).value| == (|s.items| - k) * if f.ltype.TFixed32? then 4 else 8
    decreases |s.items| - k
  {
    if k < |s.items| {
      FixedSizes(f, s, k + 1);
    }
  }

  /** The size of a packed array. */
  method PackedSize(f: Field, s: Slot) returns (size: Option<nat>)
    requires ItemsShapedIn(f, s)
    ensures size == if EncodePacked(f, s, 0).None? then None else Some(|EncodePacked(f, s, 0).value|)
    decreases s, 2
  {
    if f.ltype.TFixed32? || f.ltype.TFixed64? {
      FixedSizes(f, s, 0);
      return Some(|s.items| * if f.ltype.TFixed32? then 4 else 8);
    }
    hide EncodePacked, ShapedValue;
    var sizestream := new OStream.Sizing();
    var ok := EncodeItems(sizestream, f, s);
    return if ok then Some(sizestream.bytesWritten) else None;
  }

  /** encode_array. */
  method EncodeSlotArray(stream: OStream, f: Field, s: Slot) returns (ok: bool)
    requires stream.Valid() && ItemsShapedIn(f, s)
    modifies stream
    ensures stream.Valid()
    ensures Outcome(stream.sizing, stream.maxSize, old(stream.bytesWritten), old(stream.out), EncodeArray(f, s), ok,
                    stream.bytesWritten, stream.out)
    decreases s, 4
  {
    hide EncodePacked, EncodeEach, ShapedValue, Key;
    if s.items == [] {
      OutcomeNothing(stream.sizing, stream.maxSize, stream.bytesWritten, stream.out);
      return true;
    }
    if |s.items| > ArraySize(f.rule) {
      return false;
    }
    if f.ltype.Packable() {
      ok := EncodePackedArray(stream, f, s);
    } else {
      ok := EncodeElements(stream, f, s);
    }
  }

  method EncodePackedArray(stream: OStream, f: Field, s: Slot) returns (ok: bool)
    requires stream.Valid() && ItemsShapedIn(f, s)
    modifies stream
    ensures stream.Valid()
    ensures var packed := EncodePacked(f, s, 0);
            Outcome(stream.sizing, stream.maxSize, old(stream.bytesWritten), old(stream.out),
                    if packed.None? then None else Some(Key(WT_STRING, f.tag) + Prefixed(packed.value)), ok,
                    stream.bytesWritten, stream.out)
    decreases s, 3
  {
    hide EncodePacked, ShapedValue, Key, Varint;
    ghost var w, o := stream.bytesWritten, stream.out;
    ok := stream.EncodeTag(WT_STRING, f.tag);
    if !ok {
      return;
    }
    var size := PackedSize(f, s);
    if size.None? {
      return false;
    }
    ghost var packed := EncodePacked(f, s, 0).value;
    OutcomeThen(stream.sizing, stream.maxSize, w, o, Some(Key(WT_STRING, f.tag)), stream.bytesWritten, stream.out,
                Some(Prefixed(packed)));
    ghost var w1, o1 := stream.bytesWritten, stream.out;
    ok := stream.EncodeVarint(size.value);
    if !ok {
      return;
    }
    OutcomeThen(stream.sizing, stream.maxSize, w1, o1, Some(Varint(|packed|)), stream.bytesWritten, stream.out,
                Some(packed));
    if stream.sizing {
      stream.Count(size.value);
      return true;
    }
    ok := EncodeItems(stream, f, s);
  }

  /** encode_basic_field. */
  method EncodeOneField(stream: OStream, f: Field, m: Message, i: nat) returns (ok: bool)
    requires stream.Valid() && i < |m.slots| && ShapedSlot(f, m, i)
    modifies stream
    ensures stream.Valid()
    ensures Outcome(stream.sizing, stream.maxSize, old(stream.bytesWritten), old(stream.out), EncodeField(f, m, i), ok,
                    stream.bytesWritten, stream.out)
    decreases m, 1
  {
    hide EncodeTagged, EncodeArray, ShapedValue, IsZero, Outcome;
    var s := m.slots[i];
    ok := true;
    OutcomeNothing(stream.sizing, stream.maxSize, stream.bytesWritten, stream.out);
    match f.rule {
      case Required => ok := EncodeTaggedValue(stream, f, s.v);
      case Optional =>
        if s.has {
          ok := EncodeTaggedValue(stream, f, s.v);
        }
      case Singular =>
        var isDefault := CheckDefault(f, m, i);
        if !isDefault {
          ok := EncodeTaggedValue(stream, f, s.v);
        }
      case Repeated(_) => ok := EncodeSlotArray(stream, f, s);
      case FixedCount(_) => ok := EncodeSlotArray(stream, f, s);
      case Oneof(u) =>
        if m.unions[u].which == f.tag {
          ok := EncodeTaggedValue(stream, f, m.unions[u].v);
        }
    }
  }

  /** pb_encode. */
  method Encode(stream: OStream, d: Schema, m: Message) returns (ok: bool)
    requires stream.Valid() && Shaped(d, m)
    modifies stream
    ensures stream.Valid()
    ensures Outcome(stream.sizing, stream.maxSize, old(stream.bytesWritten), old(stream.out), EncodeMessage(d, m), ok,
                    stream.bytesWritten, stream.out)
    decreases m, 2
  {
    hide EncodeField, ShapedSlot, Then, Outcome;
    ghost var w, o, whole := stream.bytesWritten, stream.out, EncodeMessage(d, m);
    for i := 0 to |d.fields|
      invariant stream.Valid()
      invariant Continues(stream.sizing, stream.maxSize, w, o, whole, stream.bytesWritten, stream.out,
                          EncodeFrom(d, m, i))
    {
      var f := d.fields[i];
      assert ShapedSlot(f, m, i);
      ghost var w1, o1 := stream.bytesWritten, stream.out;
      ok := EncodeOneField(stream, f, m, i);
      if !ok {
        GiveUp(stream.sizing, stream.maxSize, w, o, whole, w1, o1, EncodeField(f, m, i), stream.bytesWritten,
               stream.out, EncodeFrom(d, m, i + 1));
        return;
      }
      Onward(stream.sizing, stream.maxSize, w, o, whole, w1, o1, EncodeField(f, m, i), stream.bytesWritten, stream.out,
             EncodeFrom(d, m, i + 1));
    }
    OutcomeNothing(stream.sizing, stream.maxSize, stream.bytesWritten, stream.out);
    return true;
  }

  /** pb_get_encoded_size. */
  method GetEncodedSize(d: Schema, m: Message) returns (size: Option<nat>)
    requires Shaped(d, m)
    ensures size == if EncodeMessage(d, m).None? then None else Some(|EncodeMessage(d, m).value|)
  {
    var stream := new OStream.Sizing();
    var ok := Encode(stream, d, m);
    return if ok then Some(stream.bytesWritten) else None;
  }

  /** If the sizing pass yields N bytes, then encoding into a buffer succeeds exactly when there is room for
      N bytes, and writes exactly N bytes, those of EncodeMessage. */
  method SizeThenWrite(d: Schema, m: Message, room: nat) returns (size: Option<nat>, ok: bool, written: bytes)
    requires Shaped(d, m)
    ensures size == if EncodeMessage(d, m).None? then None else Some(|EncodeMessage(d, m).value|)
    ensures ok <==> size.Some? && size.value <= room
    ensures ok ==> |written| == size.value && EncodeMessage(d, m) == Some(written)
  {
    hide Shaped, EncodeMessage;
    size := GetEncodedSize(d, m);
    var stream := new OStream.FromBuffer([], room);
    ok := Encode(stream, d, m);
    written := stream.out;
    assert EncodeMessage(d, m).Some? ==> [] + EncodeMessage(d, m).value == EncodeMessage(d, m).value;
  }
}

/** The encoder and the decoder of nanopb together, from struct to bytes and back through their streams. */
module PbCodec {
  import opened Wrappers
  import opened Coding
  import opened PbMessages
  import opened PbDecoding
  import opened PbRoundTrip
  import opened PbTerminators
  import opened PbIStream
  import opened PbEncode
  import PbDecode

  /** Any well-formed message that fits in the buffer comes back from it, and it is the same exactly when
      no proto3 field in it is zero while its default is not. */
  method EncodeThenDecode(d: Schema, m: Message, room: nat) returns (size: nat, r: Option<Message>)
    requires SchemaOk(d) && Shaped(d, m) && MessageOk(d, m)
    ensures EncodeMessage(d, m).Some? && size == |EncodeMessage(d, m).value|
    ensures size <= room ==> 
              && r.Some? && Shaped(d, r.value) && Back(d, m, r.value)
              && (Same(d, m, r.value) <==> ZerosKept(d, m))
    ensures size > room ==> r.None?
  {
    hide Shaped, SchemaOk, MessageOk, EncodeMessage, PbDecoding.Decode, Back, Same, ZerosKept;
    DecodeOfEncode(d, m);
    var needed, ok, written := SizeThenWrite(d, m, room);
    size := needed.value;
    if !ok {
      return size, None;
    }
    var stream := new IStream(written);
    r := PbDecode.Decode(stream, d);
  }

  /** A string that fills its buffer without a terminator is encoded all the same, but pb_decode then fails:
      what was encoded decodes exactly when every string in it, at all levels, has room for one. */
  lemma StringsNeedTerminators(d: Schema, m: Message)
    requires SchemaOk(d) && Shaped(d, m) && MessageFits(d, m)
    ensures EncodeMessage(d, m).Some?
    ensures Decode(d, EncodeMessage(d, m).value).Some? <==> AllTerminated(d, m)
  {
    if AllTerminated(d, m) {
      DecodeOfEncode(d, m);
    } else {
      MessageFails(d, m);
    }
  }

  /** A proto3 field that is zero is not encoded. If its default is not zero, the message that comes back
      differs, whatever the schema and the type of the field and whatever else the message holds. */
  lemma SingularNeedsZeroDefault(d: Schema, m: Message, i: nat)
    requires SchemaOk(d) && Shaped(d, m) && MessageOk(d, m) && i < |d.fields| && ShapedSlot(d.fields[i], m, i)
    requires d.fields[i].rule.Singular? && IsZero(d.fields[i], m.slots[i].v) && !ZeroDefault(d.fields[i])
    ensures EncodeMessage(d, m).Some?
    ensures var r := Decode(d, EncodeMessage(d, m).value);
            r.Some? && Shaped(d, r.value) && !Same(d, m, r.value) && r.value.slots[i] == One(DefaultValue(d.fields[i]))
  {
    DecodeOfEncode(d, m);
    hide Same, MessageOk, IsZero, ZeroDefault;
    var r := Decode(d, EncodeMessage(d, m).value);
    assert !ZeroKept(d.fields[i], m, i);
    assert ShapedSlot(d.fields[i], r.value, i) && BackSlot(d.fields[i], m, r.value, i);
  }

  /** Any other value of such a field comes back. */
  lemma NonZeroComesBack(d: Schema, m: Message, i: nat)
    requires SchemaOk(d) && Shaped(d, m) && MessageOk(d, m) && i < |d.fields| && ShapedSlot(d.fields[i], m, i)
    requires d.fields[i].rule.Singular? && !d.fields[i].ltype.TSubmessage? && !IsZero(d.fields[i], m.slots[i].v)
    ensures EncodeMessage(d, m).Some?
    ensures var r := Decode(d, EncodeMessage(d, m).value);
            r.Some? && Shaped(d, r.value) && r.value.slots[i] == m.slots[i]
  {
    DecodeOfEncode(d, m);
    hide Same, MessageOk, IsZero, ZerosKept;
    var r := Decode(d, EncodeMessage(d, m).value);
    assert ShapedSlot(d.fields[i], r.value, i) && BackSlot(d.fields[i], m, r.value, i);
    assert BackValue(d.fields[i], m.slots[i].v, r.value.slots[i].v);
  }

  /** For example, a uint32 field with the default 7: the message 0 becomes no bytes, which decode to 7. */
  lemma ZeroBecomesSeven()
    ensures var d := Schema([Field(1, TUVarint, Singular, 4, Some(Num(7)))], 0);
            && SchemaOk(d) && Shaped(d, Message([One(Num(0))], []))
            && EncodeMessage(d, Message([One(Num(0))], [])) == Some([])
            && Decode(d, []) == Some(Message([One(Num(7))], []))
  {
    var f := Field(1, TUVarint, Singular, 4, Some(Num(7)));
    var (d, m) := (Schema([f], 0), Message([One(Num(0))], []));
    assert FieldOk(d.fields[0], d.unions) && ShapedSlot(d.fields[0], m, 0);
    assert EncodeField(d.fields[0], m, 0) == Some([]) && EncodeFrom(d, m, 1) == Some([]);
    var none: bytes := [];
    assert none + none == none;
    assert EncodeFrom(d, m, 0) == Then(EncodeField(d.fields[0], m, 0), EncodeFrom(d, m, 1));
    DefaultsShaped(d);
    assert DefaultSlot(f) == One(Num(7));
    assert Defaults(d).slots == [One(Num(7))] && Defaults(d).unions == [];
  }
}

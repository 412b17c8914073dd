/** Strings without a terminator: pb_encode writes them, and pb_decode of a message with such a string fails,
    wherever it is in the message. */
module PbTerminators {
  import opened Wrappers
  import opened Coding
  import opened PbMessages
  import opened PbDecoding
  import opened PbRoundTrip

  /** A string field comes back exactly when there is a terminator inside the buffer. */
  lemma StringNeedsTerminator(f: Field, v: Value, rest: bytes)
    requires f.ltype.TString? && ShapedValue(f, v) && f.dataSize < TWO_TO_32
    ensures EncodeValue(f, v).Some?
    ensures DecodeScalar(f, EncodeValue(f, v).value + rest).Some? <==> |v.b| < f.dataSize
    ensures |v.b| < f.dataSize ==> DecodeScalar(f, EncodeValue(f, v).value + rest).value.value == v
  {
    hide ReadString, Prefixed;
    PrefixedRoundTrip(v.b, rest);
  }

  /** A field that fails to decode ends the loop. */
  lemma LoopFails(d: Schema, st: LoopState, i: nat, wireType: nat, s: bytes)
    requires ShapedState(d, st) && i < |d.fields| && wireType < 8 && DecodeField(d, st, i, wireType, s).None?
    ensures Loop(d, st, Key(wireType, d.fields[i].tag) + s).None?
  {
    hide DecodeField, Step, Shaped, SchemaOk, Varint;
    KeyStep(d, st, i, wireType, s);
    assert Key(wireType, d.fields[i].tag) + s != [];
  }

  lemma {:induction false} ValueFails(f: Field, v: Value, unions: nat, rest: bytes)
    requires FieldOk(f, unions) && ShapedValue(f, v) && ValueFits(f, v) && !Terminated(f, v)
    ensures f.ltype.TSubmessage? ==> SchemaOk(f.ltype.schema) && Shaped(f.ltype.schema, Defaults(f.ltype.schema))
    ensures EncodeValue(f, v).Some?
    ensures DecodeValue(f, DefaultTarget(f), EncodeValue(f, v).value + rest).None?
    decreases v, 0
  {
    hide DecodeScalar, DecodeMessage, EncodeMessage, ReadString, Prefixed, MessageFits;
    if f.ltype.TSubmessage? {
      var d := f.ltype.schema;
      MessageFails(d, v.m);
      PrefixedRoundTrip(EncodeMessage(d, v.m).value, rest);
    } else {
      StringNeedsTerminator(f, v, rest);
    }
  }

  /** The turn of the loop for a single value that does not decode. */
  lemma SingleTurnFails(d: Schema, m: Message, i: nat, st: LoopState, s: bytes)
    requires ShapedState(d, st) && Shaped(d, m) && i < |d.fields| && Progress(d, m, i, st) && !IsArray(d.fields[i])
    requires var t := d.fields[i].ltype;
             t.TSubmessage? ==> SchemaOk(t.schema) && Shaped(t.schema, Defaults(t.schema))
    requires DecodeValue(d.fields[i], DefaultTarget(d.fields[i]), s).None?
    ensures Loop(d, st, FieldKey(d.fields[i]) + s).None?
  {
    var st1 := See(d, st, i);
    TargetIsDefault(d, m, i, st);
    SeeShaped(d, st, i);
    hide Progress, Loop, Step, Store, SchemaOk, Shaped, Key;
    TargetOfScalar(d.fields[i], Target(d, st1.m, i), s);
    assert DecodeStatic(d, st1, i, WireType(d.fields[i].ltype), s).None?;
    LoopFails(d, st, i, WireType(d.fields[i].ltype), s);
  }

  lemma ElementTurnFails(d: Schema, m: Message, i: nat, k: nat, st: LoopState, s: bytes)
    requires ShapedState(d, st) && Shaped(d, m) && i < |d.fields| && IsArray(d.fields[i])
    requires ArrayProgress(d, m, i, k, st) && !d.fields[i].ltype.Packable()
    requires var t := d.fields[i].ltype;
             t.TSubmessage? ==> SchemaOk(t.schema) && Shaped(t.schema, Defaults(t.schema))
    requires DecodeValue(d.fields[i], DefaultTarget(d.fields[i]), s).None?
    ensures Loop(d, st, FieldKey(d.fields[i]) + s).None?
  {
    var f, st1 := d.fields[i], Entered(d, st, i, k);
    Entering(d, m, i, k, st);
    hide ArrayProgress, BackValue, Loop, Step, Store, SchemaOk, Shaped, Key, ShapedValue;
    TargetOfItem(d, st1.m, i);
    TargetOfScalar(f, Target(d, st1.m, i), s);
    assert DecodeStatic(d, st1, i, WireType(f.ltype), s).None?;
    LoopFails(d, st, i, WireType(f.ltype), s);
  }

  lemma {:induction false} ElementFails(d: Schema, m: Message, i: nat, k: nat, st: LoopState, rest: bytes)
    requires ShapedState(d, st) && Shaped(d, m) && i < |d.fields| && IsArray(d.fields[i])
    requires ArrayProgress(d, m, i, k, st) && FieldOk(d.fields[i], d.unions) && !d.fields[i].ltype.Packable()
    requires m.slots[i].Many? && ItemsShaped(d.fields[i], m.slots[i].items) && ItemsFits(d.fields[i], m.slots[i])
    requires k < |m.slots[i].items| && !Terminated(d.fields[i], m.slots[i].items[k])
    ensures EncodeEach(d.fields[i], m.slots[i], k).Some?
    ensures Loop(d, st, EncodeEach(d.fields[i], m.slots[i], k).value + rest).None?
    decreases m, 0, 0
  {
    var f, s := d.fields[i], m.slots[i];
    hide ArrayProgress, Loop, SchemaOk, Shaped, Key, ShapedValue, DecodeValue, EncodeValue, ValueFits, Terminated;
    hide FieldOk;
    EachEncodes(f, s, k + 1, d.unions);
    ValueEncodes(f, s.items[k], d.unions);
    var (body, more) := (EncodeValue(f, s.items[k]).value, EncodeEach(f, s, k + 1).value);
    ValueFails(f, s.items[k], d.unions, more + rest);
    ElementTurnFails(d, m, i, k, st, body + (more + rest));
    Regroup(FieldKey(f) + body, more, rest);
    Regroup(FieldKey(f), body, more + rest);
  }

  /** An array some element of which, from k on, is not terminated. */
  lemma {:induction false} EachFails(d: Schema, m: Message, i: nat, k: nat, st: LoopState, rest: bytes)
    requires ShapedState(d, st) && Shaped(d, m) && i < |d.fields| && IsArray(d.fields[i])
    requires ArrayProgress(d, m, i, k, st) && FieldOk(d.fields[i], d.unions)
    requires m.slots[i].Many? && ItemsShaped(d.fields[i], m.slots[i].items) && ItemsFits(d.fields[i], m.slots[i])
    requires !d.fields[i].ltype.Packable()
    requires exists j :: k <= j < |m.slots[i].items| && !Terminated(d.fields[i], m.slots[i].items[j])
    ensures EncodeEach(d.fields[i], m.slots[i], k).Some?
    ensures Loop(d, st, EncodeEach(d.fields[i], m.slots[i], k).value + rest).None?
    decreases m, 0, |m.slots[i].items| - k
  {
    var s := m.slots[i];
    hide ArrayProgress, Loop, SchemaOk, Shaped, ShapedValue, EncodeEach, EncodePacked, ValueFits, Terminated, FieldOk;
    if Terminated(d.fields[i], s.items[k]) {
      var st' := ElementRoundTrip(d, m, i, k, st, rest);
      EachFails(d, m, i, k + 1, st', rest);
    } else {
      ElementFails(d, m, i, k, st, rest);
    }
  }

  lemma PackedIsTerminated(f: Field, s: Slot)
    requires f.ltype.Packable() && s.Many? && ItemsShaped(f, s.items)
    ensures ItemsTerminated(f, s)
  {
  }

  lemma {:induction false} FieldFails(d: Schema, m: Message, i: nat, st: LoopState, rest: bytes)
    requires ShapedState(d, st) && Shaped(d, m) && i < |d.fields| && Progress(d, m, i, st)
    requires ShapedSlot(d.fields[i], m, i) && FieldOk(d.fields[i], d.unions)
    requires SlotFits(d.fields[i], m, i) && !SlotTerminated(d.fields[i], m, i)
    ensures EncodeField(d.fields[i], m, i).Some?
    ensures Loop(d, st, EncodeField(d.fields[i], m, i).value + rest).None?
    decreases m, 1, 0
  {
    var f, s := d.fields[i], m.slots[i];
    hide Progress, ArrayProgress, Loop, Step, SchemaOk, Shaped, Key, ShapedValue;
    hide EncodeEach, EncodePacked, EncodeValue, ValueFits, Terminated, FieldOk, IsZero;
    if IsArray(f) {
      if f.ltype.Packable() {
        PackedIsTerminated(f, s);
      }
      ArrayBegins(d, m, i, st);
      EachFails(d, m, i, 0, st, rest);
    } else {
      var v := Single(f, m, i).value;
      ValueFails(f, v, d.unions, rest);
      Regroup(FieldKey(f), EncodeValue(f, v).value, rest);
      SingleTurnFails(d, m, i, st, EncodeValue(f, v).value + rest);
    }
  }

  lemma {:induction false} FieldsFail(d: Schema, m: Message, i: nat, st: LoopState)
    requires ShapedState(d, st) && Shaped(d, m) && MessageFits(d, m) && i <= |d.fields| && Progress(d, m, i, st)
    requires exists j :: i <= j < |d.fields| && !SlotTerminated(d.fields[j], m, j)
    ensures EncodeFrom(d, m, i).Some?
    ensures Loop(d, st, EncodeFrom(d, m, i).value).None?
    decreases m, 2, |d.fields| - i
  {
    hide Progress, Step, ShapedValue, EncodeField, SlotFits, SlotTerminated;
    FieldsEncode(d, m, i + 1);
    var rest := EncodeFrom(d, m, i + 1).value;
    assert FieldOk(d.fields[i], d.unions) && ShapedSlot(d.fields[i], m, i) && SlotFits(d.fields[i], m, i);
    if SlotTerminated(d.fields[i], m, i) {
      var st' := FieldRoundTrip(d, m, i, st, rest);
      FieldsFail(d, m, i + 1, st');
    } else {
      FieldFails(d, m, i, st, rest);
    }
  }

  lemma {:induction false} MessageFails(d: Schema, m: Message)
    requires SchemaOk(d) && Shaped(d, m) && MessageFits(d, m) && !AllTerminated(d, m)
    ensures Shaped(d, Defaults(d)) && EncodeMessage(d, m).Some?
    ensures DecodeMessage(d, Defaults(d), EncodeMessage(d, m).value).None?
    decreases m, 3
  {
    DefaultsShaped(d);
    StartProgress(d, m);
    FieldsFail(d, m, 0, LoopState(Defaults(d), {}, None));
  }
}

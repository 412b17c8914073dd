/** Arrays on the wire: those of numbers are packed, all others have a key in front of each element; and
    either form of an array of numbers is understood. See "Packed Repeated Fields" in the Protocol Buffers
    encoding guide. */
module PbArrays {
  import opened Wrappers
  import opened Coding
  import opened PbMessages
  import opened PbDecoding
  import opened PbRoundTrip
  import opened PbMerge
  import opened PbTerminators

  /** The types whose arrays are packed. */
  predicate IsNumber(t: LType) {
    t.TBool? || t.TVarint? || t.TUVarint? || t.TSVarint? || t.TFixed32? || t.TFixed64?
  }

  // ----- encoding -----

  /** The elements' encodings, one after the other. */
  ghost function Elements(f: Field, s: Slot, k: nat): Option<bytes>
    requires s.Many? && k <= |s.items| && ItemsShaped(f, s.items)
  {
    if k == 0 then Some([]) else Then(Elements(f, s, k - 1), EncodeValue(f, s.items[k - 1]))
  }

  lemma {:induction false} ElementsArePacked(f: Field, s: Slot, k: nat)
    requires s.Many? && k <= |s.items| && ItemsShaped(f, s.items)
    ensures EncodePacked(f, s, 0) == Then(Elements(f, s, k), EncodePacked(f, s, k))
  {
    hide EncodeValue, ShapedValue;
    if k == 0 {
      var all := EncodePacked(f, s, 0);
      assert all.Some? ==> [] + all.value == all.value;
    } else {
      ElementsArePacked(f, s, k - 1);
      var (before, e, rest) := (Elements(f, s, k - 1), EncodeValue(f, s.items[k - 1]), EncodePacked(f, s, k));
      if before.Some? && e.Some? && rest.Some? {
        Regroup(before.value, e.value, rest.value);
      }
    }
  }

  /** An array of numbers that is not empty and not too long is one field of wire type 2: its key, the length
      of all elements, and the elements. */
  lemma NumbersArePacked(f: Field, s: Slot)
    requires IsNumber(f.ltype) && s.Many? && ItemsShaped(f, s.items) && 0 < |s.items| <= ArraySize(f.rule)
    ensures var elements := Elements(f, s, |s.items|);
            EncodeArray(f, s) == if elements.None? then None
                                 else Some(Varint(8 * f.tag + 2) + (Varint(|elements.value|) + elements.value))
  {
    hide EncodeValue, ShapedValue, Varint;
    ElementsArePacked(f, s, |s.items|);
    var elements := Elements(f, s, |s.items|);
    assert elements.Some? ==> elements.value + [] == elements.value;
  }

  /** Every element of any other array has its own key, of wire type 2. */
  ghost function Tagged(f: Field, s: Slot, k: nat): Option<bytes>
    requires s.Many? && k <= |s.items| && ItemsShaped(f, s.items)
  {
    if k == 0 then Some([])
    else Then(Tagged(f, s, k - 1), Then(Some(Varint(8 * f.tag + 2)), EncodeValue(f, s.items[k - 1])))
  }

  lemma {:induction false} TaggedAreEach(f: Field, s: Slot, k: nat)
    requires s.Many? && k <= |s.items| && ItemsShaped(f, s.items) && !IsNumber(f.ltype)
    ensures EncodeEach(f, s, 0) == Then(Tagged(f, s, k), EncodeEach(f, s, k))
  {
    hide EncodeValue, ShapedValue, Varint;
    if k == 0 {
      var all := EncodeEach(f, s, 0);
      assert all.Some? ==> [] + all.value == all.value;
    } else {
      TaggedAreEach(f, s, k - 1);
      var (before, rest) := (Tagged(f, s, k - 1), EncodeEach(f, s, k));
      var e := Then(Some(Varint(8 * f.tag + 2)), EncodeValue(f, s.items[k - 1]));
      assert Then(Some(FieldKey(f)), EncodeValue(f, s.items[k - 1])) == e;
      if before.Some? && e.Some? && rest.Some? {
        Regroup(before.value, e.value, rest.value);
      }
    }
  }

  lemma OthersAreTagged(f: Field, s: Slot)
    requires !IsNumber(f.ltype) && s.Many? && ItemsShaped(f, s.items) && |s.items| <= ArraySize(f.rule)
    ensures EncodeArray(f, s) == Tagged(f, s, |s.items|)
  {
    hide EncodeValue, ShapedValue, Varint;
    TaggedAreEach(f, s, |s.items|);
    var tagged := Tagged(f, s, |s.items|);
    assert tagged.Some? ==> tagged.value + [] == tagged.value;
  }

  // ----- decoding -----

  /** Bytes that are exactly one element. */
  ghost predicate IsElement(f: Field, e: bytes)
    requires !f.ltype.TSubmessage?
  {
    DecodeScalar(f, e).Some? && DecodeScalar(f, e).value.size == |e|
  }

  function Concat(parts: seq<bytes>): bytes {
    if parts == [] then [] else parts[0] + Concat(parts[1..])
  }

  /** With a key in front of each. */
  function Keyed(key: bytes, parts: seq<bytes>): bytes {
    if parts == [] then [] else key + parts[0] + Keyed(key, parts[1..])
  }

  /** The array is the one being received, if it has a fixed count. */
  ghost predicate Receiving(d: Schema, st: LoopState, i: nat) {
    && i < |d.fields| && IsArray(d.fields[i]) && IsNumber(d.fields[i].ltype)
    && (d.fields[i].rule.FixedCount? ==> st.fixed.Some? && st.fixed.value.index == i)
  }

  lemma NumberParts(d: Schema, st: LoopState, i: nat)
    requires ShapedState(d, st) && Receiving(d, st, i)
    ensures st.m.slots[i].Many? && ItemsShaped(d.fields[i], st.m.slots[i].items) && See(d, st, i) == st
    ensures EnterFixed(d, st, i) == Some(st) && d.fields[i].ltype.Packable() && !d.fields[i].ltype.TSubmessage?
    ensures d.fields[i].rule.FixedCount? ==> |st.m.slots[i].items| == d.fields[i].rule.count
  {
    assert ShapedSlot(d.fields[i], st.m, i);
  }

  ghost function Received(d: Schema, st: LoopState, i: nat, v: Value): LoopState
    requires i < |d.fields| == |st.m.slots| && st.m.slots[i].Many?
  {
    var (f, items) := (d.fields[i], st.m.slots[i].items);
    StoreItems(d, st, i, PutItem(items, ArrayPos(st, f, items), v), ArrayPos(st, f, items) + 1)
  }

  /** One element behind its own key. */
  lemma OneKeyed(d: Schema, st: LoopState, i: nat, wireType: nat, e: bytes, rest: bytes)
    requires ShapedState(d, st) && Receiving(d, st, i) && wireType < 8 && wireType != WT_STRING
    requires !d.fields[i].ltype.TSubmessage? && IsElement(d.fields[i], e) && st.m.slots[i].Many?
    ensures var (f, items) := (d.fields[i], st.m.slots[i].items);
            && (ArrayPos(st, f, items) >= ArraySize(f.rule) ==> Loop(d, st, Key(wireType, f.tag) + e + rest).None?)
            && (ArrayPos(st, f, items) < ArraySize(f.rule) ==>
                  var st' := Received(d, st, i, DecodeScalar(f, e).value.value);
                  && ShapedState(d, st') && Receiving(d, st', i)
                  && Loop(d, st, Key(wireType, f.tag) + e + rest) == Loop(d, st', rest))
  {
    NumberParts(d, st, i);
    var (f, items) := (d.fields[i], st.m.slots[i].items);
    ScalarPrefix(f, e, rest);
    var v := DecodeScalar(f, e).value.value;
    if ArrayPos(st, f, items) < ArraySize(f.rule) {
      StoreShaped(d, st, i, v);
    }
    hide DecodeScalar, Loop, Step, SchemaOk, Shaped, Key, ShapedValue;
    Regroup(Key(wireType, f.tag), e, rest);
    if ArrayPos(st, f, items) >= ArraySize(f.rule) {
      assert DecodeField(d, st, i, wireType, e + rest).None?;
      LoopFails(d, st, i, wireType, e + rest);
    } else {
      assert DecodeValue(f, Target(d, st.m, i), e + rest) == Some(Parsed(v, |e|));
      assert Store(d, st, i, v) == Received(d, st, i, v);
      hide DecodeValue, Store, Target, Received;
      assert DecodeStatic(d, st, i, wireType, e + rest) == Some(Parsed(Store(d, st, i, v), |e|));
      FieldTurn(d, st, i, wireType, e, rest, Store(d, st, i, v));
    }
  }

  /** The loop over an array, after which the struct holds these elements, or which has failed. */
  ghost predicate ArrayRead(d: Schema, st: LoopState, i: nat, elements: bytes, s: bytes, rest: bytes)
    requires ShapedState(d, st) && Receiving(d, st, i) && st.m.slots[i].Many? && d.fields[i].ltype.Packable()
  {
    var (f, items) := (d.fields[i], st.m.slots[i].items);
    var r := DecodePacked(f, items, ArrayPos(st, f, items), elements);
    && (r.None? ==> Loop(d, st, s + rest).None?)
    && (r.Some? ==>
          var st' := StoreItems(d, st, i, r.value.0, r.value.1);
          ShapedState(d, st') && Loop(d, st, s + rest) == Loop(d, st', rest))
  }

  lemma {:induction false} KeyedRead(d: Schema, st: LoopState, i: nat, wireType: nat, parts: seq<bytes>, rest: bytes)
    requires ShapedState(d, st) && Receiving(d, st, i) && wireType < 8 && wireType != WT_STRING
    requires !d.fields[i].ltype.TSubmessage? && forall j :: 0 <= j < |parts| ==> IsElement(d.fields[i], parts[j])
    ensures st.m.slots[i].Many? && d.fields[i].ltype.Packable()
    ensures ArrayRead(d, st, i, Concat(parts), Keyed(Key(wireType, d.fields[i].tag), parts), rest)
    decreases |parts|
  {
    NumberParts(d, st, i);
    var (f, items, key) := (d.fields[i], st.m.slots[i].items, Key(wireType, d.fields[i].tag));
    var pos := ArrayPos(st, f, items);
    if parts == [] {
      assert StoreItems(d, st, i, items, pos) == st && [] + rest == rest;
    } else {
      var (e, more) := (parts[0], Keyed(key, parts[1..]));
      OneKeyed(d, st, i, wireType, e, more + rest);
      Regroup(key + e, more, rest);
      PackedFirst(f, items, pos, e, Concat(parts[1..]));
      if pos < ArraySize(f.rule) {
        var st' := Received(d, st, i, DecodeScalar(f, e).value.value);
        KeyedRead(d, st', i, wireType, parts[1..], rest);
        ReceivedMore(d, st, i, DecodeScalar(f, e).value.value);
        hide DecodeScalar, DecodePacked, Loop, SchemaOk, Shaped, Key, ShapedValue, Receiving, Received;
      }
    }
  }

  /** Of a packed array, the first element and the others. */
  lemma PackedFirst(f: Field, items: seq<Value>, pos: nat, e: bytes, more: bytes)
    requires f.ltype.Packable() && IsElement(f, e)
    ensures DecodePacked(f, items, pos, e + more)
         == if pos >= ArraySize(f.rule) then None
            else DecodePacked(f, PutItem(items, pos, DecodeScalar(f, e).value.value), pos + 1, more)
  {
    ScalarPrefix(f, e, more);
    hide DecodeScalar;
    assert (e + more)[|e|..] == more;
  }

  lemma ReceivedMore(d: Schema, st: LoopState, i: nat, v: Value)
    requires i < |d.fields| == |st.m.slots| && st.m.slots[i].Many? && IsArray(d.fields[i])
    requires d.fields[i].rule.Repeated? ==> ArrayPos(st, d.fields[i], st.m.slots[i].items) == |st.m.slots[i].items|
    ensures var (f, items, st') := (d.fields[i], st.m.slots[i].items, Received(d, st, i, v));
            && st'.m.slots[i] == Many(PutItem(items, ArrayPos(st, f, items), v))
            && ArrayPos(st', f, st'.m.slots[i].items) == ArrayPos(st, f, items) + 1
            && forall more, n :: StoreItems(d, st', i, more, n) == StoreItems(d, st, i, more, n)
  {
  }

  lemma PackedRead(d: Schema, st: LoopState, i: nat, elements: bytes, rest: bytes)
    requires ShapedState(d, st) && Receiving(d, st, i) && |elements| < TWO_TO_32
    ensures st.m.slots[i].Many? && d.fields[i].ltype.Packable()
    ensures ArrayRead(d, st, i, elements, Key(WT_STRING, d.fields[i].tag) + Prefixed(elements), rest)
  {
    NumberParts(d, st, i);
    PrefixedRoundTrip(elements, rest);
    var (f, items, key) := (d.fields[i], st.m.slots[i].items, Key(WT_STRING, d.fields[i].tag));
    var r := DecodePacked(f, items, ArrayPos(st, f, items), elements);
    if r.Some? {
      PackedShaped(f, items, ArrayPos(st, f, items), elements);
      StoreItemsShaped(d, st, i, r.value.0, r.value.1);
    }
    hide DecodeScalar, DecodePacked, Loop, Step, SchemaOk, Shaped, Key, ShapedValue, Prefixed, ReadString;
    Regroup(key, Prefixed(elements), rest);
    if r.None? {
      assert DecodeField(d, st, i, WT_STRING, Prefixed(elements) + rest).None?;
      LoopFails(d, st, i, WT_STRING, Prefixed(elements) + rest);
    } else {
      FieldTurn(d, st, i, WT_STRING, Prefixed(elements), rest, StoreItems(d, st, i, r.value.0, r.value.1));
    }
  }

  // ----- both forms -----

  /** At the key of an array the loop first enters it, if it has a fixed count. */
  lemma EnterFirst(d: Schema, st: LoopState, i: nat, wireType: nat, s: bytes)
    requires ShapedState(d, st) && i < |d.fields| && IsArray(d.fields[i]) && wireType < 8
    ensures var (entered, all) := (EnterFixed(d, st, i), Key(wireType, d.fields[i].tag) + s);
            && (entered.None? ==> Loop(d, st, all).None?)
            && (entered.Some? ==> ShapedState(d, entered.value) && Loop(d, st, all) == Loop(d, entered.value, all))
  {
    var entered := EnterFixed(d, st, i);
    hide DecodeStatic, SchemaOk, Shaped, Varint, Step;
    if entered.None? {
      LoopFails(d, st, i, wireType, s);
    } else {
      assert EnterFixed(d, entered.value, i) == entered;
      assert DecodeField(d, st, i, wireType, s) == DecodeField(d, entered.value, i, wireType, s);
      hide DecodeField, EnterFixed;
      KeyStep(d, st, i, wireType, s);
      KeyStep(d, entered.value, i, wireType, s);
      assert Key(wireType, d.fields[i].tag) + s != [];
    }
  }

  lemma KeyedBegins(key: bytes, parts: seq<bytes>, rest: bytes)
    requires parts != []
    ensures Keyed(key, parts) + rest == key + (parts[0] + Keyed(key, parts[1..]) + rest)
  {
  }

  /** A packed array and the same elements with a key in front of each are decoded alike, from any state of
      the loop: into the same struct, or not at all. */
  lemma EitherForm(d: Schema, st: LoopState, i: nat, wireType: nat, parts: seq<bytes>, rest: bytes)
    requires ShapedState(d, st) && i < |d.fields| && IsArray(d.fields[i]) && IsNumber(d.fields[i].ltype)
    requires wireType < 8 && wireType != WT_STRING && parts != [] && |Concat(parts)| < TWO_TO_32
    requires forall j :: 0 <= j < |parts| ==> IsElement(d.fields[i], parts[j])
    ensures Loop(d, st, Key(WT_STRING, d.fields[i].tag) + Prefixed(Concat(parts)) + rest)
         == Loop(d, st, Keyed(Key(wireType, d.fields[i].tag), parts) + rest)
  {
    var (tag, entered) := (d.fields[i].tag, EnterFixed(d, st, i));
    var key := Key(wireType, tag);
    Regroup(Key(WT_STRING, tag), Prefixed(Concat(parts)), rest);
    KeyedBegins(key, parts, rest);
    EnterFirst(d, st, i, WT_STRING, Prefixed(Concat(parts)) + rest);
    EnterFirst(d, st, i, wireType, parts[0] + Keyed(key, parts[1..]) + rest);
    if entered.Some? {
      PackedRead(d, entered.value, i, Concat(parts), rest);
      KeyedRead(d, entered.value, i, wireType, parts, rest);
      hide Loop, SchemaOk, Shaped, DecodePacked, Concat, Keyed, Key, Prefixed, EnterFixed;
    }
  }

  /** So a reader takes either form, in any message and between any other fields. */
  lemma PackedOrNot(d: Schema, m: Message, i: nat, before: bytes, parts: seq<bytes>, after: bytes)
    requires SchemaOk(d) && Shaped(d, m) && Clean(d, Begin(m), before)
    requires i < |d.fields| && IsArray(d.fields[i]) && IsNumber(d.fields[i].ltype)
    requires parts != [] && |Concat(parts)| < TWO_TO_32
    requires forall j :: 0 <= j < |parts| ==> IsElement(d.fields[i], parts[j])
    ensures DecodeMessage(d, m, before + (Key(WT_STRING, d.fields[i].tag) + Prefixed(Concat(parts)) + after))
         == DecodeMessage(d, m, before + (Keyed(FieldKey(d.fields[i]), parts) + after))
  {
    var f := d.fields[i];
    var (packed, keyed) := (Key(WT_STRING, f.tag) + Prefixed(Concat(parts)) + after, Keyed(FieldKey(f), parts) + after);
    LoopAppend(d, Begin(m), before, packed);
    LoopAppend(d, Begin(m), before, keyed);
    EitherForm(d, Loop(d, Begin(m), before).value, i, WireType(f.ltype), parts, after);
    hide Loop, SchemaOk, Shaped, Clean, Keyed, Concat, Key, Prefixed;
  }

  ghost function Values(f: Field, parts: seq<bytes>): seq<Value>
    requires !f.ltype.TSubmessage? && forall j :: 0 <= j < |parts| ==> IsElement(f, parts[j])
  {
    if parts == [] then []
    else
      assert IsElement(f, parts[0]);
      [DecodeScalar(f, parts[0]).value.value] + Values(f, parts[1..])
  }

  function Behind(items: seq<Value>, n: nat): seq<Value> {
    if n <= |items| then items[n..] else []
  }

  /** And what it takes: the elements come behind those already there, or in place of what a fixed-count
      array holds there; too many of them are an error. */
  lemma {:induction false} PackedHolds(f: Field, items: seq<Value>, pos: nat, parts: seq<bytes>)
    requires IsNumber(f.ltype) && pos <= |items| && forall j :: 0 <= j < |parts| ==> IsElement(f, parts[j])
    ensures f.ltype.Packable()
    ensures var (r, n) := (DecodePacked(f, items, pos, Concat(parts)), |parts|);
            && (pos <= ArraySize(f.rule) < pos + n ==> r.None?)
            && (pos + n <= ArraySize(f.rule) ==>
                  r == Some((items[..pos] + Values(f, parts) + Behind(items, pos + n), pos + n)))
    decreases |parts|
  {
    hide DecodeScalar, IsElement;
    if parts == [] {
      assert items[..pos] + [] + items[pos..] == items;
    } else {
      assert IsElement(f, parts[0]);
      PackedFirst(f, items, pos, parts[0], Concat(parts[1..]));
      if pos < ArraySize(f.rule) {
        ElementValue(f, parts[0]);
        var v := DecodeScalar(f, parts[0]).value.value;
        hide DecodePacked;
        PackedHolds(f, PutItem(items, pos, v), pos + 1, parts[1..]);
        PutThenMore(items, pos, v, Values(f, parts[1..]), pos + |parts|);
      }
    }
  }

  lemma ElementValue(f: Field, e: bytes)
    requires !f.ltype.TSubmessage? && IsElement(f, e)
    ensures DecodeScalar(f, e).Some?
  {
  }

  lemma PutThenMore(items: seq<Value>, pos: nat, v: Value, values: seq<Value>, n: nat)
    requires pos <= |items| && n > pos
    ensures var next := PutItem(items, pos, v);
            && pos + 1 <= |next|
            && next[..pos + 1] + values + Behind(next, n) == items[..pos] + ([v] + values) + Behind(items, n)
  {
    var next := PutItem(items, pos, v);
    assert next[..pos + 1] == items[..pos] + [v] && Behind(next, n) == Behind(items, n);
    assert next[..pos + 1] + values == items[..pos] + ([v] + values);
  }

  // ----- fixed counts -----

  /** An array of fixed count must have come whole before another one begins. */
  lemma LeavingEarlyFails(d: Schema, st: LoopState, i: nat, k: nat, j: nat, wireType: nat, s: bytes)
    requires ShapedState(d, st) && st.fixed == Some(FixedPos(i, k)) && i < |d.fields|
    requires k != ArraySize(d.fields[i].rule)
    requires j < |d.fields| && j != i && d.fields[j].rule.FixedCount? && wireType < 8
    ensures Loop(d, st, Key(wireType, d.fields[j].tag) + s).None?
  {
    LoopFails(d, st, j, wireType, s);
  }

  /** And before the message ends: with its elements alone, decoding succeeds exactly when there are as many
      as the array holds. */
  lemma FixedCountExactly(d: Schema, m: Message, i: nat, parts: seq<bytes>)
    requires SchemaOk(d) && Shaped(d, m) && i < |d.fields| && d.fields[i].rule.FixedCount?
    requires IsNumber(d.fields[i].ltype) && forall j :: 0 <= j < |d.fields| ==> !d.fields[j].rule.Required?
    requires parts != [] && forall j :: 0 <= j < |parts| ==> IsElement(d.fields[i], parts[j])
    ensures DecodeMessage(d, m, Keyed(FieldKey(d.fields[i]), parts)).Some? <==> |parts| == d.fields[i].rule.count
  {
    var (f, st) := (d.fields[i], LoopState(m, {}, Some(FixedPos(i, 0))));
    var key := FieldKey(f);
    assert ShapedSlot(f, m, i);
    KeyedBegins(key, parts, []);
    assert Keyed(key, parts) + [] == Keyed(key, parts);
    EnterFirst(d, Begin(m), i, WireType(f.ltype), parts[0] + Keyed(key, parts[1..]) + []);
    KeyedRead(d, st, i, WireType(f.ltype), parts, []);
    PackedHolds(f, m.slots[i].items, 0, parts);
    hide DecodePacked, Keyed, Concat, Key, Step, ShapedValue, IsElement;
  }
}

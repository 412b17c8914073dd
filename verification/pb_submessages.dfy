/** Submessages that occur more than once: a required, optional or proto3 submessage is decoded into what the
    struct holds, so that occurrences merge; elements of arrays and members of unions start from the
    defaults. See "Last One Wins" in the Protocol Buffers encoding guide. */
module PbSubmessages {
  import opened Wrappers
  import opened Coding
  import opened PbMessages
  import opened PbDecoding
  import opened PbRoundTrip
  import opened PbMerge
  import opened PbTerminators

  /** A submessage that the struct holds in one place. */
  ghost predicate SingleSub(d: Schema, i: nat) {
    && i < |d.fields| && d.fields[i].ltype.TSubmessage?
    && (d.fields[i].rule.Required? || d.fields[i].rule.Optional? || d.fields[i].rule.Singular?)
  }

  /** What the struct holds there, whether its has-flag is set or not. */
  ghost function Present(d: Schema, m: Message, i: nat): (sub: Message)
    requires SchemaOk(d) && Shaped(d, m) && SingleSub(d, i)
    ensures SchemaOk(d.fields[i].ltype.schema) && Shaped(d.fields[i].ltype.schema, sub)
  {
    assert FieldOk(d.fields[i], d.unions) && ShapedSlot(d.fields[i], m, i);
    m.slots[i].v.m
  }

  /** The struct with this submessage in its place. */
  ghost function Holding(d: Schema, st: LoopState, i: nat, sub: Message): LoopState
    requires SingleSub(d, i) && |d.fields| == |st.m.slots|
  {
    var slot := if d.fields[i].rule.Optional? then Maybe(true, Sub(sub)) else One(Sub(sub));
    LoopState(st.m.(slots := st.m.slots[i := slot]), if Tracked(d, i) then st.seen + {i} else st.seen, st.fixed)
  }

  function SubField(f: Field, a: bytes): bytes {
    Key(WT_STRING, f.tag) + Prefixed(a)
  }

  lemma ReadsSub(f: Field, target: Value, a: bytes, rest: bytes)
    requires f.ltype.TSubmessage? && target.Sub? && SchemaOk(f.ltype.schema) && Shaped(f.ltype.schema, target.m)
    requires |a| < TWO_TO_32
    ensures var r := DecodeMessage(f.ltype.schema, target.m, a);
            DecodeValue(f, target, Prefixed(a) + rest)
            == if r.None? then None else Some(Parsed(Sub(r.value), |Prefixed(a)|))
  {
    hide DecodeMessage, SchemaOk, Shaped, Prefixed, ReadString;
    PrefixedRoundTrip(a, rest);
  }

  /** What decoding the field gives decides how the loop goes on. */
  lemma Occurrence(d: Schema, st: LoopState, i: nat, a: bytes, rest: bytes, next: Option<LoopState>)
    requires ShapedState(d, st) && i < |d.fields|
    requires DecodeField(d, st, i, WT_STRING, Prefixed(a) + rest)
          == if next.None? then None else Some(Parsed(next.value, |Prefixed(a)|))
    ensures next.None? ==> Loop(d, st, SubField(d.fields[i], a) + rest).None?
    ensures next.Some? ==>
              && ShapedState(d, next.value)
              && Loop(d, st, SubField(d.fields[i], a) + rest) == Loop(d, next.value, rest)
  {
    hide DecodeField, Loop, Step, SchemaOk, Shaped, Key, Prefixed;
    Regroup(Key(WT_STRING, d.fields[i].tag), Prefixed(a), rest);
    if next.None? {
      LoopFails(d, st, i, WT_STRING, Prefixed(a) + rest);
    } else {
      FieldTurn(d, st, i, WT_STRING, Prefixed(a), rest, next.value);
    }
  }

  /** One occurrence: it is decoded into what is there. */
  lemma SubTurn(d: Schema, st: LoopState, i: nat, a: bytes, rest: bytes)
    requires ShapedState(d, st) && SingleSub(d, i) && |a| < TWO_TO_32
    ensures var r := DecodeMessage(d.fields[i].ltype.schema, Present(d, st.m, i), a);
            && (r.None? ==> Loop(d, st, SubField(d.fields[i], a) + rest).None?)
            && (r.Some? ==>
                  && ShapedState(d, Holding(d, st, i, r.value))
                  && Loop(d, st, SubField(d.fields[i], a) + rest) == Loop(d, Holding(d, st, i, r.value), rest))
  {
    var (f, st1) := (d.fields[i], See(d, st, i));
    var r := DecodeMessage(f.ltype.schema, Present(d, st.m, i), a);
    assert FieldOk(f, d.unions) && ShapedSlot(f, st.m, i);
    SeeShaped(d, st, i);
    assert Target(d, st1.m, i) == Sub(Present(d, st.m, i));
    ReadsSub(f, Sub(Present(d, st.m, i)), a, rest);
    if r.Some? {
      StoreShaped(d, st1, i, Sub(r.value));
      assert Store(d, st1, i, Sub(r.value)) == Holding(d, st, i, r.value);
    }
    hide DecodeValue, DecodeMessage, Loop, Step, Store, SchemaOk, Shaped, Key, Prefixed, Present, Target, Holding;
    Occurrence(d, st, i, a, rest, if r.None? then None else Some(Holding(d, st, i, r.value)));
  }

  lemma HoldingTwice(d: Schema, st: LoopState, i: nat, sub: Message, sub': Message)
    requires ShapedState(d, st) && SingleSub(d, i) && ShapedState(d, Holding(d, st, i, sub))
    ensures Present(d, Holding(d, st, i, sub).m, i) == sub
    ensures Holding(d, Holding(d, st, i, sub), i, sub') == Holding(d, st, i, sub')
  {
  }

  /** Two occurrences are one with the bytes of both. */
  lemma SubTwice(d: Schema, st: LoopState, i: nat, a: bytes, b: bytes, rest: bytes)
    requires ShapedState(d, st) && SingleSub(d, i) && |a + b| < TWO_TO_32
    requires var inner := d.fields[i].ltype.schema;
             SchemaOk(inner) && NothingToTrack(inner) && Clean(inner, Begin(Present(d, st.m, i)), a)
    ensures Loop(d, st, SubField(d.fields[i], a) + (SubField(d.fields[i], b) + rest))
         == Loop(d, st, SubField(d.fields[i], a + b) + rest)
  {
    var (f, inner) := (d.fields[i], d.fields[i].ltype.schema);
    hide SchemaOk, Shaped, Loop, Clean, Present, Holding, SubField, NothingToTrack, DecodeMessage;
    MergeLaw(inner, Present(d, st.m, i), a, b);
    var once := DecodeMessage(inner, Present(d, st.m, i), a).value;
    var st1 := Holding(d, st, i, once);
    SubTurn(d, st, i, a, SubField(f, b) + rest);
    SubTurn(d, st, i, a + b, rest);
    HoldingTwice(d, st, i, once, once);
    SubTurn(d, st1, i, b, rest);
    var both := DecodeMessage(inner, once, b);
    if both.Some? {
      HoldingTwice(d, st, i, once, both.value);
    }
  }

  /** Occurrences of a required, optional or proto3 submessage merge, in any struct and between any other
      fields: two of them decode as one with the concatenated bytes does. */
  lemma SubmessagesMerge(d: Schema, m: Message, i: nat, before: bytes, a: bytes, b: bytes, after: bytes)
    requires SchemaOk(d) && Shaped(d, m) && SingleSub(d, i) && Clean(d, Begin(m), before) && |a + b| < TWO_TO_32
    requires Loop(d, Begin(m), before).Some? ==>
               var inner, st := d.fields[i].ltype.schema, Loop(d, Begin(m), before).value;
               SchemaOk(inner) && NothingToTrack(inner) && Clean(inner, Begin(Present(d, st.m, i)), a)
    ensures DecodeMessage(d, m, before + (SubField(d.fields[i], a) + (SubField(d.fields[i], b) + after)))
         == DecodeMessage(d, m, before + (SubField(d.fields[i], a + b) + after))
  {
    var f := d.fields[i];
    LoopAppend(d, Begin(m), before, SubField(f, a) + (SubField(f, b) + after));
    LoopAppend(d, Begin(m), before, SubField(f, a + b) + after);
    SubTwice(d, Loop(d, Begin(m), before).value, i, a, b, after);
    hide Loop, SchemaOk, Shaped, Clean, SubField, NothingToTrack;
  }

  // ----- from the defaults -----

  ghost function FromDefaults(f: Field, a: bytes): Option<Message>
    requires f.ltype.TSubmessage? && SchemaOk(f.ltype.schema)
  {
    Decode(f.ltype.schema, a)
  }

  lemma SubSchemaOk(d: Schema, i: nat)
    requires SchemaOk(d) && i < |d.fields| && d.fields[i].ltype.TSubmessage?
    ensures SchemaOk(d.fields[i].ltype.schema)
  {
    assert FieldOk(d.fields[i], d.unions);
  }

  /** A member of a union: whatever the union held, the same member too, it is decoded from the defaults. */
  lemma UnionMemberFromDefaults(d: Schema, st: LoopState, i: nat, u: nat, a: bytes, rest: bytes)
    requires ShapedState(d, st) && i < |d.fields| && d.fields[i].ltype.TSubmessage? && d.fields[i].rule == Oneof(u)
    requires |a| < TWO_TO_32
    ensures SchemaOk(d.fields[i].ltype.schema) && u < |st.m.unions|
    ensures var r := FromDefaults(d.fields[i], a);
            && (r.None? ==> Loop(d, st, SubField(d.fields[i], a) + rest).None?)
            && (r.Some? ==>
                  var st' := st.(m := st.m.(unions := st.m.unions[u := UnionState(d.fields[i].tag, Sub(r.value))]));
                  ShapedState(d, st') && Loop(d, st, SubField(d.fields[i], a) + rest) == Loop(d, st', rest))
  {
    var f := d.fields[i];
    SubSchemaOk(d, i);
    DefaultsShaped(f.ltype.schema);
    assert FieldOk(f, d.unions) && ShapedSlot(f, st.m, i);
    var r := FromDefaults(f, a);
    assert Target(d, st.m, i) == Sub(Defaults(f.ltype.schema));
    ReadsSub(f, Sub(Defaults(f.ltype.schema)), a, rest);
    if r.Some? {
      StoreShaped(d, st, i, Sub(r.value));
    }
    hide DecodeValue, DecodeMessage, Loop, Step, SchemaOk, Shaped, Key, Prefixed, Target;
    Occurrence(d, st, i, a, rest, if r.None? then None else Some(Store(d, st, i, Sub(r.value))));
  }

  /** An element of an array, into a struct whose array has room and of which k elements have come: it is
      decoded from the defaults, whatever lies in its place, and the other elements stay. */
  lemma ElementFromDefaults(d: Schema, st: LoopState, i: nat, k: nat, a: bytes, rest: bytes)
    requires ShapedState(d, st) && i < |d.fields| && d.fields[i].ltype.TSubmessage? && |a| < TWO_TO_32
    requires st.m.slots[i].Many? && k < ArraySize(d.fields[i].rule)
    requires || (d.fields[i].rule.Repeated? && k == |st.m.slots[i].items|)
             || (d.fields[i].rule.FixedCount? && st.fixed == Some(FixedPos(i, k)))
    ensures SchemaOk(d.fields[i].ltype.schema)
    ensures var r, items := FromDefaults(d.fields[i], a), st.m.slots[i].items;
            && (r.None? ==> Loop(d, st, SubField(d.fields[i], a) + rest).None?)
            && (r.Some? ==>
                  && k <= |items|
                  && var next := items[..k] + [Sub(r.value)] + if k < |items| then items[k + 1..] else [];
                  var st' := StoreItems(d, st, i, next, k + 1);
                  ShapedState(d, st') && Loop(d, st, SubField(d.fields[i], a) + rest) == Loop(d, st', rest))
  {
    SubSchemaOk(d, i);
    hide FromDefaults, Loop, SchemaOk, Shaped, Prefixed, SubField, DecodeField, StoreItems;
    var r := FromDefaults(d.fields[i], a);
    ElementField(d, st, i, k, a, rest);
    if r.None? {
      Occurrence(d, st, i, a, rest, None);
    } else {
      Occurrence(d, st, i, a, rest, Some(WithElement(d, st, i, k, r.value)));
    }
  }

  ghost function WithElement(d: Schema, st: LoopState, i: nat, k: nat, sub: Message): LoopState
    requires i < |d.fields| == |st.m.slots| && st.m.slots[i].Many? && k <= |st.m.slots[i].items|
  {
    var items := st.m.slots[i].items;
    StoreItems(d, st, i, items[..k] + [Sub(sub)] + if k < |items| then items[k + 1..] else [], k + 1)
  }

  lemma ElementField(d: Schema, st: LoopState, i: nat, k: nat, a: bytes, rest: bytes)
    requires ShapedState(d, st) && i < |d.fields| && d.fields[i].ltype.TSubmessage? && |a| < TWO_TO_32
    requires st.m.slots[i].Many? && k < ArraySize(d.fields[i].rule)
    requires || (d.fields[i].rule.Repeated? && k == |st.m.slots[i].items|)
             || (d.fields[i].rule.FixedCount? && st.fixed == Some(FixedPos(i, k)))
    ensures SchemaOk(d.fields[i].ltype.schema) && k <= |st.m.slots[i].items|
    ensures var r := FromDefaults(d.fields[i], a);
            DecodeField(d, st, i, WT_STRING, Prefixed(a) + rest)
            == if r.None? then None else Some(Parsed(WithElement(d, st, i, k, r.value), |Prefixed(a)|))
  {
    var f, items := d.fields[i], st.m.slots[i].items;
    ElementTarget(d, st, i);
    var r := FromDefaults(f, a);
    ReadsSub(f, Sub(Defaults(f.ltype.schema)), a, rest);
    assert ShapedSlot(f, st.m, i);
    hide DecodeValue, DecodeMessage, SchemaOk, Shaped, Prefixed, Target, ShapedValue, ShapedSlot, See, PutItem;
    if r.Some? {
      PutAt(items, k, Sub(r.value));
    }
  }

  lemma ElementTarget(d: Schema, st: LoopState, i: nat)
    requires ShapedState(d, st) && i < |d.fields| && d.fields[i].ltype.TSubmessage?
    requires d.fields[i].rule.Repeated? || d.fields[i].rule.FixedCount?
    ensures var inner := d.fields[i].ltype.schema;
            SchemaOk(inner) && Shaped(inner, Defaults(inner)) && Target(d, st.m, i) == Sub(Defaults(inner))
    ensures See(d, st, i) == st
  {
    SubSchemaOk(d, i);
    DefaultsShaped(d.fields[i].ltype.schema);
    assert FieldOk(d.fields[i], d.unions) && ShapedSlot(d.fields[i], st.m, i);
  }

  lemma PutAt(items: seq<Value>, k: nat, v: Value)
    requires k <= |items|
    ensures PutItem(items, k, v) == items[..k] + [v] + if k < |items| then items[k + 1..] else []
  {
  }
}

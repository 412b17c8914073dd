/** pb_decode_noinit and the decoders it calls, over input streams. */
module PbDecode {
  import opened Wrappers
  import opened Coding
  import opened PbMessages
  import opened PbDecoding
  import opened PbIStream

  // ----- the bitmap of required fields: two 32-bit words -----

  const WORD_BITS: nat := 32
  const ALL_BITS: nat := 0xffff_ffff

  function Pow2(n: nat): (r: nat)
    ensures r >= 1
  {
    if n == 0 then 1 else 2 * Pow2(n - 1)
  }

  predicate Bit(w: nat, k: nat) {
    if k == 0 then w % 2 == 1 else Bit(w / 2, k - 1)
  }

  /** w | (1 << k). */
  function SetBit(w: nat, k: nat): nat {
    if k == 0 then w + 1 - w % 2 else 2 * SetBit(w / 2, k - 1) + w % 2
  }

  /** w >> k. */
  function ShiftRight(w: nat, k: nat): nat {
    if k == 0 then w else ShiftRight(w / 2, k - 1)
  }

  lemma {:induction false} BitOfSetBit(w: nat, k: nat, j: nat)
    ensures Bit(SetBit(w, k), j) <==> Bit(w, j) || j == k
  {
    if k > 0 {
      assert SetBit(w, k) / 2 == SetBit(w / 2, k - 1) && SetBit(w, k) % 2 == w % 2;
      if j > 0 {
        BitOfSetBit(w / 2, k - 1, j - 1);
      }
    } else {
      assert SetBit(w, k) / 2 == w / 2;
    }
  }

  lemma Halves(w: nat, p: nat, x: nat)
    requires w < 2 * p && x < p
    ensures 2 * x + w % 2 < 2 * p && w + 1 - w % 2 < 2 * p && w / 2 < p
  {
  }

  lemma {:induction false} SetBitFits(w: nat, k: nat, n: nat)
    requires w < Pow2(n) && k < n
    ensures SetBit(w, k) < Pow2(n)
  {
    Halves(w, Pow2(n - 1), 0);
    if k > 0 {
      SetBitFits(w / 2, k - 1, n - 1);
      Halves(w, Pow2(n - 1), SetBit(w / 2, k - 1));
    }
  }

  lemma {:induction false} ZeroHasNoBits(k: nat)
    ensures !Bit(0, k)
  {
    if k > 0 {
      ZeroHasNoBits(k - 1);
    }
  }

  /** The first r of the first n bits, and no others, are set. */
  ghost predicate Row(w: nat, r: nat, n: nat) {
    forall k: nat :: k < n ==> (Bit(w, k) <==> k < r)
  }

  function Less(r: nat): nat {
    if r == 0 then 0 else r - 1
  }

  lemma HalfRow(w: nat, r: nat, n: nat)
    requires n > 0
    ensures Row(w, r, n) <==> (w % 2 == 1 <==> r > 0) && Row(w / 2, Less(r), n - 1)
  {
    if Row(w, r, n) {
      assert Bit(w, 0) <==> 0 < r;
      forall k: nat | k < n - 1 ensures Bit(w / 2, k) <==> k < Less(r) {
        assert Bit(w, k + 1) <==> k + 1 < r;
      }
    }
    if (w % 2 == 1 <==> r > 0) && Row(w / 2, Less(r), n - 1) {
      forall k: nat | k < n ensures Bit(w, k) <==> k < r {
        assert k > 0 ==> (Bit(w / 2, k - 1) <==> k - 1 < Less(r));
      }
    }
  }

  /** A word equals 2^r - 1 exactly when its bits are a row of r ones. */
  lemma {:induction false} RowOfOnes(w: nat, r: nat, n: nat)
    requires w < Pow2(n) && r <= n
    ensures w == Pow2(r) - 1 <==> Row(w, r, n)
    decreases n
  {
    if n > 0 {
      HalfRow(w, r, n);
      RowOfOnes(w / 2, Less(r), n - 1);
    }
  }

  lemma {:induction false} ShiftedOnes(n: nat, k: nat)
    requires k <= n
    ensures ShiftRight(Pow2(n) - 1, k) == Pow2(n - k) - 1
  {
    if k > 0 {
      assert (Pow2(n) - 1) / 2 == Pow2(n - 1) - 1;
      ShiftedOnes(n - 1, k - 1);
    }
  }

  ghost predicate SeenIndex(d: Schema, seen: set<nat>, k: nat) {
    exists i :: i in seen && i < |d.fields| && Tracked(d, i) && RequiredIndex(d, i) == k
  }

  /** Bit k of the two words says whether required field number k has been seen. */
  ghost predicate BitsAre(d: Schema, seen: set<nat>, words: seq<nat>) {
    && |words| == 2 && words[0] < Pow2(WORD_BITS) && words[1] < Pow2(WORD_BITS)
    && (forall k: nat :: k < MAX_REQUIRED_FIELDS ==> (WordBit(words, k) <==> SeenIndex(d, seen, k)))
  }

  predicate WordBit(words: seq<nat>, k: nat)
    requires |words| == 2 && k < MAX_REQUIRED_FIELDS
  {
    Bit(words[k / WORD_BITS], k % WORD_BITS)
  }

  lemma NoBits(d: Schema)
    ensures BitsAre(d, {}, [0, 0])
  {
    forall k: nat | k < MAX_REQUIRED_FIELDS ensures !WordBit([0, 0], k) {
      ZeroHasNoBits(k % WORD_BITS);
    }
  }

  lemma {:induction false} IndexGrows(d: Schema, i: nat, j: nat)
    requires i <= j <= |d.fields|
    ensures RequiredIndex(d, i) <= RequiredIndex(d, j)
    ensures i < j && d.fields[i].rule.Required? ==> RequiredIndex(d, i) < RequiredIndex(d, j)
    decreases j
  {
    if i < j {
      IndexGrows(d, i, j - 1);
    }
  }

  lemma {:induction false} FieldOfIndex(d: Schema, n: nat, k: nat) returns (i: nat)
    requires n <= |d.fields| && k < RequiredIndex(d, n)
    ensures i < n && d.fields[i].rule.Required? && RequiredIndex(d, i) == k
  {
    if d.fields[n - 1].rule.Required? && RequiredIndex(d, n - 1) == k {
      i := n - 1;
    } else {
      i := FieldOfIndex(d, n - 1, k);
    }
  }

  /** Setting the bit of a field that has been found. */
  lemma SetBitSees(d: Schema, seen: set<nat>, words: seq<nat>, i: nat)
    requires BitsAre(d, seen, words) && i < |d.fields| && Tracked(d, i)
    ensures var k := RequiredIndex(d, i);
            BitsAre(d, seen + {i}, words[k / WORD_BITS := SetBit(words[k / WORD_BITS], k % WORD_BITS)])
  {
    var k := RequiredIndex(d, i);
    var q := k / WORD_BITS;
    var words' := words[q := SetBit(words[q], k % WORD_BITS)];
    SetBitFits(words[q], k % WORD_BITS, WORD_BITS);
    forall j: nat | j < MAX_REQUIRED_FIELDS ensures WordBit(words', j) <==> SeenIndex(d, seen + {i}, j) {
      BitOfSetBit(words[q], k % WORD_BITS, j % WORD_BITS);
      assert WordBit(words', j) <==> WordBit(words, j) || j == k;
      if SeenIndex(d, seen, j) {
        var f :| f in seen && f < |d.fields| && Tracked(d, f) && RequiredIndex(d, f) == j;
        assert f in seen + {i};
      }
      if j == k {
        assert i in seen + {i};
      }
    }
  }

  function Count(d: Schema): nat {
    var n := RequiredIndex(d, |d.fields|);
    if n > MAX_REQUIRED_FIELDS then MAX_REQUIRED_FIELDS else n
  }

  lemma SeenBelowCount(d: Schema, seen: set<nat>, k: nat)
    requires SeenIndex(d, seen, k)
    ensures k < Count(d)
  {
    var i :| i in seen && i < |d.fields| && Tracked(d, i) && RequiredIndex(d, i) == k;
    IndexGrows(d, i, |d.fields|);
  }

  /** All required fields that are tracked have been seen when all bits below their count are set. */
  lemma RequiredAreBits(d: Schema, seen: set<nat>)
    ensures RequiredSeen(d, seen) <==> forall k: nat :: k < Count(d) ==> SeenIndex(d, seen, k)
  {
    if RequiredSeen(d, seen) {
      forall k: nat | k < Count(d) ensures SeenIndex(d, seen, k) {
        var i := FieldOfIndex(d, |d.fields|, k);
        assert Tracked(d, i);
      }
    }
    if forall k: nat :: k < Count(d) ==> SeenIndex(d, seen, k) {
      forall i | 0 <= i < |d.fields| && Tracked(d, i) ensures i in seen {
        IndexGrows(d, i, |d.fields|);
        assert SeenIndex(d, seen, RequiredIndex(d, i));
        var j :| j in seen && j < |d.fields| && Tracked(d, j) && RequiredIndex(d, j) == RequiredIndex(d, i);
        IndexGrows(d, if i < j then i else j, if i < j then j else i);
      }
    }
  }

  /** The bits of one word, against a row of ones. */
  lemma WordIsRow(d: Schema, seen: set<nat>, words: seq<nat>, q: nat, r: nat)
    requires BitsAre(d, seen, words) && q < 2 && r <= WORD_BITS
    requires r < WORD_BITS ==> Count(d) == q * WORD_BITS + r
    ensures words[q] == Pow2(r) - 1 <==> forall k: nat :: q * WORD_BITS <= k < q * WORD_BITS + r ==>
              SeenIndex(d, seen, k)
  {
    RowOfOnes(words[q], r, WORD_BITS);
    var base := q * WORD_BITS;
    forall k: nat | k < WORD_BITS ensures Bit(words[q], k) <==> SeenIndex(d, seen, base + k) {
      assert WordBit(words, base + k) <==> Bit(words[q], k);
    }
    if Row(words[q], r, WORD_BITS) {
      forall k: nat | base <= k < base + r ensures SeenIndex(d, seen, k) {
        assert Bit(words[q], k - base);
      }
    }
    if forall k: nat :: base <= k < base + r ==> SeenIndex(d, seen, k) {
      forall k: nat | k < WORD_BITS ensures Bit(words[q], k) <==> k < r {
        assert k < r ==> SeenIndex(d, seen, base + k);
        if SeenIndex(d, seen, base + k) {
          SeenBelowCount(d, seen, base + k);
        }
      }
    }
  }

  lemma WholeWord()
    ensures ALL_BITS == Pow2(WORD_BITS) - 1
  {
    assert Pow2(8) == 0x100;
    assert Pow2(16) == 0x100 * Pow2(8);
    assert Pow2(24) == 0x100 * Pow2(16);
    assert Pow2(32) == 0x100 * Pow2(24);
  }

  /** The check at the end of pb_decode_noinit. The count of required fields is what the field iterator
      has when it reaches the last field, with one more if that is required itself. */
  method AllRequiredSeen(d: Schema, words: seq<nat>, ghost seen: set<nat>) returns (ok: bool)
    requires BitsAre(d, seen, words)
    ensures ok <==> RequiredSeen(d, seen)
  {
    hide Bit, WordBit, SeenIndex, BitsAre;
    var n := Count(d);
    RequiredAreBits(d, seen);
    WholeWord();
    for i := 0 to n / WORD_BITS
      invariant forall k: nat :: k < i * WORD_BITS ==> SeenIndex(d, seen, k)
    {
      WordIsRow(d, seen, words, i, WORD_BITS);
      assert |words| == 2 by { BitsLength(d, seen, words); }
      if words[i] != ALL_BITS {
        return false;
      }
    }
    var r := n % WORD_BITS;
    if r != 0 {
      assert |words| == 2 by { BitsLength(d, seen, words); }
      ShiftedOnes(WORD_BITS, WORD_BITS - r);
      WordIsRow(d, seen, words, n / WORD_BITS, r);
      if words[n / WORD_BITS] != ShiftRight(ALL_BITS, WORD_BITS - r) {
        return false;
      }
    }
    return true;
  }

  lemma BitsLength(d: Schema, seen: set<nat>, words: seq<nat>)
    requires BitsAre(d, seen, words)
    ensures |words| == 2
  {
  }

  // ----- decoding -----

  /** The result of a decoder against its specification on the same input. */
  ghost predicate Decoded(d: Schema, spec: Option<Parsed<LoopState>>, before: bytes,
                          r: Option<(Message, Option<FixedPos>)>,
                          seen: set<nat>, after: bytes) {
    if spec.None? then r.None?
    else
      && r.Some? && spec.value.value == LoopState(r.value.0, seen, r.value.1)
      && spec.value.size <= |before| && after == before[spec.value.size..]
  }

  /** The elements of a packed array, while there is room. */
  method DecodeItems(sub: IStream, f: Field, items0: seq<Value>, size0: nat) returns (r: Option<(seq<Value>, nat)>)
    requires sub.Valid() && f.ltype.Packable()
    modifies sub
    ensures sub.Valid() && sub.End() == old(sub.End())
    ensures r == DecodePacked(f, items0, size0, old(sub.Input()))
  {
    hide PbDecoding.DecodeScalar;
    var items, size: nat := items0, size0;
    while sub.bytesLeft > 0 && size < ArraySize(f.rule)
      invariant sub.Valid() && sub.End() == old(sub.End())
      invariant DecodePacked(f, items, size, sub.Input()) == DecodePacked(f, items0, size0, old(sub.Input()))
      decreases sub.bytesLeft
    {
      var v := sub.DecodeScalar(f);
      if v.None? {
        return None;
      }
      items, size := PutItem(items, size, v.value), size + 1;
    }
    if sub.bytesLeft > 0 {
      return None;
    }
    return Some((items, size));
  }

  /** A packed array, in its substream. On overflow the substream is left as it is. */
  method DecodePackedField(stream: IStream, f: Field, items0: seq<Value>, size0: nat)
    returns (r: Option<(seq<Value>, nat)>)
    requires stream.Valid() && f.ltype.Packable()
    modifies stream
    ensures stream.Valid() && stream.End() <= old(stream.End()) && (r.Some? ==> stream.End() == old(stream.End()))
    ensures var sub := ReadString(old(stream.Input()));
            && r == (if sub.None? then None else DecodePacked(f, items0, size0, sub.value.value))
            && (r.Some? ==> stream.Input() == old(stream.Input())[sub.value.size..])
  {
    hide DecodePacked, ReadString;
    ghost var s := stream.Input();
    var sub := stream.MakeSubstream();
    if sub.None? {
      return None;
    }
    ghost var end := sub.value.End();
    r := DecodeItems(sub.value, f, items0, size0);
    if r.Some? {
      stream.CloseSubstream(sub.value, end, s[ReadString(s).value.size..]);
    }
  }

  /** decode_static_field. */
  method DecodeStaticField(stream: IStream, d: Schema, m: Message, fixed: Option<FixedPos>, ghost seen: set<nat>,
                           i: nat, wireType: nat)
    returns (r: Option<(Message, Option<FixedPos>)>)
    requires stream.Valid() && ShapedState(d, LoopState(m, seen, fixed)) && i < |d.fields|
    requires d.fields[i].rule.FixedCount? ==> fixed.Some? && fixed.value.index == i
    modifies stream
    ensures stream.Valid() && stream.End() <= old(stream.End()) && (r.Some? ==> stream.End() == old(stream.End()))
    ensures Decoded(d, DecodeStatic(d, LoopState(m, seen, fixed), i, wireType, old(stream.Input())),
                    old(stream.Input()), r, seen, stream.Input())
    decreases |stream.Input()|, 2
  {
    var f := d.fields[i];
    assert ShapedSlot(f, m, i) && FieldOk(f, d.unions);
    hide SchemaOk, Shaped, ShapedSlot, ShapedValue, DecodeValue, DecodePacked, ReadString, FieldOk;
    var st := LoopState(m, {}, fixed);
    var isArray := f.rule.Repeated? || f.rule.FixedCount?;
    var pos := if isArray then ArrayPos(st, f, m.slots[i].items) else 0;
    if isArray && wireType == WT_STRING && f.ltype.Packable() {
      var got := DecodePackedField(stream, f, m.slots[i].items, pos);
      if got.None? {
        return None;
      }
      var st' := StoreItems(d, st, i, got.value.0, got.value.1);
      return Some((st'.m, st'.fixed));
    }
    if isArray && pos >= ArraySize(f.rule) {
      return None;
    }
    var v := DecodeOne(stream, f, Target(d, m, i));
    if v.None? {
      return None;
    }
    var st' := Store(d, st, i, v.value);
    return Some((st'.m, st'.fixed));
  }

  /** A scalar, or pb_dec_submessage: the target holds the defaults where pb_decode would set them. */
  method DecodeOne(stream: IStream, f: Field, target: Value) returns (v: Option<Value>)
    requires stream.Valid()
    requires f.ltype.TSubmessage? ==> target.Sub? && SchemaOk(f.ltype.schema) && Shaped(f.ltype.schema, target.m)
    modifies stream
    ensures stream.Valid() && stream.End() <= old(stream.End()) && (v.Some? ==> stream.End() == old(stream.End()))
    ensures Consumed(old(stream.Input()), DecodeValue(f, target, old(stream.Input())), v, stream.Input())
    decreases |stream.Input()|, 1
  {
    hide SchemaOk, Shaped, ShapedValue, DecodeMessage, ReadString, PbDecoding.DecodeScalar;
    if !f.ltype.TSubmessage? {
      v := stream.DecodeScalar(f);
      return;
    }
    ghost var s := stream.Input();
    var sub := stream.MakeSubstream();
    if sub.None? {
      return None;
    }
    ghost var end := sub.value.End();
    var m := DecodeNoInit(sub.value, f.ltype.schema, target.m);
    stream.CloseSubstream(sub.value, end, s[ReadString(s).value.size..]);
    return if m.None? then None else Some(Sub(m.value));
  }

  /** pb_decode_tag: a failure is the end of the message when the key is zero. */
  method DecodeTag(stream: IStream) returns (ok: bool, wireType: nat, tag: nat, eof: bool)
    requires stream.Valid()
    modifies stream
    ensures stream.Valid() && stream.End() == old(stream.End())
    ensures var key := PbVarints.DecodeVarint32(old(stream.Input()));
            && (ok <==> key.Some? && key.value.value != 0)
            && (ok ==>
                  && tag == key.value.value / 8 && wireType == key.value.value % 8
                  && stream.Input() == old(stream.Input())[key.value.size..])
            && (!ok ==> (eof <==> old(stream.Input()) == [] || key.Some?))
  {
    hide PbVarints.DecodeVarint32;
    var temp;
    ok, wireType, tag := false, 0, 0;
    temp, eof := stream.DecodeVarint32();
    if temp.None? {
      return;
    }
    if temp.value == 0 {
      eof := true;
      return;
    }
    ok, tag, wireType := true, temp.value / 8, temp.value % 8;
  }

  /** pb_decode_noinit. */
  method DecodeNoInit(stream: IStream, d: Schema, m0: Message) returns (r: Option<Message>)
    requires stream.Valid() && SchemaOk(d) && Shaped(d, m0)
    modifies stream
    ensures stream.Valid() && stream.End() <= old(stream.End()) && (r.Some? ==> stream.End() == old(stream.End()))
    ensures r == DecodeMessage(d, m0, old(stream.Input()))
    decreases |stream.Input()|, 3
  {
    hide Shaped, SchemaOk, Step, BitsAre, RequiredSeen, FindFrom;
    var words, m: Message, fixed: Option<FixedPos> := [0, 0], m0, None;
    NoBits(d);
    ghost var seen: set<nat> := {};
    ghost var all := Loop(d, LoopState(m0, {}, None), stream.Input());
    while stream.bytesLeft > 0
      invariant stream.Valid() && stream.End() == old(stream.End()) && |stream.Input()| <= old(|stream.Input()|)
      invariant ShapedState(d, LoopState(m, seen, fixed)) && BitsAre(d, seen, words)
      invariant Loop(d, LoopState(m, seen, fixed), stream.Input()) == all
      decreases stream.bytesLeft
    {
      ghost var s := stream.Input();
      ghost var st := LoopState(m, seen, fixed);
      var go;
      go, words, m, fixed, seen := DecodeTurn(stream, d, words, m, fixed, seen);
      if go == StopHere {
        break;
      }
      if go == GiveUp {
        return None;
      }
    }
    if fixed.Some? && fixed.value.size != ArraySize(d.fields[fixed.value.index].rule) {
      return None;
    }
    var complete := AllRequiredSeen(d, words, seen);
    if !complete {
      return None;
    }
    return Some(m);
  }

  /** pb_decode: set to defaults, then decode. */
  method Decode(stream: IStream, d: Schema) returns (r: Option<Message>)
    requires stream.Valid() && SchemaOk(d)
    modifies stream
    ensures stream.Valid() && r == PbDecoding.Decode(d, old(stream.Input()))
  {
    hide SchemaOk, Shaped, DecodeMessage;
    DefaultsShaped(d);
    r := DecodeNoInit(stream, d, Defaults(d));
  }

  datatype Go = GoOn | StopHere | GiveUp

  /** One turn of its loop. */
  method DecodeTurn(stream: IStream, d: Schema, words0: seq<nat>, m0: Message, fixed0: Option<FixedPos>,
                    ghost seen0: set<nat>)
    returns (go: Go, words: seq<nat>, m: Message, fixed: Option<FixedPos>, ghost seen: set<nat>)
    requires stream.Valid() && stream.Input() != [] && ShapedState(d, LoopState(m0, seen0, fixed0))
    requires BitsAre(d, seen0, words0)
    modifies stream
    ensures stream.Valid() && stream.End() <= old(stream.End()) && (go != GiveUp ==> stream.End() == old(stream.End()))
    ensures var turn := Step(d, LoopState(m0, seen0, fixed0), old(stream.Input()));
            match go
            case GiveUp => turn.Fail?
            case StopHere => turn.Stop? && (m, fixed, seen, words) == (m0, fixed0, seen0, words0)
            case GoOn =>
              && turn.Next? && turn.st == LoopState(m, seen, fixed) && BitsAre(d, seen, words)
              && stream.Input() == old(stream.Input())[turn.size..]
    decreases |stream.Input()|, 0
  {
    hide SchemaOk, Shaped, DecodeField, BitsAre, FindFrom, PbVarints.DecodeVarint32, PbDecoding.SkipField;
    words, m, fixed, seen := words0, m0, fixed0, seen0;
    ghost var s := stream.Input();
    var ok, wireType, tag, eof := DecodeTag(stream);
    if !ok {
      return if eof then StopHere else GiveUp, words, m, fixed, seen;
    }
    ghost var rest := stream.Input();
    var found := FindFrom(d, tag, 0);
    if found.None? {
      if tag == 0 && d.fields == [] {
        var v, atEnd := stream.DecodeVarint32();
        ok := v.Some?;
      } else {
        ok := stream.SkipField(wireType);
      }
      return if ok then GoOn else GiveUp, words, m, fixed, seen;
    }
    var r;
    words, seen, r := DecodeFound(stream, d, words, m, fixed, seen, found.value, wireType);
    if r.None? {
      return GiveUp, words, m, fixed, seen;
    }
    m, fixed := r.value.0, r.value.1;
    return GoOn, words, m, fixed, seen;
  }

  /** A field that has been found: the fixed-count array in progress, the bitmap, and the data. */
  method DecodeFound(stream: IStream, d: Schema, words0: seq<nat>, m: Message, fixed: Option<FixedPos>,
                     ghost seen0: set<nat>, i: nat, wireType: nat)
    returns (words: seq<nat>, ghost seen: set<nat>, r: Option<(Message, Option<FixedPos>)>)
    requires stream.Valid() && ShapedState(d, LoopState(m, seen0, fixed)) && BitsAre(d, seen0, words0) && i < |d.fields|
    modifies stream
    ensures stream.Valid() && stream.End() <= old(stream.End()) && (r.Some? ==> stream.End() == old(stream.End()))
    ensures BitsAre(d, seen, words)
    ensures Decoded(d, DecodeField(d, LoopState(m, seen0, fixed), i, wireType, old(stream.Input())),
                    old(stream.Input()), r, seen, stream.Input())
    decreases |stream.Input()|, 3
  {
    hide SchemaOk, Shaped, DecodeStatic, BitsAre;
    words, seen := words0, seen0;
    var entered := EnterFixed(d, LoopState(m, {}, fixed), i);
    if entered.None? {
      return words, seen, None;
    }
    if d.fields[i].rule.Required? && RequiredIndex(d, i) < MAX_REQUIRED_FIELDS {
      SetBitSees(d, seen, words, i);
      assert |words| == 2 by { BitsLength(d, seen, words); }
      var k := RequiredIndex(d, i);
      words := words[k / WORD_BITS := SetBit(words[k / WORD_BITS], k % WORD_BITS)];
      seen := seen + {i};
    }
    r := DecodeStaticField(stream, d, m, entered.value.fixed, seen, i, wireType);
  }
}

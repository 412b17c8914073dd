/** WriteBatch of db/write_batch.cc: a 12-byte header (sequence, count) followed by tagged records. */
module WriteBatches {
  import opened Wrappers
  import opened Coding
  import opened DbFormat

  const HEADER: nat := 12
  const TWO_TO_31: nat := 0x8000_0000

  datatype Op = PutOp(key: bytes, value: bytes) | DeleteOp(key: bytes)

  function PutOpBytes(op: Op): bytes {
    match op
    case PutOp(key, value) => [1] + PutLengthPrefixed(key) + PutLengthPrefixed(value)
    case DeleteOp(key) => [0] + PutLengthPrefixed(key)
  }

  function OpsBytes(ops: seq<Op>): bytes {
    if ops == [] then [] else PutOpBytes(ops[0]) + OpsBytes(ops[1..])
  }

  /** The whole representation of a batch. */
  function Contents(sequence: uint64, ops: seq<Op>): (r: bytes)
    ensures |r| >= HEADER
  {
    Fixed64(sequence) + Fixed32(|ops| % TWO_TO_32) + OpsBytes(ops)
  }

  predicate Encodable(op: Op) {
    |op.key| < TWO_TO_32 && (op.PutOp? ==> |op.value| < TWO_TO_32)
  }

  function Sequence(rep: bytes): uint64
    requires |rep| >= HEADER
  {
    DecodeFixed64(rep[..8])
  }

  /** The stored count is a 32-bit word read into a signed int. */
  function Count(rep: bytes): int
    requires |rep| >= HEADER
  {
    var word: int := DecodeFixed32(rep[8..12]);
    if word < TWO_TO_31 then word else word - TWO_TO_32
  }

  // ----- parsing, on any bytes -----

  /** The operation at the front of a non-empty input, and its size; None when it is malformed. */
  function ParseOp(input: bytes): (r: Option<Parsed<Op>>)
    requires input != []
    ensures r.Some? ==> 0 < r.value.size <= |input|
  {
    var rest := input[1..];
    if input[0] == 1 then
      match GetLengthPrefixed(rest)
      case None => None
      case Some(key) =>
        match GetLengthPrefixed(rest[key.size..])
        case None => None
        case Some(value) => Some(Parsed(PutOp(key.value, value.value), 1 + key.size + value.size))
    else if input[0] == 0 then
      match GetLengthPrefixed(rest)
      case None => None
      case Some(key) => Some(Parsed(DeleteOp(key.value), 1 + key.size))
    else None
  }

  /** All operations up to the first malformed one, and whether the input was used up. */
  function ParseOps(input: bytes): (seq<Op>, bool)
    decreases |input|
  {
    if input == [] then ([], true)
    else
      match ParseOp(input)
      case None => ([], false)
      case Some(op) =>
        var (more, whole) := ParseOps(input[op.size..]);
        ([op.value] + more, whole)
  }

  lemma OpRoundTrip(op: Op, rest: bytes)
    requires Encodable(op)
    ensures PutOpBytes(op) != []
    ensures ParseOp(PutOpBytes(op) + rest) == Some(Parsed(op, |PutOpBytes(op)|))
  {
    hide PutLengthPrefixed, GetLengthPrefixed;
    var input := PutOpBytes(op) + rest;
    match op
    case PutOp(key, value) =>
      var tail := PutLengthPrefixed(value) + rest;
      assert input[1..] == PutLengthPrefixed(key) + tail;
      LengthPrefixedRoundTrip(key, tail);
      assert input[1..][|PutLengthPrefixed(key)|..] == tail;
      LengthPrefixedRoundTrip(value, rest);
    case DeleteOp(key) =>
      assert input[1..] == PutLengthPrefixed(key) + rest;
      LengthPrefixedRoundTrip(key, rest);
  }

  lemma {:induction false} OpsRoundTrip(ops: seq<Op>)
    requires forall op :: op in ops ==> Encodable(op)
    ensures ParseOps(OpsBytes(ops)) == (ops, true)
  {
    if ops != [] {
      hide PutOpBytes, ParseOp;
      var (first, rest) := (PutOpBytes(ops[0]), OpsBytes(ops[1..]));
      OpRoundTrip(ops[0], rest);
      assert (first + rest)[|first|..] == rest;
      OpsRoundTrip(ops[1..]);
      assert [ops[0]] + ops[1..] == ops;
    }
  }

  lemma {:induction false} OpsBytesAppend(a: seq<Op>, b: seq<Op>)
    ensures OpsBytes(a + b) == OpsBytes(a) + OpsBytes(b)
  {
    if a == [] {
      assert a + b == b;
    } else {
      assert (a + b)[0] == a[0] && (a + b)[1..] == a[1..] + b;
      OpsBytesAppend(a[1..], b);
    }
  }

  lemma OneOp(op: Op)
    ensures OpsBytes([op]) == PutOpBytes(op)
  {
    assert OpsBytes([op]) == PutOpBytes(op) + OpsBytes([op][1..]);
  }

  lemma ContentsSlices(sequence: uint64, ops: seq<Op>)
    ensures var rep := Contents(sequence, ops);
            && rep[..8] == Fixed64(sequence) && rep[8..12] == Fixed32(|ops| % TWO_TO_32)
            && rep[8..] == Fixed32(|ops| % TWO_TO_32) + OpsBytes(ops) && rep[HEADER..] == OpsBytes(ops)
  {
    hide Fixed64, Fixed32, OpsBytes;
  }

  /** Reading the header and the body back. */
  lemma ContentsParts(sequence: uint64, ops: seq<Op>)
    requires |ops| < TWO_TO_31
    ensures var rep := Contents(sequence, ops);
            Sequence(rep) == sequence && Count(rep) == |ops| && rep[HEADER..] == OpsBytes(ops)
  {
    hide Fixed64, Fixed32, OpsBytes, DecodeFixed64, DecodeFixed32, Contents;
    ContentsSlices(sequence, ops);
    SmallMod(|ops|, TWO_TO_32);
    Fixed64RoundTrip(sequence);
    Fixed32RoundTrip(|ops|);
  }

  datatype Status = Ok | Corruption

  // ----- the batch -----

  class WriteBatch {
    var rep: bytes
    ghost var sequence: uint64
    ghost var ops: seq<Op>  // the operations put in so far

    ghost predicate Valid()
      reads this
    {
      rep == Contents(sequence, ops)
    }

    constructor ()
      ensures Valid() && sequence == 0 && ops == []
    {
      rep := Zeros12();
      sequence, ops := 0, [];
      new;
      assert Fixed64(0) + Fixed32(0) == Zeros12();
    }

    static function Zeros12(): bytes {
      [0, 0, 0, 0, 0, 0, 0, 0, 0, 0, 0, 0]
    }

    method SetCount(n: int)
      requires |rep| >= HEADER
      modifies this`rep
      ensures rep == old(rep[..8]) + Fixed32(n % TWO_TO_32) + old(rep[12..])
    {
      rep := rep[..8] + Fixed32(n % TWO_TO_32) + rep[12..];
    }

    method SetSequence(n: uint64)
      requires Valid()
      modifies this
      ensures Valid() && sequence == n && ops == old(ops)
    {
      ContentsSlices(sequence, ops);
      ContentsAssociate(n, ops);
      rep := Fixed64(n) + rep[8..];
      sequence := n;
    }

    /** Raising the count by n and appending the body of n operations. */
    method AppendBody(n: nat, body: bytes, ghost more: seq<Op>)
      requires Valid() && |more| == n && body == OpsBytes(more)
      modifies this
      ensures Valid() && sequence == old(sequence) && ops == old(ops) + more
    {
      hide Fixed64, Fixed32, OpsBytes, DecodeFixed32;
      WordCount(sequence, ops, n);
      ContentsSlices(sequence, ops);
      SetCount(Count(rep) + n);
      rep := rep + body;
      OpsBytesAppend(ops, more);
      Associate(Fixed64(sequence) + Fixed32((|ops| + n) % TWO_TO_32), OpsBytes(ops), body);
      ops := ops + more;
    }

    method Put(key: bytes, value: bytes)
      requires Valid()
      modifies this
      ensures Valid() && sequence == old(sequence) && ops == old(ops) + [PutOp(key, value)]
    {
      OneOp(PutOp(key, value));
      AppendBody(1, [1] + PutLengthPrefixed(key) + PutLengthPrefixed(value), [PutOp(key, value)]);
    }

    method Delete(key: bytes)
      requires Valid()
      modifies this
      ensures Valid() && sequence == old(sequence) && ops == old(ops) + [DeleteOp(key)]
    {
      OneOp(DeleteOp(key));
      AppendBody(1, [0] + PutLengthPrefixed(key), [DeleteOp(key)]);
    }

    method Append(source: WriteBatch)
      requires Valid() && source.Valid() && |source.ops| < TWO_TO_31
      modifies this
      ensures Valid() && sequence == old(sequence) && ops == old(ops) + old(source.ops)
    {
      ContentsParts(source.sequence, source.ops);
      AppendBody(Count(source.rep), source.rep[HEADER..], source.ops);
    }
  }

  /** Adding to the signed count and storing the low word is counting modulo 2^32. */
  lemma WordCount(sequence: uint64, ops: seq<Op>, n: nat)
    ensures (Count(Contents(sequence, ops)) + n) % TWO_TO_32 == (|ops| + n) % TWO_TO_32
  {
    hide Fixed64, Fixed32, OpsBytes, DecodeFixed32;
    ContentsSlices(sequence, ops);
    Fixed32RoundTrip(|ops| % TWO_TO_32);
  }

  lemma Associate(a: bytes, b: bytes, c: bytes)
    ensures a + b + c == a + (b + c)
  {
  }

  lemma ContentsAssociate(sequence: uint64, ops: seq<Op>)
    ensures Fixed64(sequence) + (Fixed32(|ops| % TWO_TO_32) + OpsBytes(ops)) == Contents(sequence, ops)
  {
    hide Fixed64, Fixed32, OpsBytes;
  }

  /** Iterate: the handler calls made, in order, and the status. */
  method Iterate(rep: bytes) returns (status: Status, called: seq<Op>)
    ensures |rep| < HEADER ==> status == Corruption && called == []
    ensures |rep| >= HEADER ==>
              var (ops, whole) := ParseOps(rep[HEADER..]);
              called == ops && (status == Ok <==> whole && |ops| == Count(rep))
  {
    called := [];
    if |rep| < HEADER {
      return Corruption, [];
    }
    var input := rep[HEADER..];
    var found := 0;
    ghost var (ops, whole) := ParseOps(input);
    while input != []
      invariant found == |called|
      invariant called + ParseOps(input).0 == ops && ParseOps(input).1 == whole
      decreases |input|
    {
      found := found + 1;
      var op := ParseOp(input);
      if op.None? {
        assert called + [] == called;
        return Corruption, called;
      }
      assert called + ([op.value.value] + ParseOps(input[op.value.size..]).0)
          == called + [op.value.value] + ParseOps(input[op.value.size..]).0;
      called := called + [op.value.value];
      input := input[op.value.size..];
    }
    status := if found != Count(rep) then Corruption else Ok;
  }

  /** Iterate replays exactly the operations of a batch, in order, with a matching count. */
  lemma IterateReplays(sequence: uint64, ops: seq<Op>)
    requires |ops| < TWO_TO_31 && forall op :: op in ops ==> Encodable(op)
    ensures ParseOps(Contents(sequence, ops)[HEADER..]) == (ops, true)
    ensures Count(Contents(sequence, ops)) == |ops| && Sequence(Contents(sequence, ops)) == sequence
  {
    ContentsParts(sequence, ops);
    OpsRoundTrip(ops);
  }

  // ----- insertion into a memtable -----

  /** MemTableInserter: the Add calls for operations numbered from 'sequence' on. */
  function Adds(sequence: nat, ops: seq<Op>): (entries: seq<Entry>)
    ensures |entries| == |ops|
    ensures forall i :: 0 <= i < |ops| ==> entries[i] == AddOf(sequence + i, ops[i])
  {
    if ops == [] then []
    else Adds(sequence, ops[..|ops| - 1]) + [AddOf(sequence + |ops| - 1, ops[|ops| - 1])]
  }

  function AddOf(sequence: nat, op: Op): Entry {
    match op
    case PutOp(key, value) => Entry(Rank(key), sequence, TypeValue, value)
    case DeleteOp(key) => Entry(Rank(key), sequence, TypeDeletion, [])
  }

  method InsertInto(rep: bytes) returns (status: Status, added: seq<Entry>)
    requires |rep| >= HEADER
    ensures var (ops, whole) := ParseOps(rep[HEADER..]);
            added == Adds(Sequence(rep), ops) && (status == Ok <==> whole && |ops| == Count(rep))
  {
    var called;
    status, called := Iterate(rep);
    hide ParseOps, Sequence, Count;
    var sequence: nat := Sequence(rep);
    added := [];
    for i := 0 to |called|
      invariant sequence == Sequence(rep) + i && added == Adds(Sequence(rep), called[..i])
    {
      added := added + [AddOf(sequence, called[i])];
      sequence := sequence + 1;
      assert called[..i + 1][..i] == called[..i];
    }
    assert called[..|called|] == called;
  }
}

/** What the log reader makes of anything the log writer wrote, whole or cut off at any byte. */
module LogRoundTrip {
  import opened Wrappers
  import opened Coding
  import opened LogFormat
  import opened LogReader
  import opened LogWriter

  /** The reader has consumed p bytes: the buffer is the unread end of the last block read, and 'eof' is
      known once a read was short. */
  ghost predicate At(file: bytes, st: State, p: nat) {
    && st.end <= |file| && p + |st.buffer| == st.end && st.buffer == file[p..st.end]
    && (st.eof ==> st.end == |file| && |st.buffer| <= st.end % BLOCK_SIZE)
    && (!st.eof ==> st.end % BLOCK_SIZE == 0 && |st.buffer| <= BLOCK_SIZE)
  }

  lemma AtInFile(file: bytes, st: State, p: nat)
    requires At(file, st, p)
    ensures st.end <= |file| && p <= |file|
  {
  }

  /** After the buffer is filled, either less than a header is left in the file, or the buffer starts at
      the next physical record and reaches to the end of its block or of the file. */
  lemma FilledAt(file: bytes, st: State, p: nat)
    requires At(file, st, p)
    ensures var f, q := Filled(file, st), p + Padding(p);
            && f.end <= |file| && f.drops == st.drops
            && (|f.buffer| < HEADER_SIZE ==> |file| < q + HEADER_SIZE)
            && (|f.buffer| >= HEADER_SIZE ==>
                  At(file, f, q) && f.end == if f.eof then |file| else q - q % BLOCK_SIZE + BLOCK_SIZE)
  {
    BlockOf(p, st.end);
  }

  lemma BlockOf(p: nat, end: nat)
    requires p <= end
    ensures end - p <= end % BLOCK_SIZE ==> p % BLOCK_SIZE + (end - p) == end % BLOCK_SIZE
    ensures end % BLOCK_SIZE == 0 && 0 < end - p <= BLOCK_SIZE ==>
              p % BLOCK_SIZE == if end - p == BLOCK_SIZE then 0 else BLOCK_SIZE - (end - p)
  {
  }

  // ----- one physical record -----

  /** From p on, the file is as much of these bytes as there is room for. */
  ghost predicate Holds(file: bytes, p: nat, content: bytes) {
    p <= |file| ==> file[p..] <= content || content <= file[p..]
  }

  lemma HoldsParts(file: bytes, p: nat, a: bytes, b: bytes)
    requires Holds(file, p, a + b)
    ensures Holds(file, p, a) && Holds(file, p + |a|, b)
  {
    if p <= |file| {
      var tail := file[p..];
      if tail <= a + b {
        assert tail == (a + b)[..|tail|];
        if |tail| >= |a| {
          assert tail[|a|..] == b[..|tail| - |a|];
          assert file[p + |a|..] == tail[|a|..];
        } else {
          assert tail == a[..|tail|];
        }
      } else {
        assert tail[..|a + b|] == a + b;
        assert tail[..|a|] == a && tail[|a|..][..|b|] == b;
        assert file[p + |a|..] == tail[|a|..];
      }
    }
  }

  /** What is held and fits is there; what is held and does not fit is a prefix. */
  lemma HoldsWithin(file: bytes, p: nat, content: bytes, end: nat)
    requires Holds(file, p, content) && p <= end <= |file|
    ensures p + |content| <= end ==> content <= file[p..end]
    ensures |file| == end <= p + |content| ==> file[p..end] <= content
  {
    var tail := file[p..];
    assert file[p..end] == tail[..end - p];
    if p + |content| <= end {
      assert |tail| >= |content|;
      assert tail[..|content|] == content;
      assert file[p..end][..|content|] == tail[..|content|];
    }
  }

  lemma TakeWhole(crc: Crc, st: State, t: byte, payload: bytes)
    requires |payload| <= 0xffff && t > 0 && Physical(crc, t, payload) <= st.buffer
    ensures TakeRecord(crc, st) == PhysicalRead(t, payload, st.(buffer := st.buffer[HEADER_SIZE + |payload|..]))
  {
    hide Physical, Unmask, DecodeFixed32;
    var b, r := st.buffer, Physical(crc, t, payload);
    PhysicalParts(crc, t, payload);
    assert b[..|r|] == r;
    assert b[..4] == r[..4] && b[HEADER_SIZE..HEADER_SIZE + |payload|] == r[HEADER_SIZE..];
    assert b[6..HEADER_SIZE + |payload|] == [r[6]] + r[HEADER_SIZE..];
  }

  lemma TakeCut(crc: Crc, st: State, t: byte, payload: bytes)
    requires |payload| <= 0xffff && st.eof
    requires HEADER_SIZE <= |st.buffer| < HEADER_SIZE + |payload| && st.buffer <= Physical(crc, t, payload)
    ensures TakeRecord(crc, st) == PhysicalRead(EOF_CODE, [], st.(buffer := []))
  {
    hide Physical, Unmask, DecodeFixed32;
    PhysicalParts(crc, t, payload);
    assert st.buffer[4] == Physical(crc, t, payload)[4] && st.buffer[5] == Physical(crc, t, payload)[5];
  }

  /** A physical record of this size keeps within its block at q. */
  predicate Fits(q: nat, size: nat) {
    q % BLOCK_SIZE + HEADER_SIZE + size <= BLOCK_SIZE
  }

  lemma ReadWhole(crc: Crc, file: bytes, st: State, p: nat, q: nat, t: byte, payload: bytes)
    requires At(file, st, p) && q == p + Padding(p) && t > 0
    requires Fits(q, |payload|) && Holds(file, q, Physical(crc, t, payload))
    requires q + HEADER_SIZE + |payload| <= |file|
    ensures var r := ReadPhysical(crc, file, st);
            && r.code == t as nat && r.fragment == payload && r.st.drops == st.drops
            && At(file, r.st, q + HEADER_SIZE + |payload|)
  {
    hide Physical, TakeRecord, Padding, Holds;
    var f, n := Filled(file, st), HEADER_SIZE + |payload|;
    FilledAt(file, st, p);
    HoldsWithin(file, q, Physical(crc, t, payload), f.end);
    TakeWhole(crc, f, t, payload);
    assert f.buffer[n..] == file[q + n..f.end];
  }

  lemma ReadCut(crc: Crc, file: bytes, st: State, p: nat, q: nat, t: byte, payload: bytes)
    requires At(file, st, p) && q == p + Padding(p)
    requires Fits(q, |payload|) && Holds(file, q, Physical(crc, t, payload))
    requires |file| < q + HEADER_SIZE + |payload|
    ensures ReadPhysical(crc, file, st).code == EOF_CODE && ReadPhysical(crc, file, st).st.drops == st.drops
  {
    hide Physical, TakeRecord, Padding, Holds;
    var f := Filled(file, st);
    FilledAt(file, st, p);
    if |f.buffer| >= HEADER_SIZE {
      HoldsWithin(file, q, Physical(crc, t, payload), f.end);
      TakeCut(crc, f, t, payload);
    }
  }

  // ----- one logical record -----

  /** The part of the file behind the padding holds the fragment's physical record. */
  lemma FragmentAt(crc: Crc, file: bytes, p: nat, begin: bool, data: bytes, rest: bytes)
    requires Holds(file, p, Fragment(crc, p, begin, data) + rest)
    ensures var n := FragmentLength(p, data);
            && Fits(p + Padding(p), n)
            && Holds(file, p + Padding(p), Physical(crc, FragmentType(begin, n == |data|), data[..n]))
    ensures Holds(file, AfterFragment(p, data), rest)
  {
    hide Physical, Holds;
    var n := FragmentLength(p, data);
    HoldsParts(file, p, Fragment(crc, p, begin, data), rest);
    HoldsParts(file, p, Zeros(Padding(p)), Physical(crc, FragmentType(begin, n == |data|), data[..n]));
  }

  lemma FragmentsUnfold(crc: Crc, p: nat, begin: bool, data: bytes)
    ensures var n := FragmentLength(p, data);
            && |Fragment(crc, p, begin, data)| == AfterFragment(p, data) - p
            && (n == |data| ==> Fragments(crc, p, begin, data) == Fragment(crc, p, begin, data) + [])
            && (n < |data| ==>
                  && Fragments(crc, p, begin, data)
                     == Fragment(crc, p, begin, data) + Fragments(crc, AfterFragment(p, data), false, data[n..])
                  && (n == 0 ==> Avail(p) == 0 && Avail(AfterFragment(p, data)) > 0))
  {
    if FragmentLength(p, data) < |data| {
      Progress(p, data);
    }
  }

  lemma NextPhysical(crc: Crc, file: bytes, p: nat, begin: bool, data: bytes)
    requires Holds(file, p, Fragments(crc, p, begin, data))
    ensures var n := FragmentLength(p, data);
            && Fits(p + Padding(p), n) && AfterFragment(p, data) == p + Padding(p) + HEADER_SIZE + n
            && Holds(file, p + Padding(p), Physical(crc, FragmentType(begin, n == |data|), data[..n]))
            && FragmentType(begin, n == |data|) > 0
            && (n < |data| ==>
                  Holds(file, AfterFragment(p, data), Fragments(crc, AfterFragment(p, data), false, data[n..])))
  {
    hide Fragments, Fragment, Padding, Avail, Holds, Fits, Physical;
    FragmentsUnfold(crc, p, begin, data);
    var n := FragmentLength(p, data);
    FragmentAt(crc, file, p, begin, data,
               if n == |data| then [] else Fragments(crc, AfterFragment(p, data), false, data[n..]));
  }

  /** One physical record of a record being read. */
  lemma LogicalEnd(crc: Crc, file: bytes, st: State, begin: bool, payload: bytes, scratch: bytes)
    requires st.end <= |file| && (begin ==> scratch == [])
    requires ReadPhysical(crc, file, st).code == FragmentType(begin, true) as nat
    requires ReadPhysical(crc, file, st).fragment == payload
    ensures ReadLogical(crc, file, st, scratch, !begin) == (Some(scratch + payload), ReadPhysical(crc, file, st).st)
  {
    hide ReadPhysical;
    assert begin ==> scratch + payload == payload;
  }

  lemma LogicalGoesOn(crc: Crc, file: bytes, st: State, begin: bool, payload: bytes, scratch: bytes)
    requires st.end <= |file| && (begin ==> scratch == [])
    requires ReadPhysical(crc, file, st).code == FragmentType(begin, false) as nat
    requires ReadPhysical(crc, file, st).fragment == payload
    ensures ReadLogical(crc, file, st, scratch, !begin)
         == ReadLogical(crc, file, ReadPhysical(crc, file, st).st, scratch + payload, true)
  {
    hide ReadPhysical;
    assert begin ==> scratch + payload == payload;
  }

  lemma PhysicalOfFragment(crc: Crc, file: bytes, st: State, p: nat, begin: bool, data: bytes)
    requires At(file, st, p) && Holds(file, p, Fragments(crc, p, begin, data))
    requires AfterFragment(p, data) <= |file|
    ensures st.end <= |file|
    ensures ReadPhysical(crc, file, st).code == FragmentType(begin, FragmentLength(p, data) == |data|) as nat
    ensures ReadPhysical(crc, file, st).fragment == data[..FragmentLength(p, data)]
    ensures At(file, ReadPhysical(crc, file, st).st, AfterFragment(p, data))
    ensures ReadPhysical(crc, file, st).st.drops == st.drops
  {
    hide *;
    AtInFile(file, st, p);
    var n, q, after := FragmentLength(p, data), p + Padding(p), AfterFragment(p, data);
    var t, payload := FragmentType(begin, n == |data|), data[..n];
    NextPhysical(crc, file, p, begin, data);
    assert |payload| == n && after == q + HEADER_SIZE + |payload|;
    ReadWhole(crc, file, st, p, q, t, payload);
  }

  /** The next fragment of a record is in the file as a whole. */
  lemma ReadFragment(crc: Crc, file: bytes, st: State, p: nat, begin: bool, data: bytes, scratch: bytes)
    returns (st': State)
    requires At(file, st, p) && Holds(file, p, Fragments(crc, p, begin, data))
    requires AfterFragment(p, data) <= |file| && (begin ==> scratch == [])
    ensures st.end <= |file| && st'.end <= |file|
    ensures At(file, st', AfterFragment(p, data)) && st'.drops == st.drops
    ensures var n := FragmentLength(p, data);
            && (n == |data| ==> ReadLogical(crc, file, st, scratch, !begin) == (Some(scratch + data), st'))
            && (n < |data| ==>
                  && ReadLogical(crc, file, st, scratch, !begin)
                     == ReadLogical(crc, file, st', scratch + data[..n], true)
                  && Holds(file, AfterFragment(p, data), Fragments(crc, AfterFragment(p, data), false, data[n..])))
  {
    hide *;
    PhysicalOfFragment(crc, file, st, p, begin, data);
    var n := FragmentLength(p, data);
    st' := ReadPhysical(crc, file, st).st;
    if n == |data| {
      assert data[..n] == data;
      LogicalEnd(crc, file, st, begin, data, scratch);
    } else {
      NextPhysical(crc, file, p, begin, data);
      LogicalGoesOn(crc, file, st, begin, data[..n], scratch);
    }
  }

  /** The next fragment of a record is cut off. */
  lemma ReadFragmentCut(crc: Crc, file: bytes, st: State, p: nat, begin: bool, data: bytes, scratch: bytes)
    requires At(file, st, p) && Holds(file, p, Fragments(crc, p, begin, data))
    requires |file| < AfterFragment(p, data)
    ensures st.end <= |file|
    ensures var (record, last) := ReadLogical(crc, file, st, scratch, !begin);
            record == None && last.drops == st.drops
  {
    PhysicalOfFragmentCut(crc, file, st, p, begin, data);
    hide ReadPhysical;
  }

  lemma PhysicalOfFragmentCut(crc: Crc, file: bytes, st: State, p: nat, begin: bool, data: bytes)
    requires At(file, st, p) && Holds(file, p, Fragments(crc, p, begin, data))
    requires |file| < AfterFragment(p, data)
    ensures st.end <= |file|
    ensures ReadPhysical(crc, file, st).code == EOF_CODE && ReadPhysical(crc, file, st).st.drops == st.drops
  {
    hide *;
    AtInFile(file, st, p);
    var n := FragmentLength(p, data);
    NextPhysical(crc, file, p, begin, data);
    ReadCut(crc, file, st, p, p + Padding(p), FragmentType(begin, n == |data|), data[..n]);
  }

  lemma FragmentsSize(crc: Crc, p: nat, begin: bool, data: bytes)
    ensures var n := FragmentLength(p, data);
            && (n == |data| ==> p + |Fragments(crc, p, begin, data)| == AfterFragment(p, data))
            && (n < |data| ==>
                  && p + |Fragments(crc, p, begin, data)|
                     == AfterFragment(p, data) + |Fragments(crc, AfterFragment(p, data), false, data[n..])|
                  && (n == 0 ==> Avail(p) == 0 && Avail(AfterFragment(p, data)) > 0))
  {
    FragmentsUnfold(crc, p, begin, data);
  }

  /** A record whose fragments are all in the file comes back whole, with no corruption reported. */
  lemma {:induction false} ReadFragments(crc: Crc, file: bytes, st: State, p: nat, begin: bool, data: bytes,
                                         scratch: bytes)
    requires At(file, st, p) && Holds(file, p, Fragments(crc, p, begin, data))
    requires p + |Fragments(crc, p, begin, data)| <= |file| && (begin ==> scratch == [])
    ensures st.end <= |file|
    ensures var (record, last) := ReadLogical(crc, file, st, scratch, !begin);
            && record == Some(scratch + data) && last.drops == st.drops
            && At(file, last, p + |Fragments(crc, p, begin, data)|)
    decreases |data|, Avail(p) == 0
  {
    hide ReadLogical, Fragments, Padding, Avail, Holds, At;
    FragmentsSize(crc, p, begin, data);
    var st' := ReadFragment(crc, file, st, p, begin, data, scratch);
    var n := FragmentLength(p, data);
    if n < |data| {
      ReadFragments(crc, file, st', AfterFragment(p, data), false, data[n..], scratch + data[..n]);
      assert scratch + data[..n] + data[n..] == scratch + data;
    }
  }

  /** A record that is cut off anywhere is dropped at the end of the file, again with no report. */
  lemma {:induction false} ReadFragmentsCut(crc: Crc, file: bytes, st: State, p: nat, begin: bool, data: bytes,
                                            scratch: bytes)
    requires At(file, st, p) && Holds(file, p, Fragments(crc, p, begin, data))
    requires |file| < p + |Fragments(crc, p, begin, data)| && (begin ==> scratch == [])
    ensures st.end <= |file|
    ensures var (record, last) := ReadLogical(crc, file, st, scratch, !begin);
            record == None && last.drops == st.drops
    decreases |data|, Avail(p) == 0
  {
    hide ReadLogical, Fragments, Padding, Avail, Holds, At;
    if |file| < AfterFragment(p, data) {
      ReadFragmentCut(crc, file, st, p, begin, data, scratch);
    } else {
      FragmentsSize(crc, p, begin, data);
      var st' := ReadFragment(crc, file, st, p, begin, data, scratch);
      var n := FragmentLength(p, data);
      ReadFragmentsCut(crc, file, st', AfterFragment(p, data), false, data[n..], scratch + data[..n]);
    }
  }

  // ----- the whole log -----

  lemma ReadAtEnd(crc: Crc, file: bytes, st: State, p: nat)
    requires At(file, st, p) && p == |file|
    ensures st.end <= |file|
    ensures ReadAll(crc, file, st).0 == [] && ReadAll(crc, file, st).1.drops == st.drops
  {
    FilledAt(file, st, p);
    hide TakeRecord;
    assert ReadPhysical(crc, file, st).code == EOF_CODE;
  }

  /** How many of the records laid out from p on end at or before n. */
  function Whole(crc: Crc, p: nat, records: seq<bytes>, n: nat): (k: nat)
    ensures k <= |records|
    decreases |records|
  {
    if records == [] then 0
    else
      var next := p + |PutRecord(crc)(p, records[0])|;
      if next > n then 0 else 1 + Whole(crc, next, records[1..], n)
  }

  /** Record number k is whole in the first n bytes exactly when its last byte is among them. */
  lemma {:induction false} WholeMeans(crc: Crc, p: nat, records: seq<bytes>, n: nat, i: nat)
    requires i < |records| && p <= n
    ensures i < Whole(crc, p, records, n) <==> p + |Layout(PutRecord(crc), p, records[..i + 1])| <= n
    decreases |records|
  {
    hide PutRecord;
    var first := PutRecord(crc)(p, records[0]);
    var next := p + |first|;
    assert records[..i + 1][0] == records[0] && records[..i + 1][1..] == records[1..][..i];
    if next <= n && i > 0 {
      WholeMeans(crc, next, records[1..], n, i - 1);
    }
  }

  lemma ReadAllUnfold(crc: Crc, file: bytes, st: State, record: Option<bytes>, st': State)
    requires st.end <= |file| && ReadLogical(crc, file, st, [], false) == (record, st')
    ensures st'.end <= |file|
    ensures record.None? ==> ReadAll(crc, file, st) == ([], st')
    ensures record.Some? ==>
              ReadAll(crc, file, st) == ([record.value] + ReadAll(crc, file, st').0, ReadAll(crc, file, st').1)
  {
    hide ReadLogical;
  }

  lemma LayoutParts(crc: Crc, file: bytes, p: nat, records: seq<bytes>)
    requires Holds(file, p, Layout(PutRecord(crc), p, records)) && records != []
    ensures var next := p + |PutRecord(crc)(p, records[0])|;
            && Holds(file, p, PutRecord(crc)(p, records[0]))
            && Holds(file, next, Layout(PutRecord(crc), next, records[1..]))
  {
    hide Holds, PutRecord;
    var first := PutRecord(crc)(p, records[0]);
    HoldsParts(file, p, first, Layout(PutRecord(crc), p + |first|, records[1..]));
  }

  lemma PutRecordIs(crc: Crc, p: nat, record: bytes)
    ensures PutRecord(crc)(p, record) == Fragments(crc, p, true, record)
  {
  }

  /** The first record of a layout is cut off. */
  lemma ReadFirstCut(crc: Crc, file: bytes, st: State, p: nat, records: seq<bytes>)
    requires At(file, st, p) && Holds(file, p, Layout(PutRecord(crc), p, records)) && records != []
    requires |file| < p + |PutRecord(crc)(p, records[0])|
    ensures st.end <= |file|
    ensures ReadAll(crc, file, st).0 == [] && ReadAll(crc, file, st).1.drops == st.drops
  {
    hide *;
    AtInFile(file, st, p);
    LayoutParts(crc, file, p, records);
    PutRecordIs(crc, p, records[0]);
    ReadFragmentsCut(crc, file, st, p, true, records[0], []);
    ReadAllUnfold(crc, file, st, None, ReadLogical(crc, file, st, [], false).1);
  }

  lemma ReadRecordWhole(crc: Crc, file: bytes, st: State, p: nat, record: bytes) returns (st': State)
    requires At(file, st, p) && Holds(file, p, Fragments(crc, p, true, record))
    requires p + |Fragments(crc, p, true, record)| <= |file|
    ensures st.end <= |file| && ReadLogical(crc, file, st, [], false) == (Some(record), st')
    ensures st'.drops == st.drops && At(file, st', p + |Fragments(crc, p, true, record)|)
  {
    hide *;
    AtInFile(file, st, p);
    ReadFragments(crc, file, st, p, true, record, []);
    assert [] + record == record;
    st' := ReadLogical(crc, file, st, [], false).1;
  }

  /** The first record of a layout is whole. */
  lemma ReadFirst(crc: Crc, file: bytes, st: State, p: nat, records: seq<bytes>) returns (st': State)
    requires At(file, st, p) && Holds(file, p, Layout(PutRecord(crc), p, records)) && records != []
    requires p + |PutRecord(crc)(p, records[0])| <= |file|
    ensures st.end <= |file| && st'.end <= |file| && st'.drops == st.drops
    ensures ReadAll(crc, file, st).0 == [records[0]] + ReadAll(crc, file, st').0
    ensures ReadAll(crc, file, st).1 == ReadAll(crc, file, st').1
    ensures At(file, st', p + |PutRecord(crc)(p, records[0])|)
  {
    hide *;
    AtInFile(file, st, p);
    LayoutParts(crc, file, p, records);
    PutRecordIs(crc, p, records[0]);
    st' := ReadRecordWhole(crc, file, st, p, records[0]);
    ReadAllUnfold(crc, file, st, Some(records[0]), st');
  }

  lemma PrefixOfRest<T>(s: seq<T>, k: nat)
    requires 1 <= k <= |s|
    ensures [s[0]] + s[1..][..k - 1] == s[..k]
  {
  }

  lemma LayoutUnfold(crc: Crc, p: nat, records: seq<bytes>, n: nat)
    ensures records == [] ==> |Layout(PutRecord(crc), p, records)| == 0 && Whole(crc, p, records, n) == 0
    ensures records != [] ==>
              var next := p + |PutRecord(crc)(p, records[0])|;
              && |Layout(PutRecord(crc), p, records)| == next - p + |Layout(PutRecord(crc), next, records[1..])|
              && Whole(crc, p, records, n) == if next > n then 0 else 1 + Whole(crc, next, records[1..], n)
  {
    hide PutRecord;
  }

  lemma {:induction false} ReadLayout(crc: Crc, file: bytes, st: State, p: nat, records: seq<bytes>)
    requires At(file, st, p) && Holds(file, p, Layout(PutRecord(crc), p, records))
    requires |file| <= p + |Layout(PutRecord(crc), p, records)|
    ensures st.end <= |file|
    ensures ReadAll(crc, file, st).0 == records[..Whole(crc, p, records, |file|)]
    ensures ReadAll(crc, file, st).1.drops == st.drops
    decreases |records|
  {
    hide *;
    AtInFile(file, st, p);
    LayoutUnfold(crc, p, records, |file|);
    if records == [] {
      ReadAtEnd(crc, file, st, p);
    } else {
      var next, k := p + |PutRecord(crc)(p, records[0])|, Whole(crc, p, records, |file|);
      if next > |file| {
        ReadFirstCut(crc, file, st, p, records);
      } else {
        var st' := ReadFirst(crc, file, st, p, records);
        LayoutParts(crc, file, p, records);
        ReadLayout(crc, file, st', next, records[1..]);
        PrefixOfRest(records, k);
      }
    }
  }

  /** Reading any prefix of what the writer wrote returns exactly the records that are whole in it, in
      order, and then ends without reporting corruption. */
  lemma PrefixReads(crc: Crc, records: seq<bytes>, n: nat)
    requires n <= |LogOf(crc, records)|
    ensures ReadAll(crc, LogOf(crc, records)[..n], START).0 == records[..Whole(crc, 0, records, n)]
    ensures ReadAll(crc, LogOf(crc, records)[..n], START).1.drops == 0
  {
    var file := LogOf(crc, records)[..n];
    assert file[0..] == file;
    ReadLayout(crc, file, START, 0, records);
  }

  /** Whole records come back whatever is behind them; the reader goes on there. */
  lemma {:induction false} ReadLayoutWhole(crc: Crc, file: bytes, st: State, p: nat, records: seq<bytes>)
    returns (st': State)
    requires At(file, st, p) && Holds(file, p, Layout(PutRecord(crc), p, records))
    requires p + |Layout(PutRecord(crc), p, records)| <= |file|
    ensures st.end <= |file| && At(file, st', p + |Layout(PutRecord(crc), p, records)|) && st'.end <= |file|
    ensures st'.drops == st.drops
    ensures ReadAll(crc, file, st) == (records + ReadAll(crc, file, st').0, ReadAll(crc, file, st').1)
    decreases |records|
  {
    hide *;
    AtInFile(file, st, p);
    LayoutUnfold(crc, p, records, |file|);
    if records == [] {
      st' := st;
      assert [] + ReadAll(crc, file, st).0 == ReadAll(crc, file, st).0;
    } else {
      var first := ReadFirst(crc, file, st, p, records);
      LayoutParts(crc, file, p, records);
      st' := ReadLayoutWhole(crc, file, first, p + |PutRecord(crc)(p, records[0])|, records[1..]);
      FirstAndRest(records, ReadAll(crc, file, st').0);
    }
  }

  lemma FirstAndRest<T>(s: seq<T>, more: seq<T>)
    requires s != []
    ensures [s[0]] + (s[1..] + more) == s + more
  {
  }

  /** A log with anything behind it: all its records are read first, in order and without a report. */
  lemma ReadWithTail(crc: Crc, records: seq<bytes>, tail: bytes) returns (st: State)
    ensures At(LogOf(crc, records) + tail, st, |LogOf(crc, records)|) && st.end <= |LogOf(crc, records) + tail|
    ensures st.drops == 0
    ensures var file := LogOf(crc, records) + tail;
            && records <= ReadAll(crc, file, START).0
            && ReadAll(crc, file, START) == (records + ReadAll(crc, file, st).0, ReadAll(crc, file, st).1)
  {
    var file := LogOf(crc, records) + tail;
    assert file[0..] == file;
    st := ReadLayoutWhole(crc, file, START, 0, records);
  }

  lemma {:induction false} AllWhole(crc: Crc, p: nat, records: seq<bytes>)
    ensures Whole(crc, p, records, p + |Layout(PutRecord(crc), p, records)|) == |records|
    decreases |records|
  {
    hide PutRecord;
    if records != [] {
      AllWhole(crc, p + |PutRecord(crc)(p, records[0])|, records[1..]);
    }
  }

  predicate EndsWithin(crc: Crc, records: seq<bytes>, i: nat, cut: nat)
    requires i < |records|
  {
    |LogOf(crc, records[..i + 1])| <= cut
  }

  /** How much of a log there is when it was cut, after an append failed for want of room. */
  function Kept(room: Room, cut: nat, size: nat): (n: nat)
    ensures n <= size
  {
    var written := if Takes(room, size) then size else room.value;
    if cut < written then cut else written
  }

  lemma KeptIsPrefix(room: Room, cut: nat, file: bytes)
    ensures var (written, n) := (Taken(room, file), Kept(room, cut, |file|));
            n <= |written| && written[..n] == file[..n] && n == if cut < |written| then cut else |written|
  {
  }

  /** Write records up to the first append that fails, however often the file is closed and reopened in
      between, cut the file anywhere, and read it back: exactly the records that were written and end
      within the cut. */
  method WriteCutRead(crc: Crc, records: seq<bytes>, reopen: seq<bool>, room: Room, cut: nat)
    returns (found: seq<bytes>, drops: nat)
    requires |reopen| == |records|
    ensures found <= records && drops == 0
    ensures forall i :: 0 <= i < |records| ==>
              (i < |found| <==> EndsWithin(crc, records, i, cut) && Takes(room, |LogOf(crc, records[..i + 1])|))
  {
    var file, ok := WriteLog(crc, records, reopen, room);
    var n := if cut < |file| then cut else |file|;
    KeptIsPrefix(room, cut, LogOf(crc, records));
    PrefixReads(crc, records, n);
    found, drops := ReadLog(crc, file[..n]);
    forall i | 0 <= i < |records|
      ensures i < |found| <==> EndsWithin(crc, records, i, cut) && Takes(room, |LogOf(crc, records[..i + 1])|)
    {
      EndsWithinKept(crc, records, i, room, cut);
    }
  }

  lemma EndsWithinKept(crc: Crc, records: seq<bytes>, i: nat, room: Room, cut: nat)
    requires i < |records|
    ensures i < Whole(crc, 0, records, Kept(room, cut, |LogOf(crc, records)|))
       <==> EndsWithin(crc, records, i, cut) && Takes(room, |LogOf(crc, records[..i + 1])|)
  {
    hide PutRecord;
    WholeMeans(crc, 0, records, Kept(room, cut, |LogOf(crc, records)|), i);
    LogIsMonotone(crc, records, i + 1);
  }

  lemma EndsWithinFile(crc: Crc, records: seq<bytes>, i: nat, cut: nat, n: nat)
    requires i < |records| && n == if cut < |LogOf(crc, records)| then cut else |LogOf(crc, records)|
    ensures i < Whole(crc, 0, records, n) <==> EndsWithin(crc, records, i, cut)
  {
    EndsWithinKept(crc, records, i, None, cut);
  }

  lemma LogIsMonotone(crc: Crc, records: seq<bytes>, i: nat)
    requires i <= |records|
    ensures |LogOf(crc, records[..i])| <= |LogOf(crc, records)|
  {
    assert records == records[..i] + records[i..];
    LayoutAppend(PutRecord(crc), 0, records[..i], records[i..]);
  }

  // ----- what is behind a failed append -----

  /** What the writer puts into the file depends on where it believes to be only through the block. */
  lemma {:induction false} FragmentsInBlock(crc: Crc, p: nat, q: nat, begin: bool, data: bytes)
    requires p % BLOCK_SIZE == q % BLOCK_SIZE
    ensures Fragments(crc, p, begin, data) == Fragments(crc, q, begin, data)
    decreases |data|, Avail(p) == 0
  {
    SameBlock(p, q, data);
    hide Padding, Physical;
    if FragmentLength(p, data) < |data| {
      Progress(p, data);
      FragmentsInBlock(crc, AfterFragment(p, data), AfterFragment(q, data), false, data[FragmentLength(p, data)..]);
    }
  }

  lemma SameBlock(p: nat, q: nat, data: bytes)
    requires p % BLOCK_SIZE == q % BLOCK_SIZE
    ensures Padding(p) == Padding(q) && Avail(p) == Avail(q) && FragmentLength(p, data) == FragmentLength(q, data)
    ensures AfterFragment(p, data) % BLOCK_SIZE == AfterFragment(q, data) % BLOCK_SIZE
  {
    SameSum(p, q, Padding(p));
    SameSum(p, q, Padding(p) + HEADER_SIZE + FragmentLength(p, data));
  }

  lemma SameSum(p: nat, q: nat, n: nat)
    requires p % BLOCK_SIZE == q % BLOCK_SIZE
    ensures (p + n) % BLOCK_SIZE == (q + n) % BLOCK_SIZE
  {
  }

  /** The second header of the record that failed. */
  ghost function TornHeader(crc: Crc, p: nat, failed: bytes): (h: bytes)
    requires Avail(p) + BLOCK_SIZE - HEADER_SIZE <= |failed|
    ensures |h| == HEADER_SIZE
  {
    var rest := failed[FragmentLength(p, failed)..];
    Header(crc, FragmentType(false, |rest| == BLOCK_SIZE - HEADER_SIZE), rest[..BLOCK_SIZE - HEADER_SIZE])
  }

  /** A record that fills the block at p and the whole next one, of which the append fails right behind
      the header in the next block. */
  ghost function Remains(crc: Crc, p: nat, failed: bytes): bytes
    requires Avail(p) + BLOCK_SIZE - HEADER_SIZE <= |failed|
  {
    Fragment(crc, p, true, failed) + TornHeader(crc, p, failed)
  }

  lemma FirstFills(p: nat, failed: bytes)
    requires Avail(p) + BLOCK_SIZE - HEADER_SIZE <= |failed|
    ensures FragmentLength(p, failed) == Avail(p) < |failed| && AfterFragment(p, failed) % BLOCK_SIZE == 0
    ensures var after := AfterFragment(p, failed);
            && Padding(after) == 0 && Avail(after) == BLOCK_SIZE - HEADER_SIZE
            && FragmentLength(after, failed[Avail(p)..]) == BLOCK_SIZE - HEADER_SIZE
            && AfterFragment(after, failed[Avail(p)..]) % BLOCK_SIZE == 0
  {
  }

  /** At a header whose payload would fill the block, in a file that ends before that. */
  lemma ReadTorn(crc: Crc, file: bytes, st: State, p: nat, t: byte, payload: bytes)
    requires At(file, st, p) && p % BLOCK_SIZE == 0 && p + HEADER_SIZE <= |file| < p + BLOCK_SIZE
    requires |payload| == BLOCK_SIZE - HEADER_SIZE && file[p..p + HEADER_SIZE] == Header(crc, t, payload)
    ensures st.end <= |file|
    ensures ReadPhysical(crc, file, st).code == EOF_CODE && ReadPhysical(crc, file, st).st.drops == st.drops
  {
    hide Header, Unmask, DecodeFixed32;
    FilledAt(file, st, p);
    var f := Filled(file, st);
    HeaderLength(crc, t, payload);
    assert f.buffer[4] == file[p..p + HEADER_SIZE][4] && f.buffer[5] == file[p..p + HEADER_SIZE][5];
  }

  lemma HeaderLength(crc: Crc, t: byte, payload: bytes)
    requires |payload| <= 0xffff
    ensures var h := Header(crc, t, payload); h[4] + 256 * (h[5] as int) == |payload|
  {
    PhysicalParts(crc, t, payload);
    hide Mask;
  }

  lemma RemainsParts(crc: Crc, file: bytes, p: nat, failed: bytes, more: bytes)
    requires Avail(p) + BLOCK_SIZE - HEADER_SIZE <= |failed|
    requires p <= |file| && file[p..] == Remains(crc, p, failed) + more
    ensures var (after, header) := (AfterFragment(p, failed), TornHeader(crc, p, failed));
            && Holds(file, p, Fragment(crc, p, true, failed) + (header + more))
            && after + HEADER_SIZE + |more| == |file| && file[after..after + HEADER_SIZE] == header
  {
    var (frag, header) := (Fragment(crc, p, true, failed), TornHeader(crc, p, failed));
    hide Fragment, TornHeader;
    AppendTwice(frag, header, more);
    Behind(file, p, frag, header + more);
    Behind(file, p + |frag|, header, more);
    HoldsAll(file, p, frag + (header + more));
  }

  /** The reader meets what is left of a record that failed: it stops there without a word. */
  lemma ReadRemains(crc: Crc, file: bytes, st: State, p: nat, failed: bytes, more: bytes)
    requires At(file, st, p) && Avail(p) + BLOCK_SIZE - HEADER_SIZE <= |failed|
    requires p <= |file| && file[p..] == Remains(crc, p, failed) + more && |more| < BLOCK_SIZE - HEADER_SIZE
    ensures st.end <= |file|
    ensures ReadAll(crc, file, st).0 == [] && ReadAll(crc, file, st).1.drops == st.drops
  {
    hide *;
    AtInFile(file, st, p);
    FirstFills(p, failed);
    RemainsParts(crc, file, p, failed, more);
    var (after, header) := (AfterFragment(p, failed), TornHeader(crc, p, failed));
    FragmentAt(crc, file, p, true, failed, header + more);
    var payload := failed[..Avail(p)];
    FirstPhysical(crc, file, st, p, failed);
    var st' := ReadPhysical(crc, file, st).st;
    LogicalGoesOn(crc, file, st, true, payload, []);
    TornAt(crc, file, st', p, failed);
    LogicalStops(crc, file, st', [] + payload, true);
    ReadAllUnfold(crc, file, st, None, ReadLogical(crc, file, st, [], false).1);
  }

  lemma FirstPhysical(crc: Crc, file: bytes, st: State, p: nat, failed: bytes)
    requires At(file, st, p) && Avail(p) == FragmentLength(p, failed) < |failed| && AfterFragment(p, failed) <= |file|
    requires Fits(p + Padding(p), Avail(p))
    requires Holds(file, p + Padding(p), Physical(crc, FragmentType(true, false), failed[..Avail(p)]))
    ensures st.end <= |file|
    ensures var r := ReadPhysical(crc, file, st);
            && r.code == FragmentType(true, false) as nat && r.fragment == failed[..Avail(p)]
            && r.st.drops == st.drops && At(file, r.st, AfterFragment(p, failed))
  {
    AtInFile(file, st, p);
    hide Holds, At, Physical, Padding, Fits, ReadPhysical, Avail;
    ReadWhole(crc, file, st, p, p + Padding(p), FragmentType(true, false), failed[..Avail(p)]);
  }

  lemma TornAt(crc: Crc, file: bytes, st: State, p: nat, failed: bytes)
    requires Avail(p) + BLOCK_SIZE - HEADER_SIZE <= |failed| && FragmentLength(p, failed) == Avail(p)
    requires At(file, st, AfterFragment(p, failed)) && AfterFragment(p, failed) % BLOCK_SIZE == 0
    requires var after := AfterFragment(p, failed);
             && after + HEADER_SIZE <= |file| < after + BLOCK_SIZE
             && file[after..after + HEADER_SIZE] == TornHeader(crc, p, failed)
    ensures st.end <= |file|
    ensures ReadPhysical(crc, file, st).code == EOF_CODE && ReadPhysical(crc, file, st).st.drops == st.drops
  {
    hide At, Header, ReadPhysical, AfterFragment, Avail;
    var rest := failed[FragmentLength(p, failed)..];
    ReadTorn(crc, file, st, AfterFragment(p, failed), FragmentType(false, |rest| == BLOCK_SIZE - HEADER_SIZE),
             rest[..BLOCK_SIZE - HEADER_SIZE]);
  }

  lemma HoldsAll(file: bytes, p: nat, content: bytes)
    requires p <= |file| && file[p..] == content
    ensures Holds(file, p, content)
  {
  }

  lemma Behind(file: bytes, p: nat, a: bytes, b: bytes)
    requires p <= |file| && file[p..] == a + b
    ensures p + |a| + |b| == |file| && file[p..p + |a|] == a && file[p + |a|..] == b
  {
    assert file[p..][..|a|] == a && file[p..][|a|..] == b;
  }

  lemma LogicalStops(crc: Crc, file: bytes, st: State, scratch: bytes, inFragment: bool)
    requires st.end <= |file| && ReadPhysical(crc, file, st).code == EOF_CODE
    ensures ReadLogical(crc, file, st, scratch, inFragment) == (None, ReadPhysical(crc, file, st).st)
  {
    hide ReadPhysical;
  }

  /** The other half: behind a failed append, records may be lost, however well they were written and
      synced. Whatever the log holds, when an append fails right behind the second header of a record
      that is long enough, the reader finds nothing of the records that are appended after it within the
      next block, and reports nothing. */
  lemma TornHeaderHidesNext(crc: Crc, before: seq<bytes>, failed: bytes, later: seq<bytes>)
    requires Avail(|LogOf(crc, before)|) + BLOCK_SIZE - HEADER_SIZE <= |failed|
    requires |LogOf(crc, later)| < BLOCK_SIZE - HEADER_SIZE
    ensures var file := LogOf(crc, before) + Remains(crc, |LogOf(crc, before)|, failed) + LogOf(crc, later);
            ReadAll(crc, file, START).0 == before && ReadAll(crc, file, START).1.drops == 0
  {
    hide Remains, LogOf, Avail, At;
    var (log, more) := (LogOf(crc, before), LogOf(crc, later));
    var remains := Remains(crc, |log|, failed);
    AppendTwice(log, remains, more);
    var st := ReadWithTail(crc, before, remains + more);
    assert (log + (remains + more))[|log|..] == remains + more;
    ReadRemains(crc, log + (remains + more), st, |log|, failed, more);
    assert before + [] == before;
  }

  lemma {:induction false} LayoutInBlock(crc: Crc, p: nat, q: nat, records: seq<bytes>)
    requires p % BLOCK_SIZE == q % BLOCK_SIZE
    ensures Layout(PutRecord(crc), p, records) == Layout(PutRecord(crc), q, records)
    decreases |records|
  {
    hide Fragments;
    if records != [] {
      FragmentsInBlock(crc, p, q, true, records[0]);
      var n := |Fragments(crc, p, true, records[0])|;
      SameSum(p, q, n);
      LayoutInBlock(crc, p + n, q + n, records[1..]);
    }
  }

  lemma LayoutNext(crc: Crc, p: nat, records: seq<bytes>, i: nat)
    requires i < |records|
    ensures var put := PutRecord(crc);
            Layout(put, p, records[..i + 1])
            == Layout(put, p, records[..i]) + Fragments(crc, p + |Layout(put, p, records[..i])|, true, records[i])
  {
    hide Fragments;
    var q := p + |Layout(PutRecord(crc), p, records[..i])|;
    assert records[..i + 1] == records[..i] + [records[i]];
    LayoutAppend(PutRecord(crc), p, records[..i], [records[i]]);
    var first := Fragments(crc, q, true, records[i]);
    var one := [records[i]];
    assert one[1..] == [] && Layout(PutRecord(crc), q, one) == first + [];
  }

  /** Records written one after another while no append fails. */
  method AddAll(writer: Writer, records: seq<bytes>) returns (written: seq<bool>)
    requires writer.Valid() && writer.room == None
    modifies writer
    ensures writer.Valid() && writer.room == None && |written| == |records| && false !in written
    ensures writer.dest == old(writer.dest) + Layout(PutRecord(writer.crc), old(writer.end), records)
    ensures writer.end == old(writer.end) + |Layout(PutRecord(writer.crc), old(writer.end), records)|
  {
    hide Fragments, Believed;
    written := [];
    ghost var put := PutRecord(writer.crc);
    for i := 0 to |records|
      invariant writer.Valid() && writer.room == None && |written| == i && false !in written
      invariant writer.dest == old(writer.dest) + Layout(put, old(writer.end), records[..i])
      invariant writer.end == old(writer.end) + |Layout(put, old(writer.end), records[..i])|
    {
      LayoutNext(writer.crc, old(writer.end), records, i);
      BelievedRight(writer.crc, None, writer.end, true, records[i]);
      var ok := writer.AddRecord(records[i]);
      written := written + [ok];
    }
    assert records[..|records|] == records;
  }

  /** With room up to behind the second header. */
  lemma RemainsTaken(crc: Crc, p: nat, failed: bytes)
    requires Avail(p) + BLOCK_SIZE - HEADER_SIZE <= |failed|
    ensures var (room, all) := (Some(AfterFragment(p, failed) - p + HEADER_SIZE), Fragments(crc, p, true, failed));
            && Taken(room, all) == Remains(crc, p, failed) && !Takes(room, |all|)
            && Believed(room, p, failed) % BLOCK_SIZE == 0
  {
    FirstFills(p, failed);
    var (after, rest) := (AfterFragment(p, failed), failed[Avail(p)..]);
    var room := Some(after - p + HEADER_SIZE);
    Unfold(crc, room, [], p, true, failed);
    assert Left(room, after - p) == Some(HEADER_SIZE);
    Unfold(crc, Some(HEADER_SIZE), [], after, false, rest);
    SecondTaken(crc, after, rest);
  }

  lemma SecondTaken(crc: Crc, p: nat, data: bytes)
    requires Padding(p) == 0 && FragmentLength(p, data) == BLOCK_SIZE - HEADER_SIZE
    ensures var t := FragmentType(false, |data| == BLOCK_SIZE - HEADER_SIZE);
            Taken(Some(HEADER_SIZE), Fragment(crc, p, false, data)) == Header(crc, t, data[..BLOCK_SIZE - HEADER_SIZE])
  {
    hide Header;
    assert Zeros(0) == [];
  }

  /** And the writer gets there: 'written' is what each AddRecord said. */
  method WriteFailWrite(crc: Crc, before: seq<bytes>, failed: bytes, later: seq<bytes>)
    returns (file: bytes, written: seq<bool>)
    requires Avail(|LogOf(crc, before)|) + BLOCK_SIZE - HEADER_SIZE <= |failed|
    ensures file == LogOf(crc, before) + Remains(crc, |LogOf(crc, before)|, failed) + LogOf(crc, later)
    ensures |written| == |before| + 1 + |later|
    ensures forall i :: 0 <= i < |written| ==> (written[i] <==> i != |before|)
  {
    hide Remains, Avail, Fragments, Believed, Layout, AfterFragment, Taken;
    var writer := new Writer(crc);
    written := AddAll(writer, before);
    var p := |writer.dest|;
    assert writer.dest == [] + LogOf(crc, before) == LogOf(crc, before);
    RemainsTaken(crc, p, failed);
    AfterIsBehind(p, failed);
    writer.room := Some(AfterFragment(p, failed) - p + HEADER_SIZE);
    var ok := writer.AddRecord(failed);
    writer.room := None;
    LayoutInBlock(crc, writer.end, 0, later);
    var more := AddAll(writer, later);
    written := written + [ok] + more;
    file := writer.dest;
  }

  lemma AfterIsBehind(p: nat, data: bytes)
    ensures AfterFragment(p, data) >= p
  {
  }

  /** Together: the records before the failed append come back, and none of the acknowledged ones after
      it. */
  method WriteFailWriteRead(crc: Crc, before: seq<bytes>, failed: bytes, later: seq<bytes>)
    returns (found: seq<bytes>, drops: nat, written: seq<bool>)
    requires Avail(|LogOf(crc, before)|) + BLOCK_SIZE - HEADER_SIZE <= |failed|
    requires |LogOf(crc, later)| < BLOCK_SIZE - HEADER_SIZE
    ensures found == before && drops == 0 && |written| == |before| + 1 + |later|
    ensures forall i :: 0 <= i < |written| ==> (written[i] <==> i != |before|)
  {
    var file;
    file, written := WriteFailWrite(crc, before, failed, later);
    TornHeaderHidesNext(crc, before, failed, later);
    found, drops := ReadLog(crc, file);
  }
}

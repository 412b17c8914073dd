/** DBImpl::RecoverLogFile: replaying a log file into memtables. Writing a full memtable to a level-0
    table always succeeds here, and when a memtable is full is left open. */
module Recovery {
  import opened Wrappers
  import opened Coding
  import opened DbFormat
  import opened LogFormat
  import opened LogReader
  import opened LogRoundTrip
  import opened LogWriter
  import opened WriteBatches

  /** 'shortRecords' counts the corruption reports for records too small to be a batch. */
  datatype Replayed = Replayed(status: Status, maxSequence: nat, shortRecords: nat, added: seq<Entry>)

  function Max(a: nat, b: nat): nat {
    if a > b then a else b
  }

  /** A corruption report reaches the status only under paranoid checks, and only the first one. */
  function Reported(r: Replayed, when: bool, paranoid: bool): Replayed {
    if when && paranoid then r.(status := Corruption) else r
  }

  function ReplayRecord(r: Replayed, record: bytes, paranoid: bool): Replayed {
    if |record| < HEADER then
      Reported(r.(shortRecords := r.shortRecords + 1), true, paranoid)
    else
      var (ops, whole) := ParseOps(record[HEADER..]);
      var r' := r.(added := r.added + Adds(Sequence(record), ops));
      if paranoid && !(whole && |ops| == Count(record)) then r'.(status := Corruption)
      else r'.(maxSequence := Max(r.maxSequence, (Sequence(record) + Count(record) - 1) % TWO_TO_64))
  }

  /** What the loop computes on any file. A batch that does not insert cleanly ends it at once. */
  function Replay(crc: Crc, file: bytes, st: State, r: Replayed, paranoid: bool): Replayed
    requires st.end <= |file|
    decreases Unread(file, st)
  {
    var (record, st') := ReadLogical(crc, file, st, [], false);
    var r' := Reported(r, st'.drops > st.drops, paranoid);
    if record.None? || r'.status != Ok then r'
    else
      var next := ReplayRecord(r', record.value, paranoid);
      if next.status != Ok && |record.value| >= HEADER then next
      else Replay(crc, file, st', next, paranoid)
  }

  function Flatten(tables: seq<seq<Entry>>): seq<Entry> {
    if tables == [] then [] else Flatten(tables[..|tables| - 1]) + tables[|tables| - 1]
  }

  lemma FlattenPush(tables: seq<seq<Entry>>, mem: seq<Entry>)
    ensures Flatten(tables + [mem]) == Flatten(tables) + mem
  {
    assert (tables + [mem])[..|tables|] == tables;
  }

  /** One record: refused when too small, otherwise inserted in a memtable. */
  method InsertRecord(r: Replayed, record: bytes, paranoid: bool) returns (next: Replayed, added: seq<Entry>)
    requires r.status == Ok
    ensures next == ReplayRecord(r, record, paranoid) && next.added == r.added + added
  {
    if |record| < HEADER {
      return r.(shortRecords := r.shortRecords + 1, status := if paranoid then Corruption else r.status), [];
    }
    var status;
    status, added := InsertInto(record);
    hide ParseOps, Sequence, Count, Adds;
    next := r.(added := r.added + added);
    if paranoid && status != Ok {
      next := next.(status := Corruption);
      return;
    }
    var lastSeq := (Sequence(record) + Count(record) - 1) % TWO_TO_64;
    if lastSeq > r.maxSequence {
      next := next.(maxSequence := lastSeq);
    }
  }

  method RecoverLogFile(crc: Crc, file: bytes, paranoid: bool, maxSequence: nat)
    returns (r: Replayed, tables: seq<seq<Entry>>, mem: seq<Entry>)
    ensures r == Replay(crc, file, START, Replayed(Ok, maxSequence, 0, []), paranoid)
    ensures Flatten(tables) + mem == r.added
  {
    var reader := new Reader(crc, file);
    r, tables, mem := Replayed(Ok, maxSequence, 0, []), [], [];
    while true
      invariant reader.Valid() && fresh(reader) && reader.file == file && reader.crc == crc
      invariant Replay(crc, file, reader.View(), r, paranoid)
             == Replay(crc, file, START, Replayed(Ok, maxSequence, 0, []), paranoid)
      invariant Flatten(tables) + mem == r.added
      decreases Unread(file, reader.View())
    {
      hide ReadLogical, ReplayRecord;
      var dropsBefore := reader.drops;
      var record := reader.ReadRecord();
      if reader.drops > dropsBefore && paranoid {
        r := r.(status := Corruption);
      }
      if record.None? || r.status != Ok {
        break;
      }
      var added;
      r, added := InsertRecord(r, record.value, paranoid);
      AppendAssociative(Flatten(tables), mem, added);
      mem := mem + added;
      if r.status != Ok && |record.value| >= HEADER {
        break;
      }
      var memtableFull: bool := *;
      if memtableFull {
        FlattenPush(tables, mem);
        tables, mem := tables + [mem], [];
      }
    }
  }

  lemma AppendAssociative(a: seq<Entry>, b: seq<Entry>, c: seq<Entry>)
    ensures a + b + c == a + (b + c)
  {
  }

  // ----- crash recovery is atomic per group -----

  /** One group commit: the sequence number of its first operation, and its operations. */
  datatype Group = Group(sequence: nat, ops: seq<Op>) {
    predicate Ok() {
      && 1 <= sequence && sequence + |ops| <= MAX_SEQUENCE && |ops| < TWO_TO_31
      && (forall op :: op in ops ==> Encodable(op))
    }

    function Record(): bytes
      requires Ok()
    {
      Contents(sequence, ops)
    }
  }

  /** Groups committed one after another, the first one right after sequence number 'last'. */
  predicate Consecutive(last: nat, groups: seq<Group>)
    decreases |groups|
  {
    groups == [] || (groups[0].Ok() && groups[0].sequence == last + 1 && Consecutive(last + |groups[0].ops|,
                                                                                     groups[1..]))
  }

  /** The last sequence number given out. */
  function LastSequence(last: nat, groups: seq<Group>): (r: nat)
    ensures r >= last
    decreases |groups|
  {
    if groups == [] then last else LastSequence(last + |groups[0].ops|, groups[1..])
  }

  function Records(last: nat, groups: seq<Group>): (r: seq<bytes>)
    requires Consecutive(last, groups)
    ensures |r| == |groups|
    decreases |groups|
  {
    if groups == [] then [] else [groups[0].Record()] + Records(last + |groups[0].ops|, groups[1..])
  }

  /** The entries of all groups, with the sequence numbers they were given at commit. */
  function Entries(groups: seq<Group>): seq<Entry> {
    if groups == [] then [] else Adds(groups[0].sequence, groups[0].ops) + Entries(groups[1..])
  }

  lemma PhysicalDropsGrow(crc: Crc, file: bytes, st: State)
    requires st.end <= |file|
    ensures ReadPhysical(crc, file, st).st.drops >= st.drops
  {
    hide Unmask, DecodeFixed32;
  }

  lemma HandleDropsGrow(code: nat, fragment: bytes, st: State, scratch: bytes, inFragment: bool)
    ensures HandleRecord(code, fragment, st, scratch, inFragment).st.drops >= st.drops
  {
  }

  lemma {:induction false} DropsGrow(crc: Crc, file: bytes, st: State, scratch: bytes, inFragment: bool)
    requires st.end <= |file|
    ensures ReadLogical(crc, file, st, scratch, inFragment).1.drops >= st.drops
    decreases Unread(file, st)
  {
    hide ReadPhysical, HandleRecord;
    var read := ReadPhysical(crc, file, st);
    PhysicalDropsGrow(crc, file, st);
    HandleDropsGrow(read.code, read.fragment, read.st, scratch, inFragment);
    match HandleRecord(read.code, read.fragment, read.st, scratch, inFragment)
    case Return(record, st') =>
    case Again(st', scratch', inFragment') => DropsGrow(crc, file, st', scratch', inFragment');
  }

  lemma {:induction false} AllDropsGrow(crc: Crc, file: bytes, st: State)
    requires st.end <= |file|
    ensures ReadAll(crc, file, st).1.drops >= st.drops
    decreases Unread(file, st)
  {
    hide ReadLogical;
    var (record, st') := ReadLogical(crc, file, st, [], false);
    DropsGrow(crc, file, st, [], false);
    if record.Some? {
      AllDropsGrow(crc, file, st');
    }
  }

  /** Replaying the record of a group adds its entries and advances the maximum, and never fails. */
  lemma ReplayGroup(r: Replayed, g: Group, paranoid: bool)
    requires g.Ok() && r.status == Ok
    ensures |g.Record()| >= HEADER
    ensures ReplayRecord(r, g.Record(), paranoid)
         == r.(added := r.added + Adds(g.sequence, g.ops), maxSequence := Max(r.maxSequence, g.sequence + |g.ops| - 1))
  {
    hide Contents, ParseOps, Sequence, Count, Adds;
    IterateReplays(g.sequence, g.ops);
    assert |g.Record()| >= HEADER;
  }

  /** On a file from which exactly the records of some groups are read without a corruption report, the
      replay inserts all entries of those groups, in order, and nothing else. */
  lemma {:induction false} ReplayGroups(crc: Crc, file: bytes, st: State, r: Replayed, paranoid: bool, last: nat,
                                        groups: seq<Group>)
    requires st.end <= |file| && r.status == Ok && Consecutive(last, groups)
    requires ReadAll(crc, file, st).0 == Records(last, groups) && ReadAll(crc, file, st).1.drops == st.drops
    ensures Replay(crc, file, st, r, paranoid)
         == r.(added := r.added + Entries(groups),
               maxSequence := if groups == [] then r.maxSequence else Max(r.maxSequence, LastSequence(last, groups)))
    decreases |groups|
  {
    hide ReadLogical, ReplayRecord, Adds;
    var (record, st') := ReadLogical(crc, file, st, [], false);
    DropsGrow(crc, file, st, [], false);
    if groups == [] {
      assert r.added + Entries(groups) == r.added;
    } else {
      AllDropsGrow(crc, file, st');
      var next := ReplayRecord(r, record.value, paranoid);
      assert ReadAll(crc, file, st).0[1..] == ReadAll(crc, file, st').0;
      ReplayGroup(r, groups[0], paranoid);
      ReplayGroups(crc, file, st', next, paranoid, last + |groups[0].ops|, groups[1..]);
      AppendAssociative(r.added, Adds(groups[0].sequence, groups[0].ops), Entries(groups[1..]));
    }
  }

  // ----- any log -----

  /** The operations of a record that parse, under consecutive numbers from its sequence number on. */
  function EntriesIn(record: bytes): seq<Entry> {
    if |record| < HEADER then [] else Adds(Sequence(record), ParseOps(record[HEADER..]).0)
  }

  function EntriesInAll(records: seq<bytes>): seq<Entry> {
    if records == [] then [] else EntriesIn(records[0]) + EntriesInAll(records[1..])
  }

  /** A batch that is long enough, parses to its end and has the count it says. */
  predicate WellFormed(record: bytes) {
    && |record| >= HEADER && ParseOps(record[HEADER..]).1 && |ParseOps(record[HEADER..]).0| == Count(record)
  }

  lemma RecordOutcome(r: Replayed, record: bytes, paranoid: bool)
    requires r.status == Ok
    ensures var next := ReplayRecord(r, record, paranoid);
            && next.added == r.added + EntriesIn(record)
            && (next.status == Ok <==> !paranoid || WellFormed(record))
  {
    hide ParseOps, Sequence, Count, Adds;
    assert r.added + [] == r.added;
  }

  /** Without paranoid checks, whatever is in the log: recovery succeeds, and inserts all that parses of
      every record that can be read. */
  lemma {:induction false} LenientReplay(crc: Crc, file: bytes, st: State, r: Replayed)
    requires st.end <= |file| && r.status == Ok
    ensures Replay(crc, file, st, r, false).status == Ok
    ensures Replay(crc, file, st, r, false).added == r.added + EntriesInAll(ReadAll(crc, file, st).0)
    decreases Unread(file, st)
  {
    hide ReadLogical, ReplayRecord, EntriesIn;
    var (record, st') := ReadLogical(crc, file, st, [], false);
    if record.None? {
      assert r.added + [] == r.added;
    } else {
      var next := ReplayRecord(r, record.value, false);
      RecordOutcome(r, record.value, false);
      LenientReplay(crc, file, st', next);
      var (records, more) := (ReadAll(crc, file, st).0, ReadAll(crc, file, st').0);
      assert records[0] == record.value && records[1..] == more;
      AppendAssociative(r.added, EntriesIn(record.value), EntriesInAll(more));
    }
  }

  /** Under paranoid checks it succeeds exactly when reading the log reports nothing and all its records are
      well-formed batches. */
  lemma {:induction false} ParanoidReplay(crc: Crc, file: bytes, st: State, r: Replayed)
    requires st.end <= |file| && r.status == Ok
    ensures Replay(crc, file, st, r, true).status == Ok
       <==> && ReadAll(crc, file, st).1.drops == st.drops
            && forall record :: record in ReadAll(crc, file, st).0 ==> WellFormed(record)
    decreases Unread(file, st)
  {
    hide ReadLogical, ReplayRecord, WellFormed;
    var (record, st') := ReadLogical(crc, file, st, [], false);
    DropsGrow(crc, file, st, [], false);
    if record.Some? {
      AllDropsGrow(crc, file, st');
      var next := ReplayRecord(r, record.value, true);
      RecordOutcome(r, record.value, true);
      var (records, more) := (ReadAll(crc, file, st).0, ReadAll(crc, file, st').0);
      assert records == [record.value] + more;
      if st'.drops == st.drops {
        if next.status == Ok {
          ParanoidReplay(crc, file, st', next);
        } else {
          FailedStays(crc, file, st', next);
          assert record.value in records;
        }
      }
    }
  }

  lemma FailedStays(crc: Crc, file: bytes, st: State, r: Replayed)
    requires st.end <= |file| && r.status != Ok
    ensures Replay(crc, file, st, r, true).status != Ok
  {
    hide ReadLogical;
  }

  lemma {:induction false} RecordsPrefix(last: nat, groups: seq<Group>, k: nat)
    requires Consecutive(last, groups) && k <= |groups|
    ensures Consecutive(last, groups[..k])
    ensures Records(last, groups[..k]) == Records(last, groups)[..k]
    decreases |groups|
  {
    hide Contents;
    if k > 0 {
      assert groups[..k][0] == groups[0] && groups[..k][1..] == groups[1..][..k - 1];
      RecordsPrefix(last + |groups[0].ops|, groups[1..], k - 1);
    }
  }

  lemma {:induction false} RecordsSuffix(last: nat, groups: seq<Group>, k: nat)
    requires Consecutive(last, groups) && k <= |groups|
    ensures var last' := LastSequence(last, groups[..k]);
            Consecutive(last', groups[k..]) && Records(last', groups[k..]) == Records(last, groups)[k..]
    decreases |groups|
  {
    hide Contents;
    if k > 0 {
      assert groups[..k][0] == groups[0] && groups[..k][1..] == groups[1..][..k - 1];
      assert groups[k..] == groups[1..][k - 1..];
      RecordsSuffix(last + |groups[0].ops|, groups[1..], k - 1);
    } else {
      assert groups[0..] == groups && groups[..0] == [];
    }
  }

  /** The log of any run of group commits, cut off at any byte: recovery inserts exactly the entries of
      the groups whose records are whole in it, reports no corruption, with or without paranoid checks,
      and ends with the last sequence number it recovered. */
  lemma CrashRecovery(crc: Crc, last: nat, groups: seq<Group>, n: nat, paranoid: bool, maxSequence: nat)
    requires Consecutive(last, groups) && n <= |LogOf(crc, Records(last, groups))|
    ensures var survived := groups[..Whole(crc, 0, Records(last, groups), n)];
            && var max := if survived == [] then maxSequence else Max(maxSequence, LastSequence(last, survived));
            && Replay(crc, LogOf(crc, Records(last, groups))[..n], START, Replayed(Ok, maxSequence, 0, []), paranoid)
               == Replayed(Ok, max, 0, Entries(survived))
  {
    hide LogOf, Whole, Replay, ReadAll, Adds, Contents;
    var records := Records(last, groups);
    var k := Whole(crc, 0, records, n);
    PrefixReads(crc, records, n);
    RecordsPrefix(last, groups, k);
    ReplayGroups(crc, LogOf(crc, records)[..n], START, Replayed(Ok, maxSequence, 0, []), paranoid, last, groups[..k]);
    assert [] + Entries(groups[..k]) == Entries(groups[..k]);
  }

  // ----- and whatever is behind the groups -----

  lemma ReplayRecordGrows(r: Replayed, record: bytes, paranoid: bool)
    ensures r.added <= ReplayRecord(r, record, paranoid).added
    ensures !paranoid && r.status == Ok ==> ReplayRecord(r, record, paranoid).status == Ok
  {
    hide ParseOps, Sequence, Count, Adds;
  }

  /** Replaying never takes back what was inserted, and fails only under paranoid checks. */
  lemma {:induction false} ReplayGrows(crc: Crc, file: bytes, st: State, r: Replayed, paranoid: bool)
    requires st.end <= |file|
    ensures r.added <= Replay(crc, file, st, r, paranoid).added
    ensures !paranoid && r.status == Ok ==> Replay(crc, file, st, r, paranoid).status == Ok
    decreases Unread(file, st)
  {
    hide ReadLogical, ReplayRecord;
    var (record, st') := ReadLogical(crc, file, st, [], false);
    var r' := Reported(r, st'.drops > st.drops, paranoid);
    if record.Some? && r'.status == Ok {
      var next := ReplayRecord(r', record.value, paranoid);
      ReplayRecordGrows(r', record.value, paranoid);
      ReplayGrows(crc, file, st', next, paranoid);
    }
  }

  lemma ReplayNext(crc: Crc, file: bytes, st: State, r: Replayed, paranoid: bool, record: bytes, st': State)
    requires st.end <= |file| && ReadLogical(crc, file, st, [], false) == (Some(record), st')
    requires st'.drops == st.drops && r.status == Ok && ReplayRecord(r, record, paranoid).status == Ok
    ensures st'.end <= |file|
    ensures Replay(crc, file, st, r, paranoid) == Replay(crc, file, st', ReplayRecord(r, record, paranoid), paranoid)
  {
    hide ReadLogical, ReplayRecord;
  }

  function AfterGroups(r: Replayed, last: nat, groups: seq<Group>): Replayed {
    r.(added := r.added + Entries(groups),
       maxSequence := if groups == [] then r.maxSequence else Max(r.maxSequence, LastSequence(last, groups)))
  }

  lemma AfterOneMore(r: Replayed, last: nat, groups: seq<Group>, paranoid: bool)
    requires r.status == Ok && groups != [] && Consecutive(last, groups)
    ensures var next := ReplayRecord(r, groups[0].Record(), paranoid);
            next.status == Ok && AfterGroups(r, last, groups) == AfterGroups(next, last + |groups[0].ops|, groups[1..])
  {
    hide Adds, ReplayRecord;
    ReplayGroup(r, groups[0], paranoid);
    AppendAssociative(r.added, Adds(groups[0].sequence, groups[0].ops), Entries(groups[1..]));
    assert LastSequence(last, groups) == LastSequence(last + |groups[0].ops|, groups[1..]);
    assert groups[1..] == [] ==>
             Entries(groups[1..]) == [] && r.added + Entries(groups) == r.added + Entries(groups) + [];
  }

  lemma RecordsUnfold(last: nat, groups: seq<Group>)
    requires Consecutive(last, groups)
    ensures groups == [] ==> Records(last, groups) == []
    ensures groups != [] ==>
              && groups[0].Ok() && Consecutive(last + |groups[0].ops|, groups[1..])
              && Records(last, groups) != [] && Records(last, groups)[0] == groups[0].Record()
              && Records(last, groups)[1..] == Records(last + |groups[0].ops|, groups[1..])
  {
    hide Contents;
  }

  /** Groups whose records are whole at p are replayed first, whatever follows. */
  lemma {:induction false} ReplayWhole(crc: Crc, file: bytes, st: State, p: nat, r: Replayed, paranoid: bool,
                                       last: nat, groups: seq<Group>) returns (st': State)
    requires At(file, st, p) && r.status == Ok && Consecutive(last, groups)
    requires Holds(file, p, Layout(PutRecord(crc), p, Records(last, groups)))
    requires p + |Layout(PutRecord(crc), p, Records(last, groups))| <= |file|
    ensures st.end <= |file| && st'.end <= |file|
    ensures Replay(crc, file, st, r, paranoid) == Replay(crc, file, st', AfterGroups(r, last, groups), paranoid)
    decreases |groups|
  {
    hide *;
    AtInFile(file, st, p);
    RecordsUnfold(last, groups);
    if groups == [] {
      st' := st;
      NothingAfter(r, last);
    } else {
      var records := Records(last, groups);
      var next := p + |PutRecord(crc)(p, records[0])|;
      LayoutUnfold(crc, p, records, |file|);
      LayoutParts(crc, file, p, records);
      PutRecordIs(crc, p, records[0]);
      var st1 := ReadRecordWhole(crc, file, st, p, records[0]);
      AfterOneMore(r, last, groups, paranoid);
      ReplayNext(crc, file, st, r, paranoid, records[0], st1);
      st' := ReplayWhole(crc, file, st1, next, ReplayRecord(r, records[0], paranoid), paranoid,
                         last + |groups[0].ops|, groups[1..]);
    }
  }

  lemma NothingAfter(r: Replayed, last: nat)
    ensures AfterGroups(r, last, []) == r
  {
    assert r.added + [] == r.added;
  }

  /** A file that begins with the records of some groups, and may hold anything behind them: recovery
      inserts all entries of those groups first, and without paranoid checks it does not fail. */
  lemma RecoveryWithTail(crc: Crc, last: nat, groups: seq<Group>, file: bytes, paranoid: bool, maxSequence: nat)
    requires Consecutive(last, groups) && LogOf(crc, Records(last, groups)) <= file
    ensures var r := Replay(crc, file, START, Replayed(Ok, maxSequence, 0, []), paranoid);
            Entries(groups) <= r.added && (!paranoid ==> r.status == Ok)
  {
    hide Replay, Entries, ReadAll;
    assert file[0..] == file;
    var r := Replayed(Ok, maxSequence, 0, []);
    var st := ReplayWhole(crc, file, START, 0, r, paranoid, last, groups);
    assert [] + Entries(groups) == Entries(groups);
    ReplayGrows(crc, file, st, AfterGroups(r, last, groups), paranoid);
  }

  /** And nothing more can be relied on: of the groups behind a failed append none may come back, and
      nothing is reported even under paranoid checks. */
  lemma LostBehindTorn(crc: Crc, last: nat, before: seq<Group>, failed: bytes, last': nat, later: seq<Group>,
                       paranoid: bool, maxSequence: nat)
    requires Consecutive(last, before) && Consecutive(last', later)
    requires Avail(|LogOf(crc, Records(last, before))|) + BLOCK_SIZE - HEADER_SIZE <= |failed|
    requires |LogOf(crc, Records(last', later))| < BLOCK_SIZE - HEADER_SIZE
    ensures var log := LogOf(crc, Records(last, before));
            var r := Replay(crc, log + Remains(crc, |log|, failed) + LogOf(crc, Records(last', later)), START,
                            Replayed(Ok, maxSequence, 0, []), paranoid);
            r.status == Ok && r.added == Entries(before)
  {
    hide Replay, Entries, LogOf, Avail, Remains, ReadAll, Records;
    var log := LogOf(crc, Records(last, before));
    var file := log + Remains(crc, |log|, failed) + LogOf(crc, Records(last', later));
    TornHeaderHidesNext(crc, Records(last, before), failed, Records(last', later));
    ReplayGroups(crc, file, START, Replayed(Ok, maxSequence, 0, []), paranoid, last, before);
    assert [] + Entries(before) == Entries(before);
  }

  /** Commit groups to a log until an append fails, crash with only the first 'cut' bytes on disk, and
      recover. Of the groups, those survive whose records were written and end within the cut: each as a
      whole, under its own sequence numbers. */
  method CommitCrashRecover(crc: Crc, last: nat, groups: seq<Group>, reopen: seq<bool>, room: Room, cut: nat,
                            paranoid: bool) returns (r: Replayed, ghost k: nat)
    requires Consecutive(last, groups) && |reopen| == |groups|
    ensures k <= |groups| && r.status == Ok && r.added == Entries(groups[..k])
    ensures forall i :: 0 <= i < |groups| ==>
              (i < k <==> && EndsWithin(crc, Records(last, groups), i, cut)
                          && Takes(room, |LogOf(crc, Records(last, groups)[..i + 1])|))
    ensures k > 0 ==> r.maxSequence == LastSequence(last, groups[..k])
  {
    hide LogOf, Whole, Replay, Adds, Contents, EndsWithin, Entries;
    var records := Records(last, groups);
    var file, ok := WriteLog(crc, records, reopen, room);
    var n := if cut < |file| then cut else |file|;
    KeptIsPrefix(room, cut, LogOf(crc, records));
    k := Whole(crc, 0, records, n);
    CrashRecovery(crc, last, groups, n, paranoid, 0);
    var tables, mem;
    r, tables, mem := RecoverLogFile(crc, file[..n], paranoid, 0);
    forall i | 0 <= i < |groups|
      ensures i < k <==> EndsWithin(crc, records, i, cut) && Takes(room, |LogOf(crc, records[..i + 1])|)
    {
      EndsWithinKept(crc, records, i, room, cut);
    }
  }
}

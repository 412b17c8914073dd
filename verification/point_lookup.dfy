/** DBImpl::Get and Version::Get: looking a key up in the memtables and then level by level. Table files
    are sorted lists of entries. */
module PointLookup {
  import opened Wrappers
  import opened Coding
  import opened DbFormat
  import opened MultiVersion
  import opened MemTables

  datatype Table = Table(number: nat, entries: seq<Entry>)

  ghost predicate TableOk(t: Table) {
    t.entries != [] && Sorted(t.entries)
  }

  function Smallest(t: Table): Entry
    requires t.entries != []
  {
    t.entries[0]
  }

  function Largest(t: Table): Entry
    requires t.entries != []
  {
    t.entries[|t.entries| - 1]
  }

  /** The files of a level above 0: in order, and disjoint as ranges of internal keys. */
  ghost predicate InOrder(files: seq<Table>) {
    && (forall i :: 0 <= i < |files| ==> TableOk(files[i]))
    && (forall i, j :: 0 <= i < j < |files| ==> Before(Largest(files[i]), Smallest(files[j])))
  }

  ghost function InFiles(files: seq<Table>): set<Entry> {
    set t, e | t in files && e in t.entries :: e
  }

  // ----- answers -----

  /** The answer of a search in some entries: the latest visible one, or that there is none. */
  ghost predicate Answers(r: GetResult, db: set<Entry>, k: UserKey, snapshot: nat) {
    if r == NoEntry then forall e :: e in db ==> !Visible(e, k, snapshot)
    else exists e :: IsLatest(db, k, snapshot, e) && r == if e.kind == TypeValue then Found(e.value) else Deleted
  }

  /** The entries of 'newer' for the key are all newer than those of 'older'. */
  ghost predicate Shadows(newer: set<Entry>, older: set<Entry>, k: UserKey) {
    forall e, f :: e in newer && f in older && e.user == k && f.user == k ==> e.Tag() > f.Tag()
  }

  /** An answer from newer entries is final, and without one the search goes on. */
  lemma AnswerOfBoth(r1: GetResult, r2: GetResult, newer: set<Entry>, older: set<Entry>, k: UserKey, snapshot: nat)
    requires Answers(r1, newer, k, snapshot) && Shadows(newer, older, k)
    requires r1 == NoEntry ==> Answers(r2, older, k, snapshot)
    ensures Answers(if r1 == NoEntry then r2 else r1, newer + older, k, snapshot)
  {
    if r1 != NoEntry {
      var e :| IsLatest(newer, k, snapshot, e) && r1 == if e.kind == TypeValue then Found(e.value) else Deleted;
      assert IsLatest(newer + older, k, snapshot, e);
    } else if r2 != NoEntry {
      var e :| IsLatest(older, k, snapshot, e) && r2 == if e.kind == TypeValue then Found(e.value) else Deleted;
      assert IsLatest(newer + older, k, snapshot, e);
    }
  }

  function ValueOf(r: GetResult): Option<bytes> {
    if r.Found? then Some(r.value) else None
  }

  lemma AnswerIsRead(r: GetResult, db: set<Entry>, k: UserKey, snapshot: nat)
    requires Answers(r, db, k, snapshot) && DistinctTags(db)
    ensures ValueOf(r) == Read(db, k, snapshot)
  {
    if r == NoEntry {
      ReadOfNothing(db, k, snapshot);
    } else {
      var e :| IsLatest(db, k, snapshot, e) && r == if e.kind == TypeValue then Found(e.value) else Deleted;
      ReadOfLatest(db, k, snapshot, e);
    }
  }

  // ----- one table -----

  function SeekKey(k: UserKey, snapshot: nat): Entry {
    Entry(k, snapshot, VALUE_TYPE_FOR_SEEK, [])
  }

  lemma VisibleIsAtOrAfter(e: Entry, k: UserKey, snapshot: nat)
    ensures Visible(e, k, snapshot) <==> e.user == k && !Before(e, SeekKey(k, snapshot))
  {
  }

  /** The first entry at or after the seek key decides, in entries of which all before it and all after it
      are on that side of it. */
  lemma FirstDecides(db: set<Entry>, k: UserKey, snapshot: nat, first: Option<Entry>)
    requires first.Some? ==> first.value in db && !Before(first.value, SeekKey(k, snapshot))
    requires forall e :: e in db && !Before(e, SeekKey(k, snapshot)) ==>
               first.Some? && (e == first.value || Before(first.value, e))
    ensures Answers(SaveValue(first, k), db, k, snapshot)
  {
    forall e | e in db ensures Visible(e, k, snapshot) <==> e.user == k && !Before(e, SeekKey(k, snapshot)) {
      VisibleIsAtOrAfter(e, k, snapshot);
    }
    if first.Some? && first.value.user == k {
      assert IsLatest(db, k, snapshot, first.value);
    }
  }

  /** What the callback keeps of the entry a table's lookup has come to. */
  function SaveValue(first: Option<Entry>, k: UserKey): GetResult {
    if first.None? || first.value.user != k then NoEntry
    else if first.value.kind == TypeValue then Found(first.value.value)
    else Deleted
  }

  /** TableCache::Get: a seek in the table, and the callback on the entry found. */
  method SearchTable(t: Table, k: UserKey, snapshot: nat) returns (r: GetResult)
    requires TableOk(t)
    ensures exists first: Option<Entry> :: r == SaveValue(first, k) && IsFirst(t.entries, first, SeekKey(k, snapshot))
  {
    var i := 0;
    while i < |t.entries| && Before(t.entries[i], SeekKey(k, snapshot))
      invariant i <= |t.entries|
      invariant forall j :: 0 <= j < i ==> Before(t.entries[j], SeekKey(k, snapshot))
    {
      i := i + 1;
    }
    ghost var first := if i < |t.entries| then Some(t.entries[i]) else None;
    assert IsFirst(t.entries, first, SeekKey(k, snapshot));
    if i == |t.entries| || t.entries[i].user != k {
      return NoEntry;
    }
    return if t.entries[i].kind == TypeValue then Found(t.entries[i].value) else Deleted;
  }

  ghost predicate IsFirst(entries: seq<Entry>, first: Option<Entry>, key: Entry) {
    && (first.Some? ==> first.value in entries && !Before(first.value, key))
    && (forall e :: e in entries && !Before(e, key) ==> first.Some? && (e == first.value || Before(first.value, e)))
  }

  // ----- levels above 0 -----

  /** FindFile: the first file that reaches the key, by binary search. */
  method FindFile(files: seq<Table>, key: Entry) returns (right: nat)
    requires InOrder(files)
    ensures right <= |files|
    ensures forall i :: 0 <= i < right ==> Before(Largest(files[i]), key)
    ensures right < |files| ==> !Before(Largest(files[right]), key)
  {
    var left;
    left, right := 0, |files|;
    while left < right
      invariant left <= right <= |files|
      invariant forall i :: 0 <= i < left ==> Before(Largest(files[i]), key)
      invariant right < |files| ==> !Before(Largest(files[right]), key)
    {
      var mid := (left + right) / 2;
      if Before(Largest(files[mid]), key) {
        forall i | 0 <= i <= mid ensures Before(Largest(files[i]), key) {
          SmallestFirst(files[mid]);
          assert i < mid ==> Before(Largest(files[i]), Smallest(files[mid]));
        }
        left := mid + 1;
      } else {
        right := mid;
      }
    }
  }

  lemma SmallestFirst(t: Table)
    requires TableOk(t)
    ensures forall e :: e in t.entries ==> e == Smallest(t) || Before(Smallest(t), e)
    ensures forall e :: e in t.entries ==> e == Largest(t) || Before(e, Largest(t))
  {
  }

  lemma EarlierFilesAreBefore(files: seq<Table>, right: nat, key: Entry)
    requires InOrder(files) && right <= |files|
    requires forall i :: 0 <= i < right ==> Before(Largest(files[i]), key)
    ensures forall i, e :: 0 <= i < right && e in files[i].entries ==> Before(e, key)
  {
    forall i, e | 0 <= i < right && e in files[i].entries ensures Before(e, key) {
      SmallestFirst(files[i]);
    }
  }

  /** The one file FindFile comes to holds what the whole level has to say about the key. */
  lemma OneFileDecides(files: seq<Table>, right: nat, key: Entry, first: Option<Entry>)
    requires InOrder(files) && right < |files|
    requires forall i :: 0 <= i < right ==> Before(Largest(files[i]), key)
    requires !Before(Largest(files[right]), key) && IsFirst(files[right].entries, first, key)
    ensures first.Some? && first.value in InFiles(files)
    ensures forall e :: e in InFiles(files) && !Before(e, key) ==> e == first.value || Before(first.value, e)
  {
    assert Largest(files[right]) in files[right].entries;
    EarlierFilesAreBefore(files, right, key);
    forall e | e in InFiles(files) && !Before(e, key) ensures e == first.value || Before(first.value, e) {
      var t :| t in files && e in t.entries;
      var i :| 0 <= i < |files| && files[i] == t;
      SmallestFirst(t);
      SmallestFirst(files[right]);
      assert i > right ==> Before(Largest(files[right]), Smallest(files[i]));
    }
  }

  method SearchLevel(files: seq<Table>, k: UserKey, snapshot: nat) returns (r: GetResult)
    requires InOrder(files)
    ensures Answers(r, InFiles(files), k, snapshot)
  {
    var key := SeekKey(k, snapshot);
    var index := FindFile(files, key);
    if index >= |files| {
      forall e | e in InFiles(files) ensures Before(e, key) {
        var t :| t in files && e in t.entries;
        SmallestFirst(t);
      }
      FirstDecides(InFiles(files), k, snapshot, None);
      return NoEntry;
    }
    if k < Smallest(files[index]).user {
      forall e | e in InFiles(files) ensures !Visible(e, k, snapshot) {
        NothingBefore(files, index, k, snapshot, e);
      }
      return NoEntry;
    }
    r := SearchTable(files[index], k, snapshot);
    ghost var first :| r == SaveValue(first, k) && IsFirst(files[index].entries, first, key);
    OneFileDecides(files, index, key, first);
    FirstDecides(InFiles(files), k, snapshot, first);
  }

  /** All of the file is past any data for the key. */
  lemma NothingBefore(files: seq<Table>, index: nat, k: UserKey, snapshot: nat, e: Entry)
    requires InOrder(files) && index < |files| && k < Smallest(files[index]).user && e in InFiles(files)
    requires forall i :: 0 <= i < index ==> Before(Largest(files[i]), SeekKey(k, snapshot))
    ensures !Visible(e, k, snapshot)
  {
    var t :| t in files && e in t.entries;
    var i :| 0 <= i < |files| && files[i] == t;
    SmallestFirst(t);
    SmallestFirst(files[index]);
    assert i < index ==> Before(Largest(files[i]), SeekKey(k, snapshot));
    assert i > index ==> Before(Largest(files[index]), Smallest(files[i]));
  }

  // ----- level 0 -----

  /** Files of level 0 may overlap; a later file holds newer entries. */
  ghost predicate LevelZeroOk(files: seq<Table>) {
    && (forall i :: 0 <= i < |files| ==> TableOk(files[i]))
    && (forall t, u, k :: t in files && u in files && t.number > u.number ==>
          Shadows(Elements(t.entries), Elements(u.entries), k))
    && (forall i, j :: 0 <= i < j < |files| ==> files[i].number != files[j].number)
  }

  ghost predicate NewestFirst(files: seq<Table>) {
    forall i, j :: 0 <= i < j < |files| ==> files[i].number > files[j].number
  }

  function InsertByNumber(files: seq<Table>, t: Table): seq<Table> {
    if files == [] || t.number > files[0].number then [t] + files
    else [files[0]] + InsertByNumber(files[1..], t)
  }

  lemma {:induction false} InsertedByNumber(files: seq<Table>, t: Table)
    requires NewestFirst(files) && forall u :: u in files ==> u.number != t.number
    ensures NewestFirst(InsertByNumber(files, t))
    ensures forall u :: u in InsertByNumber(files, t) <==> u in files || u == t
  {
    if files != [] && t.number < files[0].number {
      assert files == [files[0]] + files[1..];
      InsertedByNumber(files[1..], t);
      var rest := InsertByNumber(files[1..], t);
      forall j | 0 <= j < |rest| ensures files[0].number > rest[j].number {
        assert rest[j] in rest;
      }
    }
  }

  predicate Overlaps(t: Table, k: UserKey)
    requires t.entries != []
  {
    Smallest(t).user <= k <= Largest(t).user
  }

  /** The files that overlap the key, newest first. */
  method CandidateFiles(files: seq<Table>, k: UserKey) returns (tmp: seq<Table>)
    requires LevelZeroOk(files)
    ensures NewestFirst(tmp) && forall t :: t in tmp <==> t in files && t.entries != [] && Overlaps(t, k)
  {
    tmp := [];
    for i := 0 to |files|
      invariant NewestFirst(tmp)
      invariant forall t :: t in tmp <==> t in files[..i] && t.entries != [] && Overlaps(t, k)
    {
      assert TableOk(files[i]) && files[..i + 1] == files[..i] + [files[i]];
      if Overlaps(files[i], k) {
        InsertedByNumber(tmp, files[i]);
        tmp := InsertByNumber(tmp, files[i]);
      }
    }
    assert files[..|files|] == files;
  }

  lemma OutsideIsInvisible(t: Table, k: UserKey, snapshot: nat, e: Entry)
    requires TableOk(t) && !Overlaps(t, k) && e in t.entries
    ensures !Visible(e, k, snapshot)
  {
    SmallestFirst(t);
  }

  ghost predicate NothingIn(tmp: seq<Table>, n: nat, k: UserKey, snapshot: nat)
    requires n <= |tmp|
  {
    forall i, e :: 0 <= i < n && e in tmp[i].entries ==> !Visible(e, k, snapshot)
  }

  /** Only candidates can hold anything visible. */
  lemma VisibleInCandidate(files: seq<Table>, tmp: seq<Table>, k: UserKey, snapshot: nat, e: Entry) returns (j: nat)
    requires LevelZeroOk(files) && e in InFiles(files) && Visible(e, k, snapshot)
    requires forall t :: t in tmp <==> t in files && t.entries != [] && Overlaps(t, k)
    ensures j < |tmp| && e in tmp[j].entries
  {
    var t :| t in files && e in t.entries;
    var i :| 0 <= i < |files| && files[i] == t;
    if !Overlaps(t, k) {
      OutsideIsInvisible(t, k, snapshot, e);
      assert false;
    }
    assert t in tmp;
    j :| 0 <= j < |tmp| && tmp[j] == t;
  }

  /** The newest candidate with an answer has the answer. */
  lemma NewestAnswers(files: seq<Table>, tmp: seq<Table>, i: nat, k: UserKey, snapshot: nat, e: Entry)
    requires LevelZeroOk(files) && NewestFirst(tmp) && i < |tmp| && NothingIn(tmp, i, k, snapshot)
    requires forall t :: t in tmp <==> t in files && t.entries != [] && Overlaps(t, k)
    requires IsLatest(Elements(tmp[i].entries), k, snapshot, e)
    ensures IsLatest(InFiles(files), k, snapshot, e)
  {
    assert tmp[i] in tmp;
    forall f | f in InFiles(files) && Visible(f, k, snapshot) ensures f.Tag() <= e.Tag() {
      var j := VisibleInCandidate(files, tmp, k, snapshot, f);
      assert tmp[j] in tmp;
      assert j > i ==> Shadows(Elements(tmp[i].entries), Elements(tmp[j].entries), k);
      assert f in Elements(tmp[j].entries);
    }
  }

  method SearchLevelZero(files: seq<Table>, k: UserKey, snapshot: nat) returns (r: GetResult)
    requires LevelZeroOk(files)
    ensures Answers(r, InFiles(files), k, snapshot)
  {
    var tmp := CandidateFiles(files, k);
    for i := 0 to |tmp|
      invariant NothingIn(tmp, i, k, snapshot)
    {
      assert tmp[i] in tmp && TableOk(tmp[i]);
      r := SearchTable(tmp[i], k, snapshot);
      ghost var first :| r == SaveValue(first, k) && IsFirst(tmp[i].entries, first, SeekKey(k, snapshot));
      FirstDecides(Elements(tmp[i].entries), k, snapshot, first);
      if r != NoEntry {
        ghost var e :| && IsLatest(Elements(tmp[i].entries), k, snapshot, e)
                       && r == if e.kind == TypeValue then Found(e.value) else Deleted;
        NewestAnswers(files, tmp, i, k, snapshot, e);
        return;
      }
      assert forall e :: e in tmp[i].entries ==> e in Elements(tmp[i].entries);
    }
    r := NoEntry;
    forall e | e in InFiles(files) ensures !Visible(e, k, snapshot) {
      if Visible(e, k, snapshot) {
        var j := VisibleInCandidate(files, tmp, k, snapshot, e);
      }
    }
  }

  // ----- all levels -----

  ghost predicate VersionOk(levels: seq<seq<Table>>) {
    && |levels| == NUM_LEVELS && LevelZeroOk(levels[0])
    && (forall l :: 1 <= l < NUM_LEVELS ==> InOrder(levels[l]))
  }

  ghost function FromLevel(levels: seq<seq<Table>>, l: nat): set<Entry>
    requires l <= |levels|
    decreases |levels| - l
  {
    if l == |levels| then {} else InFiles(levels[l]) + FromLevel(levels, l + 1)
  }

  /** Entries never hop across levels: those of one level are newer than those of all deeper ones. */
  ghost predicate LevelsAge(levels: seq<seq<Table>>, k: UserKey) {
    forall l :: 0 <= l < |levels| ==> Shadows(InFiles(levels[l]), FromLevel(levels, l + 1), k)
  }

  /** What the search of the levels from l on still has to find. */
  ghost predicate LeftToSearch(levels: seq<seq<Table>>, l: nat, k: UserKey, snapshot: nat)
    requires l <= |levels|
  {
    forall r :: Answers(r, FromLevel(levels, l), k, snapshot) ==> Answers(r, FromLevel(levels, 0), k, snapshot)
  }

  lemma SearchGoesOn(levels: seq<seq<Table>>, l: nat, k: UserKey, snapshot: nat, r: GetResult)
    requires l < |levels| && LevelsAge(levels, k) && LeftToSearch(levels, l, k, snapshot)
    requires Answers(r, InFiles(levels[l]), k, snapshot)
    ensures r != NoEntry ==> Answers(r, FromLevel(levels, 0), k, snapshot)
    ensures r == NoEntry ==> LeftToSearch(levels, l + 1, k, snapshot)
  {
    hide Answers;
    if r != NoEntry {
      AnswerOfBoth(r, NoEntry, InFiles(levels[l]), FromLevel(levels, l + 1), k, snapshot);
    } else {
      forall r2 | Answers(r2, FromLevel(levels, l + 1), k, snapshot) ensures Answers(r2, FromLevel(levels, 0), k,
                                                                                     snapshot) {
        AnswerOfBoth(r, r2, InFiles(levels[l]), FromLevel(levels, l + 1), k, snapshot);
      }
    }
  }

  /** Version::Get. */
  method GetFromVersion(levels: seq<seq<Table>>, k: UserKey, snapshot: nat) returns (r: GetResult)
    requires VersionOk(levels) && LevelsAge(levels, k)
    ensures Answers(r, FromLevel(levels, 0), k, snapshot)
  {
    hide Answers;
    for l := 0 to NUM_LEVELS
      invariant LeftToSearch(levels, l, k, snapshot)
    {
      if l == 0 {
        r := SearchLevelZero(levels[0], k, snapshot);
      } else {
        r := SearchLevel(levels[l], k, snapshot);
      }
      SearchGoesOn(levels, l, k, snapshot, r);
      if r != NoEntry {
        return;
      }
    }
    r := NoEntry;
    NothingLeft(k, snapshot);
  }

  lemma NothingLeft(k: UserKey, snapshot: nat)
    ensures Answers(NoEntry, {}, k, snapshot)
  {
  }

  ghost function InMem(mem: MemTable?): set<Entry>
    requires mem != null ==> mem.Valid()
    reads if mem == null then {} else {mem.table}, if mem == null then {} else mem.table.nodes
  {
    if mem == null then {} else Elements(mem.Entries())
  }

  /** A memtable that may not be there. */
  method GetFromMem(mem: MemTable?, k: UserKey, snapshot: nat) returns (r: GetResult)
    requires mem != null ==> mem.Valid()
    ensures Answers(r, InMem(mem), k, snapshot)
  {
    if mem == null {
      NothingLeft(k, snapshot);
      return NoEntry;
    }
    r := mem.Get(k, snapshot);
    MemAnswers(r, mem.Entries(), k, snapshot);
  }

  method GetFromOlder(imm: MemTable?, levels: seq<seq<Table>>, k: UserKey, snapshot: nat) returns (r: GetResult)
    requires (imm != null ==> imm.Valid()) && VersionOk(levels) && LevelsAge(levels, k)
    requires Shadows(InMem(imm), FromLevel(levels, 0), k)
    ensures Answers(r, InMem(imm) + FromLevel(levels, 0), k, snapshot)
  {
    hide VersionOk, LevelsAge, FromLevel, Shadows, Answers, InMem;
    r := GetFromMem(imm, k, snapshot);
    var rest := NoEntry;
    if r == NoEntry {
      rest := GetFromVersion(levels, k, snapshot);
    }
    AnswerOfBoth(r, rest, InMem(imm), FromLevel(levels, 0), k, snapshot);
    r := if r == NoEntry then rest else r;
  }

  /** DBImpl::Get: the memtable, the immutable memtable if there is one, then the version. The value is the
      one the store has at the snapshot. */
  method Get(mem: MemTable, imm: MemTable?, levels: seq<seq<Table>>, k: UserKey, snapshot: nat)
    returns (value: Option<bytes>)
    requires mem.Valid() && (imm != null ==> imm.Valid()) && VersionOk(levels) && LevelsAge(levels, k)
    requires Shadows(InMem(mem), InMem(imm) + FromLevel(levels, 0), k) && Shadows(InMem(imm), FromLevel(levels, 0), k)
    requires DistinctTags(InMem(mem) + (InMem(imm) + FromLevel(levels, 0)))
    ensures value == Read(InMem(mem) + (InMem(imm) + FromLevel(levels, 0)), k, snapshot)
  {
    hide VersionOk, LevelsAge, FromLevel, Shadows, Answers, InMem;
    var r := GetFromMem(mem, k, snapshot);
    var rest := NoEntry;
    if r == NoEntry {
      rest := GetFromOlder(imm, levels, k, snapshot);
    }
    AnswerOfBoth(r, rest, InMem(mem), InMem(imm) + FromLevel(levels, 0), k, snapshot);
    AnswerIsRead(if r == NoEntry then rest else r, InMem(mem) + (InMem(imm) + FromLevel(levels, 0)), k, snapshot);
    return ValueOf(if r == NoEntry then rest else r);
  }

  lemma MemAnswers(r: GetResult, entries: seq<Entry>, k: UserKey, snapshot: nat)
    requires r == NoEntry <==> forall e :: e in entries ==> !Visible(e, k, snapshot)
    requires r != NoEntry ==> exists e :: IsLatest(Elements(entries), k, snapshot, e)
                                        && r == if e.kind == TypeValue then Found(e.value) else Deleted
    ensures Answers(r, Elements(entries), k, snapshot)
  {
  }
}

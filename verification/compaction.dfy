/** Compaction: DBImpl::DoCompactionWork and Compaction::IsBaseLevelForKey.
    Table files are sorted lists of entries; where an output file is cut is left open, so everything
    below holds for every choice of ShouldStopBefore and of the maximum output file size. */
module CompactionWork {
  import opened Wrappers
  import opened DbFormat
  import opened MultiVersion
  import opened Snapshots

  /** A table file of the input version: the range of user keys it covers. */
  datatype FileMetaData = FileMetaData(smallest: UserKey, largest: UserKey)

  predicate Covers(f: FileMetaData, k: UserKey) {
    f.smallest <= k <= f.largest
  }

  /** Files of one level above 0, in key order; neighbours may share a boundary user key. */
  ghost predicate LevelInOrder(files: seq<FileMetaData>) {
    && (forall i :: 0 <= i < |files| ==> files[i].smallest <= files[i].largest)
    && (forall i, j :: 0 <= i < j < |files| ==> files[i].largest <= files[j].smallest)
  }

  /** No file two or more levels below the compaction covers the key. */
  ghost predicate IsBase(files: seq<seq<FileMetaData>>, level: nat, k: UserKey) {
    forall lvl, i :: level + 2 <= lvl < |files| && 0 <= i < |files[lvl]| ==> !Covers(files[lvl][i], k)
  }

  class Compaction {
    const level: nat
    const files: seq<seq<FileMetaData>>
    const levelPtrs: array<nat>

    /** The pointers only ever pass files that lie before every key still to be asked for. */
    ghost predicate ValidUpTo(k: UserKey)
      reads levelPtrs
    {
      && |files| == levelPtrs.Length == NUM_LEVELS
      && (forall lvl :: 1 <= lvl < NUM_LEVELS ==> LevelInOrder(files[lvl]))
      && (forall lvl :: 0 <= lvl < NUM_LEVELS ==> levelPtrs[lvl] <= |files[lvl]|)
      && (forall lvl, i :: 0 <= lvl < NUM_LEVELS && 0 <= i < levelPtrs[lvl] ==> files[lvl][i].largest < k)
    }

    constructor (level: nat, files: seq<seq<FileMetaData>>)
      requires |files| == NUM_LEVELS
      requires forall lvl :: 1 <= lvl < NUM_LEVELS ==> LevelInOrder(files[lvl])
      ensures this.level == level && this.files == files && fresh(levelPtrs)
      ensures forall k :: ValidUpTo(k)
    {
      this.level := level;
      this.files := files;
      this.levelPtrs := new nat[NUM_LEVELS](_ => 0);
    }

    /** Asked with ascending user keys, the advancing pointers answer exactly whether any file at
        level + 2 or deeper covers the key. */
    method IsBaseLevelForKey(userKey: UserKey) returns (base: bool)
      requires ValidUpTo(userKey)
      modifies levelPtrs
      ensures base <==> IsBase(files, level, userKey)
      ensures forall k :: k >= userKey ==> ValidUpTo(k)
    {
      var lvl := level + 2;
      while lvl < NUM_LEVELS
        invariant level + 2 <= lvl
        invariant ValidUpTo(userKey)
        invariant forall l, i :: level + 2 <= l < lvl && l < NUM_LEVELS && 0 <= i < |files[l]| ==>
                                   !Covers(files[l][i], userKey)
      {
        var levelFiles := files[lvl];
        while levelPtrs[lvl] < |levelFiles|
          invariant ValidUpTo(userKey)
          decreases |levelFiles| - levelPtrs[lvl]
        {
          var f := levelFiles[levelPtrs[lvl]];
          if userKey <= f.largest {
            if userKey >= f.smallest {
              return false;
            }
            break;
          }
          levelPtrs[lvl] := levelPtrs[lvl] + 1;
        }
        lvl := lvl + 1;
      }
      base := true;
    }
  }

  // ----- which entries the loop drops -----

  /** Hidden by the entry just before it, or an obsolete deletion marker. 'isBase' says for which user
      keys no deeper level holds data. */
  ghost predicate Dropped(input: seq<Entry>, i: nat, smallest: nat, isBase: iset<UserKey>)
    requires i < |input|
  {
    || (i > 0 && input[i - 1].user == input[i].user && input[i - 1].sequence <= smallest)
    || (input[i].kind == TypeDeletion && input[i].sequence <= smallest && input[i].user in isBase)
  }

  ghost function Kept(input: seq<Entry>, n: nat, smallest: nat, isBase: iset<UserKey>): seq<Entry>
    requires n <= |input|
  {
    if n == 0 then []
    else
      Kept(input, n - 1, smallest, isBase)
      + (if Dropped(input, n - 1, smallest, isBase) then [] else [input[n - 1]])
  }

  ghost function BaseKeys(c: Compaction): iset<UserKey> {
    iset k: UserKey | IsBase(c.files, c.level, k)
  }

  /** CompactionState::Output, with the builder's entries. */
  datatype Output = Output(smallest: Entry, largest: Entry, entries: seq<Entry>)

  function Contents(outputs: seq<Output>): seq<Entry> {
    if outputs == [] then [] else Contents(outputs[..|outputs| - 1]) + outputs[|outputs| - 1].entries
  }

  /** An installed output file is never empty and carries its exact bounds. */
  predicate WellBounded(o: Output) {
    o.entries != [] && o.smallest == o.entries[0] && o.largest == o.entries[|o.entries| - 1]
  }

  /** Everything written so far: the finished outputs and the one under construction. */
  function Written(outputs: seq<Output>, building: Option<Output>): seq<Entry> {
    Contents(outputs) + (if building.Some? then building.value.entries else [])
  }

  /** TableBuilder::Add and the bounds kept beside it. */
  function AddEntry(building: Option<Output>, e: Entry): (o: Output)
    requires building.Some? ==> WellBounded(building.value)
    ensures WellBounded(o)
  {
    if building.None? then Output(e, e, [e])
    else Output(building.value.smallest, e, building.value.entries + [e])
  }

  /** The decision on input[i], given the sequence number of the previous entry of its user key. */
  method DropEntry(c: Compaction, input: seq<Entry>, i: nat, lastSequenceForKey: nat, smallestSnapshot: nat)
    returns (drop: bool)
    requires i < |input| && c.ValidUpTo(input[i].user)
    requires smallestSnapshot < MAX_SEQUENCE
    requires lastSequenceForKey
          == if i > 0 && input[i - 1].user == input[i].user then input[i - 1].sequence else MAX_SEQUENCE
    modifies c.levelPtrs
    ensures drop <==> Dropped(input, i, smallestSnapshot, BaseKeys(c))
    ensures Sorted(input) ==>
              (drop <==> || HiddenByNewer(input, input[i], smallestSnapshot)
                         || IsObsoleteMarker(input[i], smallestSnapshot, BaseKeys(c)))
    ensures forall k :: k >= input[i].user ==> c.ValidUpTo(k)
  {
    hide HiddenByNewer;
    if Sorted(input) {
      DroppedExactly(input, i, smallestSnapshot, BaseKeys(c));
    }
    drop := false;
    if lastSequenceForKey <= smallestSnapshot {
      drop := true;
    } else if input[i].kind == TypeDeletion && input[i].sequence <= smallestSnapshot {
      drop := c.IsBaseLevelForKey(input[i].user);
    }
  }

  ghost predicate OutputsOk(outputs: seq<Output>, building: Option<Output>) {
    (forall o :: o in outputs ==> WellBounded(o)) && (building.Some? ==> WellBounded(building.value))
  }

  /** FinishCompactionOutputFile, when there is a file under construction. */
  method FinishOutput(outputs0: seq<Output>, building0: Option<Output>)
    returns (outputs: seq<Output>, building: Option<Output>)
    requires OutputsOk(outputs0, building0)
    ensures OutputsOk(outputs, building) && building.None? && Written(outputs, building) == Written(outputs0, building0)
  {
    outputs, building := outputs0, building0;
    if building.Some? {
      WrittenAfterFinish(outputs, building.value);
      outputs, building := outputs + [building.value], None;
    }
  }

  /** Adding an entry, and closing the output file if it is big enough. */
  method AddToOutput(outputs0: seq<Output>, building0: Option<Output>, e: Entry)
    returns (outputs: seq<Output>, building: Option<Output>)
    requires OutputsOk(outputs0, building0)
    ensures OutputsOk(outputs, building) && Written(outputs, building) == Written(outputs0, building0) + [e]
  {
    outputs := outputs0;
    WrittenAfterAdd(outputs, building0, e);
    building := Some(AddEntry(building0, e));
    var bigEnough: bool := *;
    if bigEnough {
      outputs, building := FinishOutput(outputs, building);
    }
  }

  method DoCompactionWork(c: Compaction, input: seq<Entry>, smallestSnapshot: nat)
    returns (outputs: seq<Output>)
    requires forall k :: c.ValidUpTo(k)
    requires Sorted(input)
    requires smallestSnapshot < MAX_SEQUENCE
    modifies c.levelPtrs
    ensures Contents(outputs) == Kept(input, |input|, smallestSnapshot, BaseKeys(c))
    ensures forall o :: o in outputs ==> WellBounded(o)
    ensures forall e :: e in Contents(outputs) <==>
              && e in input && !HiddenByNewer(input, e, smallestSnapshot)
              && !IsObsoleteMarker(e, smallestSnapshot, BaseKeys(c))
  {
    hide Dropped, BaseKeys, Written, HiddenByNewer;
    outputs := [];
    var building: Option<Output> := None;
    var currentUserKey: Option<UserKey> := None;
    var lastSequenceForKey := MAX_SEQUENCE;
    NothingWritten();
    for i := 0 to |input|
      invariant currentUserKey == if i == 0 then None else Some(input[i - 1].user)
      invariant i > 0 ==> lastSequenceForKey == input[i - 1].sequence
      invariant forall k :: (i == 0 || k >= input[i - 1].user) ==> c.ValidUpTo(k)
      invariant OutputsOk(outputs, building)
      invariant Written(outputs, building) == Kept(input, i, smallestSnapshot, BaseKeys(c))
    {
      var entry := input[i];
      assert i > 0 ==> Before(input[i - 1], entry);
      var shouldStopBefore: bool := *;
      if shouldStopBefore {
        outputs, building := FinishOutput(outputs, building);
      }
      if currentUserKey == None || currentUserKey.value != entry.user {
        currentUserKey := Some(entry.user);
        lastSequenceForKey := MAX_SEQUENCE;
      }
      var drop := DropEntry(c, input, i, lastSequenceForKey, smallestSnapshot);
      lastSequenceForKey := entry.sequence;
      if !drop {
        outputs, building := AddToOutput(outputs, building, entry);
      }
    }
    outputs, building := FinishOutput(outputs, building);
    WrittenIsContents(outputs);
    forall e ensures e in Contents(outputs) <==>
                && e in input && !HiddenByNewer(input, e, smallestSnapshot)
                && !IsObsoleteMarker(e, smallestSnapshot, BaseKeys(c))
    {
      KeptExactly(input, smallestSnapshot, BaseKeys(c), e);
    }
  }

  lemma NothingWritten()
    ensures Written([], None) == []
  {
  }

  lemma WrittenIsContents(outputs: seq<Output>)
    ensures Written(outputs, None) == Contents(outputs)
  {
  }

  lemma WrittenAfterFinish(outputs: seq<Output>, o: Output)
    ensures Written(outputs + [o], None) == Written(outputs, Some(o))
  {
    assert (outputs + [o])[..|outputs|] == outputs;
  }

  lemma WrittenAfterAdd(outputs: seq<Output>, building: Option<Output>, e: Entry)
    requires building.Some? ==> WellBounded(building.value)
    ensures Written(outputs, Some(AddEntry(building, e))) == Written(outputs, building) + [e]
  {
  }

  // ----- what is kept is needed -----

  /** A newer entry of the same key is at or below the smallest snapshot. */
  ghost predicate HiddenByNewer(input: seq<Entry>, e: Entry, smallest: nat) {
    exists f :: f in input && f.user == e.user && Before(f, e) && f.sequence <= smallest
  }

  /** A deletion marker that nobody needs: at or below the smallest snapshot, and nothing further down. */
  predicate IsObsoleteMarker(e: Entry, smallest: nat, isBase: iset<UserKey>) {
    e.kind == TypeDeletion && e.sequence <= smallest && e.user in isBase
  }

  lemma DroppedExactly(input: seq<Entry>, i: nat, smallest: nat, isBase: iset<UserKey>)
    requires Sorted(input) && i < |input|
    ensures Dropped(input, i, smallest, isBase)
       <==> HiddenByNewer(input, input[i], smallest) || IsObsoleteMarker(input[i], smallest, isBase)
  {
    if i > 0 && input[i - 1].user == input[i].user && input[i - 1].sequence <= smallest {
      assert Before(input[i - 1], input[i]);
    }
    if HiddenByNewer(input, input[i], smallest) {
      var f :| f in input && f.user == input[i].user && Before(f, input[i]) && f.sequence <= smallest;
      var j :| 0 <= j < |input| && input[j] == f;
      JustBefore(input, j, i);
    }
  }

  /** The entry just before one that has a newer one is of the same key, and at most as new as that. */
  lemma JustBefore(input: seq<Entry>, j: nat, i: nat)
    requires Sorted(input) && i < |input| && j < |input| && input[j].user == input[i].user && Before(input[j], input[i])
    ensures j < i && input[i - 1].user == input[i].user && input[i - 1].sequence <= input[j].sequence
  {
    if j < i {
      assert Before(input[i - 1], input[i]);
      assert j < i - 1 ==> Before(input[j], input[i - 1]);
    }
  }

  /** An entry of the input is kept exactly when no newer entry of its key is at or below the smallest
      snapshot and it is no obsolete deletion marker, wherever it stands among the entries of its key. */
  lemma KeptExactly(input: seq<Entry>, smallest: nat, isBase: iset<UserKey>, e: Entry)
    requires Sorted(input)
    ensures e in Kept(input, |input|, smallest, isBase)
       <==> e in input && !HiddenByNewer(input, e, smallest) && !IsObsoleteMarker(e, smallest, isBase)
  {
    hide Dropped, HiddenByNewer;
    KeptElements(input, |input|, smallest, isBase, e);
    forall i | 0 <= i < |input| && input[i] == e
      ensures Dropped(input, i, smallest, isBase)
         <==> HiddenByNewer(input, e, smallest) || IsObsoleteMarker(e, smallest, isBase)
    {
      DroppedExactly(input, i, smallest, isBase);
    }
  }

  // ----- no visible read changes -----

  lemma {:induction false} KeptElements(input: seq<Entry>, n: nat, smallest: nat, isBase: iset<UserKey>, e: Entry)
    requires n <= |input|
    ensures e in Kept(input, n, smallest, isBase)
       <==> exists i :: 0 <= i < n && input[i] == e && !Dropped(input, i, smallest, isBase)
  {
    if n > 0 {
      KeptElements(input, n - 1, smallest, isBase, e);
    }
  }

  lemma {:induction false} KeptIsSorted(input: seq<Entry>, n: nat, smallest: nat, isBase: iset<UserKey>)
    requires n <= |input| && Sorted(input)
    ensures Sorted(Kept(input, n, smallest, isBase))
  {
    if n > 0 {
      KeptIsSorted(input, n - 1, smallest, isBase);
      var kept := Kept(input, n - 1, smallest, isBase);
      forall i | 0 <= i < |kept| ensures Before(kept[i], input[n - 1]) {
        KeptElements(input, n - 1, smallest, isBase, kept[i]);
      }
    }
  }

  /** Entries outside the inputs for user keys inside them: 'newer' ones are above every input entry of
      the key; 'deeper' ones live in files at level + 2 or beyond. */
  ghost predicate Untouched(input: seq<Entry>, newer: set<Entry>, deeper: set<Entry>, isBase: iset<UserKey>) {
    && (forall e, f :: e in newer && f in input && e.user == f.user ==> e.sequence > f.sequence)
    && (forall e :: e in deeper ==> e.user !in isBase)
  }

  /** Replacing the inputs by what the loop keeps changes no read at any snapshot that is still live. */
  lemma CompactionPreservesReads(input: seq<Entry>, newer: set<Entry>, deeper: set<Entry>,
                                 smallest: nat, isBase: iset<UserKey>, k: UserKey, snapshot: nat)
    requires Sorted(input) && Untouched(input, newer, deeper, isBase)
    requires DistinctTags(Elements(input) + newer + deeper)
    requires smallest <= snapshot
    ensures var kept := Elements(Kept(input, |input|, smallest, isBase));
            Read(kept + newer + deeper, k, snapshot) == Read(Elements(input) + newer + deeper, k, snapshot)
  {
    var before := Elements(input) + newer + deeper;
    var after := Elements(Kept(input, |input|, smallest, isBase)) + newer + deeper;
    forall e | e in after ensures e in before {
      KeptElements(input, |input|, smallest, isBase, e);
    }
    if e0 :| e0 in before && Visible(e0, k, snapshot) {
      var e := LatestExists(before, k, snapshot, e0);
      if e in after {
        SameLatestSameRead(before, after, k, snapshot, e);
      } else {
        DroppedLatest(input, newer, deeper, smallest, isBase, k, snapshot, e);
        ReadOfLatest(before, k, snapshot, e);
        ReadOfNothing(after, k, snapshot);
      }
    } else {
      ReadOfNothing(before, k, snapshot);
      ReadOfNothing(after, k, snapshot);
    }
  }

  /** A latest visible entry is dropped only if it is a deletion marker, and then nothing older that
      the snapshot could see survives it. */
  lemma DroppedLatest(input: seq<Entry>, newer: set<Entry>, deeper: set<Entry>,
                      smallest: nat, isBase: iset<UserKey>, k: UserKey, snapshot: nat, e: Entry)
    requires Sorted(input) && Untouched(input, newer, deeper, isBase) && smallest <= snapshot
    requires IsLatest(Elements(input) + newer + deeper, k, snapshot, e)
    requires e !in Elements(Kept(input, |input|, smallest, isBase)) + newer + deeper
    ensures e.kind == TypeDeletion
    ensures forall f :: f in Elements(Kept(input, |input|, smallest, isBase)) + newer + deeper ==>
                          !Visible(f, k, snapshot)
  {
    var before := Elements(input) + newer + deeper;
    var i :| 0 <= i < |input| && input[i] == e;
    KeptElements(input, |input|, smallest, isBase, e);
    assert i > 0 ==> Before(input[i - 1], input[i]) && input[i - 1] in before;
    assert !(i > 0 && input[i - 1].user == e.user && input[i - 1].sequence <= smallest);
    assert e.kind == TypeDeletion && e.sequence <= smallest && e.user in isBase;
    forall f | f in Elements(Kept(input, |input|, smallest, isBase)) + newer + deeper
      ensures !Visible(f, k, snapshot)
    {
      if Visible(f, k, snapshot) && f in Kept(input, |input|, smallest, isBase) {
        KeptElements(input, |input|, smallest, isBase, f);
        var j :| 0 <= j < |input| && input[j] == f && !Dropped(input, j, smallest, isBase);
        assert f in before && f.Tag() <= e.Tag();
        OlderEntriesAreHidden(input, smallest, isBase, i, j);
      }
    }
  }

  /** The inputs must hold all that is older down to the next level. A deletion that is dropped brings back
      what a file left out there still holds of its key. AddBoundaryInputs sees to that for the first level,
      but SetupOtherInputs does not call it for the inputs from the next one. */
  lemma SplitKeyComesBack(deletion: Entry, older: Entry, smallest: nat, isBase: iset<UserKey>, snapshot: nat)
    requires deletion.kind == TypeDeletion && older.kind == TypeValue && deletion.user == older.user
    requires older.sequence < deletion.sequence <= smallest <= snapshot && deletion.user in isBase
    ensures Read({deletion} + {older}, older.user, snapshot) == None
    ensures var kept := Elements(Kept([deletion], 1, smallest, isBase));
            Read(kept + {older}, older.user, snapshot) == Some(older.value)
  {
    assert IsLatest({deletion} + {older}, older.user, snapshot, deletion);
    ReadOfLatest({deletion} + {older}, older.user, snapshot, deletion);
    assert Dropped([deletion], 0, smallest, isBase) && Kept([deletion], 1, smallest, isBase) == [];
    assert IsLatest({older}, older.user, snapshot, older);
    ReadOfLatest({older}, older.user, snapshot, older);
    assert Elements([]) + {older} == {older};
  }

  lemma OlderEntriesAreHidden(input: seq<Entry>, smallest: nat, isBase: iset<UserKey>, i: nat, j: nat)
    requires Sorted(input) && i < |input| && j < |input|
    requires input[i].user == input[j].user && input[i].sequence <= smallest
    requires input[j].Tag() <= input[i].Tag()
    ensures i <= j && (i < j ==> Dropped(input, j, smallest, isBase))
  {
    if i < j {
      assert Before(input[i], input[j]) && Before(input[j - 1], input[j]);
      assert i < j - 1 ==> Before(input[i], input[j - 1]);
    }
  }

  /** Entries from files two or more levels down are never of a base-level key. */
  lemma DeeperIsUntouched(c: Compaction, input: seq<Entry>, deeper: set<Entry>)
    requires forall e :: e in deeper ==>
               exists lvl, i ::
                 c.level + 2 <= lvl < |c.files| && 0 <= i < |c.files[lvl]| && Covers(c.files[lvl][i], e.user)
    ensures Untouched(input, {}, deeper, BaseKeys(c))
  {
  }

  /** A whole compaction: choose smallest_snapshot from the snapshot list, run the loop, and put its
      outputs in place of the inputs. Every read at a live snapshot, and at any snapshot taken later,
      is what it was. */
  method CompactUnderSnapshots(snapshots: SnapshotList, lastSequence: nat, c: Compaction, input: seq<Entry>,
                               ghost newer: set<Entry>, ghost deeper: set<Entry>)
    returns (outputs: seq<Output>)
    requires snapshots.Valid() && forall t :: t in snapshots.Live() ==> t.sequenceNumber <= lastSequence
    requires lastSequence < MAX_SEQUENCE
    requires forall k :: c.ValidUpTo(k)
    requires Sorted(input) && Untouched(input, newer, deeper, BaseKeys(c))
    requires DistinctTags(Elements(input) + newer + deeper)
    modifies c.levelPtrs
    ensures Sorted(Contents(outputs)) && forall o :: o in outputs ==> WellBounded(o)
    ensures forall k, s {:trigger Read(Elements(input) + newer + deeper, k, s)} ::
      s >= lastSequence || (exists t :: t in snapshots.Live() && t.sequenceNumber == s) ==>
      Read(Elements(Contents(outputs)) + newer + deeper, k, s) == Read(Elements(input) + newer + deeper, k, s)
  {
    var smallest := snapshots.SmallestSnapshot(lastSequence);
    outputs := DoCompactionWork(c, input, smallest);
    ghost var isBase := BaseKeys(c);
    KeptIsSorted(input, |input|, smallest, isBase);
    forall k, s: nat | smallest <= s
      ensures Read(Elements(Contents(outputs)) + newer + deeper, k, s) == Read(Elements(input) + newer + deeper, k, s)
    {
      CompactionPreservesReads(input, newer, deeper, smallest, isBase, k, s);
    }
  }
}

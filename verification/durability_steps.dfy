/** Every step of the state machine of Durability keeps its invariant. */
module DurabilitySteps {
  import opened Wrappers
  import opened DbFormat
  import opened MultiVersion
  import opened Retention
  import opened Durability
  import CompactionWork

  // ----- every step keeps it: the writer -----

  /** States that differ only in who does what, and in numbers. */
  ghost predicate SameTables(s: State, s': State) {
    s' == s.(job := s'.job, writer := s'.writer, manual := s'.manual, bgError := s'.bgError,
             shuttingDown := s'.shuttingDown,
             pending := s'.pending, nextFile := s'.nextFile, pinned := s'.pinned, snapshots := s'.snapshots,
             logs := s'.logs, torn := s'.torn, unsure := s'.unsure, lastSequence := s'.lastSequence)
  }

  lemma SameTablesKeep(s: State, s': State)
    requires SameTables(s, s')
    ensures EntriesOk(s) <==> EntriesOk(s')
    ensures ManifestOk(s) <==> ManifestOk(s')
    ensures s.logs == s'.logs ==> (AgesOk(s) <==> AgesOk(s')) && Ever(s) == Ever(s')
    ensures forall e :: EditOk(s, e) <==> EditOk(s', e)
    ensures forall e :: AddsNothing(s, e) <==> AddsNothing(s', e)
    ensures s.pending <= s'.pending ==> forall c :: CompactionOk(s, c) ==> CompactionOk(s', c)
  {
    hide Gone, InputsOk, DistinctSequences;
    assert forall m, e :: Accounted(s, m, e) <==> Accounted(s', m, e);
    assert forall m :: VersionOk(s, m) <==> VersionOk(s', m);
    assert s.logs == s'.logs ==> forall l, e :: InLog(s, l, e) <==> InLog(s', l, e);
    assert s.logs == s'.logs ==> Ever(s) == Ever(s') by { SameEver(s, s'); }
  }

  lemma SameEver(s: State, s': State)
    requires s.acked == s'.acked
    ensures s.logs == s'.logs ==> Ever(s) == Ever(s')
  {
    if s.logs == s'.logs {
      assert forall l, e :: InLog(s, l, e) <==> InLog(s', l, e);
    }
  }

  /** States that differ only in who does what. */
  ghost predicate SameStore(s: State, s': State) {
    s' == s.(job := s'.job, writer := s'.writer, manual := s'.manual, bgError := s'.bgError,
             shuttingDown := s'.shuttingDown)
  }

  lemma SameStoreKeeps(s: State, s': State)
    requires Core(s) && SameStore(s, s')
    requires s'.writer.InFlight().Some? ==> Numbered(s, s'.writer.InFlight().value)
    requires s.writer.Inserting? || s'.writer.Inserting? ==> s'.writer == s.writer
    ensures Core(s')
    ensures forall e :: EditOk(s, e) <==> EditOk(s', e)
    ensures forall e :: AddsNothing(s, e) <==> AddsNothing(s', e)
    ensures forall c :: CompactionOk(s, c) <==> CompactionOk(s', c)
  {
    hide EntriesOk, AgesOk, ManifestOk, EditOk, AddsNothing, CompactionOk, DistinctSequences, Ever;
    SameTablesKeep(s, s');
    SameTablesKeep(s', s);
    assert forall l, e :: InLog(s, l, e) <==> InLog(s', l, e);
  }

  /** A signal only wakes the writer. */
  lemma SignalShape(s: State)
    ensures var s' := Signal(s);
            && s' == s.(writer := s'.writer) && !s'.writer.Asleep? && s'.writer.InFlight() == s.writer.InFlight()
            && (s.writer.Inserting? || s'.writer.Inserting? ==> s'.writer == s.writer)
  {
  }

  lemma CoreParts(s: State)
    requires Core(s)
    ensures s.writer.InFlight().Some? ==> Numbered(s, s.writer.InFlight().value)
    ensures forall n :: n in s.tables || n in s.logs ==> n < s.nextFile
    ensures s.imm.Some? ==> s.immLog < s.logFile && s.version.logNumber <= s.immLog
  {
  }

  /** The job goes on as it is. */
  lemma SameJobKeeps(s: State, s': State)
    requires Inv(s) && SameStore(s, s') && s'.job == s.job && (s.bgError ==> s'.bgError) && ScheduleOk(s')
    requires s'.writer.InFlight().Some? ==> Numbered(s, s'.writer.InFlight().value)
    requires s.writer.Inserting? || s'.writer.Inserting? ==> s'.writer == s.writer
    ensures Inv(s')
  {
    hide Core, EditOk, AddsNothing, CompactionOk, Numbered, ScheduleOk;
    SameStoreKeeps(s, s');
  }

  lemma StartWriteKeeps(s: State, request: Option<Batch>)
    requires Inv(s) && Enabled(s, StartWrite(request))
    ensures Inv(Apply(s, StartWrite(request)))
  {
    hide Core, CertainOk, JobOk, NeedsCompaction, Numbered;
    SameJobKeeps(s, Apply(s, StartWrite(request)));
  }

  lemma SignalKeeps(s: State)
    requires Inv(s)
    ensures Inv(Signal(s))
  {
    CoreParts(s);
    hide Core, CertainOk, JobOk, NeedsCompaction, Numbered;
    SameJobKeeps(s, Signal(s));
  }

  lemma RecordErrorKeeps(s: State)
    requires Inv(s)
    ensures Inv(RecordError(s)) && RecordError(s).bgError && SameStore(s, RecordError(s)) && RecordError(s).job == s.job
  {
    CoreParts(s);
    hide Core, CertainOk, JobOk, NeedsCompaction, Numbered;
    SameJobKeeps(s, RecordError(s));
  }

  /** Scheduling only matters to what it schedules. */
  lemma MaybeScheduleKeeps(s: State, other: bool)
    requires Core(s) && CertainOk(s) && JobOk(s) && !s.writer.Asleep?
    ensures Inv(MaybeSchedule(s, other))
  {
    CoreParts(s);
    ScheduleResult(s, other);
    hide Core, EditOk, AddsNothing, CompactionOk, Numbered, MaybeSchedule, ScheduleOk, Writer.InFlight;
    SameStoreKeeps(s, MaybeSchedule(s, other));
  }

  lemma ScheduleResult(s: State, other: bool)
    ensures var s' := MaybeSchedule(s, other);
            && (s' == s || (s.job == NoJob && s' == s.(job := Scheduled)))
            && (!s.writer.Asleep? ==> ScheduleOk(s'))
  {
  }

  lemma SwitchedLogs(s: State)
    requires FilesOk(s) && LogsOk(s) && AgesOk(s) && s.imm.None? && s.writer.MakingRoom?
    ensures var s' := Switched(s);
            && FilesOk(s') && LogsOk(s') && AgesOk(s') && forall l, e :: InLog(s', l, e) <==> InLog(s, l, e)
  {
    var s' := Switched(s);
    assert s.nextFile !in s.logs;
    forall l, e ensures InLog(s', l, e) <==> InLog(s, l, e) {
    }
  }

  lemma SwitchedManifest(s: State)
    requires FilesOk(s) && LogsOk(s) && ManifestOk(s) && s.imm.None? && s.writer.MakingRoom?
    ensures ManifestOk(Switched(s))
  {
    hide Gone;
    var s' := Switched(s);
    assert Flushed(s') == Flushed(s);
    forall m, e | m in s'.manifest && e in s'.acked ensures VersionOk(s, m) && Accounted(s', m, e) {
      assert VersionOk(s, m) && Accounted(s, m, e);
    }
    assert forall m :: m in s.manifest ==> VersionOk(s, m);
  }

  lemma SwitchKeeps(s: State)
    requires Inv(s) && s.imm.None? && s.writer.MakingRoom?
    ensures var s' := Switched(s); Core(s') && CertainOk(s') && JobOk(s')
  {
    hide FilesOk, LogsOk, AgesOk, ManifestOk, DistinctSequences, InputsOk, Held;
    var s' := Switched(s);
    SwitchedLogs(s);
    SwitchedManifest(s);
    assert Ever(s') == Ever(s);
    forall c | CompactionOk(s, c) ensures CompactionOk(s', c) {
    }
  }

  /** Whether this turn of MakeRoomForWrite switches to a new memtable. */
  predicate Switches(s: State, full: bool, created: bool)
    requires s.writer.MakingRoom?
  {
    && !s.bgError && (s.writer.force || full) && s.imm.None? && s.version.LevelZero() < L0_STOP_WRITES_TRIGGER
    && created
  }

  /** If not, only the writer moves. */
  lemma RoomShape(s: State, full: bool, created: bool, other: bool)
    requires s.writer.MakingRoom?
    ensures var s' := Room(s, full, created, other);
            if Switches(s, full, created) then s.imm.None? && s' == MaybeSchedule(Switched(s), other)
            else
              && s' == s.(writer := s'.writer) && !s'.writer.Inserting?
              && (s'.writer.InFlight().Some? ==> s'.writer.InFlight() == s.writer.InFlight())
              && (s'.writer.Asleep? ==>
                    !s.bgError && (s.imm.Some? || s.version.LevelZero() >= L0_STOP_WRITES_TRIGGER))
  {
    hide MaybeSchedule, Version.LevelZero;
  }

  lemma TryRoomKeeps(s: State, full: bool, created: bool, other: bool)
    requires Inv(s) && Enabled(s, TryRoom(full, created, other))
    ensures Inv(Apply(s, TryRoom(full, created, other)))
  {
    RoomShape(s, full, created, other);
    hide Core, CertainOk, JobOk, NeedsCompaction, Switched, MaybeSchedule, Version.LevelZero, Room, Switches;
    hide Writer.InFlight;
    var s' := Apply(s, TryRoom(full, created, other));
    if Switches(s, full, created) {
      SwitchKeeps(s);
      SwitchedAwake(s);
      MaybeScheduleKeeps(Switched(s), other);
    } else {
      CoreParts(s);
      if !s.bgError && !s.shuttingDown && s.version.LevelZero() >= L0_STOP_WRITES_TRIGGER {
        ManyTablesHaveAJob(s);
      }
      SameJobKeeps(s, s');
    }
  }

  lemma ManyTablesHaveAJob(s: State)
    requires ScheduleOk(s) && !s.bgError && !s.shuttingDown && s.version.LevelZero() >= L0_STOP_WRITES_TRIGGER
    ensures s.job != NoJob
  {
  }

  lemma SwitchedAwake(s: State)
    requires s.writer.MakingRoom?
    ensures !Switched(s).writer.Asleep?
  {
  }

  // ----- every step keeps it: appending and inserting -----

  /** The batch is on its way into the log: it is the newest there is. */
  lemma LoggedEntries(s: State, b: Batch)
    requires NumbersOk(s) && s.writer == Logging(b) && s.logFile in s.logs
    ensures forall l, e :: InLog(Logged(s, b), l, e) <==> InLog(s, l, e) || (l == s.logFile && e in b.entries)
    ensures DistinctSequences(Ever(Logged(s, b)))
    ensures forall l, e :: InLog(s, l, e) ==> e.sequence <= s.lastSequence
  {
    var s' := Logged(s, b);
    forall e, f | e in Ever(s') && f in Ever(s') && e.sequence == f.sequence ensures e == f {
      assert e !in b.entries ==> e in Ever(s) && e.sequence <= s.lastSequence;
      assert f !in b.entries ==> f in Ever(s) && f.sequence <= s.lastSequence;
    }
  }

  lemma LoggedLogs(s: State, b: Batch)
    requires FilesOk(s) && LogsOk(s) && NumbersOk(s) && AgesOk(s) && Imm(s) <= s.acked && s.writer == Logging(b)
    ensures var s' := Logged(s, b);
            && FilesOk(s') && AgesOk(s') && b.entries <= s'.logs[s.logFile]
            && (forall w :: w == Idle || w == Inserting(b) ==> LogsOk(s'.(writer := w)))
  {
    var s' := Logged(s, b);
    LoggedEntries(s, b);
    forall e, g | e in s.acked && e !in s.mem && e !in Imm(s) && InMemoryLogs(s', g) ensures e.sequence < g.sequence {
      assert InMemoryLogs(s, g) || g in b.entries;
    }
  }

  /** The record is in the log, and the leader goes on to insert it, or gives up. */
  lemma LoggedKeeps(s: State, b: Batch, s': State)
    requires Inv(s) && s.writer == Logging(b) && s.logFile in s.logs
    requires s' == Logged(s, b).(writer := s'.writer, lastSequence := s'.lastSequence, torn := s'.torn,
                                 unsure := s'.unsure)
    requires || (s'.writer == Inserting(b) && s'.lastSequence == s.lastSequence)
             || (s'.writer == Idle && s'.lastSequence == b.last)
    ensures Inv(s')
  {
    hide EntriesOk, ManifestOk, EditOk, AddsNothing, CompactionOk, DistinctSequences, LogsOk, AgesOk, Ever;
    SameTablesKeep(s, s');
    ImmAcked(s);
    LoggedEntries(s, b);
    LoggedLogs(s, b);
    var s1 := Logged(s, b);
    SameTablesKeep(s1, s');
    assert forall l, e :: InLog(s', l, e) <==> InLog(s1, l, e);
    assert LogsOk(s1.(writer := s'.writer)) ==> LogsOk(s') by { LogsOkOf(s1.(writer := s'.writer), s'); }
  }

  lemma ImmAcked(s: State)
    requires EntriesOk(s)
    ensures Imm(s) <= s.acked
  {
  }

  lemma LogsOkOf(s: State, s': State)
    requires LogsOk(s) && s' == s.(lastSequence := s'.lastSequence, torn := s'.torn, unsure := s'.unsure)
    ensures LogsOk(s')
  {
  }

  lemma AddRecordKeeps(s: State, outcome: LogOutcome)
    requires Inv(s) && Enabled(s, AddRecord(outcome))
    ensures Inv(Apply(s, AddRecord(outcome)))
  {
    hide Inv;
    var b := s.writer.batch;
    match outcome
    case Appended => LoggedKeeps(s, b, Logged(s, b).(writer := Inserting(b)));
    case NotAppended => LoggedKeeps(s, b, Failed(Logged(Torn(s), b), b));
    case SyncFailed =>
      LoggedKeeps(s, b, Failed(Unsynced(s, b), b));
      RecordErrorKeeps(Failed(Unsynced(s, b), b));
  }

  ghost function Finished(s: State): State
    requires s.writer.Inserting?
  {
    var b := s.writer.batch;
    s.(mem := s.mem + b.entries, acked := s.acked + b.entries, lastSequence := b.last, writer := Idle)
  }

  lemma FinishedMemory(s: State)
    requires LogsOk(s) && EntriesOk(s) && NumbersOk(s) && AgesOk(s) && s.writer.Inserting?
    ensures var s' := Finished(s); LogsOk(s') && EntriesOk(s') && NumbersOk(s') && AgesOk(s')
  {
    var (s', b) := (Finished(s), s.writer.batch);
    FinishedNumbers(s);
    FinishedAges(s);
    hide DistinctSequences, NumbersOk, AgesOk;
    assert forall e :: e in s.acked ==> e.sequence <= s.lastSequence && e !in b.entries by { AckedIsOlder(s); }
    forall e | Holds(s'.tables, s'.version.tables.Keys, e) ensures e !in s'.mem {
      assert Holds(s.tables, s.version.tables.Keys, e) && e in s.acked;
    }
  }

  lemma AckedIsOlder(s: State)
    requires NumbersOk(s) && s.writer.Inserting?
    ensures forall e :: e in s.acked ==> e.sequence <= s.lastSequence && e !in s.writer.batch.entries
  {
  }

  lemma FinishedNumbers(s: State)
    requires LogsOk(s) && NumbersOk(s) && s.writer.Inserting?
    ensures NumbersOk(Finished(s))
  {
    hide DistinctSequences;
    var (s', b) := (Finished(s), s.writer.batch);
    assert forall l, e :: InLog(s', l, e) <==> InLog(s, l, e);
    assert forall e :: e in b.entries ==> InLog(s, s.logFile, e);
    assert Ever(s') == Ever(s);
  }

  lemma FinishedAges(s: State)
    requires LogsOk(s) && AgesOk(s) && s.writer.Inserting?
    ensures AgesOk(Finished(s))
  {
    assert forall l, e :: InLog(Finished(s), l, e) <==> InLog(s, l, e);
  }

  lemma FinishedManifest(s: State)
    requires ManifestOk(s) && NumbersOk(s) && s.writer.Inserting?
    ensures ManifestOk(Finished(s))
  {
    var (s', b) := (Finished(s), s.writer.batch);
    AckedIsOlder(s);
    hide DistinctSequences, Numbered, Ever;
    forall m, e | m in s'.manifest && e in s'.acked ensures VersionOk(s, m) && Accounted(s', m, e) {
      assert VersionOk(s, m);
      if e in s.acked {
        assert Accounted(s, m, e);
        var held := Held(s.tables, m.tables.Keys);
        if Gone(Flushed(s), held, s.floor, e) {
          GoneStays(Flushed(s), held, s.floor, Flushed(s'), held, s.floor, e);
        }
      }
    }
    assert forall m :: m in s.manifest ==> VersionOk(s, m);
  }

  lemma FinishWriteKeeps(s: State)
    requires Inv(s) && Enabled(s, FinishWrite)
    ensures Inv(Apply(s, FinishWrite))
  {
    hide LogsOk, EntriesOk, NumbersOk, AgesOk, ManifestOk, InputsOk, Held;
    FinishedMemory(s);
    FinishedManifest(s);
    assert Apply(s, FinishWrite) == Finished(s);
  }

  // ----- every step keeps it: LogAndApply -----

  lemma EditedParts(m: Version, e: Edit)
    ensures ApplyEdit(m, e).logNumber == e.logNumber
    ensures ApplyEdit(m, e).tables.Keys == m.tables.Keys - e.deleted + e.added.Keys
    ensures ApplyEdit(ApplyEdit(m, e), e) == ApplyEdit(m, e)
  {
  }

  /** What the tables of an edited version hold. */
  lemma HeldEdited(tables: map<nat, set<Entry>>, m: Version, e: Edit, b: Entry)
    ensures Holds(tables, ApplyEdit(m, e).tables.Keys, b)
       <==> Holds(tables, m.tables.Keys - e.deleted, b) || Holds(tables, e.added.Keys, b)
    ensures Holds(tables, m.tables.Keys, b)
       <==> Holds(tables, m.tables.Keys - e.deleted, b) || Holds(tables, m.tables.Keys * e.deleted, b)
  {
    EditedParts(m, e);
  }

  /** VersionOk and InputsOk only look at the entries. */
  lemma ManifestChanges(s: State, s': State)
    requires s' == s.(manifest := s'.manifest, job := s'.job)
    ensures forall m :: VersionOk(s', m) <==> VersionOk(s, m)
    ensures forall e :: AddsNothing(s', e) <==> AddsNothing(s, e)
    ensures LogsOk(s) ==> LogsOk(s')
    ensures EntriesOk(s) ==> EntriesOk(s')
    ensures NumbersOk(s) ==> NumbersOk(s')
    ensures AgesOk(s) ==> AgesOk(s')
  {
    hide Gone, DistinctSequences;
    assert forall m, e :: Accounted(s, m, e) <==> Accounted(s', m, e);
    assert forall l, e :: InLog(s, l, e) <==> InLog(s', l, e);
    SameEver(s, s');
  }

  /** What LogAndApply needs of the edit it is about to write. */
  ghost predicate CanApply(s: State, e: Edit) {
    forall m :: m in s.manifest ==> VersionOk(s, ApplyEdit(m, e)) && ApplyEdit(m, e).tables.Keys <= s.tables.Keys
  }

  lemma BeginApplyKeeps(s: State, e: Edit, job: Job)
    requires Core(s) && CanApply(s, e)
    ensures var s' := BeginApply(s, e).(job := job);
            && Core(s') && EditOk(s', e) && (forall e1 :: AddsNothing(s', e1) <==> AddsNothing(s, e1))
            && (s.version in s.manifest ==> s'.version in s'.manifest)
            && (s.manifest == {s.version} ==> s'.manifest == {s.version, ApplyEdit(s.version, e)})
  {
    hide LogsOk, EntriesOk, NumbersOk, AgesOk, VersionOk, ApplyEdit, AddsNothing;
    var s' := BeginApply(s, e).(job := job);
    ManifestChanges(s, s');
    forall m | m in s'.manifest ensures ApplyEdit(m, e) in s'.manifest {
      if m !in s.manifest {
        var m0 :| m0 in s.manifest && m == ApplyEdit(m0, e);
        EditedParts(m0, e);
      }
    }
  }

  /** What is known between two stages of a job, when no edit is on its way to the disk. */
  ghost predicate Settled(s: State) {
    Core(s) && s.version in s.manifest && (!s.bgError ==> s.manifest == {s.version})
  }

  /** Entering LogAndApply. */
  lemma ApplyBegins(s: State, e: Edit, job: Job)
    requires Settled(s) && ScheduleOk(s) && CanApply(s, e) && s.job != NoJob && job != NoJob
    requires EditInProgress(job) == Some(e)
    requires JobMem(job).Installing? ==>
               s.imm.Some? && e.logNumber == s.logFile && e.deleted == {} && Held(s.tables, e.added.Keys) <= Imm(s)
    requires job.Working? ==>
               && CompactionOk(s, job.c)
               && forall m :: m in s.manifest ==> InputsOk(s.tables, ApplyEdit(m, e), job.c.inputs, job.c.base)
    requires job.Applying? || job.Moving? ==> AddsNothing(s, e)
    ensures Inv(BeginApply(s, e).(job := job))
  {
    hide Core, NeedsCompaction, ApplyEdit, Edited, CanApply, InputsOk, AddsNothing, EditOk, Held;
    BeginApplyKeeps(s, e, job);
    var s' := BeginApply(s, e).(job := job);
    if job.Working? {
      CompactionEdited(s, s', e, job.c);
    }
  }

  lemma CompactionEdited(s: State, s': State, e: Edit, c: Compaction)
    requires CompactionOk(s, c) && s' == BeginApply(s, e).(job := s'.job)
    requires forall m :: m in s.manifest ==> InputsOk(s.tables, ApplyEdit(m, e), c.inputs, c.base)
    ensures CompactionOk(s', c)
  {
    hide InputsOk, ApplyEdit, Held;
  }

  /** Installing tables that hold nothing new. */
  lemma TablesInstalled(s: State, e: Edit)
    requires Core(s) && s.version in s.manifest && EditOk(s, e) && AddsNothing(s, e)
    requires s.bgError || s.manifest == {s.version, ApplyEdit(s.version, e)}
    ensures Settled(EndApply(s, e, true))
  {
    hide FilesOk, AgesOk, NumbersOk, Gone;
    var s' := EndApply(s, e, true);
    EditedParts(s.version, e);
    InstalledManifest(s, e);
    forall b | Holds(s.tables, s'.version.tables.Keys, b) ensures Holds(s.tables, s.version.tables.Keys, b) {
      HeldEdited(s.tables, s.version, e, b);
    }
    InstalledRest(s, s');
  }

  lemma InstalledRest(s: State, s': State)
    requires s' == s.(version := s'.version, manifest := s'.manifest) && s'.manifest <= s.manifest
    ensures FilesOk(s) ==> FilesOk(s')
    ensures NumbersOk(s) ==> NumbersOk(s')
    ensures AgesOk(s) ==> AgesOk(s')
  {
    hide DistinctSequences;
    assert forall l, e :: InLog(s, l, e) <==> InLog(s', l, e);
    SameEver(s, s');
  }

  /** The versions that recovery may find after the edit were already there before. */
  lemma InstalledManifest(s: State, e: Edit)
    requires ManifestOk(s) && EditOk(s, e) && s.version in s.manifest
    ensures var s' := EndApply(s, e, true);
            && s'.manifest <= s.manifest && s'.version in s'.manifest && ManifestOk(s') && e.logNumber <= s.logFile
            && (s.manifest == {s.version, ApplyEdit(s.version, e)} ==> s'.manifest == {s'.version})
  {
    hide Gone;
    var s' := EndApply(s, e, true);
    EditedParts(s.version, e);
    assert VersionOk(s, ApplyEdit(s.version, e));
    forall m | m in s'.manifest ensures VersionOk(s', m) {
      var m0 :| m0 in s.manifest && m == ApplyEdit(m0, e);
      EditedParts(m0, e);
      assert VersionOk(s, m);
      forall b | b in s'.acked ensures Accounted(s', m, b) {
        assert Accounted(s, m, b);
      }
    }
  }

  ghost function WithoutImm(s: State): State {
    s.(imm := None, hasImm := false)
  }

  /** Once its table is in the installed version, the immutable memtable can go. */
  lemma ImmInstalled(s: State, e: Edit)
    requires Core(s) && s.version in s.manifest && EditOk(s, e)
    requires s.imm.Some? && e.logNumber == s.logFile && Held(s.tables, e.added.Keys) <= Imm(s)
    requires s.bgError || s.manifest == {s.version, ApplyEdit(s.version, e)}
    ensures Settled(WithoutImm(EndApply(s, e, true)))
    ensures forall c :: CompactionOk(s, c) ==> CompactionOk(WithoutImm(EndApply(s, e, true)), c)
  {
    hide FilesOk, NumbersOk, ManifestOk, Gone, InputsOk, Held, AgesOk, EntriesOk;
    var s1 := EndApply(s, e, true);
    EditedParts(s.version, e);
    InstalledManifest(s, e);
    InstalledRest(s, s1);
    ImmDropped(s1);
    ImmEntries(s, e);
    ImmManifest(s1, e);
  }

  lemma ImmDropped(s: State)
    requires s.imm.Some?
    ensures FilesOk(s) ==> FilesOk(WithoutImm(s))
    ensures NumbersOk(s) ==> NumbersOk(WithoutImm(s))
    ensures AgesOk(s) ==> AgesOk(WithoutImm(s))
  {
    hide DistinctSequences;
    assert forall l, e :: InLog(s, l, e) <==> InLog(WithoutImm(s), l, e);
    SameEver(s, WithoutImm(s));
  }

  lemma ImmEntries(s: State, e: Edit)
    requires EntriesOk(s) && LogsOk(s) && AgesOk(s) && s.imm.Some? && Held(s.tables, e.added.Keys) <= Imm(s)
    ensures EntriesOk(WithoutImm(EndApply(s, e, true)))
  {
    var s' := WithoutImm(EndApply(s, e, true));
    forall b | Holds(s'.tables, s'.version.tables.Keys, b) ensures b !in s'.mem {
      HeldEdited(s.tables, s.version, e, b);
      if Holds(s.tables, e.added.Keys, b) {
        assert b in Imm(s) && (b in s.mem ==> InLog(s, s.logFile, b));
      } else {
        assert Holds(s.tables, s.version.tables.Keys, b);
      }
    }
  }

  lemma ImmManifest(s: State, e: Edit)
    requires ManifestOk(s) && s.imm.Some? && s.immLog < e.logNumber
    requires forall m :: m in s.manifest ==> m.logNumber == e.logNumber
    ensures ManifestOk(WithoutImm(s))
  {
    hide Gone;
    var s' := WithoutImm(s);
    forall m, b | m in s'.manifest && b in s'.acked ensures VersionOk(s, m) && Accounted(s', m, b) {
      assert VersionOk(s, m) && Accounted(s, m, b);
      var held := Held(s.tables, m.tables.Keys);
      if Gone(Flushed(s), held, s.floor, b) {
        GoneStays(Flushed(s), held, s.floor, Flushed(s'), held, s.floor, b);
      }
    }
    assert forall m :: m in s'.manifest ==> VersionOk(s, m);
  }

  // ----- every step keeps it: the three kinds of edits -----

  /** The table of the immutable memtable is on disk, unless there was nothing to write. */
  ghost function WithMemTable(s: State, n: nat): State
    requires s.imm.Some?
  {
    s.(pending := s.pending - {n}, tables := if s.imm.value == {} then s.tables else s.tables[n := s.imm.value])
  }

  function MemEdit(s: State, n: nat, level: nat): Edit
    requires s.imm.Some?
  {
    Edit({}, if s.imm.value == {} then map[] else map[n := level], s.logFile)
  }

  ghost predicate HasMemTable(s: State, n: nat) {
    s.imm.Some? && (s.imm.value != {} ==> n in s.tables && s.tables[n] == s.imm.value)
  }

  lemma MemEditAdds(s: State, n: nat, level: nat)
    requires HasMemTable(s, n)
    ensures var e := MemEdit(s, n, level);
            && e.added.Keys <= {n} && e.added.Keys <= s.tables.Keys
            && forall b :: Holds(s.tables, e.added.Keys, b) <==> b in Imm(s)
  {
    var e := MemEdit(s, n, level);
    if s.imm.value != {} {
      assert e.added.Keys == {n};
    }
  }

  /** Memory is newer than everything that has left it. */
  lemma ImmIsNewer(s: State, e: Entry, g: Entry)
    requires LogsOk(s) && AgesOk(s) && e in s.acked && e !in s.mem && e !in Imm(s) && g in Imm(s)
    ensures e.sequence < g.sequence
  {
    assert InLog(s, s.immLog, g);
    assert InMemoryLogs(s, g);
  }

  lemma MemEditVersion(s: State, n: nat, level: nat, m: Version)
    requires LogsOk(s) && AgesOk(s) && VersionOk(s, m) && HasMemTable(s, n)
    ensures VersionOk(s, ApplyEdit(m, MemEdit(s, n, level)))
  {
    hide Gone;
    var e := MemEdit(s, n, level);
    var m' := ApplyEdit(m, e);
    EditedParts(m, e);
    MemEditAdds(s, n, level);
    forall b | b in s.acked ensures Accounted(s, m', b) {
      assert Accounted(s, m, b);
      assert m.tables.Keys - e.deleted == m.tables.Keys;
      HeldEdited(s.tables, m, e, b);
      if b !in s.mem && b !in Imm(s) && !Holds(s.tables, m.tables.Keys, b) {
        forall g | g in Held(s.tables, m'.tables.Keys) && g !in Held(s.tables, m.tables.Keys)
          ensures b.sequence <= g.sequence
        {
          HeldEdited(s.tables, m, e, g);
          ImmIsNewer(s, b, g);
        }
        GoneStays(Flushed(s), Held(s.tables, m.tables.Keys), s.floor, Flushed(s), Held(s.tables, m'.tables.Keys),
                  s.floor, b);
      }
    }
  }

  /** A compaction still has its inputs, and still nothing older outside them. */
  lemma MemEditInputs(s: State, n: nat, level: nat, m: Version, c: Compaction)
    requires LogsOk(s) && EntriesOk(s) && AgesOk(s) && HasMemTable(s, n) && n !in c.inputs
    requires InputsOk(s.tables, m, c.inputs, c.base)
    requires InputsOk(s.tables, s.version, c.inputs, c.base)
    ensures InputsOk(s.tables, ApplyEdit(m, MemEdit(s, n, level)), c.inputs, c.base)
  {
    var e := MemEdit(s, n, level);
    var m' := ApplyEdit(m, e);
    EditedParts(m, e);
    MemEditAdds(s, n, level);
    forall g, b | Holds(s.tables, m'.tables.Keys - c.inputs, g) && Holds(s.tables, c.inputs, b)
                  && g.user == b.user && b.user in c.base
      ensures b.sequence <= g.sequence
    {
      if !Holds(s.tables, m.tables.Keys - c.inputs, g) {
        assert Holds(s.tables, e.added.Keys, g);
        assert Holds(s.tables, s.version.tables.Keys, b);
        HeldAcked(s, s.version.tables.Keys, b);
        ImmIsNewer(s, b, g);
      }
    }
  }

  lemma HeldAcked(s: State, numbers: set<nat>, e: Entry)
    requires EntriesOk(s) && Holds(s.tables, numbers, e)
    ensures e in s.acked
  {
  }

  lemma MoveIsOk(s: State, n: nat)
    requires Settled(s) && !s.bgError && n in s.version.tables
    ensures var e := Edit({n}, map[n := s.version.tables[n] + 1], s.version.logNumber);
            CanApply(s, e) && AddsNothing(s, e)
  {
    hide Gone;
    var e := Edit({n}, map[n := s.version.tables[n] + 1], s.version.logNumber);
    var m' := ApplyEdit(s.version, e);
    EditedParts(s.version, e);
    assert e.added.Keys == {n} && m'.tables.Keys == s.version.tables.Keys;
    assert VersionOk(s, s.version);
    forall b | b in s.acked ensures Accounted(s, m', b) {
      assert Accounted(s, s.version, b);
    }
  }

  /** Replacing the inputs of a compaction by its outputs loses nothing that is not gone. */
  lemma CompactionEditVersion(s: State, c: Compaction, input: seq<Entry>, m: Version)
    requires LogsOk(s) && EntriesOk(s) && NumbersOk(s) && VersionOk(s, m) && Compacted(s, c, input)
    requires InputsOk(s.tables, m, c.inputs, c.base) && c.smallest <= s.floor && c.inputs <= s.version.tables.Keys
    ensures VersionOk(s, ApplyEdit(m, CompactionEdit(s, c)))
  {
    hide Gone;
    var e := CompactionEdit(s, c);
    var m' := ApplyEdit(m, e);
    assert e.added.Keys == c.outputs;
    EditedParts(m, e);
    forall b | b in s.acked ensures Accounted(s, m', b) {
      assert Accounted(s, m, b);
      if b !in s.mem && b !in Imm(s) {
        CompactionAccounts(s, c, input, m, b);
      }
    }
  }

  lemma CompactionAccounts(s: State, c: Compaction, input: seq<Entry>, m: Version, b: Entry)
    requires EntriesOk(s) && NumbersOk(s) && Compacted(s, c, input)
    requires InputsOk(s.tables, m, c.inputs, c.base) && c.smallest <= s.floor && c.inputs <= s.version.tables.Keys
    requires b in s.acked && b !in s.mem && b !in Imm(s) && Accounted(s, m, b)
    ensures Accounted(s, ApplyEdit(m, CompactionEdit(s, c)), b)
  {
    hide Gone, DistinctSequences, CompactionWork.Kept, Sorted;
    var e := CompactionEdit(s, c);
    assert e.added.Keys == c.outputs;
    var (held, held') := (Held(s.tables, m.tables.Keys), Held(s.tables, ApplyEdit(m, e).tables.Keys));
    var base := iset k | k in c.base;
    var kept := CompactionWork.Kept(input, |input|, c.smallest, base);
    HeldEdited(s.tables, m, e, b);
    CompactionHeld(s, c, input, m);
    if b !in held' {
      if b in held {
        assert Holds(s.tables, c.inputs, b) && b in Elements(input);
        EverDistinct(s);
        forall g | g in held' && g.user == b.user ensures g in kept || (b.user in base ==> b.sequence <= g.sequence) {
        }
        DroppedIsGone(input, c.smallest, base, Flushed(s), held', s.floor, b);
      } else {
        GoneStays(Flushed(s), held, s.floor, Flushed(s), held', s.floor, b);
      }
    }
  }

  lemma EverDistinct(s: State)
    requires NumbersOk(s)
    ensures DistinctSequences(Flushed(s))
  {
  }

  /** What the tables hold after the edit. */
  lemma CompactionHeld(s: State, c: Compaction, input: seq<Entry>, m: Version)
    requires Compacted(s, c, input) && c.inputs <= m.tables.Keys && c.inputs <= s.version.tables.Keys && EntriesOk(s)
    ensures var (held', e) := (Held(s.tables, ApplyEdit(m, CompactionEdit(s, c)).tables.Keys),
                               CompactionEdit(s, c));
            && held' <= Held(s.tables, m.tables.Keys) && Elements(input) <= Flushed(s)
            && forall g :: g in held' ==>
                 || g in CompactionWork.Kept(input, |input|, c.smallest, iset k | k in c.base)
                 || Holds(s.tables, m.tables.Keys - c.inputs, g)
  {
    var e := CompactionEdit(s, c);
    var base := iset k | k in c.base;
    assert e.added.Keys == c.outputs;
    forall g | g in Elements(input) ensures g in Flushed(s) && Holds(s.tables, m.tables.Keys, g) {
      HeldAcked(s, c.inputs, g);
      assert Holds(s.tables, s.version.tables.Keys, g);
    }
    forall g | Holds(s.tables, ApplyEdit(m, e).tables.Keys, g)
      ensures Holds(s.tables, m.tables.Keys, g)
      ensures g in CompactionWork.Kept(input, |input|, c.smallest, base) || Holds(s.tables, m.tables.Keys - c.inputs, g)
    {
      HeldEdited(s.tables, m, e, g);
      if Holds(s.tables, c.outputs, g) {
        CompactionWork.KeptElements(input, |input|, c.smallest, base, g);
        assert g in Elements(input);
      }
    }
  }

  // ----- every step keeps it: deletion -----

  /** What is kept of the logs and tables. */
  lemma DeletedParts(s: State)
    requires FilesOk(s) && LogsOk(s) && !s.bgError
    ensures var s' := DeleteObsoleteFiles(s);
            && FilesOk(s.(manifest := {})) && LogsOk(s') && s' == s.(logs := s'.logs, tables := s'.tables)
            && (forall l, e :: InLog(s', l, e) ==> InLog(s, l, e))
            && (forall numbers, e :: Holds(s'.tables, numbers, e) ==> Holds(s.tables, numbers, e))
            && (forall n :: n in s'.tables <==> n in s.tables && LiveTable(s, n))
            && (forall n :: n in s'.tables ==> s'.tables[n] == s.tables[n])
  {
  }

  lemma LiveHeld(s: State, numbers: set<nat>)
    requires FilesOk(s) && LogsOk(s) && !s.bgError && forall n :: n in numbers && n in s.tables ==> LiveTable(s, n)
    ensures Held(DeleteObsoleteFiles(s).tables, numbers) == Held(s.tables, numbers)
  {
    hide DeleteObsoleteFiles, LiveTable;
    DeletedParts(s);
    var s' := DeleteObsoleteFiles(s);
    forall e | Holds(s.tables, numbers, e) ensures Holds(s'.tables, numbers, e) {
      var n :| n in numbers && n in s.tables && e in s.tables[n];
      assert n in s'.tables && e in s'.tables[n];
    }
  }

  lemma DeletedManifest(s: State)
    requires FilesOk(s) && LogsOk(s) && ManifestOk(s) && !s.bgError && s.manifest == {s.version}
    ensures ManifestOk(DeleteObsoleteFiles(s))
  {
    hide Gone, DeleteObsoleteFiles;
    DeletedParts(s);
    LiveHeld(s, s.version.tables.Keys);
    var s' := DeleteObsoleteFiles(s);
    assert VersionOk(s, s.version);
    forall e | e in s'.acked ensures Accounted(s', s.version, e) {
      assert Accounted(s, s.version, e);
      assert e in Held(s.tables, s.version.tables.Keys) <==> e in Held(s'.tables, s.version.tables.Keys);
    }
  }

  lemma DeletedRest(s: State)
    requires FilesOk(s) && LogsOk(s) && EntriesOk(s) && NumbersOk(s) && AgesOk(s) && !s.bgError
    requires s.manifest == {s.version}
    ensures var s' := DeleteObsoleteFiles(s); FilesOk(s') && EntriesOk(s') && NumbersOk(s') && AgesOk(s')
  {
    hide DeleteObsoleteFiles;
    DeletedParts(s);
    var s' := DeleteObsoleteFiles(s);
    assert Ever(s') <= Ever(s);
    forall i, n | 0 <= i < |s'.pinned| && n in s'.pinned[i] ensures n in s'.tables {
      assert Pinned(s, n) && LiveTable(s, n);
    }
  }

  lemma DeletedCompaction(s: State)
    requires FilesOk(s) && LogsOk(s) && !s.bgError && s.manifest == {s.version} && s.job.Working?
    requires CompactionOk(s, s.job.c)
    ensures CompactionOk(DeleteObsoleteFiles(s), s.job.c)
  {
    hide DeleteObsoleteFiles;
    DeletedParts(s);
    LiveHeld(s, s.job.c.inputs);
    LiveHeld(s, s.job.c.outputs);
    assert InputsOk(s.tables, s.version, s.job.c.inputs, s.job.c.base);
  }

  /** Deletion spares every log and table that is needed: by the version on disk, by readers, by the job. */
  lemma DeleteKeeps(s: State)
    requires Settled(s)
    ensures Settled(DeleteObsoleteFiles(s))
    ensures var s' := DeleteObsoleteFiles(s); s' == s.(logs := s'.logs, tables := s'.tables)
    ensures s.job.Working? && CompactionOk(s, s.job.c) ==> CompactionOk(DeleteObsoleteFiles(s), s.job.c)
  {
    if !s.bgError {
      hide LogsOk, EntriesOk, NumbersOk, AgesOk, ManifestOk, CompactionOk, DeleteObsoleteFiles;
      DeletedParts(s);
      DeletedManifest(s);
      DeletedRest(s);
      if s.job.Working? && CompactionOk(s, s.job.c) {
        DeletedCompaction(s);
      }
    }
  }

  // ----- every step keeps it: the background job -----

  /** Nobody works, and nobody sleeps. */
  function NoWork(s: State, manual: bool): State {
    Signal(s.(job := NoJob, manual := manual))
  }

  lemma EndJobIs(s: State, ending: Ending)
    ensures EndJob(s, ending) == MaybeSchedule(NoWork(s, s.manual && !ending.manualDone), ending.other)
  {
    hide NeedsCompaction;
  }

  lemma NoWorkKeeps(s: State, manual: bool)
    requires Settled(s)
    ensures var s' := NoWork(s, manual); Core(s') && CertainOk(s') && JobOk(s') && !s'.writer.Asleep?
  {
    CoreParts(s);
    SignalShape(s.(job := NoJob, manual := manual));
    hide Core, EditOk, AddsNothing, CompactionOk, Numbered, Signal, Writer.InFlight;
    SameStoreKeeps(s, NoWork(s, manual));
  }

  lemma EndJobKeeps(s: State, ending: Ending)
    requires Settled(s)
    ensures Inv(EndJob(s, ending))
  {
    hide *;
    EndJobIs(s, ending);
    NoWorkKeeps(s, s.manual && !ending.manualDone);
    MaybeScheduleKeeps(NoWork(s, s.manual && !ending.manualDone), ending.other);
  }

  lemma BeginMemKeeps(s: State)
    requires Inv(s) && s.imm.Some? && (s.job.Scheduled? || (s.job.Working? && s.job.mem.NoMem?))
    ensures Inv(BeginMem(s))
  {
    hide EntriesOk, AgesOk, ManifestOk, EditOk, AddsNothing, CompactionOk, Ever, DistinctSequences, NeedsCompaction;
    var s' := BeginMem(s);
    SameTablesKeep(s, s');
    assert forall l, e :: InLog(s', l, e) <==> InLog(s, l, e);
  }

  lemma BegunManifest(s: State, s': State)
    requires s' == s.(job := s'.job, floor := s'.floor) && s.floor <= s'.floor && ManifestOk(s)
    ensures ManifestOk(s')
  {
    forall m, e | m in s'.manifest && e in s'.acked ensures VersionOk(s, m) && Accounted(s', m, e) {
      assert VersionOk(s, m) && Accounted(s, m, e);
      var held := Held(s.tables, m.tables.Keys);
      if Gone(Flushed(s), held, s.floor, e) {
        GoneStays(Flushed(s), held, s.floor, Flushed(s), held, s'.floor, e);
      }
    }
    assert forall m :: m in s'.manifest ==> VersionOk(s, m);
  }

  /** For keys without data two levels down, the inputs have all that is old. */
  lemma ClosedIsOk(tables: map<nat, set<Entry>>, m: Version, inputs: set<nat>, level: nat, base: set<UserKey>)
    requires Closed(tables, m, inputs, level) && IsBase(tables, m, level, base)
    ensures InputsOk(tables, m, inputs, base)
  {
    forall g, e | Holds(tables, m.tables.Keys - inputs, g) && Holds(tables, inputs, e) && g.user == e.user
                  && e.user in base
      ensures e.sequence <= g.sequence
    {
      var n :| n in m.tables.Keys - inputs && n in tables && g in tables[n];
    }
  }

  lemma BegunKeeps(s: State, inputs: set<nat>, level: nat, smallest: nat, base: set<UserKey>)
    requires Inv(s) && Enabled(s, BeginJob(Compact(inputs, level, smallest, base), Ending(false, false))) && !s.bgError
    ensures Inv(Begun(s, inputs, level, smallest, base))
  {
    hide EntriesOk, AgesOk, ManifestOk, EditOk, AddsNothing, Ever, DistinctSequences, NeedsCompaction, InputsOk;
    ClosedIsOk(s.tables, s.version, inputs, level, base);
    hide Closed, IsBase;
    var s' := Begun(s, inputs, level, smallest, base);
    BegunManifest(s, s');
    var s1 := s'.(floor := s.floor);
    SameTablesKeep(s, s1);
    FloorRises(s1, s');
    assert forall l, e :: InLog(s', l, e) <==> InLog(s, l, e);
    NothingHeld(s.tables);
    InputsThere(s.tables, s.version, inputs, base);
  }

  lemma InputsThere(tables: map<nat, set<Entry>>, m: Version, inputs: set<nat>, base: set<UserKey>)
    ensures InputsOk(tables, m, inputs, base) ==> inputs <= m.tables.Keys
  {
  }

  lemma NothingHeld(tables: map<nat, set<Entry>>)
    ensures Held(tables, {}) == {}
  {
  }

  lemma FloorRises(s: State, s': State)
    requires s' == s.(floor := s'.floor)
    ensures EntriesOk(s) ==> EntriesOk(s')
    ensures AgesOk(s) ==> AgesOk(s')
    ensures Ever(s') == Ever(s)
  {
    assert forall l, e :: InLog(s', l, e) <==> InLog(s, l, e);
    SameEver(s, s');
  }

  lemma BeginJobKeeps(s: State, pick: Pick, ending: Ending)
    requires Inv(s) && Enabled(s, BeginJob(pick, ending))
    ensures Inv(Apply(s, BeginJob(pick, ending)))
  {
    hide Core, EditOk, AddsNothing, CompactionOk, NeedsCompaction, BeginApply, BeginMem, EndJob, ApplyEdit, InputsOk;
    hide Begun;
    if s.shuttingDown || s.bgError {
      EndJobKeeps(s, Ending(ending.other, false));
    } else if s.imm.Some? {
      BeginMemKeeps(s);
    } else {
      match pick
      case Nothing => EndJobKeeps(s, ending);
      case TrivialMove(n) =>
        var e := Edit({n}, map[n := s.version.tables[n] + 1], s.version.logNumber);
        MoveIsOk(s, n);
        ApplyBegins(s, e, Moving(e));
      case Compact(inputs, level, smallest, base) => BegunKeeps(s, inputs, level, smallest, base);
    }
  }

  lemma WorkingGoesOn(s: State)
    requires Settled(s) && s.job.Working? && CompactionOk(s, s.job.c)
    ensures Inv(Signal(s.(job := s.job.(mem := NoMem))))
  {
    CoreParts(s);
    SignalShape(s.(job := s.job.(mem := NoMem)));
    hide Core, EditOk, AddsNothing, CompactionOk, NeedsCompaction, Numbered, Signal, Writer.InFlight;
    SameStoreKeeps(s, Signal(s.(job := s.job.(mem := NoMem))));
  }

  /** Leaving CompactMemTable, of the whole job or of a compaction's interruption. */
  lemma EndMemKeeps(s: State, ending: Ending)
    requires Settled(s) && (s.job.Working? ==> CompactionOk(s, s.job.c))
    ensures Inv(EndMem(s, ending))
  {
    hide Settled, Inv, EndJob, CompactionOk, Signal;
    if s.job.Working? {
      WorkingGoesOn(s);
    } else {
      EndJobKeeps(s, Ending(ending.other, false));
    }
  }

  lemma ErrorSettles(s: State)
    requires Core(s) && s.version in s.manifest
    ensures Settled(RecordError(s)) && SameStore(s, RecordError(s)) && RecordError(s).job == s.job
    ensures s.job.Working? && CompactionOk(s, s.job.c) ==> CompactionOk(RecordError(s), s.job.c)
  {
    CoreParts(s);
    hide Core, EditOk, AddsNothing, CompactionOk, Numbered;
    SameStoreKeeps(s, RecordError(s));
  }

  lemma FreshHeld(s: State, n: nat, contents: set<Entry>, numbers: set<nat>)
    requires n !in s.tables
    ensures n !in numbers ==> Held(s.tables[n := contents], numbers) == Held(s.tables, numbers)
    ensures numbers <= s.tables.Keys ==>
              Held(s.tables[n := contents], numbers + {n}) == Held(s.tables, numbers) + contents
  {
    var tables' := s.tables[n := contents];
    forall e ensures n !in numbers ==> (Holds(tables', numbers, e) <==> Holds(s.tables, numbers, e)) {
      if k :| k in numbers && k in s.tables && e in s.tables[k] {
        assert k in tables' && e in tables'[k];
      }
    }
    if numbers <= s.tables.Keys {
      forall e ensures e in Held(tables', numbers + {n}) <==> e in Held(s.tables, numbers) + contents {
        if k :| k in numbers && k in s.tables && e in s.tables[k] {
          assert k in tables' && e in tables'[k];
        }
        assert e in contents ==> n in tables' && e in tables'[n];
      }
    }
  }

  /** A new table changes nothing about the others. */
  lemma TableAdded(s: State, n: nat, contents: set<Entry>)
    requires Settled(s) && n !in s.tables && n < s.nextFile && contents <= s.acked
    ensures Settled(s.(tables := s.tables[n := contents]))
  {
    hide Gone, LogsOk, NumbersOk, AgesOk, VersionOk, Held;
    var s' := s.(tables := s.tables[n := contents]);
    OnlyTables(s, s');
    forall m | m in s'.manifest ensures VersionOk(s', m) {
      FreshHeld(s, n, contents, m.tables.Keys);
      AddedVersion(s, s', m);
    }
    FreshHeld(s, n, contents, s.version.tables.Keys);
    assert forall e :: Holds(s'.tables, s.version.tables.Keys, e) <==> e in Held(s'.tables, s.version.tables.Keys);
  }

  lemma OnlyTables(s: State, s': State)
    requires s' == s.(tables := s'.tables)
    ensures LogsOk(s) ==> LogsOk(s')
    ensures NumbersOk(s) ==> NumbersOk(s')
    ensures AgesOk(s) ==> AgesOk(s')
  {
    hide DistinctSequences;
    SameEver(s, s');
    assert forall l, e :: InLog(s', l, e) <==> InLog(s, l, e);
  }

  lemma AddedVersion(s: State, s': State, m: Version)
    requires s' == s.(tables := s'.tables) && VersionOk(s, m)
    requires Held(s'.tables, m.tables.Keys) == Held(s.tables, m.tables.Keys)
    ensures VersionOk(s', m)
  {
    hide Gone;
    forall e | e in s'.acked ensures Accounted(s', m, e) {
      assert Accounted(s, m, e);
      assert e in Held(s.tables, m.tables.Keys) <==> e in Held(s'.tables, m.tables.Keys);
    }
  }

  lemma PendingDropped(s: State, n: nat)
    requires Settled(s)
    ensures Settled(s.(pending := s.pending - {n}))
    ensures forall c :: CompactionOk(s, c) && n !in c.outputs ==> CompactionOk(s.(pending := s.pending - {n}), c)
  {
    hide EntriesOk, AgesOk, ManifestOk, EditOk, AddsNothing, Ever, DistinctSequences, InputsOk, Held;
    var s' := s.(pending := s.pending - {n});
    SameTablesKeep(s, s');
    assert forall l, e :: InLog(s, l, e) <==> InLog(s', l, e);
  }

  /** A table that a compaction does not know changes nothing for it. */
  lemma CompactionKeepsTable(s: State, n: nat, contents: set<Entry>, c: Compaction)
    requires CompactionOk(s, c) && FilesOk(s) && n !in s.tables
    ensures CompactionOk(s.(tables := s.tables[n := contents]), c)
  {
    FreshHeld(s, n, contents, c.inputs);
    FreshHeld(s, n, contents, c.outputs);
    forall m | m in s.manifest ensures InputsOk(s.tables[n := contents], m, c.inputs, c.base) {
      FreshHeld(s, n, contents, m.tables.Keys - c.inputs);
      assert forall e :: Holds(s.tables[n := contents], c.inputs, e) <==> e in Held(s.tables, c.inputs);
      assert forall e :: Holds(s.tables[n := contents], m.tables.Keys - c.inputs, e)
                    <==> e in Held(s.tables, m.tables.Keys - c.inputs);
      assert InputsOk(s.tables, m, c.inputs, c.base);
    }
  }

  lemma MemTableWritten(s: State)
    requires Inv(s) && JobMem(s.job).Building? && s.imm.Some?
    ensures var (s', n) := (WithMemTable(s, JobMem(s.job).number), JobMem(s.job).number);
            && Settled(s') && (s.job.Working? ==> CompactionOk(s', s.job.c)) && HasMemTable(s', n)
  {
    var n := JobMem(s.job).number;
    var s1 := s.(pending := s.pending - {n});
    ImmAcked(s);
    hide FilesOk, LogsOk, EntriesOk, NumbersOk, AgesOk, ManifestOk, NeedsCompaction, CompactionOk;
    NotInOutputs(s, n);
    PendingDropped(s, n);
    if s.imm.value != {} {
      TableAdded(s1, n, s.imm.value);
      if s.job.Working? {
        CompactionKeepsTable(s1, n, s.imm.value, s.job.c);
      }
    }
  }

  lemma NotInOutputs(s: State, n: nat)
    requires n !in s.tables
    ensures forall c :: CompactionOk(s, c) ==> n !in c.outputs && n !in c.inputs
  {
    hide InputsOk, Held;
  }

  lemma MemEditCanApply(s: State, n: nat, level: nat)
    requires Core(s) && HasMemTable(s, n)
    ensures CanApply(s, MemEdit(s, n, level)) && Held(s.tables, MemEdit(s, n, level).added.Keys) <= Imm(s)
  {
    hide LogsOk, EntriesOk, NumbersOk, AgesOk, VersionOk, MemEdit;
    MemEditAdds(s, n, level);
    forall m | m in s.manifest
      ensures VersionOk(s, ApplyEdit(m, MemEdit(s, n, level)))
      ensures ApplyEdit(m, MemEdit(s, n, level)).tables.Keys <= s.tables.Keys
    {
      EditedParts(m, MemEdit(s, n, level));
      MemEditVersion(s, n, level, m);
    }
  }

  lemma MemEditCompaction(s: State, n: nat, level: nat, c: Compaction)
    requires Settled(s) && HasMemTable(s, n) && CompactionOk(s, c) && n !in c.inputs
    ensures forall m :: m in s.manifest ==> InputsOk(s.tables, ApplyEdit(m, MemEdit(s, n, level)), c.inputs, c.base)
  {
    hide FilesOk, LogsOk, EntriesOk, NumbersOk, AgesOk, ManifestOk, MemEdit, InputsOk, ApplyEdit;
    forall m | m in s.manifest ensures InputsOk(s.tables, ApplyEdit(m, MemEdit(s, n, level)), c.inputs, c.base) {
      MemEditInputs(s, n, level, m, c);
    }
  }

  lemma BuildTableKeeps(s: State, ok: bool, level: nat, ending: Ending)
    requires Inv(s) && Enabled(s, BuildTable(ok, level, ending))
    ensures Inv(Apply(s, BuildTable(ok, level, ending)))
  {
    hide Core, EditOk, AddsNothing, CompactionOk, NeedsCompaction, BeginApply, EndMem, ApplyEdit, RecordError;
    var n := JobMem(s.job).number;
    NotInOutputs(s, n);
    if !ok {
      var s1 := s.(pending := s.pending - {n});
      if s.manifest == {s.version} || s.bgError {
        PendingDropped(s, n);
      }
      ErrorSettles(s1);
      EndMemKeeps(RecordError(s1), ending);
    } else {
      MemTableWritten(s);
      var s2 := WithMemTable(s, n);
      if s.shuttingDown {
        ErrorSettles(s2);
        EndMemKeeps(RecordError(s2), ending);
      } else {
        MemTableApplied(s, n, level);
      }
    }
  }

  lemma MemTableApplied(s: State, n: nat, level: nat)
    requires Inv(s) && JobMem(s.job).Building? && n == JobMem(s.job).number && n !in s.tables
    requires var s2 := WithMemTable(s, n);
             Settled(s2) && (s.job.Working? ==> CompactionOk(s2, s.job.c)) && HasMemTable(s2, n)
    ensures var (s2, e) := (WithMemTable(s, n), MemEdit(s, n, level));
            var job := if s.job.Working? then s.job.(mem := Installing(e)) else MemOnly(Installing(e));
            Inv(BeginApply(s2, e).(job := job))
  {
    hide Core, EditOk, AddsNothing, CompactionOk, NeedsCompaction, BeginApply, ApplyEdit, CanApply, InputsOk, Held;
    var (s2, e) := (WithMemTable(s, n), MemEdit(s, n, level));
    NotInOutputs(s, n);
    MemEditCanApply(s2, n, level);
    if s.job.Working? {
      MemEditCompaction(s2, n, level, s.job.c);
    }
    ApplyBegins(s2, e, if s.job.Working? then s.job.(mem := Installing(e)) else MemOnly(Installing(e)));
  }

  lemma MemInstalledKeeps(s: State, ok: bool, ending: Ending)
    requires Inv(s) && Enabled(s, MemInstalled(ok, ending))
    ensures Inv(Apply(s, MemInstalled(ok, ending)))
  {
    hide Core, EditOk, AddsNothing, CompactionOk, NeedsCompaction, EndMem, ApplyEdit, Edited, DeleteObsoleteFiles, Held;
    hide Settled, RecordError;
    var e := JobMem(s.job).edit;
    if ok {
      var s1 := WithoutImm(EndApply(s, e, true));
      ImmInstalled(s, e);
      DeleteKeeps(s1);
      EndMemKeeps(DeleteObsoleteFiles(s1), ending);
    } else {
      ErrorSettles(s);
      EndMemKeeps(RecordError(s), ending);
    }
  }

  lemma WriteOutputKeeps(s: State, contents: set<Entry>)
    requires Inv(s) && Enabled(s, WriteOutput(contents))
    ensures Inv(Apply(s, WriteOutput(contents)))
  {
    hide Core, EditOk, AddsNothing, CompactionOk, NeedsCompaction, Held;
    var (s', n, c) := (Apply(s, WriteOutput(contents)), s.nextFile, s.job.c);
    OutputIsNew(s, contents);
    var s1 := s.(pending := s.pending + {n}, nextFile := n + 1);
    OutputNumbered(s, n);
    TableAdded(s1, n, contents);
    OutputJob(s1.(tables := s1.tables[n := contents]), s');
    OutputCompaction(s, s', n, contents, c);
  }

  lemma OutputIsNew(s: State, contents: set<Entry>)
    requires Core(s) && s.job.Working? && contents <= Held(s.tables, s.job.c.inputs)
    ensures FilesOk(s) && s.nextFile !in s.tables && contents <= s.acked
  {
    forall e | e in contents ensures e in s.acked {
      HeldAcked(s, s.job.c.inputs, e);
    }
  }

  lemma OutputNumbered(s: State, n: nat)
    requires Settled(s) && n == s.nextFile
    ensures Settled(s.(pending := s.pending + {n}, nextFile := n + 1))
  {
    hide EntriesOk, AgesOk, ManifestOk, EditOk, AddsNothing, Ever, DistinctSequences, CompactionOk;
    var s' := s.(pending := s.pending + {n}, nextFile := n + 1);
    SameTablesKeep(s, s');
    assert forall l, e :: InLog(s, l, e) <==> InLog(s', l, e);
  }

  lemma OutputJob(s: State, s': State)
    requires Settled(s) && s' == s.(job := s'.job)
    ensures Settled(s')
  {
    hide LogsOk, EntriesOk, NumbersOk, AgesOk, ManifestOk, VersionOk;
    ManifestChanges(s, s');
    assert ManifestOk(s') by { ManifestSame(s, s'); }
  }

  lemma ManifestSame(s: State, s': State)
    requires ManifestOk(s) && s' == s.(job := s'.job)
    ensures ManifestOk(s')
  {
    hide VersionOk;
    ManifestChanges(s, s');
  }

  lemma OutputCompaction(s: State, s': State, n: nat, contents: set<Entry>, c: Compaction)
    requires CompactionOk(s, c) && FilesOk(s) && n == s.nextFile && contents <= Held(s.tables, c.inputs)
    requires s' == s.(tables := s.tables[n := contents], pending := s.pending + {n}, nextFile := n + 1, job := s'.job)
    ensures CompactionOk(s', c.(outputs := c.outputs + {n}))
  {
    assert n !in s.tables;
    CompactionKeepsTable(s, n, contents, c);
    FreshHeld(s, n, contents, c.inputs);
    FreshHeld(s, n, contents, c.outputs);
    hide InputsOk, Held;
  }

  /** CleanupCompaction, and the deletion of what nobody needs any more. */
  lemma CleanupKeeps(s: State, c: Compaction, ending: Ending)
    requires Settled(s)
    ensures Inv(Cleanup(s, c, ending))
  {
    hide Settled, Inv, EndJob, DeleteObsoleteFiles;
    var s1 := s.(pending := s.pending - c.outputs, job := MemOnly(NoMem));
    CleanupSettled(s, s1);
    DeleteKeeps(s1);
    EndJobKeeps(DeleteObsoleteFiles(s1), ending);
  }

  lemma CleanupSettled(s: State, s': State)
    requires Settled(s) && s' == s.(pending := s'.pending, job := s'.job)
    ensures Settled(s')
  {
    hide EntriesOk, AgesOk, ManifestOk, EditOk, AddsNothing, Ever, DistinctSequences, CompactionOk;
    SameTablesKeep(s, s');
    assert forall l, e :: InLog(s, l, e) <==> InLog(s', l, e);
  }

  /** The compaction's edit may be written: nothing that a read could find is lost. */
  lemma CompactionCanApply(s: State, c: Compaction, input: seq<Entry>)
    requires Settled(s) && CompactionOk(s, c) && Compacted(s, c, input)
    ensures CanApply(s, CompactionEdit(s, c)) && AddsNothing(s, CompactionEdit(s, c))
  {
    hide LogsOk, EntriesOk, NumbersOk, AgesOk, VersionOk, InputsOk, Compacted;
    var e := CompactionEdit(s, c);
    assert e.added.Keys == c.outputs;
    InputsThere(s.tables, s.version, c.inputs, c.base);
    forall m | m in s.manifest ensures VersionOk(s, ApplyEdit(m, e)) && ApplyEdit(m, e).tables.Keys <= s.tables.Keys {
      EditedParts(m, e);
      CompactionEditVersion(s, c, input, m);
    }
    HeldMore(s.tables, c.inputs, s.version.tables.Keys);
  }

  lemma HeldMore(tables: map<nat, set<Entry>>, numbers: set<nat>, more: set<nat>)
    requires numbers <= more
    ensures Held(tables, numbers) <= Held(tables, more)
  {
  }

  lemma EndWorkKeeps(s: State, ok: bool, input: seq<Entry>, ending: Ending)
    requires Inv(s) && Enabled(s, EndWork(ok, input, ending))
    ensures Inv(Apply(s, EndWork(ok, input, ending)))
  {
    hide Core, EditOk, AddsNothing, CompactionOk, NeedsCompaction, BeginApply, Cleanup, ApplyEdit, CanApply, Compacted;
    hide CompactionEdit, RecordError;
    var c := s.job.c;
    if ok {
      CompactionCanApply(s, c, input);
      ApplyBegins(s, CompactionEdit(s, c), Applying(c, CompactionEdit(s, c)));
    } else {
      ErrorSettles(s);
      CleanupKeeps(RecordError(s), c, ending);
    }
  }

  /** LogAndApply for an edit of a compaction or a move. */
  lemma TableEditEnds(s: State, e: Edit, ok: bool)
    requires Inv(s) && EditInProgress(s.job) == Some(e) && AddsNothing(s, e)
    ensures Settled(EndApply(s, e, ok))
  {
    hide Core, AddsNothing, CompactionOk, NeedsCompaction, ApplyEdit, Edited, RecordError;
    if ok {
      TablesInstalled(s, e);
    } else {
      ErrorSettles(s);
    }
  }

  lemma AppliedKeeps(s: State, ok: bool, ending: Ending)
    requires Inv(s) && Enabled(s, Applied(ok, ending))
    ensures Inv(Apply(s, Applied(ok, ending)))
  {
    hide Core, EditOk, AddsNothing, CompactionOk, ScheduleOk, EndApply, Cleanup;
    TableEditEnds(s, s.job.edit, ok);
    CleanupKeeps(EndApply(s, s.job.edit, ok), s.job.c, ending);
  }

  lemma MovedKeeps(s: State, ok: bool, ending: Ending)
    requires Inv(s) && Enabled(s, Moved(ok, ending))
    ensures Inv(Apply(s, Moved(ok, ending)))
  {
    hide Core, EditOk, AddsNothing, CompactionOk, ScheduleOk, EndApply, EndJob;
    TableEditEnds(s, s.job.edit, ok);
    EndJobKeeps(EndApply(s, s.job.edit, ok), ending);
  }

  // ----- every step keeps it: the rest -----

  lemma RequestManualKeeps(s: State, other: bool)
    requires Inv(s) && Enabled(s, RequestManual(other))
    ensures Inv(Apply(s, RequestManual(other)))
  {
    CoreParts(s);
    hide Core, EditOk, AddsNothing, CompactionOk, NeedsCompaction, Numbered, MaybeSchedule, Writer.InFlight;
    var s1 := s.(manual := true);
    if s.writer.Asleep? {
      SameJobKeeps(s, s1);
      NothingToSchedule(s1, other);
    } else {
      SameStoreKeeps(s, s1);
      MaybeScheduleKeeps(s1, other);
    }
  }

  lemma NothingToSchedule(s: State, other: bool)
    requires s.job != NoJob || s.shuttingDown
    ensures MaybeSchedule(s, other) == s
  {
  }

  lemma ShutdownKeeps(s: State)
    requires Inv(s)
    ensures Inv(Apply(s, Shutdown))
  {
    CoreParts(s);
    hide Core, CertainOk, JobOk, NeedsCompaction, Numbered;
    SameJobKeeps(s, Apply(s, Shutdown));
  }

  /** Readers come and go. */
  lemma ReadersKeep(s: State, s': State)
    requires Inv(s) && s' == s.(pinned := s'.pinned, snapshots := s'.snapshots)
    requires forall i :: 0 <= i < |s'.pinned| ==> s'.pinned[i] <= s.tables.Keys
    requires forall i :: 0 <= i < |s'.snapshots| ==> s.floor <= s'.snapshots[i] <= s.lastSequence
    ensures Inv(s')
  {
    hide EntriesOk, AgesOk, ManifestOk, EditOk, AddsNothing, Ever, DistinctSequences, CompactionOk, NeedsCompaction;
    SameTablesKeep(s, s');
    assert forall l, e :: InLog(s, l, e) <==> InLog(s', l, e);
  }

  lemma ReaderBounds(s: State)
    requires Inv(s)
    ensures s.version.tables.Keys <= s.tables.Keys && s.floor <= s.lastSequence
    ensures forall i :: 0 <= i < |s.pinned| ==> s.pinned[i] <= s.tables.Keys
    ensures forall i :: 0 <= i < |s.snapshots| ==> s.floor <= s.snapshots[i] <= s.lastSequence
  {
    hide LogsOk, EntriesOk, AgesOk, ManifestOk, JobOk, ScheduleOk, DistinctSequences, Numbered, Ever;
  }

  lemma ReaderStepsKeep(s: State, step: Step)
    requires Inv(s) && Enabled(s, step) && (step.Pin? || step.Unpin? || step.TakeSnapshot? || step.ReleaseSnapshot?)
    ensures Inv(Apply(s, step))
  {
    ReaderBounds(s);
    ReaderStepIs(s, step);
    hide Inv, Apply, Enabled;
    ReadersKeep(s, Apply(s, step));
  }

  lemma ReaderStepIs(s: State, step: Step)
    requires Enabled(s, step) && (step.Pin? || step.Unpin? || step.TakeSnapshot? || step.ReleaseSnapshot?)
    ensures var s' := Apply(s, step);
            && s' == s.(pinned := s'.pinned, snapshots := s'.snapshots)
            && (forall i :: 0 <= i < |s'.pinned| ==> s'.pinned[i] == s.version.tables.Keys || s'.pinned[i] in s.pinned)
            && (forall i :: 0 <= i < |s'.snapshots| ==>
                  s'.snapshots[i] == s.lastSequence || s'.snapshots[i] in s.snapshots)
  {
  }

  lemma StepKeeps(s: State, step: Step)
    requires Inv(s) && Enabled(s, step)
    ensures Inv(Apply(s, step))
  {
    hide *;
    match step
    case StartWrite(request) => StartWriteKeeps(s, request);
    case TryRoom(full, created, other) => TryRoomKeeps(s, full, created, other);
    case SpuriousWakeup => SignalStep(s);
    case AddRecord(outcome) => AddRecordKeeps(s, outcome);
    case FinishWrite => FinishWriteKeeps(s);
    case BeginJob(pick, ending) => BeginJobKeeps(s, pick, ending);
    case CompactMem => CompactMemKeeps(s);
    case BuildTable(ok, level, ending) => BuildTableKeeps(s, ok, level, ending);
    case MemInstalled(ok, ending) => MemInstalledKeeps(s, ok, ending);
    case WriteOutput(contents) => WriteOutputKeeps(s, contents);
    case EndWork(ok, input, ending) => EndWorkKeeps(s, ok, input, ending);
    case Applied(ok, ending) => AppliedKeeps(s, ok, ending);
    case Moved(ok, ending) => MovedKeeps(s, ok, ending);
    case RequestManual(other) => RequestManualKeeps(s, other);
    case Shutdown => ShutdownKeeps(s);
    case Pin => ReaderStepsKeep(s, step);
    case Unpin(_) => ReaderStepsKeep(s, step);
    case TakeSnapshot => ReaderStepsKeep(s, step);
    case ReleaseSnapshot(_) => ReaderStepsKeep(s, step);
  }

  lemma SignalStep(s: State)
    requires Inv(s) && Enabled(s, SpuriousWakeup)
    ensures Inv(Apply(s, SpuriousWakeup))
  {
    hide Inv;
    SignalKeeps(s);
  }

  lemma CompactMemKeeps(s: State)
    requires Inv(s) && Enabled(s, CompactMem)
    ensures Inv(Apply(s, CompactMem))
  {
    BeginMemKeeps(s);
  }
}

/** What holds in every run of the state machine of Durability: whatever moment a crash comes at, and
    whatever compactions have dropped, reads give what was acknowledged. */
module DurabilitySafety {
  import opened Wrappers
  import opened DbFormat
  import opened MultiVersion
  import opened Retention
  import opened Durability
  import opened DurabilitySteps

  // ----- every run -----

  ghost predicate Run(trace: seq<State>, steps: seq<Step>) {
    && |trace| == |steps| + 1 && Init(trace[0])
    && (forall i :: 0 <= i < |steps| ==> Follows(trace[i], steps[i], trace[i + 1]))
  }

  ghost predicate Follows(s: State, step: Step, s': State) {
    Enabled(s, step) && s' == Apply(s, step)
  }

  lemma {:induction false} RunKeeps(trace: seq<State>, steps: seq<Step>, i: nat)
    requires Run(trace, steps) && i < |trace|
    ensures Inv(trace[i])
  {
    hide Inv, Enabled, Apply, Init;
    if i == 0 {
      InitInv(trace[0]);
    } else {
      RunKeeps(trace, steps, i - 1);
      assert Follows(trace[i - 1], steps[i - 1], trace[i]);
      StepKeeps(trace[i - 1], steps[i - 1]);
    }
  }

  /** What the logs hold that a recovery of this version reads. */
  ghost function Replayed(s: State, m: Version): (all: set<Entry>)
    ensures forall e :: e in all <==> exists l :: l >= m.logNumber && InLog(s, l, e)
  {
    set l, e | l in s.logs && e in s.logs[l] && l >= m.logNumber && InLog(s, l, e) :: e
  }

  /** What the recovery may find in them: all, but of what is behind a failed append perhaps only a part. */
  ghost predicate MayFind(s: State, m: Version, found: set<Entry>) {
    found <= Replayed(s, m) && Replayed(s, m) - s.unsure <= found
  }

  ghost function Recovered(s: State, m: Version, found: set<Entry>): set<Entry> {
    Held(s.tables, m.tables.Keys) + found
  }

  /** What was acknowledged and is then lost: it was still in memory, is in no table of the version, and was
      not found. */
  ghost function Lost(s: State, m: Version, found: set<Entry>): set<Entry> {
    set e | e in s.acked && e !in found && !Holds(s.tables, m.tables.Keys, e)
            && (e in s.mem || (e in Imm(s) && m.logNumber <= s.immLog))
  }

  /** No log that a recovery of this version reads has had a failed append. */
  ghost predicate Sound(s: State, m: Version) {
    forall l :: l in s.logs && l in s.torn ==> l < m.logNumber
  }

  /** What is in memory and in the tables of the current version. */
  ghost function Store(s: State): set<Entry> {
    s.mem + Imm(s) + Held(s.tables, s.version.tables.Keys)
  }

  /** What compactions have dropped does not matter, even if some of memory is lost: only what had left
      memory could hide it. */
  lemma RecoveredIsComplete(s: State, m: Version, found: set<Entry>, k: UserKey, snapshot: nat)
    requires LogsOk(s) && EntriesOk(s) && NumbersOk(s) && AgesOk(s) && VersionOk(s, m) && s.floor <= snapshot
    requires found <= Replayed(s, m)
    ensures Read(Recovered(s, m, found), k, snapshot) == Read(s.acked - Lost(s, m, found) + found, k, snapshot)
  {
    hide Gone, DistinctSequences;
    var (all, held) := (s.acked - Lost(s, m, found) + found, Held(s.tables, m.tables.Keys));
    var there := Recovered(s, m, found);
    forall e | e in held ensures e in all {
      HeldAcked(s, m.tables.Keys, e);
    }
    forall e | e in all ensures e in there || Gone(all, there, s.floor, e) {
      if e !in there {
        assert Accounted(s, m, e);
        forall g | g in there && g !in held ensures e.sequence <= g.sequence {
          var l :| l >= m.logNumber && InLog(s, l, g);
          assert InMemoryLogs(s, g);
        }
        GoneStays(Flushed(s), held, s.floor, all, there, s.floor, e);
      }
    }
    PartDistinct(s, all);
    ReadAgrees(all, there, s.floor, k, snapshot);
  }

  lemma PartDistinct(s: State, part: set<Entry>)
    requires NumbersOk(s) && part <= Ever(s)
    ensures DistinctSequences(part)
  {
  }

  lemma StoreIsComplete(s: State, k: UserKey, snapshot: nat)
    requires LogsOk(s) && EntriesOk(s) && NumbersOk(s) && AgesOk(s) && VersionOk(s, s.version) && s.floor <= snapshot
    ensures Read(Store(s), k, snapshot) == Read(s.acked, k, snapshot)
  {
    hide Gone, DistinctSequences;
    var (found, held) := (Store(s), Held(s.tables, s.version.tables.Keys));
    forall e | e in held ensures e in s.acked {
      HeldAcked(s, s.version.tables.Keys, e);
    }
    forall e | e in s.acked ensures e in found || Gone(s.acked, found, s.floor, e) {
      if e !in found {
        assert Accounted(s, s.version, e);
        forall g | g in found && g !in held ensures e.sequence <= g.sequence {
          assert g in s.mem ==> InLog(s, s.logFile, g);
          assert g in Imm(s) ==> InLog(s, s.immLog, g);
          assert InMemoryLogs(s, g);
        }
        GoneStays(Flushed(s), held, s.floor, s.acked, found, s.floor, e);
      }
    }
    PartDistinct(s, s.acked);
    ReadAgrees(s.acked, found, s.floor, k, snapshot);
  }

  /** The snapshots at which the store is read: those that are held, and LastSequence or later. */
  ghost predicate Readable(s: State, snapshot: nat) {
    s.lastSequence <= snapshot || snapshot in s.snapshots
  }

  /** Reading the memtables and the current tables gives what reading everything that was ever
      acknowledged gives, whatever compactions have dropped. */
  lemma AcknowledgedIsReadable(trace: seq<State>, steps: seq<Step>, i: nat, k: UserKey, snapshot: nat)
    requires Run(trace, steps) && i < |trace| && Readable(trace[i], snapshot)
    ensures Read(Store(trace[i]), k, snapshot) == Read(trace[i].acked, k, snapshot)
  {
    hide Run, JobOk, ScheduleOk, DistinctSequences, Store, VersionOk;
    RunKeeps(trace, steps, i);
    assert VersionOk(trace[i], trace[i].version);
    StoreIsComplete(trace[i], k, snapshot);
  }

  /** Nothing acknowledged is forgotten, and what comes later has greater numbers. */
  ghost predicate Grown(s: State, s': State) {
    && s.acked <= s'.acked && s.lastSequence <= s'.lastSequence
    && forall e :: e in s'.acked && e !in s.acked ==> s.lastSequence < e.sequence
  }

  /** Nothing is acknowledged, and nothing is appended to a log. */
  ghost predicate Quiet(s: State, s': State) {
    && s'.acked == s.acked && s'.lastSequence == s.lastSequence && s'.torn == s.torn && s'.unsure == s.unsure
    && (s.writer.Inserting? || s'.writer.Inserting? ==> s'.writer == s.writer) && s.nextFile <= s'.nextFile
    && (s'.logFile == s.logFile || s.nextFile <= s'.logFile)
    && forall l, e :: InLog(s', l, e) ==> InLog(s, l, e)
  }

  lemma SchedulingIsQuiet(s: State, other: bool)
    ensures Quiet(s, Signal(s)) && Quiet(s, RecordError(s)) && Quiet(s, MaybeSchedule(s, other))
  {
    hide NeedsCompaction;
  }

  lemma AppliesAreQuiet(s: State)
    ensures forall e :: Quiet(s, BeginApply(s, e))
    ensures Quiet(s, DeleteObsoleteFiles(s))
  {
  }

  lemma EndJobIsQuiet(s: State, ending: Ending)
    ensures Quiet(s, EndJob(s, ending))
  {
    hide Signal, MaybeSchedule;
    var s1 := s.(job := NoJob, manual := s.manual && !ending.manualDone);
    SchedulingIsQuiet(s1, ending.other);
    SchedulingIsQuiet(MaybeSchedule(s1, ending.other), ending.other);
  }

  lemma JobsAreQuiet(s: State, ending: Ending)
    ensures Quiet(s, EndJob(s, ending)) && Quiet(s, EndMem(s, ending)) && Quiet(s, RecordError(s))
    ensures forall c :: Quiet(s, Cleanup(s, c, ending))
  {
    hide Signal, EndJob, DeleteObsoleteFiles;
    EndJobIsQuiet(s, ending);
    EndJobIsQuiet(s, Ending(ending.other, false));
    SchedulingIsQuiet(s, false);
    if s.job.Working? {
      SchedulingIsQuiet(s.(job := s.job.(mem := NoMem)), false);
    }
    forall c: Compaction ensures Quiet(s, Cleanup(s, c, ending)) {
      var s1 := s.(pending := s.pending - c.outputs, job := MemOnly(NoMem));
      AppliesAreQuiet(s1);
      EndJobIsQuiet(DeleteObsoleteFiles(s1), ending);
    }
  }

  lemma BuildTableIs(s: State, ok: bool, level: nat, ending: Ending)
    requires Enabled(s, BuildTable(ok, level, ending))
    ensures var (n, s', e) := (JobMem(s.job).number, Apply(s, BuildTable(ok, level, ending)),
                               MemEdit(s, JobMem(s.job).number, level));
            if !ok then s' == EndMem(RecordError(s.(pending := s.pending - {n})), ending)
            else if s.shuttingDown then s' == EndMem(RecordError(WithMemTable(s, n)), ending)
            else
              var job := if s.job.Working? then s.job.(mem := Installing(e)) else MemOnly(Installing(e));
              s' == BeginApply(WithMemTable(s, n), e).(job := job)
  {
    hide EndMem, RecordError, NoOverlap, Edited;
  }

  lemma GivingUpIsQuiet(s: State, ending: Ending)
    ensures Quiet(s, EndMem(RecordError(s), ending))
  {
    hide EndMem, RecordError;
    JobsAreQuiet(s, ending);
    JobsAreQuiet(RecordError(s), ending);
  }

  lemma BuildTableIsQuiet(s: State, ok: bool, level: nat, ending: Ending)
    requires Enabled(s, BuildTable(ok, level, ending))
    ensures Quiet(s, Apply(s, BuildTable(ok, level, ending)))
  {
    BuildTableIs(s, ok, level, ending);
    hide EndMem, RecordError, Apply, Edited, NoOverlap;
    var n := JobMem(s.job).number;
    if !ok {
      GivingUpIsQuiet(s.(pending := s.pending - {n}), ending);
    } else if s.shuttingDown {
      GivingUpIsQuiet(WithMemTable(s, n), ending);
    }
  }

  lemma BeginJobIsQuiet(s: State, pick: Pick, ending: Ending)
    requires Enabled(s, BeginJob(pick, ending))
    ensures Quiet(s, Apply(s, BeginJob(pick, ending)))
  {
    if s.shuttingDown || s.bgError || s.imm.Some? {
      hide EndJob, Closed, IsBase;
      EndJobIsQuiet(s, Ending(ending.other, false));
    } else {
      hide Apply, Enabled;
      TableWorkIsQuiet(s, pick, ending);
    }
  }

  lemma TableWorkIsQuiet(s: State, pick: Pick, ending: Ending)
    requires Enabled(s, BeginJob(pick, ending)) && !s.shuttingDown && !s.bgError && s.imm.None?
    ensures Quiet(s, Apply(s, BeginJob(pick, ending)))
  {
    hide EndJob, Closed, IsBase, Edited;
    EndJobIsQuiet(s, ending);
  }

  lemma MemInstalledIsQuiet(s: State, ok: bool, ending: Ending)
    requires Enabled(s, MemInstalled(ok, ending))
    ensures Quiet(s, Apply(s, MemInstalled(ok, ending)))
  {
    hide EndMem, RecordError, ApplyEdit, Edited, DeleteObsoleteFiles;
    var s1 := EndApply(s, JobMem(s.job).edit, ok);
    AppliesAreQuiet(WithoutImm(s1));
    JobsAreQuiet(s, ending);
    JobsAreQuiet(s1, ending);
    JobsAreQuiet(DeleteObsoleteFiles(WithoutImm(s1)), ending);
  }

  lemma EndWorkIsQuiet(s: State, ok: bool, input: seq<Entry>, ending: Ending)
    requires Enabled(s, EndWork(ok, input, ending))
    ensures Quiet(s, Apply(s, EndWork(ok, input, ending)))
  {
    hide Cleanup, RecordError, CompactionEdit, Edited, Compacted;
    JobsAreQuiet(s, ending);
    JobsAreQuiet(RecordError(s), ending);
  }

  lemma EndApplyIsQuiet(s: State, e: Edit, ok: bool)
    ensures Quiet(s, EndApply(s, e, ok))
  {
    hide RecordError, ApplyEdit, Edited;
    SchedulingIsQuiet(s, false);
  }

  lemma TableEditIsQuiet(s: State, step: Step)
    requires Enabled(s, step) && (step.Applied? || step.Moved?)
    ensures Quiet(s, Apply(s, step))
  {
    hide EndJob, Cleanup, EndApply;
    EndApplyIsQuiet(s, s.job.edit, step.ok);
    JobsAreQuiet(EndApply(s, s.job.edit, step.ok), step.ending);
  }

  lemma TryRoomIsQuiet(s: State, full: bool, created: bool, other: bool)
    requires Enabled(s, TryRoom(full, created, other))
    ensures Quiet(s, Apply(s, TryRoom(full, created, other)))
  {
    RoomShape(s, full, created, other);
    hide MaybeSchedule, Version.LevelZero, Room, Switches;
    SchedulingIsQuiet(Switched(s), other);
  }

  lemma AddRecordGrows(s: State, outcome: LogOutcome)
    requires NumbersOk(s) && Enabled(s, AddRecord(outcome))
    ensures Grown(s, Apply(s, AddRecord(outcome)))
  {
    BatchIsNewer(s);
    hide NumbersOk, RecordError;
    SchedulingIsQuiet(Failed(Logged(s, s.writer.batch), s.writer.batch), false);
  }

  lemma FinishWriteGrows(s: State)
    requires NumbersOk(s) && Enabled(s, FinishWrite)
    ensures Grown(s, Apply(s, FinishWrite))
  {
    BatchIsNewer(s);
    hide NumbersOk;
  }

  lemma BatchIsNewer(s: State)
    requires NumbersOk(s) && (s.writer.Logging? || s.writer.Inserting?)
    ensures s.lastSequence <= s.writer.batch.last
    ensures forall e :: e in s.writer.batch.entries ==> s.lastSequence < e.sequence
  {
    hide DistinctSequences;
  }

  lemma StepIsQuiet(s: State, step: Step)
    requires Enabled(s, step) && !step.AddRecord? && !step.FinishWrite?
    ensures Quiet(s, Apply(s, step))
  {
    hide EndMem, RecordError, BeginApply, Holds, Held, InputsOk, Compacted, MaybeSchedule, Cleanup, EndJob, EndApply;
    if step.BeginJob? {
      hide Apply, Enabled;
      BeginJobIsQuiet(s, step.pick, step.ending);
    } else if step.MemInstalled? {
      hide Apply, Enabled;
      MemInstalledIsQuiet(s, step.ok, step.ending);
    } else if step.EndWork? {
      hide Apply, Enabled;
      EndWorkIsQuiet(s, step.ok, step.input, step.ending);
    } else if step.Applied? || step.Moved? {
      hide Apply, Enabled;
      TableEditIsQuiet(s, step);
    } else if step.BuildTable? {
      hide Apply, Enabled;
      BuildTableIsQuiet(s, step.ok, step.level, step.ending);
    } else if step.TryRoom? {
      hide Apply, Enabled;
      TryRoomIsQuiet(s, step.full, step.created, step.other);
    } else {
      SchedulingIsQuiet(s, false);
      if step.RequestManual? {
        SchedulingIsQuiet(s.(manual := true), step.other);
      }
    }
  }

  lemma StepGrows(s: State, step: Step)
    requires NumbersOk(s) && Enabled(s, step)
    ensures Grown(s, Apply(s, step))
  {
    hide NumbersOk, Apply, Enabled;
    if step.AddRecord? {
      AddRecordGrows(s, step.outcome);
    } else if step.FinishWrite? {
      FinishWriteGrows(s);
    } else {
      StepIsQuiet(s, step);
    }
  }

  lemma {:induction false} RunGrows(trace: seq<State>, steps: seq<Step>, i: nat, j: nat)
    requires Run(trace, steps) && i <= j < |trace|
    ensures Grown(trace[i], trace[j])
    decreases j
  {
    hide Inv, Enabled, Apply, Init;
    if i < j {
      RunGrows(trace, steps, i, j - 1);
      RunKeeps(trace, steps, j - 1);
      assert Follows(trace[j - 1], steps[j - 1], trace[j]);
      assert NumbersOk(trace[j - 1]) by { InvNumbers(trace[j - 1]); }
      StepGrows(trace[j - 1], steps[j - 1]);
    }
  }

  lemma InvNumbers(s: State)
    requires Inv(s)
    ensures NumbersOk(s)
  {
  }

  // ----- torn logs -----

  /** What reading a log may miss of what was acknowledged, or is about to be, is in a torn log. */
  ghost predicate TornOk(s: State) {
    && (forall l :: l in s.torn ==> l <= s.logFile)
    && (forall e :: e in s.unsure ==> e.sequence <= s.lastSequence || Arriving(s, e))
    && forall l, e :: InLog(s, l, e) && e in s.unsure && (e in s.acked || Arriving(s, e)) ==> l in s.torn
  }

  ghost predicate Arriving(s: State, e: Entry) {
    s.writer.Inserting? && e in s.writer.batch.entries
  }

  lemma InitTorn(s: State)
    requires Init(s)
    ensures TornOk(s)
  {
    hide DistinctSequences, NeedsCompaction;
  }

  lemma QuietTorn(s: State, s': State)
    requires TornOk(s) && Quiet(s, s') && s.logFile < s.nextFile
    ensures TornOk(s')
  {
  }

  /** The batch goes to the current log. If the writer goes on to insert it, it may be missed only if that
      log is torn. */
  lemma AppendedTorn(s: State, b: Batch, s': State)
    requires TornOk(s) && s.writer == Logging(b) && s.logFile in s.logs && s.logFile < s.nextFile
    requires forall e :: e in b.entries ==> s.lastSequence < e.sequence <= b.last
    requires forall l, e :: InLog(s, l, e) || e in s.acked ==> e.sequence <= s.lastSequence
    requires s.lastSequence <= b.last && s' == Logged(s, b).(torn := s'.torn, unsure := s'.unsure, writer := s'.writer,
                                                            lastSequence := s'.lastSequence)
    requires s.torn <= s'.torn <= s.torn + {s.logFile} && s'.unsure <= s.unsure + b.entries
    requires || (s'.writer == Inserting(b) && s'.lastSequence == s.lastSequence
                 && (s'.unsure == s.unsure || s.logFile in s.torn))
             || (s'.writer == Idle && s'.lastSequence == b.last)
    ensures TornOk(s')
  {
    forall l, e | InLog(s', l, e) && e in s'.unsure && (e in s'.acked || Arriving(s', e)) ensures l in s'.torn {
      assert InLog(s, l, e) || (l == s.logFile && e in b.entries);
    }
  }

  lemma AddRecordTorn(s: State, outcome: LogOutcome)
    requires FilesOk(s) && LogsOk(s) && NumbersOk(s) && TornOk(s) && Enabled(s, AddRecord(outcome))
    ensures TornOk(Apply(s, AddRecord(outcome)))
  {
    var b := s.writer.batch;
    BatchIsNewer(s);
    BatchIsUpTo(s);
    LoggedEntries(s, b);
    AckedNumbers(s);
    LogFileIsOld(s);
    hide NumbersOk, FilesOk, LogsOk, TornOk, InLog, RecordError;
    AddRecordIs(s, outcome);
    hide Apply, Enabled;
    if outcome.SyncFailed? {
      AppendedTorn(s, b, Failed(Unsynced(s, b), b));
      ErrorTorn(Failed(Unsynced(s, b), b));
    } else if outcome.NotAppended? {
      AppendedTorn(s, b, Failed(Logged(Torn(s), b), b));
    } else {
      AppendedTorn(s, b, Logged(s, b).(writer := Inserting(b)));
    }
  }

  lemma ErrorTorn(s: State)
    requires TornOk(s) && s.logFile < s.nextFile
    ensures TornOk(RecordError(s))
  {
    SchedulingIsQuiet(s, false);
    QuietTorn(s, RecordError(s));
  }

  lemma AddRecordIs(s: State, outcome: LogOutcome)
    requires Enabled(s, AddRecord(outcome))
    ensures s.writer == Logging(s.writer.batch) && s.logFile in s.logs
    ensures var (b, s') := (s.writer.batch, Apply(s, AddRecord(outcome)));
            match outcome
            case Appended => s' == Logged(s, b).(writer := Inserting(b))
            case NotAppended => s' == Failed(Logged(Torn(s), b), b)
            case SyncFailed => s' == RecordError(Failed(Unsynced(s, b), b))
  {
    hide RecordError, Logged, Failed, Torn;
  }

  lemma LogFileIsOld(s: State)
    requires FilesOk(s) && LogsOk(s)
    ensures s.logFile < s.nextFile
  {
  }

  lemma BatchIsUpTo(s: State)
    requires NumbersOk(s) && (s.writer.Logging? || s.writer.Inserting?)
    ensures forall e :: e in s.writer.batch.entries ==> e.sequence <= s.writer.batch.last
  {
    hide DistinctSequences;
  }

  lemma AckedNumbers(s: State)
    requires NumbersOk(s)
    ensures forall e :: e in s.acked ==> e.sequence <= s.lastSequence
  {
  }

  lemma FinishWriteTorn(s: State)
    requires NumbersOk(s) && TornOk(s) && Enabled(s, FinishWrite)
    ensures TornOk(Apply(s, FinishWrite))
  {
    BatchIsUpTo(s);
    BatchIsNewer(s);
    hide NumbersOk;
    var s' := Apply(s, FinishWrite);
    forall l, e | InLog(s', l, e) && e in s'.unsure && (e in s'.acked || Arriving(s', e)) ensures l in s'.torn {
      assert InLog(s, l, e);
    }
  }

  lemma StepTorn(s: State, step: Step)
    requires FilesOk(s) && LogsOk(s) && NumbersOk(s) && TornOk(s) && Enabled(s, step)
    ensures TornOk(Apply(s, step))
  {
    LogFileIsOld(s);
    hide FilesOk, LogsOk, NumbersOk, TornOk, Enabled, Apply;
    if step.AddRecord? {
      AddRecordTorn(s, step.outcome);
    } else if step.FinishWrite? {
      FinishWriteTorn(s);
    } else {
      StepIsQuiet(s, step);
      QuietTorn(s, Apply(s, step));
    }
  }

  lemma {:induction false} RunTorn(trace: seq<State>, steps: seq<Step>, i: nat)
    requires Run(trace, steps) && i < |trace|
    ensures TornOk(trace[i])
  {
    hide Inv, Enabled, Apply, Init, TornOk;
    if i == 0 {
      InitTorn(trace[0]);
    } else {
      RunTorn(trace, steps, i - 1);
      RunKeeps(trace, steps, i - 1);
      assert Follows(trace[i - 1], steps[i - 1], trace[i]);
      InvParts(trace[i - 1]);
      StepTorn(trace[i - 1], steps[i - 1]);
    }
  }

  lemma InvParts(s: State)
    requires Inv(s)
    ensures Core(s) && FilesOk(s) && LogsOk(s) && EntriesOk(s) && NumbersOk(s) && AgesOk(s) && ManifestOk(s)
  {
  }

  /** What can get lost is what is behind a failed append and in no table yet. */
  ghost predicate AtRisk(s: State, m: Version, e: Entry) {
    && e in s.acked && e in s.unsure && !Holds(s.tables, m.tables.Keys, e)
    && (e in s.mem || (e in Imm(s) && m.logNumber <= s.immLog))
  }

  /** It is in a torn log that the recovery reads. */
  lemma RiskIsInTornLog(s: State, m: Version, e: Entry) returns (l: nat)
    requires LogsOk(s) && TornOk(s) && VersionOk(s, m) && AtRisk(s, m, e)
    ensures l >= m.logNumber && l in s.torn && InLog(s, l, e)
  {
    l := if e in s.mem then s.logFile else s.immLog;
    assert InLog(s, l, e);
  }

  ghost predicate CanBeLost(s: State, m: Version, e: Entry) {
    exists found :: MayFind(s, m, found) && e in Lost(s, m, found)
  }

  /** It may be lost, and nothing else is. */
  lemma LostExactly(s: State, m: Version, e: Entry)
    requires LogsOk(s) && VersionOk(s, m)
    ensures AtRisk(s, m, e) <==> CanBeLost(s, m, e)
  {
    if AtRisk(s, m, e) {
      var found := Replayed(s, m) - {e};
      assert MayFind(s, m, found) && e in Lost(s, m, found);
    }
    if found :| MayFind(s, m, found) && e in Lost(s, m, found) {
      LostIsAtRisk(s, m, found, e);
    }
  }

  lemma LostIsAtRisk(s: State, m: Version, found: set<Entry>, e: Entry)
    requires LogsOk(s) && VersionOk(s, m) && MayFind(s, m, found) && e in Lost(s, m, found)
    ensures AtRisk(s, m, e)
  {
    var l := if e in s.mem then s.logFile else s.immLog;
    assert InLog(s, l, e) && l >= m.logNumber;
  }

  /** Crash at any moment, and whatever version the MANIFEST then yields: all its tables are on disk, and
      reading them together with what the recovery finds in the logs it replays gives what reading
      everything that was ever acknowledged gives, without what is lost, and with the unacknowledged writes
      that were found. Lost is only what lies behind a failed append in a replayed log. If no replayed log
      has had one, nothing is lost. */
  lemma AcknowledgedIsDurable(trace: seq<State>, steps: seq<Step>, i: nat, m: Version, found: set<Entry>, k: UserKey,
                              snapshot: nat)
    requires Run(trace, steps) && i < |trace| && m in trace[i].manifest && Readable(trace[i], snapshot)
    requires MayFind(trace[i], m, found)
    ensures var (s, lost) := (trace[i], Lost(trace[i], m, found));
            && m.tables.Keys <= s.tables.Keys
            && Read(Recovered(s, m, found), k, snapshot) == Read(s.acked - lost + found, k, snapshot)
            && (forall e :: e in lost ==>
                  e in s.unsure && exists l :: l >= m.logNumber && l in s.torn && InLog(s, l, e))
            && (Sound(s, m) ==> lost == {})
            && (lost == {} && found <= s.acked ==>
                  Read(Recovered(s, m, found), k, snapshot) == Read(s.acked, k, snapshot))
  {
    hide Run, CertainOk, JobOk, ScheduleOk, DistinctSequences, Recovered, Replayed, VersionOk, Lost, TornOk, AtRisk;
    RunKeeps(trace, steps, i);
    RunTorn(trace, steps, i);
    var (s, lost) := (trace[i], Lost(trace[i], m, found));
    assert VersionOk(s, m);
    RecoveredIsComplete(s, m, found, k, snapshot);
    LostIsTorn(s, m, found);
    assert lost == {} && found <= s.acked ==> s.acked - lost + found == s.acked;
  }

  lemma LostIsTorn(s: State, m: Version, found: set<Entry>)
    requires LogsOk(s) && TornOk(s) && VersionOk(s, m) && MayFind(s, m, found)
    ensures forall e :: e in Lost(s, m, found) ==>
              e in s.unsure && exists l :: l >= m.logNumber && l in s.torn && InLog(s, l, e)
    ensures Sound(s, m) ==> Lost(s, m, found) == {}
  {
    hide LogsOk, TornOk, VersionOk, MayFind, Lost;
    forall e | e in Lost(s, m, found)
      ensures e in s.unsure && exists l :: l >= m.logNumber && l in s.torn && InLog(s, l, e)
      ensures !Sound(s, m)
    {
      LostIsAtRisk(s, m, found, e);
      var l := RiskIsInTornLog(s, m, e);
    }
  }

  /** A snapshot reads the same as long as it is held, whatever is written, flushed, compacted and deleted
      in between. */
  lemma SnapshotsAreStable(trace: seq<State>, steps: seq<Step>, i: nat, j: nat, k: UserKey, snapshot: nat)
    requires Run(trace, steps) && i <= j < |trace| && snapshot in trace[i].snapshots && snapshot in trace[j].snapshots
    ensures Read(Store(trace[i]), k, snapshot) == Read(Store(trace[j]), k, snapshot)
  {
    AcknowledgedIsReadable(trace, steps, i, k, snapshot);
    AcknowledgedIsReadable(trace, steps, j, k, snapshot);
    RunGrows(trace, steps, i, j);
    RunKeeps(trace, steps, i);
    RunKeeps(trace, steps, j);
    hide Run, Store, Inv, Ever;
    InvNumbers(trace[i]);
    InvNumbers(trace[j]);
    SameBelow(trace[i], trace[j], k, snapshot);
  }

  lemma SameBelow(s: State, s': State, k: UserKey, snapshot: nat)
    requires Grown(s, s') && NumbersOk(s') && snapshot <= s.lastSequence
    ensures Read(s.acked, k, snapshot) == Read(s'.acked, k, snapshot)
  {
    PartDistinct(s', s'.acked);
    DistinctSequencesAreTags(s'.acked);
    if e0 :| e0 in s'.acked && Visible(e0, k, snapshot) {
      var e := LatestExists(s'.acked, k, snapshot, e0);
      assert IsLatest(s.acked, k, snapshot, e);
      SameLatestSameRead(s.acked, s'.acked, k, snapshot, e);
    } else {
      ReadOfNothing(s.acked, k, snapshot);
      ReadOfNothing(s'.acked, k, snapshot);
    }
  }

  /** At most two logs back what is only in memory, and both are still there: the current one, and the one
      of the immutable memtable. Neither is older than the log number of the current version, so
      deletion never takes it. */
  lemma TwoLogsBackMemory(trace: seq<State>, steps: seq<Step>, i: nat)
    requires Run(trace, steps) && i < |trace|
    ensures var s := trace[i];
            && s.logFile in s.logs && s.mem <= s.logs[s.logFile] && s.version.logNumber <= s.logFile
            && (s.imm.Some? ==>
                  s.immLog in s.logs && s.imm.value <= s.logs[s.immLog] && s.version.logNumber <= s.immLog)
            && s.logFile in DeleteObsoleteFiles(s).logs
            && (s.imm.Some? ==> s.immLog in DeleteObsoleteFiles(s).logs)
  {
    hide Run, FilesOk, EntriesOk, NumbersOk, AgesOk, ManifestOk, CertainOk, JobOk, ScheduleOk;
    RunKeeps(trace, steps, i);
  }

  /** A version a reader holds keeps its tables, for as long as it is held. */
  lemma ReadersKeepTheirTables(trace: seq<State>, steps: seq<Step>, i: nat, p: nat)
    requires Run(trace, steps) && i < |trace| && p < |trace[i].pinned|
    ensures trace[i].pinned[p] <= trace[i].tables.Keys
  {
    hide Run, LogsOk, EntriesOk, NumbersOk, AgesOk, ManifestOk, CertainOk, JobOk, ScheduleOk;
    RunKeeps(trace, steps, i);
  }

  /** Whenever the mutex is free: if there is an immutable memtable, and neither an error nor a shutdown,
      then the one background job is scheduled or running; has_imm_ agrees with imm_; and a writer that
      sleeps has a job that will wake it. */
  lemma NoLostWakeup(trace: seq<State>, steps: seq<Step>, i: nat)
    requires Run(trace, steps) && i < |trace|
    ensures var s := trace[i];
            && (s.hasImm <==> s.imm.Some?)
            && (s.imm.Some? && !s.bgError && !s.shuttingDown ==> s.job != NoJob)
            && (s.version.LevelZero() >= L0_COMPACTION_TRIGGER && !s.bgError && !s.shuttingDown ==> s.job != NoJob)
            && (s.writer.Asleep? && !s.shuttingDown ==> s.job != NoJob)
  {
    hide Run, FilesOk, EntriesOk, NumbersOk, AgesOk, ManifestOk, CertainOk, JobOk;
    RunKeeps(trace, steps, i);
  }

  lemma EndJobSignals(s: State, ending: Ending)
    ensures !EndJob(s, ending).writer.Asleep?
  {
  }

  /** CompactMemTable ends the job or a compaction goes on; either way it signals. */
  lemma EndMemSignals(s: State, ending: Ending)
    ensures !EndMem(s, ending).writer.Asleep?
  {
  }

  lemma SchedulingKeepsJobs(s: State, other: bool)
    requires s.job != NoJob
    ensures MaybeSchedule(s, other) == s && RecordError(s).job == s.job
  {
  }

  lemma WriterStepsKeepJobs(s: State, step: Step)
    requires Enabled(s, step) && s.job != NoJob
    requires || step.StartWrite? || step.TryRoom? || step.SpuriousWakeup? || step.AddRecord? || step.FinishWrite?
             || step.RequestManual?
    ensures Apply(s, step).job != NoJob
  {
    hide Holds, Held, MaybeSchedule, RecordError, Numbered, Version.LevelZero, Room;
    match step
    case TryRoom(full, created, other) =>
      RoomShape(s, full, created, other);
      SchedulingKeepsJobs(Switched(s), other);
    case AddRecord(outcome) =>
      AddRecordIs(s, outcome);
      hide Apply, Enabled;
      SchedulingKeepsJobs(Failed(Unsynced(s, s.writer.batch), s.writer.batch), false);
    case RequestManual(other) => SchedulingKeepsJobs(s.(manual := true), other);
    case StartWrite(_) =>
    case SpuriousWakeup =>
    case FinishWrite =>
  }

  /** And it does wake it: a job never ends and leaves the writer asleep. */
  lemma JobsEndWithASignal(s: State, step: Step)
    requires Enabled(s, step) && s.job != NoJob && Apply(s, step).job == NoJob
    ensures !Apply(s, step).writer.Asleep?
  {
    hide EndJob, EndMem, BeginApply, EndApply, DeleteObsoleteFiles, Holds, Held, RecordError, ApplyEdit, CompactionEdit;
    match step
    case BeginJob(pick, ending) =>
      EndJobSignals(s, ending);
      EndJobSignals(s, Ending(ending.other, false));
    case BuildTable(ok, level, ending) =>
      var s1 := s.(pending := s.pending - {JobMem(s.job).number});
      EndMemSignals(RecordError(s1), ending);
      EndMemSignals(RecordError(WithMemTable(s, JobMem(s.job).number)), ending);
    case MemInstalled(ok, ending) =>
      var s1 := EndApply(s, JobMem(s.job).edit, ok);
      EndMemSignals(s1, ending);
      EndMemSignals(DeleteObsoleteFiles(s1.(imm := None, hasImm := false)), ending);
    case EndWork(ok, input, ending) => CleanupSignals(RecordError(s), s.job.c, ending);
    case Applied(ok, ending) => CleanupSignals(EndApply(s, s.job.edit, ok), s.job.c, ending);
    case Moved(ok, ending) => EndJobSignals(EndApply(s, s.job.edit, ok), ending);
    case StartWrite(_) => WriterStepsKeepJobs(s, step);
    case TryRoom(_, _, other) => WriterStepsKeepJobs(s, step);
    case SpuriousWakeup => WriterStepsKeepJobs(s, step);
    case AddRecord(_) => WriterStepsKeepJobs(s, step);
    case FinishWrite => WriterStepsKeepJobs(s, step);
    case RequestManual(_) => WriterStepsKeepJobs(s, step);
    case CompactMem =>
    case WriteOutput(_) =>
    case Shutdown =>
    case Pin =>
    case Unpin(_) =>
    case TakeSnapshot =>
    case ReleaseSnapshot(_) =>
  }

  lemma CleanupSignals(s: State, c: Compaction, ending: Ending)
    ensures !Cleanup(s, c, ending).writer.Asleep?
  {
    EndJobSignals(DeleteObsoleteFiles(s.(pending := s.pending - c.outputs, job := MemOnly(NoMem))), ending);
  }
}

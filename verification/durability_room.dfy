/** Making room: because writers wait in front of too many tables in level 0, there are never more than twelve
    of them, however writes, memtable compactions and table compactions interleave. */
module DurabilityRoom {
  import opened Wrappers
  import opened DbFormat
  import opened Durability
  import opened DurabilitySteps
  import opened DurabilitySafety
  import opened DurabilityLevels
  import opened DurabilityFiles

  /** The immutable memtable counts as the table it may become. */
  ghost predicate Bounded(v: Version, imm: bool) {
    v.LevelZero() + (if imm then 1 else 0) <= 12
  }

  /** A memtable's edit adds at most one table, and those of compactions and moves none in level 0. */
  ghost predicate EditsOk(job: Job) {
    && (JobMem(job).Installing? ==> AtMostOne(JobMem(job).edit))
    && (job.Applying? ==> NoneInLevelZero(job.edit))
    && (job.Moving? ==> NoneInLevelZero(job.edit))
  }

  ghost predicate AtMostOne(e: Edit) {
    exists n: nat :: e.added.Keys <= {n}
  }

  ghost predicate NoneInLevelZero(e: Edit) {
    forall n :: n in e.added ==> e.added[n] > 0
  }

  ghost predicate RoomOk(s: State) {
    Bounded(s.version, s.imm.Some?) && EditsOk(s.job)
  }

  lemma {:induction false} Fewer(a: set<nat>, b: set<nat>)
    requires a <= b
    ensures |a| <= |b|
    decreases a
  {
    if x :| x in a {
      Fewer(a - {x}, b - {x});
    }
  }

  lemma EditedLevelZero(v: Version, e: Edit)
    ensures AtMostOne(e) ==> ApplyEdit(v, e).LevelZero() <= v.LevelZero() + 1
    ensures NoneInLevelZero(e) ==> ApplyEdit(v, e).LevelZero() <= v.LevelZero()
  {
    var (a, b) := (v.LevelZeroTables(), ApplyEdit(v, e).LevelZeroTables());
    if n: nat :| e.added.Keys <= {n} {
      Fewer(b, a + {n});
    }
    if NoneInLevelZero(e) {
      Fewer(b, a);
    }
  }

  /** The job is over or a compaction goes on, and nothing else changed. */
  lemma EndedRoom(s: State, s': State, job: Job)
    requires Bounded(s'.version, s'.imm.Some?) && Rests(job, s'.job)
    ensures RoomOk(s')
  {
    hide Bounded;
  }

  lemma EndMemRoom(s: State, ending: Ending)
    requires Bounded(s.version, s.imm.Some?)
    ensures RoomOk(EndMem(s, ending))
  {
    hide Bounded, EndMem, RoomOk;
    EndRests(s, ending);
    EndMemFiles(s, ending);
    EndedRoom(s, EndMem(s, ending), s.job);
  }

  lemma EndJobRoom(s: State, ending: Ending)
    requires Bounded(s.version, s.imm.Some?)
    ensures RoomOk(EndJob(s, ending))
  {
    hide Bounded, EndJob, RoomOk;
    EndRests(s, ending);
    SameImm(s, ending);
    EndedRoom(s, EndJob(s, ending), s.job);
  }

  lemma SameImm(s: State, ending: Ending)
    ensures EndJob(s, ending).imm == s.imm
  {
    hide NeedsCompaction;
  }

  lemma CleanupRoom(s: State, c: Compaction, ending: Ending)
    requires Bounded(s.version, s.imm.Some?)
    ensures RoomOk(Cleanup(s, c, ending))
  {
    var s1 := s.(pending := s.pending - c.outputs, job := MemOnly(NoMem));
    DeletionRests(s1);
    assert DeleteObsoleteFiles(s1).imm == s.imm;
    hide Bounded, DeleteObsoleteFiles, EndJob;
    EndJobRoom(DeleteObsoleteFiles(s1), ending);
  }

  lemma ErrorRoom(s: State)
    ensures RecordError(s).version == s.version && RecordError(s).imm == s.imm && RecordError(s).job == s.job
  {
  }

  // ----- the steps -----

  lemma TryRoomRoom(s: State, full: bool, created: bool, other: bool)
    requires RoomOk(s) && Enabled(s, TryRoom(full, created, other))
    ensures RoomOk(Apply(s, TryRoom(full, created, other)))
  {
    RoomShape(s, full, created, other);
    hide MaybeSchedule, Room, EditsOk;
    ScheduleRests(Switched(s), other);
    ScheduledImm(Switched(s), other);
    if Switches(s, full, created) {
      ScheduledEdits(Switched(s), other);
    }
  }

  lemma ScheduledImm(s: State, other: bool)
    ensures MaybeSchedule(s, other).imm == s.imm
  {
  }

  lemma ScheduledEdits(s: State, other: bool)
    requires EditsOk(s.job)
    ensures EditsOk(MaybeSchedule(s, other).job)
  {
  }

  lemma BuildTableRoom(s: State, ok: bool, level: nat, ending: Ending)
    requires RoomOk(s) && Enabled(s, BuildTable(ok, level, ending))
    ensures RoomOk(Apply(s, BuildTable(ok, level, ending)))
  {
    BuildTableIs(s, ok, level, ending);
    hide Apply, EndMem, RecordError, Edited, Bounded;
    var n := JobMem(s.job).number;
    var s1 := s.(pending := s.pending - {n});
    ErrorRoom(s1);
    ErrorRoom(WithMemTable(s, n));
    if !ok {
      EndMemRoom(RecordError(s1), ending);
    } else if s.shuttingDown {
      EndMemRoom(RecordError(WithMemTable(s, n)), ending);
    } else {
      assert MemEdit(s, n, level).added.Keys <= {n};
    }
  }

  lemma MemInstalledRoom(s: State, ok: bool, ending: Ending)
    requires RoomOk(s) && Enabled(s, MemInstalled(ok, ending)) && s.imm.Some?
    ensures RoomOk(Apply(s, MemInstalled(ok, ending)))
  {
    var e := JobMem(s.job).edit;
    var s1 := EndApply(s, e, ok);
    var s2 := if ok then DeleteObsoleteFiles(s1.(imm := None, hasImm := false)) else s1;
    EditedLevelZero(s.version, e);
    ErrorRoom(s);
    assert Bounded(s2.version, s2.imm.Some?);
    hide Bounded, EndMem, EndApply, DeleteObsoleteFiles;
    EndMemRoom(s2, ending);
  }

  lemma EndApplyRoom(s: State, e: Edit, ok: bool)
    requires Bounded(s.version, s.imm.Some?) && NoneInLevelZero(e)
    ensures var s' := EndApply(s, e, ok); Bounded(s'.version, s'.imm.Some?)
  {
    EditedLevelZero(s.version, e);
    ErrorRoom(s);
  }

  lemma TableEditRoom(s: State, step: Step)
    requires RoomOk(s) && Enabled(s, step) && (step.Applied? || step.Moved?)
    ensures RoomOk(Apply(s, step))
  {
    EndApplyIs(s, step.ok, step.ending);
    EndApplyRoom(s, s.job.edit, step.ok);
    hide Bounded, EndApply, EndJob, Cleanup, Apply;
    if step.Applied? {
      CleanupRoom(EndApply(s, s.job.edit, step.ok), s.job.c, step.ending);
    } else {
      EndJobRoom(EndApply(s, s.job.edit, step.ok), step.ending);
    }
  }

  lemma EndWorkRoom(s: State, ok: bool, input: seq<Entry>, ending: Ending)
    requires RoomOk(s) && Enabled(s, EndWork(ok, input, ending))
    ensures RoomOk(Apply(s, EndWork(ok, input, ending)))
  {
    hide Bounded, Cleanup, RecordError, Compacted, Edited;
    if !ok {
      ErrorRoom(s);
      CleanupRoom(RecordError(s), s.job.c, ending);
    }
  }

  lemma BeginJobRoom(s: State, pick: Pick, ending: Ending)
    requires RoomOk(s) && Enabled(s, BeginJob(pick, ending))
    ensures RoomOk(Apply(s, BeginJob(pick, ending)))
  {
    hide Bounded, EndJob, Closed, IsBase, Edited;
    EndJobRoom(s, ending);
    EndJobRoom(s, Ending(ending.other, false));
  }

  lemma SmallStepsRoom(s: State, step: Step)
    requires RoomOk(s) && Enabled(s, step)
    requires || step.StartWrite? || step.FinishWrite? || step.Shutdown? || step.Pin? || step.Unpin?
             || step.TakeSnapshot? || step.ReleaseSnapshot? || step.CompactMem? || step.WriteOutput?
    ensures RoomOk(Apply(s, step))
  {
    hide Bounded, Held, Numbered;
  }

  lemma AddRecordRoom(s: State, outcome: LogOutcome)
    requires RoomOk(s) && Enabled(s, AddRecord(outcome))
    ensures RoomOk(Apply(s, AddRecord(outcome)))
  {
    AddRecordIs(s, outcome);
    hide Bounded, RecordError, Apply, Enabled, EditsOk;
    ErrorRoom(Failed(Unsynced(s, s.writer.batch), s.writer.batch));
  }

  lemma SignalsRoom(s: State, step: Step)
    requires RoomOk(s) && Enabled(s, step) && (step.SpuriousWakeup? || step.RequestManual?)
    ensures RoomOk(Apply(s, step))
  {
    hide Bounded, MaybeSchedule;
    if step.RequestManual? {
      ScheduleRests(s.(manual := true), step.other);
      ScheduledImm(s.(manual := true), step.other);
    }
  }

  lemma StepRoom(s: State, step: Step)
    requires RoomOk(s) && Enabled(s, step) && (step.MemInstalled? ==> s.imm.Some?)
    ensures RoomOk(Apply(s, step))
  {
    hide RoomOk, Apply, Enabled;
    match step
    case TryRoom(full, created, other) => TryRoomRoom(s, full, created, other);
    case BuildTable(ok, level, ending) => BuildTableRoom(s, ok, level, ending);
    case MemInstalled(ok, ending) => MemInstalledRoom(s, ok, ending);
    case EndWork(ok, input, ending) => EndWorkRoom(s, ok, input, ending);
    case Applied(_, _) => TableEditRoom(s, step);
    case Moved(_, _) => TableEditRoom(s, step);
    case BeginJob(pick, ending) => BeginJobRoom(s, pick, ending);
    case SpuriousWakeup => SignalsRoom(s, step);
    case AddRecord(outcome) => AddRecordRoom(s, outcome);
    case RequestManual(_) => SignalsRoom(s, step);
    case _ => SmallStepsRoom(s, step);
  }

  lemma InstallingHasImm(s: State, step: Step)
    requires Inv(s) && Enabled(s, step) && step.MemInstalled?
    ensures s.imm.Some?
  {
    hide Core, CertainOk, ScheduleOk, EditOk, AddsNothing, CompactionOk;
  }

  lemma {:induction false} RunRoom(trace: seq<State>, steps: seq<Step>, i: nat)
    requires Run(trace, steps) && i < |trace| && trace[0].version.LevelZero() <= 12
    ensures RoomOk(trace[i])
  {
    hide Inv, Enabled, Apply, RoomOk;
    if i == 0 {
      StartRoom(trace[0]);
    } else {
      hide Init;
      RunRoom(trace, steps, i - 1);
      RunKeeps(trace, steps, i - 1);
      assert Follows(trace[i - 1], steps[i - 1], trace[i]);
      if steps[i - 1].MemInstalled? {
        InstallingHasImm(trace[i - 1], steps[i - 1]);
      }
      StepRoom(trace[i - 1], steps[i - 1]);
    }
  }

  lemma StartRoom(s: State)
    requires Init(s) && s.version.LevelZero() <= 12
    ensures RoomOk(s)
  {
    hide NeedsCompaction, Version.LevelZero;
  }

  /** In every run that starts with no more, there are at most twelve tables in level 0, and at most eleven
      while there is an immutable memtable. */
  lemma LevelZeroIsBounded(trace: seq<State>, steps: seq<Step>, i: nat)
    requires Run(trace, steps) && i < |trace| && trace[0].version.LevelZero() <= 12
    ensures trace[i].version.LevelZero() + (if trace[i].imm.Some? then 1 else 0) <= 12
  {
    hide Run;
    RunRoom(trace, steps, i);
  }
}

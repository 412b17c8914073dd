/** Failed appends and durability: what lies behind one in a log may be lost in a crash, and it is safe again
    as soon as the memtables it went to have been compacted. */
module DurabilityReturn {
  import opened Wrappers
  import opened DbFormat
  import opened MultiVersion
  import opened Durability
  import opened DurabilitySteps
  import opened DurabilitySafety
  import opened DurabilityLevels

  /** All torn logs are older than what the current version needs. */
  ghost predicate TornBehind(s: State) {
    forall l :: l in s.torn ==> l < s.version.logNumber
  }

  lemma BehindIsSound(s: State, m: Version)
    requires TornBehind(s) && VersionOk(s, m)
    ensures Sound(s, m)
  {
    hide Accounted;
  }

  // ----- the log number only grows -----

  lemma EditedNumber(s: State, e: Edit, ok: bool)
    requires s.version.logNumber <= e.logNumber
    ensures s.version.logNumber <= EndApply(s, e, ok).version.logNumber
    ensures ok ==> EndApply(s, e, ok).version.logNumber == e.logNumber
  {
    hide Edited;
    ScheduleRests(s, false);
  }

  lemma InstalledNumber(s: State, ok: bool, ending: Ending)
    requires LogsOk(s) && JobOk(s) && Enabled(s, MemInstalled(ok, ending))
    ensures s.version.logNumber <= Apply(s, MemInstalled(ok, ending)).version.logNumber
    ensures ok ==> Apply(s, MemInstalled(ok, ending)).version.logNumber == s.logFile
  {
    var e := JobMem(s.job).edit;
    InstallingNumber(s);
    EditedNumber(s, e, ok);
    hide LogsOk, JobOk, EndMem, EndApply, DeleteObsoleteFiles;
    var s1 := EndApply(s, e, ok);
    DeletionRests(s1.(imm := None, hasImm := false));
    EndRests(s1, ending);
    EndRests(DeleteObsoleteFiles(s1.(imm := None, hasImm := false)), ending);
  }

  lemma InstallingNumber(s: State)
    requires LogsOk(s) && JobOk(s) && JobMem(s.job).Installing?
    ensures JobMem(s.job).edit.logNumber == s.logFile >= s.version.logNumber
  {
    hide EditOk, AddsNothing, CompactionOk;
  }

  lemma TableEditNumber(s: State, step: Step)
    requires JobOk(s) && Enabled(s, step) && (step.Applied? || step.Moved?)
    ensures s.version.logNumber <= Apply(s, step).version.logNumber
  {
    hide EditOk, CompactionOk, Held;
    EndApplyIs(s, step.ok, step.ending);
    EditedNumber(s, s.job.edit, step.ok);
    hide JobOk, AddsNothing, EndApply, EndJob, Cleanup;
    if step.Applied? {
      CleanupRests(EndApply(s, s.job.edit, step.ok), s.job.c, step.ending);
    } else {
      EndRests(EndApply(s, s.job.edit, step.ok), step.ending);
    }
  }

  lemma BuildTableNumber(s: State, ok: bool, level: nat, ending: Ending)
    requires Enabled(s, BuildTable(ok, level, ending))
    ensures Apply(s, BuildTable(ok, level, ending)).version == s.version
  {
    BuildTableIs(s, ok, level, ending);
    hide Apply, EndMem, RecordError;
    var (n, s1) := (JobMem(s.job).number, s.(pending := s.pending - {JobMem(s.job).number}));
    ScheduleRests(s1, false);
    EndRests(RecordError(s1), ending);
    ScheduleRests(WithMemTable(s, n), false);
    EndRests(RecordError(WithMemTable(s, n)), ending);
  }

  lemma OtherJobsNumber(s: State, step: Step)
    requires Enabled(s, step) && (step.BeginJob? || step.CompactMem? || step.WriteOutput? || step.EndWork?)
    ensures Apply(s, step).version == s.version
  {
    hide EndJob, Cleanup, RecordError, Closed, IsBase, Compacted, Held, Edited;
    match step
    case BeginJob(pick, ending) =>
      EndRests(s, ending);
      EndRests(s, Ending(ending.other, false));
    case EndWork(ok, input, ending) =>
      ScheduleRests(s, false);
      CleanupRests(RecordError(s), s.job.c, ending);
    case CompactMem =>
    case WriteOutput(_) =>
  }

  lemma LogNumberGrows(s: State, step: Step)
    requires LogsOk(s) && JobOk(s) && Enabled(s, step)
    ensures s.version.logNumber <= Apply(s, step).version.logNumber
  {
    hide LogsOk, JobOk, Enabled, Apply;
    match step
    case MemInstalled(ok, ending) => InstalledNumber(s, ok, ending);
    case Applied(_, _) => TableEditNumber(s, step);
    case Moved(_, _) => TableEditNumber(s, step);
    case BuildTable(ok, level, ending) => BuildTableNumber(s, ok, level, ending);
    case BeginJob(_, _) => OtherJobsNumber(s, step);
    case CompactMem => OtherJobsNumber(s, step);
    case WriteOutput(_) => OtherJobsNumber(s, step);
    case EndWork(_, _, _) => OtherJobsNumber(s, step);
    case _ => OthersAreAside(s, step);
  }

  // ----- durability returns -----

  lemma TornOnlyByFailure(s: State, step: Step)
    requires Enabled(s, step) && step != AddRecord(NotAppended)
    ensures Apply(s, step).torn == s.torn
  {
    if step.AddRecord? {
      SchedulingIsQuiet(Failed(Unsynced(s, s.writer.batch), s.writer.batch), false);
      hide RecordError;
    } else if !step.FinishWrite? {
      hide Apply, Enabled;
      StepIsQuiet(s, step);
    }
  }

  ghost predicate NoFailedAppend(steps: seq<Step>, i: nat, j: nat)
    requires i <= j <= |steps|
  {
    forall p :: i <= p < j ==> steps[p] != AddRecord(NotAppended)
  }

  lemma {:induction false} StaysBehind(trace: seq<State>, steps: seq<Step>, i: nat, j: nat)
    requires Run(trace, steps) && i <= j < |trace| && TornBehind(trace[i]) && NoFailedAppend(steps, i, j)
    ensures TornBehind(trace[j])
    decreases j
  {
    hide Inv, Enabled, Apply, Init;
    if i < j {
      StaysBehind(trace, steps, i, j - 1);
      RunKeeps(trace, steps, j - 1);
      assert Follows(trace[j - 1], steps[j - 1], trace[j]);
      JobParts(trace[j - 1]);
      LogNumberGrows(trace[j - 1], steps[j - 1]);
      TornOnlyByFailure(trace[j - 1], steps[j - 1]);
    }
  }

  lemma JobParts(s: State)
    requires Inv(s)
    ensures LogsOk(s) && JobOk(s) && ManifestOk(s)
  {
  }

  /** Installing the table of the immutable memtable leaves every log but the current one behind. */
  lemma InstallLeavesBehind(s: State, ending: Ending)
    requires LogsOk(s) && JobOk(s) && TornOk(s) && Enabled(s, MemInstalled(true, ending))
    requires s.logFile !in s.torn
    ensures TornBehind(Apply(s, MemInstalled(true, ending)))
  {
    hide LogsOk, JobOk;
    InstalledNumber(s, true, ending);
    TornOnlyByFailure(s, MemInstalled(true, ending));
    hide Apply, Enabled;
  }

  /** Durability returns. Whatever appends had failed before: once the immutable memtable has been compacted
      while the current log is whole, no crash loses anything that is acknowledged, neither then nor later,
      until an append fails again. */
  lemma DurabilityReturns(trace: seq<State>, steps: seq<Step>, p: nat, i: nat, m: Version, found: set<Entry>,
                          k: UserKey, snapshot: nat)
    requires Run(trace, steps) && p < i < |trace| && m in trace[i].manifest && Readable(trace[i], snapshot)
    requires steps[p].MemInstalled? && steps[p].ok && trace[p].logFile !in trace[p].torn
    requires NoFailedAppend(steps, p + 1, i) && MayFind(trace[i], m, found)
    ensures Lost(trace[i], m, found) == {}
    ensures Read(Recovered(trace[i], m, found), k, snapshot) == Read(trace[i].acked + found, k, snapshot)
  {
    hide Readable, Inv, Enabled, Apply, Init, TornOk, TornBehind, MayFind, Lost, Recovered, Sound, VersionOk;
    RunKeeps(trace, steps, p);
    RunTorn(trace, steps, p);
    JobParts(trace[p]);
    assert Follows(trace[p], steps[p], trace[p + 1]);
    InstallLeavesBehind(trace[p], steps[p].ending);
    StaysBehind(trace, steps, p + 1, i);
    RunKeeps(trace, steps, i);
    JobParts(trace[i]);
    assert VersionOk(trace[i], m);
    BehindIsSound(trace[i], m);
    AcknowledgedIsDurable(trace, steps, i, m, found, k, snapshot);
    assert trace[i].acked - {} == trace[i].acked;
  }

  // ----- and until then, what comes behind is at risk -----

  lemma InsertingStays(s: State, step: Step)
    requires Enabled(s, step) && s.writer.Inserting? && !step.FinishWrite?
    ensures Apply(s, step).writer == s.writer && Apply(s, step).unsure == s.unsure
  {
    NoAppendWhileInserting(s, step);
    hide Enabled, Apply;
    StepIsQuiet(s, step);
  }

  lemma {:induction false} StaysInserting(trace: seq<State>, steps: seq<Step>, i: nat, j: nat)
    requires Run(trace, steps) && i <= j < |trace| && trace[i].writer.Inserting?
    requires forall p :: i <= p < j ==> !steps[p].FinishWrite?
    ensures trace[j].writer == trace[i].writer && trace[j].unsure == trace[i].unsure
    decreases j
  {
    hide Enabled, Apply, Init;
    if i < j {
      StaysInserting(trace, steps, i, j - 1);
      assert Follows(trace[j - 1], steps[j - 1], trace[j]);
      InsertingStays(trace[j - 1], steps[j - 1]);
    }
  }

  lemma NoAppendWhileInserting(s: State, step: Step)
    requires Enabled(s, step) && s.writer.Inserting?
    ensures !step.AddRecord?
  {
  }

  lemma FinishedAtRisk(s: State, m: Version, e: Entry)
    requires FilesOk(s) && EntriesOk(s) && NumbersOk(s) && s.writer.Inserting?
    requires e in s.writer.batch.entries && e in s.unsure && m in s.manifest
    ensures AtRisk(Finished(s), m, e)
  {
    AckedIsOlder(s);
    if Holds(s.tables, m.tables.Keys, e) {
      HeldAcked(s, m.tables.Keys, e);
    }
  }

  /** A write whose record went behind a failed append, and which is acknowledged all the same: whatever
      version is recovered, there is a way for the crash to lose it. */
  lemma AcknowledgedAtRisk(trace: seq<State>, steps: seq<Step>, i: nat, j: nat, m: Version, e: Entry)
    requires Run(trace, steps) && i < j < |steps| && steps[i] == AddRecord(Appended) && steps[j] == FinishWrite
    requires forall p :: i < p < j ==> !steps[p].FinishWrite?
    requires trace[i].writer.Logging? && e in trace[i].writer.batch.entries
    requires trace[i].logFile in trace[i].torn && m in trace[j + 1].manifest
    ensures e in trace[j + 1].acked && CanBeLost(trace[j + 1], m, e)
  {
    assert Follows(trace[i], steps[i], trace[i + 1]) && Follows(trace[j], steps[j], trace[j + 1]);
    AppendedBehind(trace[i]);
    FinishIs(trace[j]);
    hide Enabled, Apply, Init, Inv, AtRisk, CanBeLost, Finished;
    StaysInserting(trace, steps, i + 1, j);
    RunKeeps(trace, steps, j);
    InvParts(trace[j]);
    RunKeeps(trace, steps, j + 1);
    InvParts(trace[j + 1]);
    FinishedAtRisk(trace[j], m, e);
    assert VersionOk(trace[j + 1], m);
    LostExactly(trace[j + 1], m, e);
    RiskIsAcked(trace[j + 1], m, e);
  }

  lemma RiskIsAcked(s: State, m: Version, e: Entry)
    requires AtRisk(s, m, e)
    ensures e in s.acked
  {
  }

  lemma AppendedBehind(s: State)
    requires Enabled(s, AddRecord(Appended)) && s.logFile in s.torn
    ensures var s' := Apply(s, AddRecord(Appended));
            s'.writer == Inserting(s.writer.batch) && s.writer.batch.entries <= s'.unsure
  {
  }

  lemma FinishIs(s: State)
    requires Enabled(s, FinishWrite)
    ensures Apply(s, FinishWrite) == Finished(s) && Finished(s).manifest == s.manifest
  {
  }

  /** A new database. */
  ghost function Fresh(): State {
    State(map[1 := {}], {}, {}, map[], {Version(map[], 1)}, Version(map[], 1), 1, 2, {}, [], {}, None, 0, false,
          false, false, false, NoJob, Idle, 0, [], {}, 0)
  }

  lemma FreshIsInit()
    ensures Init(Fresh())
  {
    assert forall e :: !Holds(Fresh().tables, {}, e);
    assert forall l, e :: !InLog(Fresh(), l, e);
  }

  lemma Extend(trace: seq<State>, steps: seq<Step>, step: Step)
    requires Run(trace, steps) && Enabled(trace[|steps|], step)
    ensures Run(trace + [Apply(trace[|steps|], step)], steps + [step])
  {
    hide Enabled, Apply, Init;
  }

  /** One write after the other: it is appended to the log or that fails. */
  lemma WriteOnce(trace: seq<State>, steps: seq<Step>, b: Batch, outcome: LogOutcome)
    returns (trace': seq<State>, steps': seq<Step>)
    requires Run(trace, steps) && trace[|steps|].writer.Idle? && !trace[|steps|].bgError && !outcome.SyncFailed?
    requires Numbered(trace[|steps|], b) && trace[|steps|].logFile in trace[|steps|].logs
    ensures Run(trace', steps') && |trace'| > 0
    ensures var (s, s1) := (trace[|steps|], if outcome.NotAppended? then Torn(trace[|steps|]) else trace[|steps|]);
            var s2 := Logged(s1, b);
            trace'[|steps'|] == if outcome.NotAppended? then s2.(lastSequence := b.last)
                                else s2.(lastSequence := b.last, mem := s.mem + b.entries, acked := s.acked + b.entries)
  {
    hide Init;
    Extend(trace, steps, StartWrite(Some(b)));
    var (t1, p1) := (trace + [Apply(trace[|steps|], StartWrite(Some(b)))], steps + [StartWrite(Some(b))]);
    Extend(t1, p1, TryRoom(false, true, false));
    var (t2, p2) := (t1 + [Apply(t1[|p1|], TryRoom(false, true, false))], p1 + [TryRoom(false, true, false)]);
    Extend(t2, p2, AddRecord(outcome));
    trace', steps' := t2 + [Apply(t2[|p2|], AddRecord(outcome))], p2 + [AddRecord(outcome)];
    if outcome.Appended? {
      Extend(trace', steps', FinishWrite);
      trace', steps' := trace' + [Apply(trace'[|steps'|], FinishWrite)], steps' + [FinishWrite];
    }
  }

  ghost function FirstFailed(failed: Entry): State {
    Fresh().(logs := map[1 := {failed}], torn := {1}, unsure := {failed}, lastSequence := 1)
  }

  ghost function SecondWritten(failed: Entry, e: Entry): State {
    FirstFailed(failed).(logs := map[1 := {failed, e}], unsure := {failed, e}, lastSequence := 2, mem := {e},
                         acked := {e})
  }

  /** In a new database a write fails, and the next one is acknowledged. It can be read, and after a crash it
      need not be there. */
  lemma FirstWriteIsLost(failed: Entry, e: Entry) returns (trace: seq<State>, steps: seq<Step>)
    requires failed.sequence == 1 && e.sequence == 2 && e.kind == TypeValue
    ensures Run(trace, steps)
    ensures var (s, m) := (trace[|steps|], Version(map[], 1));
            && m in s.manifest && MayFind(s, m, {})
            && Read(s.acked, e.user, 2) == Some(e.value) && Read(Recovered(s, m, {}), e.user, 2) == None
  {
    hide *;
    trace, steps := OneFails(failed);
    trace, steps := NextSucceeds(trace, steps, failed, e);
    NotFoundAgain(failed, e);
  }

  lemma OneFails(failed: Entry) returns (trace: seq<State>, steps: seq<Step>)
    requires failed.sequence == 1
    ensures Run(trace, steps) && trace[|steps|] == FirstFailed(failed)
  {
    FreshIsInit();
    trace, steps := [Fresh()], [];
    AfterFailure(failed);
    hide Run, Init, Logged;
    assert Run(trace, steps) by { AtStart(Fresh()); }
    trace, steps := WriteOnce(trace, steps, Batch({failed}, 1), NotAppended);
  }

  lemma AtStart(s: State)
    requires Init(s)
    ensures Run([s], [])
  {
    hide Init;
  }

  lemma NextSucceeds(trace: seq<State>, steps: seq<Step>, failed: Entry, e: Entry)
    returns (trace': seq<State>, steps': seq<Step>)
    requires Run(trace, steps) && trace[|steps|] == FirstFailed(failed) && e.sequence == 2
    ensures Run(trace', steps') && trace'[|steps'|] == SecondWritten(failed, e)
  {
    AfterWrite(failed, e);
    hide Run, Init, Logged;
    trace', steps' := WriteOnce(trace, steps, Batch({e}, 2), Appended);
  }

  lemma AfterFailure(failed: Entry)
    ensures Logged(Torn(Fresh()), Batch({failed}, 1)).(lastSequence := 1) == FirstFailed(failed)
  {
    var none: set<Entry> := {};
    assert none + {failed} == {failed};
  }

  lemma AfterWrite(failed: Entry, e: Entry)
    ensures Logged(FirstFailed(failed), Batch({e}, 2)).(lastSequence := 2, mem := {} + {e}, acked := {} + {e})
         == SecondWritten(failed, e)
  {
    var none: set<Entry> := {};
    assert {failed} + {e} == {failed, e} && none + {e} == {e};
  }

  lemma NotFoundAgain(failed: Entry, e: Entry)
    requires e.sequence == 2 && e.kind == TypeValue
    ensures var (s, m) := (SecondWritten(failed, e), Version(map[], 1));
            && m in s.manifest && MayFind(s, m, {})
            && Read(s.acked, e.user, 2) == Some(e.value) && Read(Recovered(s, m, {}), e.user, 2) == None
  {
    ReadOfLatest({e}, e.user, 2, e);
    assert Recovered(SecondWritten(failed, e), Version(map[], 1), {}) == {};
    ReadOfNothing({}, e.user, 2);
  }
}

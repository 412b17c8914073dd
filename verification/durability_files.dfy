/** Which files are on disk after a deletion: the logs and tables that are still needed, and no others. */
module DurabilityFiles {
  import opened Wrappers
  import opened Durability
  import opened DurabilitySafety
  import opened DurabilityLevels

  /** A version that is current or held, the running compaction, or a table being written needs the table. */
  ghost predicate Needed(s: State, n: nat) {
    || n in s.version.tables
    || (exists p :: 0 <= p < |s.pinned| && n in s.pinned[p])
    || (s.job.Working? && n in s.job.c.inputVersion)
    || n in s.pending
  }

  /** The current log, and that of the immutable memtable if there is one. */
  function NeededLogs(s: State): set<nat> {
    {s.logFile} + if s.imm.Some? then {s.immLog} else {}
  }

  /** The ends of memtable and table compactions. */
  predicate EndsCompaction(step: Step) {
    step.MemInstalled? || step.Applied? || (step.EndWork? && !step.ok)
  }

  /** What the end of a job does not touch. */
  ghost predicate SameFiles(s: State, s': State) {
    && s' == s.(job := s'.job, manual := s'.manual, writer := s'.writer)
    && (s'.job.Working? <==> s.job.Working?) && (s.job.Working? ==> s'.job.c == s.job.c)
  }

  lemma EndJobFiles(s: State, ending: Ending)
    requires !s.job.Working?
    ensures SameFiles(s, EndJob(s, ending))
  {
    hide NeedsCompaction;
  }

  lemma EndMemFiles(s: State, ending: Ending)
    ensures SameFiles(s, EndMem(s, ending))
  {
    hide EndJob;
    if !s.job.Working? {
      EndJobFiles(s, Ending(ending.other, false));
    }
  }

  /** Of the logs from the log number on, exactly those of the memtables are there. */
  ghost predicate OnlyNeededLogs(s: State) {
    && NeededLogs(s) <= s.logs.Keys && (forall l :: l in NeededLogs(s) ==> l >= s.version.logNumber)
    && (forall l :: l in s.logs && l >= s.version.logNumber ==> l in NeededLogs(s))
  }

  lemma OnlyTwoLogs(s: State)
    requires LogsOk(s)
    ensures OnlyNeededLogs(s)
  {
  }

  /** Deleting leaves exactly what is needed. */
  lemma Swept(s: State)
    requires !s.bgError && OnlyNeededLogs(DeleteObsoleteFiles(s))
    ensures var s' := DeleteObsoleteFiles(s);
            && s' == s.(logs := s'.logs, tables := s'.tables) && s'.logs.Keys == NeededLogs(s')
            && forall n :: n in s'.tables <==> n in s.tables && Needed(s', n)
  {
    var s' := DeleteObsoleteFiles(s);
    assert forall n :: Needed(s', n) <==> LiveTable(s, n);
    forall l ensures l in s'.logs.Keys <==> l in NeededLogs(s') {
    }
  }

  lemma SameNeeds(s: State, s': State)
    requires SameFiles(s, s')
    ensures NeededLogs(s') == NeededLogs(s) && (OnlyNeededLogs(s') <==> OnlyNeededLogs(s))
    ensures forall n :: Needed(s', n) <==> Needed(s, n)
  {
  }

  /** On disk are exactly the logs that back the memtables and, of the tables there were, those that somebody
      needs. */
  ghost predicate NothingObsolete(s: State, s': State) {
    s'.logs.Keys == NeededLogs(s') && forall n :: n in s'.tables <==> n in s.tables && Needed(s', n)
  }

  lemma SweptAndEnded(s: State, s': State)
    requires !s.bgError && SameFiles(DeleteObsoleteFiles(s), s') && OnlyNeededLogs(s')
    ensures NothingObsolete(s, s')
  {
    SameNeeds(DeleteObsoleteFiles(s), s');
    Swept(s);
    hide DeleteObsoleteFiles, OnlyNeededLogs, NeededLogs, Needed;
  }

  lemma KeepsError(s: State)
    ensures DeleteObsoleteFiles(s).bgError == s.bgError && DeleteObsoleteFiles(s).job == s.job && RecordError(s).bgError
  {
  }

  lemma InstalledFiles(s: State, ok: bool, ending: Ending)
    requires Enabled(s, MemInstalled(ok, ending)) && !Apply(s, MemInstalled(ok, ending)).bgError
    requires OnlyNeededLogs(Apply(s, MemInstalled(ok, ending)))
    ensures NothingObsolete(s, Apply(s, MemInstalled(ok, ending)))
  {
    hide EndMem, ApplyEdit, Edited, DeleteObsoleteFiles, OnlyNeededLogs, NeededLogs, Needed, RecordError;
    var s1 := EndApply(s, JobMem(s.job).edit, ok);
    var s2 := if ok then s1.(imm := None, hasImm := false) else s1;
    KeepsError(s);
    KeepsError(s2);
    EndMemFiles(if ok then DeleteObsoleteFiles(s2) else s2, ending);
    if ok {
      SweptAndEnded(s2, EndMem(DeleteObsoleteFiles(s2), ending));
    }
  }

  lemma CleanedFiles(s: State, c: Compaction, ending: Ending)
    requires !Cleanup(s, c, ending).bgError && OnlyNeededLogs(Cleanup(s, c, ending))
    ensures NothingObsolete(s, Cleanup(s, c, ending)) && !s.bgError
  {
    hide EndJob, DeleteObsoleteFiles, OnlyNeededLogs, NeededLogs, Needed;
    var s1 := s.(pending := s.pending - c.outputs, job := MemOnly(NoMem));
    KeepsError(s1);
    EndJobFiles(DeleteObsoleteFiles(s1), ending);
    SweptAndEnded(s1, Cleanup(s, c, ending));
  }

  lemma StepFiles(s: State, step: Step)
    requires Enabled(s, step) && EndsCompaction(step) && !Apply(s, step).bgError && OnlyNeededLogs(Apply(s, step))
    ensures NothingObsolete(s, Apply(s, step))
  {
    hide OnlyNeededLogs, NeededLogs, Needed, Cleanup, EndMem, EndApply, NothingObsolete;
    match step
    case MemInstalled(ok, ending) => InstalledFiles(s, ok, ending);
    case Applied(ok, ending) =>
      EndApplyIs(s, ok, ending);
      CleanedFiles(EndApply(s, s.job.edit, ok), s.job.c, ending);
      AppliedTables(s, s.job.edit, ok, Apply(s, step));
    case EndWork(ok, input, ending) =>
      CleanedFiles(RecordError(s), s.job.c, ending);
      KeepsError(s);
      assert false;
  }

  lemma AppliedTables(s: State, e: Edit, ok: bool, s': State)
    requires NothingObsolete(EndApply(s, e, ok), s')
    ensures NothingObsolete(s, s')
  {
    hide ApplyEdit, Edited, NeededLogs, Needed;
    ScheduleRests(s, false);
  }

  /** In every run, after a memtable or table compaction has ended without a background error, exactly
      these logs are on disk: the current one, and that of the immutable memtable if there is one, and
      exactly the tables that the current version, a reader's version or the job still needs. */
  lemma ObsoleteFilesGo(trace: seq<State>, steps: seq<Step>, i: nat)
    requires Run(trace, steps) && i < |steps| && EndsCompaction(steps[i]) && !trace[i + 1].bgError
    ensures NothingObsolete(trace[i], trace[i + 1])
  {
    hide Enabled, Apply, Init, Inv, OnlyNeededLogs, NothingObsolete;
    RunKeeps(trace, steps, i + 1);
    InvParts(trace[i + 1]);
    OnlyTwoLogs(trace[i + 1]);
    assert Follows(trace[i], steps[i], trace[i + 1]);
    StepFiles(trace[i], steps[i]);
  }
}

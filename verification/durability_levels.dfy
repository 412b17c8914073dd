/** Looking a key up in any reachable state of Durability: the search through the memtables and the levels
    stops at the first place that has something to say, and that is what was acknowledged. */
module DurabilityLevels {
  import opened Wrappers
  import opened Coding
  import opened DbFormat
  import opened MultiVersion
  import opened MemTables
  import opened Retention
  import opened Durability
  import opened DurabilitySteps
  import opened DurabilitySafety
  import PointLookup

  /** The tables of a version are searched in this order: level by level, and the newest first in level 0. */
  predicate SearchedFirst(m: Version, a: nat, b: nat)
    requires a in m.tables && b in m.tables
  {
    m.tables[a] < m.tables[b] || (m.tables[a] == m.tables[b] == 0 && a > b)
  }

  /** What is searched first is newer, key by key. */
  ghost predicate Ordered(tables: map<nat, set<Entry>>, m: Version) {
    && (forall n :: n in m.tables ==> m.tables[n] < NUM_LEVELS)
    && (forall a, b, e, g ::
          && a in m.tables && b in m.tables && a in tables && b in tables && e in tables[a] && g in tables[b]
          && SearchedFirst(m, a, b) && e.user == g.user
          ==> g.sequence < e.sequence)
  }

  /** So it is in the current version and in the one that is being installed, and a compaction in progress
      still has all that its inputs must have. */
  ghost predicate LevelsOk(tables: map<nat, set<Entry>>, m: Version, job: Job) {
    && Ordered(tables, m)
    && (EditInProgress(job).Some? ==> Ordered(tables, ApplyEdit(m, EditInProgress(job).value)))
    && (job.Working? ==> Closed(tables, m, job.c.inputs, job.c.level))
    && (job.Working? && job.mem.Installing? ==>
          Closed(tables, ApplyEdit(m, job.mem.edit), job.c.inputs, job.c.level))
    && (JobMem(job).Building? ==> forall n :: n in tables ==> n < JobMem(job).number)
  }

  // ----- steps that install nothing -----

  /** The first tables are some of the others. */
  ghost predicate SomeOf(tables: map<nat, set<Entry>>, all: map<nat, set<Entry>>, m: Version) {
    forall n :: n in m.tables && n in tables ==> n in all && tables[n] == all[n]
  }

  lemma FewerTables(tables: map<nat, set<Entry>>, all: map<nat, set<Entry>>, m: Version, inputs: set<nat>, level: nat)
    requires SomeOf(tables, all, m)
    ensures Ordered(all, m) ==> Ordered(tables, m)
    ensures Closed(all, m, inputs, level) ==> Closed(tables, m, inputs, level)
  {
    if Closed(all, m, inputs, level) {
      forall e | Holds(tables, inputs, e) ensures Holds(all, inputs, e) {
        var n :| n in inputs && n in tables && e in tables[n];
        assert n in m.tables;
      }
    }
  }

  /** The job is over, or it is a compaction that goes on. */
  predicate Rests(job: Job, job': Job) {
    job'.NoJob? || job'.Scheduled? || (job.Working? && job' == job.(mem := NoMem))
  }

  lemma RestKeeps(tables: map<nat, set<Entry>>, all: map<nat, set<Entry>>, m: Version, job: Job, job': Job)
    requires Ordered(all, m) && (job.Working? ==> Closed(all, m, job.c.inputs, job.c.level))
    requires SomeOf(tables, all, m) && Rests(job, job')
    ensures LevelsOk(tables, m, job')
  {
    hide Ordered, Closed, SomeOf;
    FewerTables(tables, all, m, {}, 0);
    if job.Working? {
      FewerTables(tables, all, m, job.c.inputs, job.c.level);
    }
  }

  lemma ScheduleRests(s: State, other: bool)
    ensures var s' := MaybeSchedule(s, other);
            s'.tables == s.tables && s'.version == s.version && (s'.job == s.job || s'.job.Scheduled?)
    ensures Signal(s).tables == s.tables && Signal(s).version == s.version && Signal(s).job == s.job
    ensures var s' := RecordError(s); s'.tables == s.tables && s'.version == s.version && s'.job == s.job
  {
    hide NeedsCompaction;
  }

  lemma EndRests(s: State, ending: Ending)
    ensures var s' := EndJob(s, ending); s'.tables == s.tables && s'.version == s.version && Rests(s.job, s'.job)
    ensures var s' := EndMem(s, ending); s'.tables == s.tables && s'.version == s.version && Rests(s.job, s'.job)
  {
    hide Signal, MaybeSchedule;
    var s1 := s.(job := NoJob, manual := s.manual && !ending.manualDone);
    ScheduleRests(s1, ending.other);
    ScheduleRests(MaybeSchedule(s1, ending.other), ending.other);
    var s2 := s.(job := NoJob);
    ScheduleRests(s2, ending.other);
    ScheduleRests(MaybeSchedule(s2, ending.other), ending.other);
    if s.job.Working? {
      ScheduleRests(s.(job := s.job.(mem := NoMem)), false);
    }
  }

  lemma DeletionRests(s: State)
    ensures var s' := DeleteObsoleteFiles(s);
            s'.version == s.version && s'.job == s.job && forall m :: SomeOf(s'.tables, s.tables, m)
  {
  }

  lemma CleanupRests(s: State, c: Compaction, ending: Ending)
    ensures var s' := Cleanup(s, c, ending);
            && s'.version == s.version && (s'.job.NoJob? || s'.job.Scheduled?)
            && forall m :: SomeOf(s'.tables, s.tables, m)
  {
    hide EndJob, DeleteObsoleteFiles, SomeOf;
    var s1 := s.(pending := s.pending - c.outputs, job := MemOnly(NoMem));
    DeletionRests(s1);
    EndRests(DeleteObsoleteFiles(s1), ending);
  }

  /** Versions and tables are left alone, and at most a job is scheduled. */
  ghost predicate Aside(s: State, s': State) {
    s'.tables == s.tables && s'.version == s.version && (s'.job == s.job || s'.job.Scheduled?)
  }

  lemma RoomIsAside(s: State, full: bool, created: bool, other: bool)
    requires Enabled(s, TryRoom(full, created, other))
    ensures Aside(s, Apply(s, TryRoom(full, created, other)))
  {
    RoomShape(s, full, created, other);
    hide MaybeSchedule, Version.LevelZero, Room, Switches;
    ScheduleRests(Switched(s), other);
  }

  /** Who writes, reads, schedules or shuts down. */
  predicate InstallsNothing(step: Step) {
    || step.StartWrite? || step.TryRoom? || step.SpuriousWakeup? || step.AddRecord? || step.FinishWrite?
    || step.RequestManual? || step.Shutdown? || step.Pin? || step.Unpin? || step.TakeSnapshot? || step.ReleaseSnapshot?
  }

  lemma AddRecordIsAside(s: State, outcome: LogOutcome)
    requires Enabled(s, AddRecord(outcome))
    ensures Aside(s, Apply(s, AddRecord(outcome)))
  {
    AddRecordIs(s, outcome);
    hide RecordError, Apply, Enabled;
    ScheduleRests(Failed(Unsynced(s, s.writer.batch), s.writer.batch), false);
  }

  lemma RequestIsAside(s: State, other: bool)
    requires Enabled(s, RequestManual(other))
    ensures Aside(s, Apply(s, RequestManual(other)))
  {
    hide MaybeSchedule;
    ScheduleRests(s.(manual := true), other);
  }

  lemma WakeupIsAside(s: State)
    requires Enabled(s, SpuriousWakeup)
    ensures Aside(s, Apply(s, SpuriousWakeup))
  {
    ScheduleRests(s, false);
  }

  lemma OthersAreAside(s: State, step: Step)
    requires Enabled(s, step) && InstallsNothing(step)
    ensures Aside(s, Apply(s, step))
  {
    if step.AddRecord? {
      hide Apply, Aside, Enabled;
      AddRecordIsAside(s, step.outcome);
    } else if step.TryRoom? {
      hide Apply, Aside, Enabled;
      RoomIsAside(s, step.full, step.created, step.other);
    } else if step.RequestManual? {
      hide Apply, Aside, Enabled;
      RequestIsAside(s, step.other);
    } else if step.SpuriousWakeup? {
      hide Apply, Aside, Enabled;
      WakeupIsAside(s);
    }
  }

  lemma BeginMemLevels(s: State)
    requires FilesOk(s) && LevelsOk(s.tables, s.version, s.job) && (s.job.Working? ==> s.job.mem.NoMem?)
    ensures var s' := BeginMem(s); LevelsOk(s'.tables, s'.version, s'.job)
  {
    hide Ordered, Closed;
  }

  // ----- the three kinds of edits -----

  /** One table moves to the next level. */
  lemma MovedIsOrdered(tables: map<nat, set<Entry>>, m: Version, n: nat, logNumber: nat)
    requires Ordered(tables, m) && n in m.tables && n in tables && Closed(tables, m, {n}, m.tables[n])
    ensures Ordered(tables, ApplyEdit(m, Edit({n}, map[n := m.tables[n] + 1], logNumber)))
  {
    var m' := ApplyEdit(m, Edit({n}, map[n := m.tables[n] + 1], logNumber));
    forall a, b, e, g | a in m'.tables && b in m'.tables && a in tables && b in tables && e in tables[a]
                        && g in tables[b] && SearchedFirst(m', a, b) && e.user == g.user
      ensures g.sequence < e.sequence
    {
      if b == n {
        assert Holds(tables, {n}, g);
      } else {
        assert SearchedFirst(m, a, b);
      }
    }
  }

  /** The immutable memtable becomes a table: it is newer than all others, and goes no deeper than what it
      overlaps with. */
  lemma MemIsOrdered(s: State, n: nat, level: nat)
    requires LogsOk(s) && EntriesOk(s) && AgesOk(s) && Ordered(s.tables, s.version) && HasMemTable(s, n)
    requires n !in s.version.tables && (forall b :: b in s.version.tables ==> b < n) && level <= MAX_MEM_COMPACT_LEVEL
    requires level > 0 ==> NoOverlap(s.tables, s.version, level, s.imm.value)
    ensures Ordered(s.tables, ApplyEdit(s.version, MemEdit(s, n, level)))
  {
    var m' := ApplyEdit(s.version, MemEdit(s, n, level));
    forall a, b, e, g | a in m'.tables && b in m'.tables && a in s.tables && b in s.tables && e in s.tables[a]
                        && g in s.tables[b] && SearchedFirst(m', a, b) && e.user == g.user
      ensures g.sequence < e.sequence
    {
      if a == n {
        assert Holds(s.tables, s.version.tables.Keys, g);
        HeldAcked(s, s.version.tables.Keys, g);
        ImmIsNewer(s, g, e);
      } else if b != n {
        assert SearchedFirst(s.version, a, b);
      }
    }
  }

  lemma MemIsClosed(s: State, n: nat, level: nat, c: Compaction)
    requires LogsOk(s) && EntriesOk(s) && AgesOk(s) && HasMemTable(s, n) && n !in s.version.tables
    requires Closed(s.tables, s.version, c.inputs, c.level)
    ensures Closed(s.tables, ApplyEdit(s.version, MemEdit(s, n, level)), c.inputs, c.level)
  {
    var m' := ApplyEdit(s.version, MemEdit(s, n, level));
    forall a, g, e | a in m'.tables && a !in c.inputs && m'.tables[a] < c.level + 2 && a in s.tables
                     && g in s.tables[a] && Holds(s.tables, c.inputs, e) && g.user == e.user
      ensures e.sequence < g.sequence
    {
      if a == n {
        assert Holds(s.tables, s.version.tables.Keys, e);
        HeldAcked(s, s.version.tables.Keys, e);
        ImmIsNewer(s, e, g);
      }
    }
  }

  /** The outputs of a compaction, on the level below that of its inputs. */
  lemma CompactedIsOrdered(s: State, c: Compaction)
    requires Ordered(s.tables, s.version) && Closed(s.tables, s.version, c.inputs, c.level)
    requires Held(s.tables, c.outputs) <= Held(s.tables, c.inputs)
    ensures Ordered(s.tables, ApplyEdit(s.version, CompactionEdit(s, c)))
  {
    var m' := ApplyEdit(s.version, CompactionEdit(s, c));
    forall a, b, e, g | a in m'.tables && b in m'.tables && a in s.tables && b in s.tables && e in s.tables[a]
                        && g in s.tables[b] && SearchedFirst(m', a, b) && e.user == g.user
      ensures g.sequence < e.sequence
    {
      if a in c.outputs {
        assert Holds(s.tables, c.outputs, e) && e in Held(s.tables, c.inputs);
        var a0 :| a0 in c.inputs && a0 in s.tables && e in s.tables[a0];
        assert SearchedFirst(s.version, a0, b);
      } else if b in c.outputs {
        assert Holds(s.tables, c.outputs, g) && g in Held(s.tables, c.inputs);
      } else {
        assert SearchedFirst(s.version, a, b);
      }
    }
  }

  // ----- every step -----

  lemma AsideKeeps(s: State, s': State)
    requires LevelsOk(s.tables, s.version, s.job) && Aside(s, s')
    ensures LevelsOk(s'.tables, s'.version, s'.job)
  {
    hide Ordered, Closed;
  }

  lemma BeginJobLevels(s: State, pick: Pick, ending: Ending)
    requires Inv(s) && LevelsOk(s.tables, s.version, s.job) && Enabled(s, BeginJob(pick, ending))
    ensures var s' := Apply(s, BeginJob(pick, ending)); LevelsOk(s'.tables, s'.version, s'.job)
  {
    hide Ordered, Closed, EndJob, ApplyEdit, IsBase, Edited;
    hide LogsOk, EntriesOk, NumbersOk, AgesOk, ManifestOk, JobOk, ScheduleOk;
    EndRests(s, ending);
    EndRests(s, Ending(ending.other, false));
    if s.shuttingDown || s.bgError {
    } else if s.imm.Some? {
      BeginMemLevels(s);
    } else if pick.TrivialMove? {
      MovedIsOrdered(s.tables, s.version, pick.table, s.version.logNumber);
    }
  }

  lemma StillNoOverlap(s: State, n: nat, level: nat, contents: set<Entry>)
    requires s.imm.Some? && n !in s.version.tables && NoOverlap(s.tables, s.version, level, contents)
    ensures NoOverlap(WithMemTable(s, n).tables, s.version, level, contents)
  {
  }

  lemma MemTableInstalling(s: State, n: nat, level: nat)
    requires JobMem(s.job).Building? && n == JobMem(s.job).number && s.imm.Some? && level <= MAX_MEM_COMPACT_LEVEL
    requires Settled(WithMemTable(s, n)) && HasMemTable(WithMemTable(s, n), n)
    requires n !in s.version.tables && (forall b :: b in s.version.tables ==> b < n)
    requires level > 0 ==> NoOverlap(s.tables, s.version, level, s.imm.value)
    requires Ordered(WithMemTable(s, n).tables, s.version)
    requires s.job.Working? ==> Closed(WithMemTable(s, n).tables, s.version, s.job.c.inputs, s.job.c.level)
    ensures var e := MemEdit(s, n, level);
            var job := if s.job.Working? then s.job.(mem := Installing(e)) else MemOnly(Installing(e));
            LevelsOk(WithMemTable(s, n).tables, s.version, job)
  {
    hide Ordered, Closed, ApplyEdit, NoOverlap, LogsOk, EntriesOk, NumbersOk, AgesOk, ManifestOk, FilesOk;
    var s2 := WithMemTable(s, n);
    assert MemEdit(s2, n, level) == MemEdit(s, n, level);
    if level > 0 {
      StillNoOverlap(s, n, level, s.imm.value);
    }
    MemIsOrdered(s2, n, level);
    if s.job.Working? {
      MemIsClosed(s2, n, level, s.job.c);
    }
  }

  lemma VersionIsThere(s: State)
    requires FilesOk(s) && CertainOk(s)
    ensures s.version.tables.Keys <= s.tables.Keys
  {
  }

  /** CompactMemTable gives up. */
  lemma GivenUp(s: State, s1: State, ending: Ending)
    requires Ordered(s1.tables, s.version) && s1.version == s.version && s1.job == s.job
    requires s.job.Working? ==> Closed(s1.tables, s.version, s.job.c.inputs, s.job.c.level)
    ensures var s' := EndMem(RecordError(s1), ending); LevelsOk(s'.tables, s'.version, s'.job)
  {
    hide Ordered, Closed, EndMem, RecordError, LevelsOk;
    ScheduleRests(s1, false);
    EndRests(RecordError(s1), ending);
    RestKeeps(s1.tables, s1.tables, s.version, s.job, EndMem(RecordError(s1), ending).job);
  }

  lemma MemTableLevels(s: State, n: nat)
    requires LevelsOk(s.tables, s.version, s.job) && s.imm.Some? && n !in s.version.tables
    ensures Ordered(WithMemTable(s, n).tables, s.version)
    ensures s.job.Working? ==> Closed(WithMemTable(s, n).tables, s.version, s.job.c.inputs, s.job.c.level)
  {
    hide Ordered, Closed;
    FewerTables(WithMemTable(s, n).tables, s.tables, s.version, {}, 0);
    if s.job.Working? {
      FewerTables(WithMemTable(s, n).tables, s.tables, s.version, s.job.c.inputs, s.job.c.level);
    }
  }

  lemma NewestNumber(s: State)
    requires Inv(s) && LevelsOk(s.tables, s.version, s.job) && JobMem(s.job).Building?
    ensures JobMem(s.job).number !in s.version.tables
    ensures forall b :: b in s.version.tables ==> b < JobMem(s.job).number
  {
    hide Ordered, Closed, LogsOk, EntriesOk, NumbersOk, AgesOk, ManifestOk, ScheduleOk, CompactionOk;
    VersionIsThere(s);
  }

  lemma InstallingIs(s: State, level: nat, ending: Ending)
    requires Enabled(s, BuildTable(true, level, ending)) && !s.shuttingDown
    ensures var (n, s', e) := (JobMem(s.job).number, Apply(s, BuildTable(true, level, ending)),
                               MemEdit(s, JobMem(s.job).number, level));
            && s'.tables == WithMemTable(s, n).tables && s'.version == s.version
            && s'.job == if s.job.Working? then s.job.(mem := Installing(e)) else MemOnly(Installing(e))
  {
    BuildTableIs(s, true, level, ending);
    hide Apply, Edited;
  }

  lemma BuildTableLevels(s: State, ok: bool, level: nat, ending: Ending)
    requires Inv(s) && LevelsOk(s.tables, s.version, s.job) && Enabled(s, BuildTable(ok, level, ending))
    ensures var s' := Apply(s, BuildTable(ok, level, ending)); LevelsOk(s'.tables, s'.version, s'.job)
  {
    if ok && !s.shuttingDown {
      InstallingLevels(s, level, ending);
    } else {
      var n := JobMem(s.job).number;
      BuildTableIs(s, ok, level, ending);
      hide Inv, Ordered, Closed, EndMem, RecordError, Apply, LevelsOk, WithMemTable;
      OrderedNow(s);
      NewestNumber(s);
      MemTableLevels(s, n);
      SameVersion(s, n);
      GivenUp(s, if ok then WithMemTable(s, n) else s.(pending := s.pending - {n}), ending);
    }
  }

  lemma InstallingLevels(s: State, level: nat, ending: Ending)
    requires Inv(s) && LevelsOk(s.tables, s.version, s.job) && Enabled(s, BuildTable(true, level, ending))
    requires !s.shuttingDown
    ensures var s' := Apply(s, BuildTable(true, level, ending)); LevelsOk(s'.tables, s'.version, s'.job)
  {
    var n := JobMem(s.job).number;
    InstallingIs(s, level, ending);
    hide Inv, Ordered, Closed, Settled, NoOverlap, HasMemTable, Apply, LevelsOk, WithMemTable, MemEdit;
    MemTableWritten(s);
    NewestNumber(s);
    MemTableLevels(s, n);
    MemTableInstalling(s, n, level);
  }

  lemma OrderedNow(s: State)
    requires LevelsOk(s.tables, s.version, s.job)
    ensures Ordered(s.tables, s.version)
    ensures (s.job.Working? ==> Closed(s.tables, s.version, s.job.c.inputs, s.job.c.level))
  {
    hide Ordered, Closed;
  }

  lemma SameVersion(s: State, n: nat)
    requires s.imm.Some?
    ensures WithMemTable(s, n).version == s.version && WithMemTable(s, n).job == s.job
  {
  }

  lemma MemInstalledLevels(s: State, ok: bool, ending: Ending)
    requires LevelsOk(s.tables, s.version, s.job) && Enabled(s, MemInstalled(ok, ending))
    ensures var s' := Apply(s, MemInstalled(ok, ending)); LevelsOk(s'.tables, s'.version, s'.job)
  {
    hide Ordered, Closed, EndMem, RecordError, ApplyEdit, Edited, DeleteObsoleteFiles, SomeOf;
    var e := JobMem(s.job).edit;
    if ok {
      var s1 := EndApply(s, e, true).(imm := None, hasImm := false);
      DeletionRests(s1);
      EndRests(DeleteObsoleteFiles(s1), ending);
      RestKeeps(DeleteObsoleteFiles(s1).tables, s.tables, s1.version, s.job,
                EndMem(DeleteObsoleteFiles(s1), ending).job);
    } else {
      GivenUp(s, s, ending);
    }
  }

  lemma WriteOutputLevels(s: State, contents: set<Entry>)
    requires Inv(s) && LevelsOk(s.tables, s.version, s.job) && Enabled(s, WriteOutput(contents))
    ensures var s' := Apply(s, WriteOutput(contents)); LevelsOk(s'.tables, s'.version, s'.job)
  {
    hide Ordered, Closed, LogsOk, EntriesOk, NumbersOk, AgesOk, ManifestOk, ScheduleOk, CompactionOk, Held;
    VersionIsThere(s);
    FewerTables(s.tables[s.nextFile := contents], s.tables, s.version, s.job.c.inputs, s.job.c.level);
  }

  lemma EndWorkLevels(s: State, ok: bool, input: seq<Entry>, ending: Ending)
    requires Inv(s) && LevelsOk(s.tables, s.version, s.job) && Enabled(s, EndWork(ok, input, ending))
    ensures var s' := Apply(s, EndWork(ok, input, ending)); LevelsOk(s'.tables, s'.version, s'.job)
  {
    hide Ordered, Closed, Core, CertainOk, ScheduleOk, Cleanup, RecordError, Compacted, ApplyEdit, Edited, SomeOf;
    if ok {
      CompactionHolds(s);
      CompactedIsOrdered(s, s.job.c);
    } else {
      ScheduleRests(s, false);
      CleanupRests(RecordError(s), s.job.c, ending);
      FewerTables(Cleanup(RecordError(s), s.job.c, ending).tables, s.tables, s.version, {}, 0);
    }
  }

  lemma CompactionHolds(s: State)
    requires JobOk(s) && s.job.Working?
    ensures Held(s.tables, s.job.c.outputs) <= Held(s.tables, s.job.c.inputs)
  {
    hide InputsOk, EditOk, AddsNothing;
  }

  lemma EditEndLevels(s: State, e: Edit, ok: bool)
    requires LevelsOk(s.tables, s.version, s.job) && EditInProgress(s.job) == Some(e)
    ensures var s' := EndApply(s, e, ok); s'.tables == s.tables && s'.job == s.job && Ordered(s'.tables, s'.version)
  {
    hide Ordered, Closed, RecordError, ApplyEdit;
    ScheduleRests(s, false);
  }

  lemma EndApplyIs(s: State, ok: bool, ending: Ending)
    ensures Enabled(s, Applied(ok, ending)) ==>
              && EditInProgress(s.job) == Some(s.job.edit)
              && Apply(s, Applied(ok, ending)) == Cleanup(EndApply(s, s.job.edit, ok), s.job.c, ending)
    ensures Enabled(s, Moved(ok, ending)) ==>
              && EditInProgress(s.job) == Some(s.job.edit)
              && Apply(s, Moved(ok, ending)) == EndJob(EndApply(s, s.job.edit, ok), ending)
  {
    hide EndApply, Cleanup, EndJob;
  }

  lemma AppliedLevels(s: State, ok: bool, ending: Ending)
    requires LevelsOk(s.tables, s.version, s.job) && Enabled(s, Applied(ok, ending))
    ensures var s' := Apply(s, Applied(ok, ending)); LevelsOk(s'.tables, s'.version, s'.job)
  {
    EndApplyIs(s, ok, ending);
    EditEndLevels(s, s.job.edit, ok);
    var (s1, s') := (EndApply(s, s.job.edit, ok), Cleanup(EndApply(s, s.job.edit, ok), s.job.c, ending));
    hide Ordered, Closed, EndApply, Cleanup, SomeOf, Apply;
    CleanupRests(s1, s.job.c, ending);
    RestKeeps(s'.tables, s1.tables, s1.version, NoJob, s'.job);
  }

  lemma MovedLevels(s: State, ok: bool, ending: Ending)
    requires LevelsOk(s.tables, s.version, s.job) && Enabled(s, Moved(ok, ending))
    ensures var s' := Apply(s, Moved(ok, ending)); LevelsOk(s'.tables, s'.version, s'.job)
  {
    EndApplyIs(s, ok, ending);
    EditEndLevels(s, s.job.edit, ok);
    var s1 := EndApply(s, s.job.edit, ok);
    hide Ordered, Closed, EndApply, EndJob, Apply;
    EndRests(s1, ending);
    RestKeeps(s1.tables, s1.tables, s1.version, NoJob, EndJob(s1, ending).job);
  }

  lemma CompactMemLevels(s: State)
    requires Inv(s) && LevelsOk(s.tables, s.version, s.job) && Enabled(s, CompactMem)
    ensures var s' := Apply(s, CompactMem); LevelsOk(s'.tables, s'.version, s'.job)
  {
    hide LevelsOk, LogsOk, EntriesOk, NumbersOk, AgesOk, ManifestOk, CertainOk, JobOk, ScheduleOk;
    BeginMemLevels(s);
  }

  /** No step lets what is newer get below what is older. */
  lemma StepKeepsLevels(s: State, step: Step)
    requires Inv(s) && LevelsOk(s.tables, s.version, s.job) && Enabled(s, step)
    ensures var s' := Apply(s, step); LevelsOk(s'.tables, s'.version, s'.job)
  {
    hide Inv, LevelsOk, Enabled, Apply, Aside;
    match step
    case BeginJob(pick, ending) => BeginJobLevels(s, pick, ending);
    case CompactMem => CompactMemLevels(s);
    case BuildTable(ok, level, ending) => BuildTableLevels(s, ok, level, ending);
    case MemInstalled(ok, ending) => MemInstalledLevels(s, ok, ending);
    case WriteOutput(contents) => WriteOutputLevels(s, contents);
    case EndWork(ok, input, ending) => EndWorkLevels(s, ok, input, ending);
    case Applied(ok, ending) => AppliedLevels(s, ok, ending);
    case Moved(ok, ending) => MovedLevels(s, ok, ending);
    case _ =>
      OthersAreAside(s, step);
      AsideKeeps(s, Apply(s, step));
  }

  lemma {:induction false} RunKeepsLevels(trace: seq<State>, steps: seq<Step>, i: nat)
    requires Run(trace, steps) && i < |trace| && Ordered(trace[0].tables, trace[0].version)
    ensures LevelsOk(trace[i].tables, trace[i].version, trace[i].job)
  {
    hide Inv, Enabled, Apply, Ordered, Closed;
    if i == 0 {
      StartLevels(trace[0]);
    } else {
      hide LevelsOk, Init;
      RunKeepsLevels(trace, steps, i - 1);
      RunKeeps(trace, steps, i - 1);
      assert Follows(trace[i - 1], steps[i - 1], trace[i]);
      StepKeepsLevels(trace[i - 1], steps[i - 1]);
    }
  }

  lemma StartLevels(s: State)
    requires Init(s) && Ordered(s.tables, s.version)
    ensures LevelsOk(s.tables, s.version, s.job)
  {
    hide Ordered, Closed, DistinctSequences, NeedsCompaction;
  }

  // ----- looking up -----

  /** The files of the version's levels, with what is in them: in level 0 the numbers differ, and the
      others are in order. */
  ghost predicate AreFiles(s: State, levels: seq<seq<PointLookup.Table>>) {
    && |levels| == NUM_LEVELS
    && (forall l, t :: 0 <= l < NUM_LEVELS && t in levels[l] ==>
          && PointLookup.TableOk(t) && t.number in s.version.tables && s.version.tables[t.number] == l
          && t.number in s.tables && s.tables[t.number] == Elements(t.entries))
    && (forall n :: n in s.version.tables && n in s.tables && s.version.tables[n] < NUM_LEVELS ==>
          exists t :: t in levels[s.version.tables[n]] && t.number == n)
    && (forall i, j :: 0 <= i < j < |levels[0]| ==> levels[0][i].number != levels[0][j].number)
    && (forall l :: 1 <= l < NUM_LEVELS ==> PointLookup.InOrder(levels[l]))
  }

  /** Memtables, as the state has them. */
  ghost predicate AreMemTables(s: State, mem: MemTable, imm: MemTable?)
    requires mem.Valid() && (imm != null ==> imm.Valid())
    reads mem.table, mem.table.nodes
    reads if imm == null then {} else {imm.table}, if imm == null then {} else imm.table.nodes
  {
    PointLookup.InMem(mem) == s.mem && PointLookup.InMem(imm) == Imm(s)
  }

  lemma NewerTag(e: Entry, f: Entry)
    requires f.sequence < e.sequence
    ensures f.Tag() < e.Tag()
  {
  }

  lemma {:induction false} InLevels(levels: seq<seq<PointLookup.Table>>, l: nat, e: Entry)
    requires l <= |levels|
    ensures e in PointLookup.FromLevel(levels, l)
       <==> exists j, t :: l <= j < |levels| && t in levels[j] && e in t.entries
    decreases |levels| - l
  {
    if l < |levels| {
      InLevels(levels, l + 1, e);
      assert e in PointLookup.InFiles(levels[l]) <==> exists t :: t in levels[l] && e in t.entries;
    }
  }

  /** The search goes through exactly the tables of the version. */
  lemma LevelsAreHeld(s: State, levels: seq<seq<PointLookup.Table>>)
    requires AreFiles(s, levels) && Ordered(s.tables, s.version)
    ensures PointLookup.FromLevel(levels, 0) == Held(s.tables, s.version.tables.Keys)
  {
    hide PointLookup.FromLevel, PointLookup.TableOk, PointLookup.InOrder;
    forall e ensures e in PointLookup.FromLevel(levels, 0) <==> Holds(s.tables, s.version.tables.Keys, e) {
      InLevels(levels, 0, e);
      if n :| n in s.version.tables.Keys && n in s.tables && e in s.tables[n] {
        var t :| t in levels[s.version.tables[n]] && t.number == n;
        assert e in Elements(t.entries);
      }
      if j, t :| 0 <= j < |levels| && t in levels[j] && e in t.entries {
        assert e in Elements(t.entries);
      }
    }
  }

  lemma FileIs(s: State, levels: seq<seq<PointLookup.Table>>, l: nat, t: PointLookup.Table)
    requires AreFiles(s, levels) && l < |levels| && t in levels[l]
    ensures t.number in s.version.tables && s.version.tables[t.number] == l
    ensures t.number in s.tables && s.tables[t.number] == Elements(t.entries)
  {
    hide PointLookup.TableOk, PointLookup.InOrder;
  }

  lemma FirstIsNewer(s: State, levels: seq<seq<PointLookup.Table>>, l: nat, t: PointLookup.Table, j: nat,
                     u: PointLookup.Table, e: Entry, f: Entry)
    requires AreFiles(s, levels) && Ordered(s.tables, s.version)
    requires l < |levels| && t in levels[l] && j < |levels| && u in levels[j]
    requires l < j || (l == j == 0 && t.number > u.number)
    requires e in t.entries && f in u.entries && e.user == f.user
    ensures e.Tag() > f.Tag()
  {
    FileIs(s, levels, l, t);
    FileIs(s, levels, j, u);
    hide AreFiles;
    assert e in Elements(t.entries) && f in Elements(u.entries);
    assert SearchedFirst(s.version, t.number, u.number);
    NewerTag(e, f);
  }

  lemma LevelZeroIsOrdered(s: State, levels: seq<seq<PointLookup.Table>>)
    requires AreFiles(s, levels) && Ordered(s.tables, s.version)
    ensures forall t, u, k :: t in levels[0] && u in levels[0] && t.number > u.number ==>
              PointLookup.Shadows(Elements(t.entries), Elements(u.entries), k)
  {
    assert |levels| == NUM_LEVELS;
    hide AreFiles, Ordered;
    forall t, u, k | t in levels[0] && u in levels[0] && t.number > u.number
      ensures PointLookup.Shadows(Elements(t.entries), Elements(u.entries), k)
    {
      forall e, f | e in Elements(t.entries) && f in Elements(u.entries) && e.user == k && f.user == k
        ensures e.Tag() > f.Tag()
      {
        FirstIsNewer(s, levels, 0, t, 0, u, e, f);
      }
    }
  }

  lemma FilesAreOk(s: State, levels: seq<seq<PointLookup.Table>>)
    requires AreFiles(s, levels)
    requires forall t, u, k :: t in levels[0] && u in levels[0] && t.number > u.number ==>
               PointLookup.Shadows(Elements(t.entries), Elements(u.entries), k)
    ensures PointLookup.VersionOk(levels)
  {
    hide PointLookup.TableOk, PointLookup.InOrder, PointLookup.Shadows;
    forall i | 0 <= i < |levels[0]| ensures PointLookup.TableOk(levels[0][i]) {
      assert levels[0][i] in levels[0];
    }
  }

  lemma LevelsAreOrdered(s: State, levels: seq<seq<PointLookup.Table>>, k: UserKey)
    requires AreFiles(s, levels) && Ordered(s.tables, s.version)
    ensures PointLookup.VersionOk(levels) && PointLookup.LevelsAge(levels, k)
  {
    LevelZeroIsOrdered(s, levels);
    FilesAreOk(s, levels);
    hide AreFiles, Ordered, PointLookup.VersionOk, PointLookup.Shadows;
    forall l | 0 <= l < |levels|
      ensures PointLookup.Shadows(PointLookup.InFiles(levels[l]), PointLookup.FromLevel(levels, l + 1), k)
    {
      LevelIsNewer(s, levels, k, l);
    }
  }

  lemma LevelIsNewer(s: State, levels: seq<seq<PointLookup.Table>>, k: UserKey, l: nat)
    requires AreFiles(s, levels) && Ordered(s.tables, s.version) && l < |levels|
    ensures PointLookup.Shadows(PointLookup.InFiles(levels[l]), PointLookup.FromLevel(levels, l + 1), k)
  {
    hide AreFiles, Ordered, PointLookup.FromLevel;
    forall e, f | e in PointLookup.InFiles(levels[l]) && f in PointLookup.FromLevel(levels, l + 1) && e.user == k
                  && f.user == k
      ensures e.Tag() > f.Tag()
    {
      InLevels(levels, l + 1, f);
      var t :| t in levels[l] && e in t.entries;
      var j, u :| l + 1 <= j < |levels| && u in levels[j] && f in u.entries;
      FirstIsNewer(s, levels, l, t, j, u, e, f);
    }
  }

  /** What is in memory is newer than what has left it, and the memtable newer than the immutable one. */
  lemma MemoryIsNewer(s: State, k: UserKey)
    requires LogsOk(s) && EntriesOk(s) && AgesOk(s)
    ensures var held := Held(s.tables, s.version.tables.Keys);
            PointLookup.Shadows(s.mem, Imm(s) + held, k) && PointLookup.Shadows(Imm(s), held, k)
  {
    var held := Held(s.tables, s.version.tables.Keys);
    forall e, f | e in s.mem && f in Imm(s) + held ensures e.Tag() > f.Tag() {
      assert InLog(s, s.logFile, e) && InMemoryLogs(s, e);
      if f in held {
        HeldAcked(s, s.version.tables.Keys, f);
      }
      NewerTag(e, f);
    }
    forall e, f | e in Imm(s) && f in held ensures e.Tag() > f.Tag() {
      HeldAcked(s, s.version.tables.Keys, f);
      ImmIsNewer(s, f, e);
      NewerTag(e, f);
    }
  }

  /** DBImpl::Get at any moment of any run: though it stops at the first memtable, file or level that has
      something to say, it gives what reading everything acknowledged gives. */
  method Get(ghost trace: seq<State>, ghost steps: seq<Step>, ghost i: nat, mem: MemTable, imm: MemTable?,
             levels: seq<seq<PointLookup.Table>>, k: UserKey, snapshot: nat) returns (value: Option<bytes>)
    requires Run(trace, steps) && i < |trace| && Ordered(trace[0].tables, trace[0].version)
    requires mem.Valid() && (imm != null ==> imm.Valid()) && AreMemTables(trace[i], mem, imm)
    requires AreFiles(trace[i], levels) && Readable(trace[i], snapshot)
    ensures value == Read(trace[i].acked, k, snapshot)
  {
    ghost var s := trace[i];
    SearchIsRight(trace, steps, i, levels, k, snapshot);
    hide Run, Readable, Ordered, AreFiles, PointLookup.VersionOk, PointLookup.LevelsAge, PointLookup.FromLevel;
    hide PointLookup.Shadows, Imm, PointLookup.InMem;
    value := PointLookup.Get(mem, imm, levels, k, snapshot);
  }

  /** What PointLookup.Get asks for. */
  lemma SearchIsRight(trace: seq<State>, steps: seq<Step>, i: nat, levels: seq<seq<PointLookup.Table>>, k: UserKey,
                      snapshot: nat)
    requires Run(trace, steps) && i < |trace| && Ordered(trace[0].tables, trace[0].version)
    requires AreFiles(trace[i], levels) && Readable(trace[i], snapshot)
    ensures var (s, tables) := (trace[i], PointLookup.FromLevel(levels, 0));
            && PointLookup.VersionOk(levels) && PointLookup.LevelsAge(levels, k)
            && PointLookup.Shadows(s.mem, Imm(s) + tables, k) && PointLookup.Shadows(Imm(s), tables, k)
            && DistinctTags(s.mem + (Imm(s) + tables))
            && Read(s.mem + (Imm(s) + tables), k, snapshot) == Read(s.acked, k, snapshot)
  {
    hide Run, Readable, Ordered, AreFiles, PointLookup.VersionOk, PointLookup.LevelsAge, PointLookup.FromLevel;
    hide PointLookup.Shadows, Inv, LevelsOk, DistinctTags;
    var s := trace[i];
    RunKeeps(trace, steps, i);
    RunKeepsLevels(trace, steps, i);
    SearchPremises(s, levels, k);
    AcknowledgedIsReadable(trace, steps, i, k, snapshot);
    assert Store(s) == s.mem + (Imm(s) + PointLookup.FromLevel(levels, 0));
  }

  lemma SearchPremises(s: State, levels: seq<seq<PointLookup.Table>>, k: UserKey)
    requires Inv(s) && LevelsOk(s.tables, s.version, s.job) && AreFiles(s, levels)
    ensures var tables := PointLookup.FromLevel(levels, 0);
            && tables == Held(s.tables, s.version.tables.Keys)
            && PointLookup.VersionOk(levels) && PointLookup.LevelsAge(levels, k)
            && PointLookup.Shadows(s.mem, Imm(s) + tables, k) && PointLookup.Shadows(Imm(s), tables, k)
            && DistinctTags(s.mem + (Imm(s) + tables))
  {
    hide Ordered, AreFiles, PointLookup.VersionOk, PointLookup.LevelsAge, PointLookup.FromLevel, PointLookup.Shadows;
    hide FilesOk, LogsOk, NumbersOk, AgesOk, ManifestOk, CertainOk, JobOk, ScheduleOk, DistinctTags, Closed;
    LevelsAreHeld(s, levels);
    LevelsAreOrdered(s, levels, k);
    MemoryIsNewer(s, k);
    StoreIsDistinct(s);
  }

  lemma StoreIsDistinct(s: State)
    requires EntriesOk(s) && NumbersOk(s)
    ensures DistinctTags(s.mem + (Imm(s) + Held(s.tables, s.version.tables.Keys)))
  {
    hide DistinctSequences;
    var part := s.mem + (Imm(s) + Held(s.tables, s.version.tables.Keys));
    forall e | e in part ensures e in Ever(s) {
      if Holds(s.tables, s.version.tables.Keys, e) {
        HeldAcked(s, s.version.tables.Keys, e);
      }
    }
    PartDistinct(s, part);
    DistinctSequencesAreTags(part);
  }
}

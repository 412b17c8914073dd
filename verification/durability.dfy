/** Where acknowledged writes live: memtable switching, memtable compaction, table compaction, the
    MANIFEST, file deletion and the scheduling of background work in db/db_impl.cc, as a state machine. A
    step runs from one point at which the mutex is free to the next. Logs, memtables and tables hold
    entries, and a table compaction drops what CompactionWork says it drops. */
module Durability {
  import opened Wrappers
  import opened DbFormat
  import opened MultiVersion
  import opened Retention
  import CompactionWork

  /** The entries of a group of writes, under the numbers up to 'last' that it is given. They can be given
      when its leader starts: nobody else moves LastSequence until the leader is done. */
  datatype Batch = Batch(entries: set<Entry>, last: nat)

  /** The tables of a version with their levels, and the number of the oldest log it still needs. */
  datatype Version = Version(tables: map<nat, nat>, logNumber: nat) {
    function LevelZeroTables(): set<nat> {
      set n | n in tables && tables[n] == 0
    }

    function LevelZero(): nat {
      |LevelZeroTables()|
    }
  }

  datatype Edit = Edit(deleted: set<nat>, added: map<nat, nat>, logNumber: nat)

  function ApplyEdit(v: Version, e: Edit): Version {
    Version(v.tables - e.deleted + e.added, e.logNumber)
  }

  /** A compaction of tables of this level and the next: its inputs, the version it keeps referenced, its
      outputs so far, its smallest snapshot, and the user keys for which no deeper level has data. */
  datatype Compaction = Compaction(inputs: set<nat>, level: nat, inputVersion: set<nat>, outputs: set<nat>,
                                   smallest: nat, base: set<UserKey>)

  /** Where CompactMemTable is: not running, building its table, or in LogAndApply. */
  datatype MemStage = NoMem | Building(number: nat) | Installing(edit: Edit)

  /** The one background job. 'Working' may run CompactMemTable in between; Applying and Moving are in
      LogAndApply for a compaction and for a trivial move. */
  datatype Job =
    | NoJob
    | Scheduled
    | MemOnly(mem: MemStage)
    | Working(c: Compaction, mem: MemStage)
    | Applying(c: Compaction, edit: Edit)
    | Moving(edit: Edit)

  /** The leader of the writer queue. */
  datatype Writer =
    | Idle
    | MakingRoom(request: Option<Batch>, force: bool)
    | Asleep(request: Option<Batch>, force: bool)
    | Logging(batch: Batch)
    | Inserting(batch: Batch)
  {
    /** The batch that is on its way. */
    function InFlight(): Option<Batch> {
      if Idle? then None else if MakingRoom? || Asleep? then request else Some(batch)
    }
  }

  /** 'logs' and 'tables' are the files on disk with the entries in them; 'manifest' holds every version a
      recovery might find, which is more than one while the MANIFEST is written or after that failed.
      'torn' are the logs in which an append has failed, and 'unsure' the entries that reading a log may
      miss: those of appends and syncs that failed, and those of records behind a failed append. 'acked' is
      all that has been acknowledged, and 'floor' the greatest number that was the smallest snapshot of some
      compaction. */
  datatype State = State(
    logs: map<nat, set<Entry>>, torn: set<nat>, unsure: set<Entry>,
    tables: map<nat, set<Entry>>, manifest: set<Version>,
    version: Version, logFile: nat, nextFile: nat, pending: set<nat>, pinned: seq<set<nat>>,
    mem: set<Entry>, imm: Option<set<Entry>>, immLog: nat, hasImm: bool,
    bgError: bool, shuttingDown: bool, manual: bool, job: Job, writer: Writer,
    lastSequence: nat, snapshots: seq<nat>, acked: set<Entry>, floor: nat)

  /** RecordBackgroundError and SignalAll. */
  function Signal(s: State): State {
    if s.writer.Asleep? then s.(writer := MakingRoom(s.writer.request, s.writer.force)) else s
  }

  function RecordError(s: State): State {
    if s.bgError then s else Signal(s.(bgError := true))
  }

  /** 'other' says whether some level or some much-sought file needs compaction; level 0 does from
      four tables on. */
  function NeedsCompaction(v: Version, other: bool): bool {
    other || v.LevelZero() >= L0_COMPACTION_TRIGGER
  }

  function MaybeSchedule(s: State, other: bool): State {
    if s.job != NoJob || s.shuttingDown || s.bgError then s
    else if s.imm.None? && !s.manual && !NeedsCompaction(s.version, other) then s
    else s.(job := Scheduled)
  }

  /** What the end of a job depends on besides the state: see NeedsCompaction, and whether a manual
      compaction request has been dealt with. */
  datatype Ending = Ending(other: bool, manualDone: bool)

  /** The end of BackgroundCall. */
  function EndJob(s: State, ending: Ending): State {
    Signal(MaybeSchedule(s.(job := NoJob, manual := s.manual && !ending.manualDone), ending.other))
  }

  ghost predicate Pinned(s: State, n: nat) {
    exists i :: 0 <= i < |s.pinned| && n in s.pinned[i]
  }

  ghost predicate LiveTable(s: State, n: nat) {
    || n in s.pending || n in s.version.tables || Pinned(s, n)
    || (s.job.Working? && n in s.job.c.inputVersion)
  }

  /** After a background error nothing is deleted. */
  ghost function DeleteObsoleteFiles(s: State): State {
    if s.bgError then s
    else s.(logs := map n | n in s.logs && n >= s.version.logNumber :: s.logs[n],
            tables := map n | n in s.tables && LiveTable(s, n) :: s.tables[n])
  }

  ghost function Edited(manifest: set<Version>, e: Edit): set<Version> {
    set m | m in manifest :: ApplyEdit(m, e)
  }

  /** LogAndApply up to the release of the mutex: from now on recovery may find the edited version. */
  ghost function BeginApply(s: State, e: Edit): State {
    s.(manifest := s.manifest + Edited(s.manifest, e))
  }

  /** LogAndApply after the MANIFEST write. When that failed, the record may have made it to disk or not. */
  ghost function EndApply(s: State, e: Edit, ok: bool): State {
    if ok then s.(version := ApplyEdit(s.version, e), manifest := Edited(s.manifest, e)) else RecordError(s)
  }

  // ----- the steps -----

  datatype LogOutcome = Appended | NotAppended | SyncFailed

  datatype Pick =
    | Nothing
    | TrivialMove(table: nat)
    | Compact(inputs: set<nat>, level: nat, smallest: nat, base: set<UserKey>)

  datatype Step =
    | StartWrite(request: Option<Batch>)
    | TryRoom(full: bool, created: bool, other: bool)
    | SpuriousWakeup
    | AddRecord(outcome: LogOutcome)
    | FinishWrite
    | BeginJob(pick: Pick, ending: Ending)
    | CompactMem
    | BuildTable(ok: bool, level: nat, ending: Ending)
    | MemInstalled(ok: bool, ending: Ending)
    | WriteOutput(contents: set<Entry>)
    | EndWork(ok: bool, input: seq<Entry>, ending: Ending)
    | Applied(ok: bool, ending: Ending)
    | Moved(ok: bool, ending: Ending)
    | RequestManual(other: bool)
    | Shutdown
    | Pin
    | Unpin(i: nat)
    | TakeSnapshot
    | ReleaseSnapshot(i: nat)

  ghost predicate Holds(tables: map<nat, set<Entry>>, numbers: set<nat>, e: Entry) {
    exists n :: n in numbers && n in tables && e in tables[n]
  }

  /** All entries of some tables. */
  ghost function Held(tables: map<nat, set<Entry>>, numbers: set<nat>): (held: set<Entry>)
    ensures forall e :: e in held <==> Holds(tables, numbers, e)
  {
    set n, e | n in numbers && n in tables && e in tables[n] :: e
  }

  function JobMem(job: Job): MemStage {
    if job.MemOnly? || job.Working? then job.mem else NoMem
  }

  /** The numbers of a batch are new, and differ. */
  ghost predicate Numbered(s: State, b: Batch) {
    && s.lastSequence <= b.last && DistinctSequences(b.entries)
    && forall e :: e in b.entries ==> s.lastSequence < e.sequence <= b.last
  }

  /** What the choice of inputs from a level and the next provides: what lies outside them, down to the
      next level, is newer than what they hold for the same key. */
  ghost predicate Closed(tables: map<nat, set<Entry>>, m: Version, inputs: set<nat>, level: nat) {
    && level + 1 < NUM_LEVELS && inputs <= m.tables.Keys
    && (forall n :: n in inputs ==> level <= m.tables[n] <= level + 1)
    && (forall n, g, e ::
          && n in m.tables && n !in inputs && m.tables[n] < level + 2 && n in tables && g in tables[n]
          && Holds(tables, inputs, e) && g.user == e.user
          ==> e.sequence < g.sequence)
  }

  /** No table two or more levels down has an entry for any of these keys. */
  ghost predicate IsBase(tables: map<nat, set<Entry>>, m: Version, level: nat, base: set<UserKey>) {
    forall n, g :: n in m.tables && m.tables[n] >= level + 2 && n in tables && g in tables[n] ==> g.user !in base
  }

  /** No table down to this level has an entry for any key of these entries. */
  ghost predicate NoOverlap(tables: map<nat, set<Entry>>, m: Version, level: nat, entries: set<Entry>) {
    forall n, g, e :: n in m.tables && m.tables[n] <= level && n in tables && g in tables[n] && e in entries ==>
      g.user != e.user
  }

  /** What a compaction may count on in a version: its inputs are there, and for the base keys there is
      nothing outside them that is older than what they hold. */
  ghost predicate InputsOk(tables: map<nat, set<Entry>>, m: Version, inputs: set<nat>, base: set<UserKey>) {
    && inputs <= m.tables.Keys
    && forall g, e ::
         (Holds(tables, m.tables.Keys - inputs, g) && Holds(tables, inputs, e) && g.user == e.user && e.user in base
          ==> e.sequence <= g.sequence)
  }

  /** The outputs hold what the loop of the compaction keeps of its inputs. */
  ghost predicate Compacted(s: State, c: Compaction, input: seq<Entry>) {
    && Sorted(input) && Elements(input) == Held(s.tables, c.inputs)
    && Held(s.tables, c.outputs) == Elements(CompactionWork.Kept(input, |input|, c.smallest, iset k | k in c.base))
  }

  ghost predicate Enabled(s: State, step: Step) {
    match step
    case StartWrite(request) => s.writer.Idle? && (request.Some? ==> Numbered(s, request.value))
    case TryRoom(full, created, _) => s.writer.MakingRoom?
    case SpuriousWakeup => s.writer.Asleep?
    case AddRecord(_) => s.writer.Logging? && s.logFile in s.logs
    case FinishWrite => s.writer.Inserting?
    case BeginJob(pick, _) =>
      && s.job.Scheduled?
      && (pick.TrivialMove? ==>
            && pick.table in s.version.tables && !s.manual
            && Closed(s.tables, s.version, {pick.table}, s.version.tables[pick.table]))
      && (pick.Compact? ==>
            && Closed(s.tables, s.version, pick.inputs, pick.level)
            && IsBase(s.tables, s.version, pick.level, pick.base)
            && pick.smallest <= s.lastSequence
            && forall i :: 0 <= i < |s.snapshots| ==> pick.smallest <= s.snapshots[i])
    case CompactMem => s.job.Working? && s.job.mem.NoMem? && s.hasImm && s.imm.Some?
    case BuildTable(_, level, _) =>
      && JobMem(s.job).Building? && s.imm.Some? && level <= MAX_MEM_COMPACT_LEVEL
      && (level > 0 ==> NoOverlap(s.tables, s.version, level, s.imm.value))
    case MemInstalled(_, _) => JobMem(s.job).Installing?
    case WriteOutput(contents) => s.job.Working? && s.job.mem.NoMem? && contents <= Held(s.tables, s.job.c.inputs)
    case EndWork(ok, input, _) =>
      s.job.Working? && s.job.mem.NoMem? && (ok ==> !s.shuttingDown && Compacted(s, s.job.c, input))
    case Applied(_, _) => s.job.Applying?
    case Moved(_, _) => s.job.Moving?
    case RequestManual(_) => !s.manual
    case Shutdown => true
    case Pin => true
    case Unpin(i) => i < |s.pinned|
    case TakeSnapshot => true
    case ReleaseSnapshot(i) => i < |s.snapshots|
  }

  /** MakeRoomForWrite, one turn of its loop. 'full' is whether the memtable is over its size, 'created'
      whether a new log file can be created. */
  function Room(s: State, full: bool, created: bool, other: bool): State
    requires s.writer.MakingRoom?
  {
    var (request, force) := (s.writer.request, s.writer.force);
    if s.bgError then s.(writer := Idle)
    else if !force && !full then s.(writer := if request.Some? then Logging(request.value) else Idle)
    else if s.imm.Some? || s.version.LevelZero() >= L0_STOP_WRITES_TRIGGER then s.(writer := Asleep(request, force))
    else if !created then s.(writer := Idle)
    else
      MaybeSchedule(Switched(s), other)
  }

  /** A new memtable and a new log; a forced switch happens once. */
  function Switched(s: State): State
    requires s.writer.MakingRoom?
  {
    s.(logs := s.logs[s.nextFile := {}], logFile := s.nextFile, nextFile := s.nextFile + 1,
       imm := Some(s.mem), immLog := s.logFile, hasImm := true, mem := {},
       writer := MakingRoom(s.writer.request, false))
  }

  /** The record is in the log, but behind a failed append it may not be found there. */
  function Logged(s: State, b: Batch): State
    requires s.logFile in s.logs
  {
    s.(logs := s.logs[s.logFile := s.logs[s.logFile] + b.entries],
       unsure := if s.logFile in s.torn then s.unsure + b.entries else s.unsure)
  }

  /** The append has failed: all, some or none of the record is in the log, and later ones come behind it. */
  function Torn(s: State): State {
    s.(torn := s.torn + {s.logFile})
  }

  /** The record was appended and then not synced: it may be in the log or not. */
  function Unsynced(s: State, b: Batch): State
    requires s.logFile in s.logs
  {
    Logged(s, b).(unsure := s.unsure + b.entries)
  }

  /** A write that failed has used up its numbers all the same. */
  function Failed(s: State, b: Batch): State {
    s.(writer := Idle, lastSequence := b.last)
  }

  /** Starting CompactMemTable: the table's number is kept alive while it is built. */
  function BeginMem(s: State): State {
    s.(pending := s.pending + {s.nextFile}, nextFile := s.nextFile + 1,
       job := if s.job.Working? then s.job.(mem := Building(s.nextFile)) else MemOnly(Building(s.nextFile)))
  }

  /** The end of CompactMemTable: of the whole job, or of the interruption of a compaction. */
  function EndMem(s: State, ending: Ending): State {
    if s.job.Working? then Signal(s.(job := s.job.(mem := NoMem))) else EndJob(s, Ending(ending.other, false))
  }

  /** CleanupCompaction, ReleaseInputs and the deletion that follows them. */
  ghost function Cleanup(s: State, c: Compaction, ending: Ending): State {
    EndJob(DeleteObsoleteFiles(s.(pending := s.pending - c.outputs, job := MemOnly(NoMem))), ending)
  }

  ghost function Apply(s: State, step: Step): State
    requires Enabled(s, step)
  {
    match step
    case StartWrite(request) => s.(writer := MakingRoom(request, request.None?))
    case TryRoom(full, created, other) => Room(s, full, created, other)
    case SpuriousWakeup => Signal(s)
    case AddRecord(outcome) =>
      var b := s.writer.batch;
      (match outcome
       case Appended => Logged(s, b).(writer := Inserting(b))
       case NotAppended => Failed(Logged(Torn(s), b), b)
       case SyncFailed => RecordError(Failed(Unsynced(s, b), b)))
    case FinishWrite =>
      var b := s.writer.batch;
      s.(mem := s.mem + b.entries, acked := s.acked + b.entries, lastSequence := b.last, writer := Idle)
    case BeginJob(pick, ending) =>
      if s.shuttingDown || s.bgError then EndJob(s, Ending(ending.other, false))
      else if s.imm.Some? then BeginMem(s)
      else
        (match pick
         case Nothing => EndJob(s, ending)
         case TrivialMove(n) =>
           var e := Edit({n}, map[n := s.version.tables[n] + 1], s.version.logNumber);
           BeginApply(s, e).(job := Moving(e))
         case Compact(inputs, level, smallest, base) => Begun(s, inputs, level, smallest, base))
    case CompactMem => BeginMem(s)
    case BuildTable(ok, level, ending) =>
      var n := JobMem(s.job).number;
      var s1 := s.(pending := s.pending - {n});
      if !ok then EndMem(RecordError(s1), ending)
      else
        var s2 := s1.(tables := if s.imm.value == {} then s.tables else s.tables[n := s.imm.value]);
        if s.shuttingDown then EndMem(RecordError(s2), ending)
        else
          var e := Edit({}, if s.imm.value == {} then map[] else map[n := level], s.logFile);
          BeginApply(s2, e).(job := if s.job.Working? then s.job.(mem := Installing(e)) else MemOnly(Installing(e)))
    case MemInstalled(ok, ending) =>
      var s1 := EndApply(s, JobMem(s.job).edit, ok);
      EndMem(if ok then DeleteObsoleteFiles(s1.(imm := None, hasImm := false)) else s1, ending)
    case WriteOutput(contents) =>
      var c := s.job.c;
      s.(tables := s.tables[s.nextFile := contents], pending := s.pending + {s.nextFile}, nextFile := s.nextFile + 1,
         job := Working(c.(outputs := c.outputs + {s.nextFile}), NoMem))
    case EndWork(ok, input, ending) =>
      var c := s.job.c;
      if !ok then Cleanup(RecordError(s), c, ending)
      else BeginApply(s, CompactionEdit(s, c)).(job := Applying(c, CompactionEdit(s, c)))
    case Applied(ok, ending) => Cleanup(EndApply(s, s.job.edit, ok), s.job.c, ending)
    case Moved(ok, ending) => EndJob(EndApply(s, s.job.edit, ok), ending)
    case RequestManual(other) => MaybeSchedule(s.(manual := true), other)
    case Shutdown => s.(shuttingDown := true)
    case Pin => s.(pinned := s.pinned + [s.version.tables.Keys])
    case Unpin(i) => s.(pinned := s.pinned[..i] + s.pinned[i + 1..])
    case TakeSnapshot => s.(snapshots := s.snapshots + [s.lastSequence])
    case ReleaseSnapshot(i) => s.(snapshots := s.snapshots[..i] + s.snapshots[i + 1..])
  }

  /** A table compaction begins: it will not read below its smallest snapshot. */
  function Begun(s: State, inputs: set<nat>, level: nat, smallest: nat, base: set<UserKey>): State {
    s.(job := Working(Compaction(inputs, level, s.version.tables.Keys, {}, smallest, base), NoMem),
       floor := if smallest > s.floor then smallest else s.floor)
  }

  function CompactionEdit(s: State, c: Compaction): Edit {
    Edit(c.inputs, map n | n in c.outputs :: c.level + 1, s.version.logNumber)
  }

  // ----- what holds in every reachable state -----

  /** File numbers are never reused, and every table that some version, reader or job needs is there. */
  ghost predicate FilesOk(s: State) {
    && (forall n :: n in s.tables ==> n < s.nextFile)
    && (forall n :: n in s.logs ==> n < s.nextFile)
    && (forall m :: m in s.manifest ==> m.tables.Keys <= s.tables.Keys)
    && (forall i :: 0 <= i < |s.pinned| ==> s.pinned[i] <= s.tables.Keys)
  }

  /** The current log backs the memtable, and one older log the immutable memtable; recovery needs no
      others. */
  ghost predicate LogsOk(s: State) {
    && s.logFile in s.logs && s.mem <= s.logs[s.logFile] && s.version.logNumber <= s.logFile
    && (s.writer.Inserting? ==> s.writer.batch.entries <= s.logs[s.logFile])
    && (s.hasImm <==> s.imm.Some?)
    && (s.imm.Some? ==>
          && s.immLog in s.logs && s.immLog < s.logFile && s.imm.value <= s.logs[s.immLog]
          && s.version.logNumber <= s.immLog)
    && (forall l :: l in s.logs && l >= s.version.logNumber ==> l == s.logFile || (s.imm.Some? && l == s.immLog))
  }

  function Imm(s: State): set<Entry> {
    if s.imm.Some? then s.imm.value else {}
  }

  /** Memtables and tables hold only what was acknowledged, and what is in the current tables is no longer
      in memory. */
  ghost predicate EntriesOk(s: State) {
    && s.mem <= s.acked && Imm(s) <= s.acked
    && (forall n :: n in s.tables ==> s.tables[n] <= s.acked)
    && (forall e :: Holds(s.tables, s.version.tables.Keys, e) ==> e !in s.mem && e !in Imm(s))
  }

  /** The entry is in a log. */
  ghost predicate InLog(s: State, l: nat, e: Entry) {
    l in s.logs && e in s.logs[l]
  }

  /** All entries ever given out have different numbers, up to LastSequence or on their way. */
  ghost predicate NumbersOk(s: State) {
    && DistinctSequences(Ever(s))
    && (forall e :: e in s.acked ==> e.sequence <= s.lastSequence)
    && (forall l, e :: InLog(s, l, e) ==>
          e.sequence <= s.lastSequence || (s.writer.Inserting? && e in s.writer.batch.entries))
    && (s.writer.InFlight().Some? ==> Numbered(s, s.writer.InFlight().value))
    && s.floor <= s.lastSequence
    && (forall i :: 0 <= i < |s.snapshots| ==> s.floor <= s.snapshots[i] <= s.lastSequence)
  }

  ghost function Ever(s: State): (all: set<Entry>)
    ensures forall e :: e in all <==> e in s.acked || exists l :: InLog(s, l, e)
  {
    s.acked + set l, e | l in s.logs && e in s.logs[l] && InLog(s, l, e) :: e
  }

  /** The entry is in a log that backs a memtable. */
  ghost predicate InMemoryLogs(s: State, e: Entry) {
    InLog(s, s.logFile, e) || (s.imm.Some? && InLog(s, s.immLog, e))
  }

  /** What has left memory is older than what the logs of memory hold, and the immutable memtable older
      than the current log. */
  ghost predicate AgesOk(s: State) {
    && (forall e, g :: e in s.acked && e !in s.mem && e !in Imm(s) && InMemoryLogs(s, g) ==> e.sequence < g.sequence)
    && (forall e, g :: e in Imm(s) && InLog(s, s.logFile, g) ==> e.sequence < g.sequence)
  }

  /** What has left memory. */
  function Flushed(s: State): set<Entry> {
    s.acked - s.mem - Imm(s)
  }

  /** Whatever a recovery of this version does not find in the memtables' logs is in its tables, unless it
      is gone: hidden by what has left memory too, or a deletion with nothing left below it. */
  ghost predicate Accounted(s: State, m: Version, e: Entry) {
    || e in s.mem || (e in Imm(s) && m.logNumber <= s.immLog)
    || Holds(s.tables, m.tables.Keys, e)
    || (e !in Imm(s) && Gone(Flushed(s), Held(s.tables, m.tables.Keys), s.floor, e))
  }

  ghost predicate VersionOk(s: State, m: Version) {
    s.version.logNumber <= m.logNumber <= s.logFile && forall e :: e in s.acked ==> Accounted(s, m, e)
  }

  ghost predicate ManifestOk(s: State) {
    forall m :: m in s.manifest ==> VersionOk(s, m)
  }

  function EditInProgress(job: Job): Option<Edit> {
    match job
    case Applying(_, e) => Some(e)
    case Moving(e) => Some(e)
    case _ => if JobMem(job).Installing? then Some(JobMem(job).edit) else None
  }

  /** Without a background error it is known what is on disk, except during the MANIFEST write. */
  ghost predicate CertainOk(s: State) {
    && s.version in s.manifest
    && (!s.bgError ==>
          match EditInProgress(s.job)
          case None => s.manifest == {s.version}
          case Some(e) => s.manifest == {s.version, ApplyEdit(s.version, e)})
  }

  /** Recovery may find the edited form of whatever it may find. */
  ghost predicate EditOk(s: State, e: Edit) {
    forall m :: m in s.manifest ==> ApplyEdit(m, e) in s.manifest
  }

  ghost predicate CompactionOk(s: State, c: Compaction) {
    && c.inputs <= c.inputVersion <= s.tables.Keys && c.outputs <= s.tables.Keys && c.outputs <= s.pending
    && c.smallest <= s.floor && Held(s.tables, c.outputs) <= Held(s.tables, c.inputs)
    && (forall m :: m in s.manifest ==> InputsOk(s.tables, m, c.inputs, c.base))
  }

  /** Tables of a compaction or a move add nothing that was not in tables. */
  ghost predicate AddsNothing(s: State, e: Edit) {
    e.logNumber == s.version.logNumber && Held(s.tables, e.added.Keys) <= Held(s.tables, s.version.tables.Keys)
  }

  ghost predicate JobOk(s: State) {
    && (EditInProgress(s.job).Some? ==> EditOk(s, EditInProgress(s.job).value))
    && (JobMem(s.job).Building? ==>
          s.imm.Some? && JobMem(s.job).number < s.nextFile && JobMem(s.job).number !in s.tables)
    && (JobMem(s.job).Installing? ==>
          && s.imm.Some? && JobMem(s.job).edit.logNumber == s.logFile && JobMem(s.job).edit.deleted == {}
          && Held(s.tables, JobMem(s.job).edit.added.Keys) <= Imm(s))
    && (s.job.MemOnly? ==> !s.job.mem.NoMem?)
    && (s.job.Working? ==> CompactionOk(s, s.job.c))
    && (s.job.Applying? ==> AddsNothing(s, s.job.edit))
    && (s.job.Moving? ==> AddsNothing(s, s.job.edit))
  }

  /** Work that is there has a job, and who sleeps has one that will signal. */
  ghost predicate ScheduleOk(s: State) {
    && (!s.bgError && !s.shuttingDown && (s.imm.Some? || s.manual || NeedsCompaction(s.version, false)) ==>
          s.job != NoJob)
    && (s.writer.Asleep? && !s.shuttingDown ==> !s.bgError && s.job != NoJob)
  }

  /** Of memory and files, all but what the job is doing. */
  ghost predicate Core(s: State) {
    FilesOk(s) && LogsOk(s) && EntriesOk(s) && NumbersOk(s) && AgesOk(s) && ManifestOk(s)
  }

  ghost predicate Inv(s: State) {
    Core(s) && CertainOk(s) && JobOk(s) && ScheduleOk(s)
  }

  /** A freshly opened database: one log, which may be the old one with what the crash left at its end, and
      whatever tables recovery has left. */
  ghost predicate Init(s: State) {
    && s.manifest == {s.version} && s.version.tables.Keys == s.tables.Keys && s.version.logNumber <= s.logFile
    && s.logs.Keys == {s.logFile} && s.mem <= s.logs[s.logFile] && s.imm.None? && !s.hasImm && s.logFile < s.nextFile
    && (forall n :: n in s.tables ==> n < s.nextFile)
    && (forall e :: e in s.acked <==> e in s.mem || Holds(s.tables, s.version.tables.Keys, e))
    && (forall e :: Holds(s.tables, s.version.tables.Keys, e) ==>
          e !in s.mem && forall g :: g in s.logs[s.logFile] ==> e.sequence < g.sequence)
    && DistinctSequences(Ever(s)) && (forall e :: e in Ever(s) ==> e.sequence <= s.lastSequence)
    && s.floor == 0 && s.snapshots == [] && s.torn <= {s.logFile} && s.unsure == {}
    && s.pending == {} && s.pinned == [] && !s.bgError && !s.shuttingDown && !s.manual && s.writer.Idle?
    && s.job == if NeedsCompaction(s.version, false) then Scheduled else NoJob
  }

  lemma InitInv(s: State)
    requires Init(s)
    ensures Inv(s)
  {
    hide Gone, DistinctSequences, NeedsCompaction;
    forall n, e | n in s.tables && e in s.tables[n] ensures e in s.acked {
      assert Holds(s.tables, s.version.tables.Keys, e);
    }
    forall l, e | InLog(s, l, e) ensures e.sequence <= s.lastSequence {
      assert e in Ever(s);
    }
  }
}

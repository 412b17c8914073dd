/** What group commit guarantees in every run: any number of threads, any interleaving of their steps, of
    readers taking snapshots and of background errors. */
module GroupCommitSafety {
  import opened Wrappers
  import opened Coding
  import opened DbFormat
  import opened MultiVersion
  import opened WriteBatches
  import opened GroupCommit
  import opened LogFormat
  import LogReader
  import LogRoundTrip
  import Recovery

  ghost predicate Run(trace: seq<State>, steps: seq<Step>, base: nat) {
    && |trace| == |steps| + 1 && trace[0] == Start(base)
    && (forall i :: 0 <= i < |steps| ==> Follows(trace[i], steps[i], trace[i + 1]))
  }

  ghost predicate Follows(s: State, step: Step, s': State) {
    Enabled(s, step) && s' == Apply(s, step)
  }

  lemma {:induction false} RunKeeps(trace: seq<State>, steps: seq<Step>, base: nat, i: nat)
    requires Run(trace, steps, base) && i < |trace|
    ensures Inv(trace[i], base)
  {
    hide Inv, Enabled, Apply;
    if i == 0 {
      StartInv(base);
    } else {
      RunKeeps(trace, steps, base, i - 1);
      assert Follows(trace[i - 1], steps[i - 1], trace[i]);
      StepKeeps(trace[i - 1], base, steps[i - 1]);
    }
  }

  // ----- one leader, and no lost wakeup -----

  /** Only the front of the queue leads; so what the code asserts about the queue holds, and nobody else
      touches the log, the memtable or LastSequence. */
  lemma OneLeader(trace: seq<State>, steps: seq<Step>, base: nat, i: nat, id: nat)
    requires Run(trace, steps, base) && i < |trace| && id < |trace[i].threads| && trace[i].threads[id].pc.Leads()
    ensures trace[i].writers != [] && trace[i].writers[0] == id
    ensures trace[i].threads[id].pc.Logging? || trace[i].threads[id].pc.Logged() ==>
              trace[i].threads[id].pc.group.last in trace[i].writers
    ensures forall other :: 0 <= other < |trace[i].threads| && trace[i].threads[other].pc.Leads() ==> other == id
  {
    hide Run, LogOk, ResultsOk, SnapshotsOk, Inserted, InProgress, Merged;
    var s := trace[i];
    RunKeeps(trace, steps, base, i);
    OnlyHeadLeads(s, id);
    forall other | 0 <= other < |s.threads| && s.threads[other].pc.Leads() ensures other == id {
      OnlyHeadLeads(s, other);
    }
    var pc := s.threads[id].pc;
    if pc.Logging? || pc.Logged() {
      assert s.writers[pc.group.last - id] == pc.group.last;
    }
  }

  /** A call that has been settled, or has reached the front, is never left asleep. */
  lemma NoLostWakeup(trace: seq<State>, steps: seq<Step>, base: nat, i: nat, id: nat)
    requires Run(trace, steps, base) && i < |trace| && id < |trace[i].threads| && trace[i].threads[id].pc.Sleeping?
    ensures trace[i].threads[id].done.None? && id in trace[i].writers && trace[i].writers[0] != id
  {
    hide Run, LogOk, ResultsOk, SnapshotsOk, Inserted, InProgress, Merged, LeaderOk, Settled;
    var s := trace[i];
    RunKeeps(trace, steps, base, i);
    assert ThreadOk(s.threads[id], id, Head(s));
    assert s.writers[id - Head(s)] == id;
  }

  /** From n on, some size of the group. */
  lemma {:induction false} GroupSizeExists(queue: seq<Request>, n: nat) returns (size: nat)
    requires queue != [] && queue[0].batch.Some? && 1 <= n <= |queue|
    requires forall j :: 1 <= j < n ==> Joins(queue, j)
    ensures GroupSize(queue, size)
    decreases |queue| - n
  {
    hide Joins;
    if n < |queue| && Joins(queue, n) {
      size := GroupSizeExists(queue, n + 1);
    } else {
      size := n;
    }
  }

  /** What the steps of a thread require besides its place in Write holds in every run wherever it is at
      that place: no guard keeps back a step that the code takes. */
  lemma NoGuardHidesAStep(trace: seq<State>, steps: seq<Step>, base: nat, i: nat, id: nat, ok: bool)
    requires Run(trace, steps, base) && i < |trace| && id < |trace[i].threads|
    ensures var (s, pc) := (trace[i], trace[i].threads[id].pc);
            match pc
            case Sleeping => Enabled(s, SpuriousWakeup(id))
            case Awake => Enabled(s, Recheck(id))
            case MakingRoom => (s.bgError ==> !ok) ==> exists size :: Enabled(s, LeaveMakeRoom(id, ok, size))
            case Logging(_) => Enabled(s, AddRecord(id, ok))
            case Syncing(_) => Enabled(s, SyncLog(id, ok))
            case Inserting(g, added) => Enabled(s, if added < |g.ops| then InsertOne(id) else Finish(id))
            case Failing(_, _) => Enabled(s, Finish(id))
            case Returned(_) => id !in s.writers
  {
    hide Run, LogOk, ResultsOk, SnapshotsOk, Inserted, InProgress, Merged, GroupSize;
    var (s, pc) := (trace[i], trace[i].threads[id].pc);
    RunKeeps(trace, steps, base, i);
    assert ThreadOk(s.threads[id], id, Head(s));
    if pc.Leads() {
      OneLeader(trace, steps, base, i, id);
    }
    if pc.MakingRoom? && (s.bgError ==> !ok) {
      var size := 0;
      if s.requests[id].batch.Some? {
        assert Queue(s)[0] == s.requests[id];
        size := GroupSizeExists(Queue(s), 1);
      }
      assert Enabled(s, LeaveMakeRoom(id, ok, size));
    }
  }

  // ----- the log -----

  /** Settled groups are logged in order of arrival, without overlap, each holding the batches of a run of
      consecutive calls, under consecutive sequence ranges that end at LastSequence. */
  lemma LoggedInOrder(trace: seq<State>, steps: seq<Step>, base: nat, i: nat)
    requires Run(trace, steps, base) && i < |trace|
    ensures |trace[i].threads| == |trace[i].requests| && |trace[i].writers| <= |trace[i].requests|
    ensures var log := Settled(trace[i]);
            && (forall a :: 0 <= a < |log| ==> GroupOk(trace[i].requests, log[a].group))
            && (forall a, b :: 0 <= a < b < |log| ==> log[a].group.last < log[b].group.first)
            && (forall a {:trigger log[a]} :: 0 <= a < |log| ==> log[a].group.before == ChainEnd(base, log[..a]))
            && trace[i].lastSequence == ChainEnd(base, log)
  {
    hide Run, ResultsOk, SnapshotsOk, Inserted, InProgress, LeaderOk, GroupOk, FateOk, ThreadsOk, ChainEnd;
    var s := trace[i];
    RunKeeps(trace, steps, base, i);
    var log := Settled(s);
    forall a, b | 0 <= a < b < |log| ensures log[a].group.last < log[b].group.first {
      GroupsInOrder(s.requests, log, base, Head(s), a, b);
    }
    forall a {:trigger log[a]} | 0 <= a < |log|
      ensures GroupOk(s.requests, log[a].group) && log[a].group.before == ChainEnd(base, log[..a])
    {
      assert RecordOk(s.requests, log, base, a);
    }
  }

  /** A batch whose write succeeded is in exactly one logged group, and when it asked for a sync, that
      group's record was synced: a sync write never rides in a group that is not. */
  lemma WrittenExactlyOnce(trace: seq<State>, steps: seq<Step>, base: nat, i: nat, id: nat) returns (a: nat)
    requires Run(trace, steps, base) && i < |trace| && id < |trace[i].threads| <= |trace[i].requests|
    requires trace[i].requests[id].batch.Some? && trace[i].threads[id].Result() == Some(Success)
    ensures |trace[i].threads| == |trace[i].requests| && |trace[i].writers| <= |trace[i].requests|
    ensures a < |Settled(trace[i])| && Covers(Settled(trace[i])[a].group, id)
    ensures forall b :: 0 <= b < |Settled(trace[i])| && Covers(Settled(trace[i])[b].group, id) ==> b == a
    ensures Settled(trace[i])[a].fate
         == if trace[i].requests[Settled(trace[i])[a].group.first].sync then Synced else Written
    ensures trace[i].requests[id].sync ==> Settled(trace[i])[a].fate == Synced
    ensures exists at :: HasAt(Settled(trace[i])[a].group.ops, at, trace[i].requests[id].batch.value)
  {
    hide Run, SnapshotsOk, Inserted, InProgress, LeaderOk, Merged, ChainEnd, Settled;
    var s := trace[i];
    RunKeeps(trace, steps, base, i);
    var log := Settled(s);
    assert ThreadOk(s.threads[id], id, Head(s));
    assert InSomeGroup(log, id);
    a :| 0 <= a < |log| && Covers(log[a].group, id);
    assert RecordOk(s.requests, log, base, a);
    forall b | 0 <= b < |log| && Covers(log[b].group, id) ensures b == a {
      GroupsInOrder(s.requests, log, base, Head(s), a, b);
      GroupsInOrder(s.requests, log, base, Head(s), b, a);
    }
    var g := log[a].group;
    MergedHas(s.requests[g.first..g.last + 1], id - g.first);
  }

  /** Every writer of a settled group was given the outcome of that group. */
  lemma GroupStatus(trace: seq<State>, steps: seq<Step>, base: nat, i: nat, a: nat, id: nat)
    requires Run(trace, steps, base) && i < |trace|
    requires |trace[i].threads| == |trace[i].requests| && |trace[i].writers| <= |trace[i].requests|
    requires id < |trace[i].threads| && a < |Settled(trace[i])| && Covers(Settled(trace[i])[a].group, id)
    ensures trace[i].threads[id].Result() == Some(OutcomeOf(Settled(trace[i])[a].fate))
  {
    hide Run, SnapshotsOk, Inserted, InProgress, LeaderOk, Merged, ChainEnd, Settled, LogOk;
    RunKeeps(trace, steps, base, i);
  }

  /** A call is completed once: its outcome never changes afterwards. */
  lemma ResultsStick(s: State, base: nat, step: Step, id: nat)
    requires Inv(s, base) && Enabled(s, step) && id < |s.threads| && s.threads[id].Result().Some?
    ensures id < |Apply(s, step).threads| && Apply(s, step).threads[id].Result() == s.threads[id].Result()
  {
    hide LogOk, ResultsOk, SnapshotsOk, Inserted, InProgress, LeaderOk, Merged, ChainEnd, Settled, Complete, Queue;
    hide GroupSize;
    assert ThreadOk(s.threads[id], id, Head(s));
    match step
    case LeaveMakeRoom(me, ok, size) =>
      OnlyHeadLeads(s, me);
      if !(ok && s.requests[me].batch.Some?) {
        CompletesThread(s, me, me, if ok then Success else Failure, id);
      }
    case Finish(me) =>
      OnlyHeadLeads(s, me);
      var (pc, s1) := (s.threads[me].pc,
                       s.(bgError := s.bgError || (s.threads[me].pc.Failing? && s.threads[me].pc.syncError),
                                             lastSequence := s.threads[me].pc.group.End()));
      CompletesThread(s1, me, pc.group.last, EndStatus(pc), id);
    case Arrive(_) =>
    case SpuriousWakeup(_) =>
    case Recheck(_) =>
    case AddRecord(me, _) =>
    case SyncLog(me, _) =>
    case InsertOne(me) =>
    case TakeSnapshot =>
    case BackgroundError =>
  }

  /** Once a sync has failed, nothing is logged any more. */
  lemma FailedSyncStopsLogging(s: State, base: nat, step: Step)
    requires Inv(s, base) && Enabled(s, step) && SyncHasFailed(Settled(s))
    ensures Inv(Apply(s, step), base)
    ensures Apply(s, step).log == s.log == Settled(Apply(s, step)) == Settled(s)
  {
    hide LogOk, ResultsOk, SnapshotsOk, Inserted, InProgress, GroupOk, Merged, ChainEnd, GroupSize, Complete;
    StepKeeps(s, base, step);
    var s' := Apply(s, step);
    match step
    case LeaveMakeRoom(me, ok, size) =>
      OnlyHeadLeads(s, me);
      CompleteSettles(s, me, me, if ok then Success else Failure);
    case AddRecord(me, _) => OnlyHeadLeads(s, me);
    case SyncLog(me, _) => OnlyHeadLeads(s, me);
    case InsertOne(me) => OnlyHeadLeads(s, me);
    case Finish(me) => OnlyHeadLeads(s, me);
    case Arrive(_) =>
    case SpuriousWakeup(_) =>
    case Recheck(_) =>
    case TakeSnapshot =>
    case BackgroundError =>
  }

  /** A failed sync ends the log. */
  ghost predicate Stopped(s: State) {
    && |s.threads| == |s.requests| && |s.writers| <= |s.requests|
    && Settled(s) == s.log && SyncHasFailed(s.log)
  }

  lemma StoppedStays(s: State, base: nat, step: Step)
    requires Inv(s, base) && Enabled(s, step) && Stopped(s)
    ensures Stopped(Apply(s, step)) && Apply(s, step).log == s.log
  {
    hide Enabled, Apply, LogOk, ResultsOk, SnapshotsOk, Inserted, InProgress, ThreadsOk, ChainEnd, LeaderOk, Settled;
    hide SyncHasFailed;
    FailedSyncStopsLogging(s, base, step);
  }

  lemma {:induction false} NothingAfterFailedSync(trace: seq<State>, steps: seq<Step>, base: nat, i: nat, j: nat)
    requires Run(trace, steps, base) && i <= j < |trace| && Stopped(trace[i])
    ensures Stopped(trace[j]) && trace[j].log == trace[i].log
    decreases j
  {
    hide Enabled, Apply, Inv, Stopped;
    if i < j {
      NothingAfterFailedSync(trace, steps, base, i, j - 1);
      RunKeeps(trace, steps, base, j - 1);
      assert Follows(trace[j - 1], steps[j - 1], trace[j]);
      StoppedStays(trace[j - 1], base, steps[j - 1]);
    }
  }

  // ----- what readers see -----

  /** What a reader at this snapshot can see of what has been inserted so far. */
  ghost function View(s: State, snapshot: nat): set<Entry> {
    set e | e in s.mem && e.sequence <= snapshot
  }

  lemma AddsAbove(sequence: nat, ops: seq<Op>, e: Entry)
    requires e in Adds(sequence, ops)
    ensures sequence <= e.sequence < sequence + |ops|
  {
    var i :| 0 <= i < |ops| && Adds(sequence, ops)[i] == e;
  }

  lemma TakeOk(requests: seq<Request>, log: seq<LogRecord>, base: nat, head: nat, n: nat)
    requires LogOk(requests, log, base, head) && n <= |log|
    ensures LogOk(requests, log[..n], base, head)
  {
    hide GroupOk, FateOk;
    forall i | 0 <= i < n ensures RecordOk(requests, log[..n], base, i) {
      assert RecordOk(requests, log, base, i) && log[..n][..i] == log[..i];
    }
    if n > 0 {
      GroupsInOrder(requests, log, base, head, n - 1, n - 1);
    }
  }

  lemma {:induction false} ChainGrows(requests: seq<Request>, log: seq<LogRecord>, base: nat, head: nat, n: nat, m: nat)
    requires LogOk(requests, log, base, head) && n <= m <= |log|
    ensures ChainEnd(base, log[..n]) <= ChainEnd(base, log[..m])
    decreases m
  {
    hide GroupOk, FateOk;
    if n < m {
      ChainGrows(requests, log, base, head, n, m - 1);
      assert RecordOk(requests, log, base, m - 1);
    }
  }

  lemma InsertedNone()
    ensures Inserted([]) == []
  {
  }

  /** What one more record adds to what is visible. */
  lemma RecordVisible(log: seq<LogRecord>, snapshot: nat, e: Entry)
    requires log != []
    ensures var (init, r) := (log[..|log| - 1], log[|log| - 1]);
            && (snapshot <= r.group.before && e.sequence <= snapshot ==> (e in Inserted(log) <==> e in Inserted(init)))
            && (r.group.End() <= snapshot && e in Inserted(log) && e !in Inserted(init) ==> e.sequence <= snapshot)
            && (e in Inserted(init) ==> e in Inserted(log))
  {
    hide Adds;
    var g := log[|log| - 1].group;
    InsertedUnfold(log);
    if e in Adds(g.before + 1, g.ops) {
      AddsAbove(g.before + 1, g.ops, e);
    }
  }

  /** The entries of a log at or below a snapshot that splits none of its groups are the entries of a
      prefix of the groups. */
  lemma {:induction false} PrefixVisible(requests: seq<Request>, log: seq<LogRecord>, base: nat, head: nat,
                                         snapshot: nat)
    returns (n: nat)
    requires LogOk(requests, log, base, head) && forall i :: 0 <= i < |log| ==> Whole(log[i].group, snapshot)
    ensures n <= |log| && (n < |log| ==> snapshot <= ChainEnd(base, log[..n]))
    ensures forall e :: e in Inserted(log) && e.sequence <= snapshot <==> e in Inserted(log[..n])
    decreases |log|
  {
    hide GroupOk, FateOk, RecordOk, Inserted, ChainEnd;
    if log == [] {
      n := 0;
      InsertedNone();
    } else {
      var (init, r) := (log[..|log| - 1], log[|log| - 1]);
      TakeOk(requests, log, base, head, |log| - 1);
      n := PrefixVisible(requests, init, base, head, snapshot);
      assert init[..n] == log[..n];
      ChainGrows(requests, log, base, head, n, |init|);
      RecordBefore(requests, log, base, head, |log| - 1);
      if n == |init| && r.group.End() <= snapshot {
        n := |log|;
        assert log[..n] == log && init[..|init|] == init;
      }
      forall e ensures e in Inserted(log) && e.sequence <= snapshot <==> e in Inserted(log[..n]) {
        RecordVisible(log, snapshot, e);
      }
    }
  }

  lemma RecordBefore(requests: seq<Request>, log: seq<LogRecord>, base: nat, head: nat, i: nat)
    requires LogOk(requests, log, base, head) && i < |log|
    ensures log[i].group.before == ChainEnd(base, log[..i])
  {
    assert RecordOk(requests, log, base, i);
  }

  /** A reader sees every group wholly or not at all, also while one is being inserted: the view is the
      entries of a prefix of the groups. */
  lemma ReadersSeeWholeGroups(trace: seq<State>, steps: seq<Step>, base: nat, i: nat, snapshot: nat) returns (n: nat)
    requires Run(trace, steps, base) && i < |trace| && snapshot in trace[i].snapshots
    ensures |trace[i].threads| == |trace[i].requests| && |trace[i].writers| <= |trace[i].requests|
    ensures n <= |Settled(trace[i])|
    ensures View(trace[i], snapshot) == Elements(Inserted(Settled(trace[i])[..n]))
  {
    hide Run, LogOk, ThreadsOk, ResultsOk, Inserted, Adds, GroupOk, ChainEnd, Settled;
    var s := trace[i];
    RunKeeps(trace, steps, base, i);
    n := PrefixVisible(s.requests, Settled(s), base, Head(s), snapshot);
    forall e | e in InProgress(Leader(s)) ensures e.sequence > snapshot {
      AddsAbove(s.lastSequence + 1, Leader(s).group.ops[..Leader(s).added], e);
    }
  }

  /** A snapshot's view never changes, whatever is written after it was taken. */
  lemma ViewIsStable(s: State, base: nat, step: Step, snapshot: nat)
    requires Inv(s, base) && Enabled(s, step) && snapshot in s.snapshots
    ensures snapshot in Apply(s, step).snapshots && View(Apply(s, step), snapshot) == View(s, snapshot)
  {
    hide LogOk, ResultsOk, Inserted, InProgress, GroupOk, Merged, ChainEnd, GroupSize, Settled, Whole;
    hide Mark, Popped, SetPc, ThreadsOk, Queue;
    match step
    case LeaveMakeRoom(me, ok, size) =>
    case AddRecord(me, _) =>
    case SyncLog(me, _) =>
    case InsertOne(me) => OnlyHeadLeads(s, me);
    case Finish(me) =>
    case Arrive(_) =>
    case SpuriousWakeup(_) =>
    case Recheck(_) =>
    case TakeSnapshot =>
    case BackgroundError =>
  }

  /** Entries are inserted under ever larger sequence numbers, so no two entries share one. */
  ghost predicate Ascending(entries: seq<Entry>, after: nat, upTo: nat) {
    && (forall i :: 0 <= i < |entries| ==> after < entries[i].sequence <= upTo)
    && (forall i, j :: 0 <= i < j < |entries| ==> entries[i].sequence < entries[j].sequence)
  }

  lemma AddsAscend(before: nat, ops: seq<Op>)
    ensures Ascending(Adds(before + 1, ops), before, before + |ops|)
  {
  }

  lemma AscendingAppend(a: seq<Entry>, b: seq<Entry>, after: nat, middle: nat, upTo: nat)
    requires Ascending(a, after, middle) && Ascending(b, middle, upTo) && after <= middle <= upTo
    ensures Ascending(a + b, after, upTo)
  {
  }

  lemma {:induction false} InsertedAscends(requests: seq<Request>, log: seq<LogRecord>, base: nat, head: nat)
    requires LogOk(requests, log, base, head)
    ensures base <= ChainEnd(base, log) && Ascending(Inserted(log), base, ChainEnd(base, log))
    decreases |log|
  {
    hide RecordOk, Ascending, Adds, Inserted;
    if log == [] {
      InsertedNone();
      assert Ascending([], base, base) by { AddsAscend(base, []); NoAdds(base + 1); }
    } else {
      var (init, r) := (log[..|log| - 1], log[|log| - 1]);
      TakeOk(requests, log, base, head, |log| - 1);
      InsertedAscends(requests, init, base, head);
      RecordBefore(requests, log, base, head, |log| - 1);
      InsertedUnfold(log);
      var more := if OutcomeOf(r.fate) == Success then r.group.ops else [];
      AddsAscend(r.group.before, more);
      NoAdds(r.group.before + 1);
      AscendingUpTo(Adds(r.group.before + 1, more), r.group.before, r.group.before + |more|, r.group.End());
      AscendingAppend(Inserted(init), Adds(r.group.before + 1, more), base, r.group.before, r.group.End());
    }
  }

  lemma NoAdds(sequence: nat)
    ensures Adds(sequence, []) == []
  {
  }

  lemma AscendingUpTo(a: seq<Entry>, after: nat, upTo: nat, upTo': nat)
    requires Ascending(a, after, upTo) && upTo <= upTo'
    ensures Ascending(a, after, upTo')
  {
  }

  lemma MemAscends(s: State, base: nat)
    requires Inv(s, base)
    ensures exists upTo :: Ascending(s.mem, base, upTo)
  {
    hide LogOk, ThreadsOk, ResultsOk, SnapshotsOk, Ascending, Inserted, Adds, ChainEnd;
    var log, pc := Settled(s), Leader(s);
    InsertedAscends(s.requests, log, base, Head(s));
    var more := if pc.Inserting? then pc.group.ops[..pc.added] else [];
    AddsAscend(s.lastSequence, more);
    NoAdds(s.lastSequence + 1);
    AscendingAppend(Inserted(log), Adds(s.lastSequence + 1, more), base, s.lastSequence, s.lastSequence + |more|);
  }

  lemma AscendingHasDistinctTags(entries: seq<Entry>, after: nat, upTo: nat)
    requires Ascending(entries, after, upTo)
    ensures DistinctTags(Elements(entries))
  {
    forall e, f | e in entries && f in entries && e.user == f.user && e.Tag() == f.Tag() ensures e == f {
      var i :| 0 <= i < |entries| && entries[i] == e;
      var j :| 0 <= j < |entries| && entries[j] == f;
      assert e.sequence == f.sequence by { TagDecides(e, f); }
    }
  }

  lemma TagDecides(e: Entry, f: Entry)
    requires e.Tag() == f.Tag()
    ensures e.sequence == f.sequence
  {
  }

  /** So in any reachable state a read at a snapshot gives the value as of a prefix of the groups. */
  lemma ReadsSeeWholeGroups(trace: seq<State>, steps: seq<Step>, base: nat, i: nat, snapshot: nat, k: UserKey)
    returns (n: nat)
    requires Run(trace, steps, base) && i < |trace| && snapshot in trace[i].snapshots
    ensures |trace[i].threads| == |trace[i].requests| && |trace[i].writers| <= |trace[i].requests|
    ensures n <= |Settled(trace[i])|
    ensures Read(Elements(trace[i].mem), k, snapshot) == Read(Elements(Inserted(Settled(trace[i])[..n])), k, snapshot)
  {
    hide Run, Inv, Inserted, Ascending, Settled;
    var s := trace[i];
    n := ReadersSeeWholeGroups(trace, steps, base, i, snapshot);
    RunKeeps(trace, steps, base, i);
    MemAscends(s, base);
    var upTo :| Ascending(s.mem, base, upTo);
    AscendingHasDistinctTags(s.mem, base, upTo);
    ReadOfPart(Elements(s.mem), Elements(Inserted(Settled(s)[..n])), k, snapshot);
  }

  /** Reading only depends on what is visible. */
  lemma ReadOfPart(db: set<Entry>, part: set<Entry>, k: UserKey, snapshot: nat)
    requires DistinctTags(db) && part == set e | e in db && e.sequence <= snapshot
    ensures Read(db, k, snapshot) == Read(part, k, snapshot)
  {
    if e :| e in part && Visible(e, k, snapshot) {
      var latest := LatestExists(part, k, snapshot, e);
      SameLatestSameRead(db, part, k, snapshot, latest);
    } else {
      ReadOfNothing(db, k, snapshot);
      ReadOfNothing(part, k, snapshot);
    }
  }

  lemma {:induction false} SnapshotsAreRepeatable(trace: seq<State>, steps: seq<Step>, base: nat, i: nat, j: nat,
                                                  snapshot: nat)
    requires Run(trace, steps, base) && i <= j < |trace| && snapshot in trace[i].snapshots
    ensures snapshot in trace[j].snapshots && View(trace[j], snapshot) == View(trace[i], snapshot)
    decreases j
  {
    hide Enabled, Apply, Inv, View;
    if i < j {
      SnapshotsAreRepeatable(trace, steps, base, i, j - 1, snapshot);
      RunKeeps(trace, steps, base, j - 1);
      assert Follows(trace[j - 1], steps[j - 1], trace[j]);
      ViewIsStable(trace[j - 1], base, steps[j - 1], snapshot);
    }
  }

  lemma {:induction false} CompletedOnce(trace: seq<State>, steps: seq<Step>, base: nat, i: nat, j: nat, id: nat)
    requires Run(trace, steps, base) && i <= j < |trace|
    requires id < |trace[i].threads| && trace[i].threads[id].Result().Some?
    ensures id < |trace[j].threads| && trace[j].threads[id].Result() == trace[i].threads[id].Result()
    decreases j
  {
    hide Enabled, Apply, Inv;
    if i < j {
      CompletedOnce(trace, steps, base, i, j - 1, id);
      RunKeeps(trace, steps, base, j - 1);
      assert Follows(trace[j - 1], steps[j - 1], trace[j]);
      ResultsStick(trace[j - 1], base, steps[j - 1], id);
    }
  }

  // ----- the log, crashed and recovered -----

  function GroupsOf(log: seq<LogRecord>): (groups: seq<Recovery.Group>)
    ensures |groups| == |log|
  {
    seq(|log|, i requires 0 <= i < |log| => Recovery.Group(log[i].group.before + 1, log[i].group.ops))
  }

  /** Every record stays within the widths of the format. */
  ghost predicate Fitting(log: seq<LogRecord>) {
    forall i {:trigger log[i]} :: 0 <= i < |log| ==>
      && log[i].group.End() < MAX_SEQUENCE && |log[i].group.ops| < TWO_TO_31
      && forall op :: op in log[i].group.ops ==> Encodable(op)
  }

  /** And was appended, synced or not. */
  ghost predicate Appended(log: seq<LogRecord>) {
    Fitting(log) && forall i :: 0 <= i < |log| ==> log[i].fate != Torn
  }

  /** The entries of the group at the end of the log, if its sync failed: on disk or not, but in no
      memtable. */
  function Unsynced(log: seq<LogRecord>): seq<Entry> {
    if SyncHasFailed(log) then
      var g := log[|log| - 1].group;
      Adds(g.before + 1, g.ops)
    else
      []
  }

  lemma {:induction false} GroupsAreConsecutive(requests: seq<Request>, log: seq<LogRecord>, base: nat, head: nat,
                                                n: nat)
    requires LogOk(requests, log, base, head) && Fitting(log) && n <= |log|
    ensures Recovery.Consecutive(ChainEnd(base, log[..n]), GroupsOf(log)[n..])
    decreases |log| - n
  {
    hide LogOk;
    if n < |log| {
      RecordBefore(requests, log, base, head, n);
      GroupsAreConsecutive(requests, log, base, head, n + 1);
      var rest := GroupsOf(log)[n..];
      assert rest[0] == GroupsOf(log)[n] && rest[1..] == GroupsOf(log)[n + 1..];
    }
  }

  lemma {:induction false} EntriesAppend(a: seq<Recovery.Group>, g: Recovery.Group)
    ensures Recovery.Entries(a + [g]) == Recovery.Entries(a) + Adds(g.sequence, g.ops)
  {
    hide Adds;
    if a == [] {
      assert a + [g] == [g] && [g][1..] == [];
      assert Recovery.Entries([g]) == Adds(g.sequence, g.ops) + Recovery.Entries([]);
    } else {
      assert (a + [g])[0] == a[0] && (a + [g])[1..] == a[1..] + [g];
      EntriesAppend(a[1..], g);
    }
  }

  lemma GroupsOfLast(log: seq<LogRecord>)
    requires log != []
    ensures var g := log[|log| - 1].group;
            GroupsOf(log) == GroupsOf(log[..|log| - 1]) + [Recovery.Group(g.before + 1, g.ops)]
  {
  }

  /** Replaying the log gives what the memtables hold, and the group whose sync failed. */
  lemma {:induction false} EntriesAreInserted(requests: seq<Request>, log: seq<LogRecord>, base: nat, head: nat)
    requires LogOk(requests, log, base, head) && Appended(log)
    ensures Recovery.Entries(GroupsOf(log)) == Inserted(log) + Unsynced(log)
    decreases |log|
  {
    hide Adds, Inserted, GroupsOf, LogOk;
    if log == [] {
      assert GroupsOf(log) == [];
      InsertedNone();
    } else {
      var init, g := log[..|log| - 1], log[|log| - 1].group;
      TakeOk(requests, log, base, head, |init|);
      EntriesAreInserted(requests, init, base, head);
      FailedSyncIsLast(requests, log, base, head);
      GroupsOfLast(log);
      InsertedUnfold(log);
      EntriesAppend(GroupsOf(init), Recovery.Group(g.before + 1, g.ops));
    }
  }

  lemma FailedSyncIsLast(requests: seq<Request>, log: seq<LogRecord>, base: nat, head: nat)
    requires LogOk(requests, log, base, head) && log != []
    ensures Unsynced(log[..|log| - 1]) == []
  {
    hide GroupOk, FateOk, ChainEnd, Adds;
    assert RecordOk(requests, log, base, |log| - 1);
  }

  lemma {:induction false} LastAppend(last: nat, a: seq<Recovery.Group>, g: Recovery.Group)
    ensures Recovery.LastSequence(last, a + [g]) == Recovery.LastSequence(last, a) + |g.ops|
    decreases |a|
  {
    if a == [] {
      assert a + [g] == [g] && [g][1..] == [];
    } else {
      assert (a + [g])[0] == a[0] && (a + [g])[1..] == a[1..] + [g];
      LastAppend(last + |a[0].ops|, a[1..], g);
    }
  }

  lemma {:induction false} LastIsEnd(requests: seq<Request>, log: seq<LogRecord>, base: nat, head: nat)
    requires LogOk(requests, log, base, head)
    ensures Recovery.LastSequence(base, GroupsOf(log)) == ChainEnd(base, log)
    decreases |log|
  {
    hide LogOk;
    if log == [] {
      assert GroupsOf(log) == [];
    } else {
      var init, r := log[..|log| - 1], log[|log| - 1];
      TakeOk(requests, log, base, head, |init|);
      LastIsEnd(requests, init, base, head);
      RecordBefore(requests, log, base, head, |init|);
      assert GroupsOf(log) == GroupsOf(init) + [Recovery.Group(r.group.before + 1, r.group.ops)];
      LastAppend(base, GroupsOf(init), Recovery.Group(r.group.before + 1, r.group.ops));
    }
  }

  /** The groups handed to the log writer so far: the settled ones, and the one in progress, which
      counts as written the way it asks for unless that has failed already. */
  ghost function HandedOut(s: State): seq<LogRecord>
    requires |s.threads| == |s.requests| && |s.writers| <= |s.requests|
  {
    var pc := Leader(s);
    Settled(s)
    + if pc.Logging? || pc.Logged() then [LogRecord(pc.group, FateSoFar(pc, s.requests[Head(s)].sync))] else []
  }

  function FateSoFar(pc: Pc, sync: bool): Fate {
    if pc.Failing? then LoggedFate(pc, sync) else if sync then Synced else Written
  }

  lemma HandedOutOk(s: State, base: nat) returns (head: nat)
    requires Inv(s, base)
    ensures LogOk(s.requests, HandedOut(s), base, head)
  {
    hide LogOk, GroupOk, Inserted, ThreadsOk, ResultsOk, SnapshotsOk, Settled;
    var pc := Leader(s);
    head := Head(s);
    if pc.Logging? || pc.Logged() {
      head := pc.group.last + 1;
      LogExtends(s.requests, Settled(s), base, Head(s), LogRecord(pc.group, FateSoFar(pc, s.requests[Head(s)].sync)));
    } else {
      assert HandedOut(s) == Settled(s);
    }
  }

  /** The records of groups, as the log writer is given them. */
  ghost function RecordsOf(base: nat, log: seq<LogRecord>): (records: seq<bytes>)
    requires Recovery.Consecutive(base, GroupsOf(log))
    ensures |records| == |log|
  {
    Recovery.Records(base, GroupsOf(log))
  }

  /** The bytes a crash leaves of a log that begins with these records. */
  ghost function Survives(crc: Crc, base: nat, log: seq<LogRecord>, tail: bytes, cut: nat): bytes
    requires Recovery.Consecutive(base, GroupsOf(log))
  {
    var file := LogOf(crc, RecordsOf(base, log)) + tail;
    if cut < |file| then file[..cut] else file
  }

  lemma PrefixOfGroups(requests: seq<Request>, log: seq<LogRecord>, base: nat, head: nat, n: nat)
    requires LogOk(requests, log, base, head) && Appended(log) && n <= |log|
    ensures Recovery.Consecutive(base, GroupsOf(log))
    ensures Recovery.Entries(GroupsOf(log)[..n]) == Inserted(log[..n]) + Unsynced(log[..n])
    ensures Recovery.LastSequence(base, GroupsOf(log)[..n]) == ChainEnd(base, log[..n]) >= base
    ensures n == 0 ==> ChainEnd(base, log[..n]) == base
  {
    hide Inserted, Unsynced, LogOk, Recovery.Consecutive;
    GroupsAreConsecutive(requests, log, base, head, 0);
    assert GroupsOf(log)[0..] == GroupsOf(log) && GroupsOf(log)[..n] == GroupsOf(log[..n]);
    TakeOk(requests, log, base, head, n);
    EntriesAreInserted(requests, log[..n], base, head);
    LastIsEnd(requests, log[..n], base, head);
  }

  /** What Recovery.CrashRecovery says of the bytes that survive of a log with nothing behind it. */
  lemma SurvivorsReplay(crc: Crc, base: nat, log: seq<LogRecord>, cut: nat, paranoid: bool) returns (n: nat)
    requires Recovery.Consecutive(base, GroupsOf(log))
    ensures n <= |log|
    ensures var survived := GroupsOf(log)[..n];
            && var last := if survived == [] then base else Recovery.Max(base, Recovery.LastSequence(base, survived));
            && Recovered(crc, base, Survives(crc, base, log, [], cut), paranoid)
               == Recovery.Replayed(Ok, last, 0, Recovery.Entries(survived))
    ensures forall a :: 0 <= a < |log| ==> (a < n <==> LogRoundTrip.EndsWithin(crc, RecordsOf(base, log), a, cut))
  {
    hide GroupsOf, LogOf, Recovery.Consecutive, Recovery.Records, Recovery.Entries, Recovery.LastSequence;
    hide Recovery.Replay, LogRoundTrip.EndsWithin, LogRoundTrip.Whole;
    var records := RecordsOf(base, log);
    var file := LogOf(crc, records);
    var size := if cut < |file| then cut else |file|;
    assert file + [] == file && file[..|file|] == file;
    n := LogRoundTrip.Whole(crc, 0, records, size);
    Recovery.CrashRecovery(crc, base, GroupsOf(log), size, paranoid, base);
    forall a | 0 <= a < |log| ensures a < n <==> LogRoundTrip.EndsWithin(crc, records, a, cut) {
      LogRoundTrip.EndsWithinFile(crc, records, a, cut, size);
    }
  }

  /** What recovery makes of a log file. */
  ghost function Recovered(crc: Crc, base: nat, file: bytes, paranoid: bool): Recovery.Replayed {
    Recovery.Replay(crc, file, LogReader.START, Recovery.Replayed(Ok, base, 0, []), paranoid)
  }

  /** The cut is within the log, or there is nothing behind it. */
  lemma CutRecovers(crc: Crc, requests: seq<Request>, log: seq<LogRecord>, base: nat, head: nat, cut: nat,
                    paranoid: bool) returns (n: nat)
    requires LogOk(requests, log, base, head) && Appended(log)
    ensures Recovery.Consecutive(base, GroupsOf(log)) && n <= |log|
    ensures Recovered(crc, base, Survives(crc, base, log, [], cut), paranoid)
         == Recovery.Replayed(Ok, ChainEnd(base, log[..n]), 0, Inserted(log[..n]) + Unsynced(log[..n]))
    ensures forall a :: 0 <= a < |log| ==> (a < n <==> LogRoundTrip.EndsWithin(crc, RecordsOf(base, log), a, cut))
  {
    hide *;
    PrefixOfGroups(requests, log, base, head, 0);
    n := SurvivorsReplay(crc, base, log, cut, paranoid);
    PrefixOfGroups(requests, log, base, head, n);
    MaxOfLater(base, ChainEnd(base, log[..n]));
  }

  lemma MaxOfLater(a: nat, b: nat)
    requires a <= b
    ensures Recovery.Max(a, b) == b
  {
  }

  /** The whole log is there, and maybe more. */
  lemma TailRecovers(crc: Crc, requests: seq<Request>, log: seq<LogRecord>, base: nat, head: nat, file: bytes,
                     paranoid: bool)
    requires LogOk(requests, log, base, head) && Appended(log) && Recovery.Consecutive(base, GroupsOf(log))
    requires LogOf(crc, RecordsOf(base, log)) <= file
    ensures var r := Recovered(crc, base, file, paranoid);
            Inserted(log) + Unsynced(log) <= r.added && (!paranoid ==> r.status == Ok)
  {
    EntriesAreInserted(requests, log, base, head);
    hide GroupsOf, LogOf, Recovery.Consecutive, Recovery.Records, Recovery.Entries, Recovery.Replay, Inserted, Unsynced;
    Recovery.RecoveryWithTail(crc, base, GroupsOf(log), file, paranoid, base);
  }

  lemma SurvivesWhole(crc: Crc, base: nat, log: seq<LogRecord>, tail: bytes, cut: nat)
    requires Recovery.Consecutive(base, GroupsOf(log))
    ensures var size := |LogOf(crc, RecordsOf(base, log))|;
            && (cut <= size || tail == [] ==> Survives(crc, base, log, tail, cut) == Survives(crc, base, log, [], cut))
            && (cut >= size ==>
                  && LogOf(crc, RecordsOf(base, log)) <= Survives(crc, base, log, tail, cut)
                  && forall a :: 0 <= a < |log| ==> LogRoundTrip.EndsWithin(crc, RecordsOf(base, log), a, cut))
  {
    hide GroupsOf, LogOf, Recovery.Consecutive, Recovery.Records;
    var records := RecordsOf(base, log);
    var file := LogOf(crc, records);
    assert file + [] == file;
    if cut <= |file| {
      assert (file + tail)[..cut] == file[..cut];
    }
    if cut >= |file| {
      assert cut < |file + tail| ==> (file + tail)[..cut] == file + tail[..cut - |file|];
      forall a | 0 <= a < |log| ensures LogRoundTrip.EndsWithin(crc, records, a, cut) {
        LogRoundTrip.LogIsMonotone(crc, records, a + 1);
      }
    }
  }

  /** Crash in any reachable state, and recover from what is left of the log. Let the first t records of
      those handed to the log writer be whole, and anything be behind them, such as what failed appends and
      the records after them have left. Then the store comes back with exactly what some prefix of these t
      groups had put into it, first of all and under the same numbers; if the cut spares the t records, that
      is all of them. If nothing is behind them, or the cut takes that away, it comes back exactly as it was
      after these groups. A group whose sync failed, and whose writers were told so, may be the last of
      those that come back. */
  lemma CrashRecovers(trace: seq<State>, steps: seq<Step>, base: nat, i: nat, crc: Crc, t: nat, tail: bytes, cut: nat,
                      paranoid: bool) returns (n: nat)
    requires Run(trace, steps, base) && i < |trace|
    requires |trace[i].threads| == |trace[i].requests| && |trace[i].writers| <= |trace[i].requests|
    requires t <= |HandedOut(trace[i])| && Appended(HandedOut(trace[i])[..t])
    ensures Recovery.Consecutive(base, GroupsOf(HandedOut(trace[i])[..t])) && n <= t
    ensures var log := HandedOut(trace[i])[..t];
            var r := Recovered(crc, base, Survives(crc, base, log, tail, cut), paranoid);
            && Inserted(log[..n]) + Unsynced(log[..n]) <= r.added && (!paranoid ==> r.status == Ok)
            && (cut <= |LogOf(crc, RecordsOf(base, log))| || tail == [] ==>
                  r == Recovery.Replayed(Ok, ChainEnd(base, log[..n]), 0, Inserted(log[..n]) + Unsynced(log[..n])))
            && forall a :: 0 <= a < t ==> (a < n <==> LogRoundTrip.EndsWithin(crc, RecordsOf(base, log), a, cut))
  {
    hide *;
    var log := HandedOut(trace[i])[..t];
    RunKeeps(trace, steps, base, i);
    var head := HandedOutOk(trace[i], base);
    TakeOk(trace[i].requests, HandedOut(trace[i]), base, head, t);
    n := CutRecovers(crc, trace[i].requests, log, base, head, cut, paranoid);
    SurvivesWhole(crc, base, log, tail, cut);
    if !(cut <= |LogOf(crc, RecordsOf(base, log))| || tail == []) {
      n := t;
      assert log[..t] == log;
      TailRecovers(crc, trace[i].requests, log, base, head, Survives(crc, base, log, tail, cut), paranoid);
    }
  }

  lemma {:induction false} WithinInserted(log: seq<LogRecord>, n: nat, a: nat, e: Entry)
    requires a < n <= |log| && OutcomeOf(log[a].fate) == Success
    requires e in Adds(log[a].group.before + 1, log[a].group.ops)
    ensures e in Inserted(log[..n])
    decreases n
  {
    hide Adds, Inserted;
    InsertedUnfold(log[..n]);
    assert log[..n][..n - 1] == log[..n - 1];
    if a < n - 1 {
      WithinInserted(log, n - 1, a, e);
    }
  }

  lemma SyncedWithinInserted(log: seq<LogRecord>, n: nat, a: nat)
    requires a < n <= |log| && log[a].fate == Synced
    ensures forall e :: e in Adds(log[a].group.before + 1, log[a].group.ops) ==> e in Inserted(log[..n])
  {
    hide Adds, Inserted;
    forall e | e in Adds(log[a].group.before + 1, log[a].group.ops) ensures e in Inserted(log[..n]) {
      WithinInserted(log, n, a, e);
    }
  }

  /** The crash spares what was synced: up to a synced record behind which no append had failed, the file
      is what was written. */
  ghost predicate SparesSynced(crc: Crc, base: nat, log: seq<LogRecord>, file: bytes) {
    forall b {:trigger log[b]} :: 0 <= b < |log| && log[b].fate == Synced && Appended(log[..b + 1])
                                  && Recovery.Consecutive(base, GroupsOf(log[..b + 1])) ==>
      LogOf(crc, RecordsOf(base, log[..b + 1])) <= file
  }

  /** No append failed up to this call's own record, and all those records fit the format. */
  ghost predicate AppendedUpTo(log: seq<LogRecord>, id: nat) {
    forall b :: 0 <= b <= |log| && (forall c :: 0 <= c < b ==> log[c].group.first <= id) ==> Appended(log[..b])
  }

  /** A write that asked for a sync and was acknowledged, with no failed append before it, survives every
      crash that spares what was synced, whatever happened after it: later appends and syncs may have
      failed, and anything may be in the file behind its record. The whole of its group is recovered. */
  lemma SyncedWriteSurvives(trace: seq<State>, steps: seq<Step>, base: nat, i: nat, crc: Crc, file: bytes,
                            paranoid: bool, id: nat) returns (a: nat)
    requires Run(trace, steps, base) && i < |trace|
    requires |trace[i].threads| == |trace[i].requests| && |trace[i].writers| <= |trace[i].requests|
    requires id < |trace[i].threads| && trace[i].requests[id].batch.Some? && trace[i].requests[id].sync
    requires trace[i].threads[id].Result() == Some(Success)
    requires AppendedUpTo(Settled(trace[i]), id) && SparesSynced(crc, base, Settled(trace[i]), file)
    ensures a < |Settled(trace[i])| && Covers(Settled(trace[i])[a].group, id)
    ensures var (log, r) := (Settled(trace[i]), Recovered(crc, base, file, paranoid));
            && Inserted(log[..a + 1]) <= r.added && (!paranoid ==> r.status == Ok)
            && forall e :: e in Adds(log[a].group.before + 1, log[a].group.ops) ==> e in r.added
  {
    hide *;
    a := WrittenExactlyOnce(trace, steps, base, i, id);
    RunKeeps(trace, steps, base, i);
    var log := Settled(trace[i]);
    SyncedUpTo(trace[i], base, a, id);
    SettledOk(trace[i], base);
    TakeOk(trace[i].requests, log, base, Head(trace[i]), a + 1);
    PrefixOfGroups(trace[i].requests, log[..a + 1], base, Head(trace[i]), 0);
    Spared(crc, base, log, a, file);
    TailRecovers(crc, trace[i].requests, log[..a + 1], base, Head(trace[i]), file, paranoid);
    SyncedWithinInserted(log, a + 1, a);
    PrefixOf(Inserted(log[..a + 1]), Unsynced(log[..a + 1]), Recovered(crc, base, file, paranoid).added);
  }

  lemma SettledOk(s: State, base: nat)
    requires Inv(s, base)
    ensures QueueOk(s) && LogOk(s.requests, Settled(s), base, Head(s))
  {
  }

  lemma Spared(crc: Crc, base: nat, log: seq<LogRecord>, a: nat, file: bytes)
    requires SparesSynced(crc, base, log, file) && a < |log| && log[a].fate == Synced && Appended(log[..a + 1])
    requires Recovery.Consecutive(base, GroupsOf(log[..a + 1]))
    ensures LogOf(crc, RecordsOf(base, log[..a + 1])) <= file
  {
    hide Appended, Recovery.Consecutive;
  }

  lemma PrefixOf<T>(a: seq<T>, b: seq<T>, c: seq<T>)
    requires a + b <= c
    ensures a <= c && forall e :: e in a ==> e in c
  {
    assert forall e :: e in a ==> e in a + b;
  }

  lemma SyncedUpTo(s: State, base: nat, a: nat, id: nat)
    requires Inv(s, base) && a < |Settled(s)| && Covers(Settled(s)[a].group, id) && AppendedUpTo(Settled(s), id)
    ensures Appended(Settled(s)[..a + 1])
  {
    hide Appended, Settled, FateOk, ResultsOk, SnapshotsOk, ThreadsOk, LeaderOk, Inserted;
    forall c | 0 <= c < a + 1 ensures Settled(s)[c].group.first <= id {
      GroupsInOrder(s.requests, Settled(s), base, Head(s), c, a);
      assert RecordOk(s.requests, Settled(s), base, c);
    }
  }

  /** The records from t + 1 on fit the block behind record t, which reaches through the whole block before. */
  ghost predicate WithinTornBlock(crc: Crc, records: seq<bytes>, t: nat)
    requires t < |records|
  {
    && Avail(|LogOf(crc, records[..t])|) + BLOCK_SIZE - HEADER_SIZE <= |records[t]|
    && |LogOf(crc, records[t + 1..])| < BLOCK_SIZE - HEADER_SIZE
  }

  /** What the writer leaves when the append of record t fails right behind its second header. */
  ghost function TornFile(crc: Crc, records: seq<bytes>, t: nat): bytes
    requires t < |records| && WithinTornBlock(crc, records, t)
  {
    var log := LogOf(crc, records[..t]);
    log + LogRoundTrip.Remains(crc, |log|, records[t]) + LogOf(crc, records[t + 1..])
  }

  /** Recovery inserts what the first t groups had inserted, and stops without a report. */
  ghost predicate NothingBehind(crc: Crc, base: nat, log: seq<LogRecord>, t: nat, paranoid: bool)
    requires Recovery.Consecutive(base, GroupsOf(log)) && t < |log|
  {
    WithinTornBlock(crc, RecordsOf(base, log), t) ==>
      var r := Recovered(crc, base, TornFile(crc, RecordsOf(base, log), t), paranoid);
      r.status == Ok && r.added == Inserted(log[..t]) + Unsynced(log[..t])
  }

  lemma LosesLater(requests: seq<Request>, log: seq<LogRecord>, base: nat, head: nat, crc: Crc, t: nat, paranoid: bool)
    requires LogOk(requests, log, base, head) && Fitting(log) && t < |log| && Appended(log[..t])
    ensures Recovery.Consecutive(base, GroupsOf(log)) && NothingBehind(crc, base, log, t, paranoid)
  {
    hide LogOk, LogOf, Avail, LogRoundTrip.Remains, Recovery.Entries, Recovery.Replay, Inserted, Unsynced;
    hide Recovery.Consecutive, Recovery.Records, Recovery.LastSequence;
    GroupsAreConsecutive(requests, log, base, head, 0);
    var groups := GroupsOf(log);
    assert groups[0..] == groups && groups[..t] == GroupsOf(log[..t]);
    TakeOk(requests, log, base, head, t);
    EntriesAreInserted(requests, log[..t], base, head);
    Recovery.RecordsPrefix(base, groups, t);
    Recovery.RecordsSuffix(base, groups, t + 1);
    var records := RecordsOf(base, log);
    if WithinTornBlock(crc, records, t) {
      Recovery.LostBehindTorn(crc, base, groups[..t], records[t], Recovery.LastSequence(base, groups[..t + 1]),
                              groups[t + 1..], paranoid, base);
    }
  }

  /** And no more than that can be promised. Let an append have failed in the run. There is a way for it to
      fail, and a file that the writer then leaves, from which no group behind it comes back, acknowledged
      and synced or not, and recovery reports nothing even under paranoid checks. */
  lemma TornRecordLosesLater(trace: seq<State>, steps: seq<Step>, base: nat, i: nat, crc: Crc, t: nat, paranoid: bool)
    requires Run(trace, steps, base) && i < |trace|
    requires |trace[i].threads| == |trace[i].requests| && |trace[i].writers| <= |trace[i].requests|
    requires Fitting(HandedOut(trace[i])) && t < |HandedOut(trace[i])|
    requires HandedOut(trace[i])[t].fate == Torn && Appended(HandedOut(trace[i])[..t])
    ensures Recovery.Consecutive(base, GroupsOf(HandedOut(trace[i])))
    ensures NothingBehind(crc, base, HandedOut(trace[i]), t, paranoid)
  {
    hide *;
    RunKeeps(trace, steps, base, i);
    var head := HandedOutOk(trace[i], base);
    LosesLater(trace[i].requests, HandedOut(trace[i]), base, head, crc, t, paranoid);
  }
}

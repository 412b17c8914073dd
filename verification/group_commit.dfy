/** DBImpl::Write and DBImpl::BuildBatchGroup of db/db_impl.cc: the writer queue as a state machine. A step
    runs from one point at which the mutex is free to the next, or is one action of a leader that has
    released it. Every call of Write is a thread, numbered in the order in which it joined the queue. */
module GroupCommit {
  import opened Wrappers
  import opened DbFormat
  import opened WriteBatches

  /** What a thread asks for; a null batch only waits for earlier writes. */
  datatype Request = Request(batch: Option<seq<Op>>, sync: bool)

  // ----- which writers a group takes in -----

  function ByteSize(ops: seq<Op>): nat {
    HEADER + |OpsBytes(ops)|
  }

  function BatchBytes(queue: seq<Request>): nat {
    if queue == [] then 0
    else
      var last := queue[|queue| - 1];
      BatchBytes(queue[..|queue| - 1]) + if last.batch.Some? then ByteSize(last.batch.value) else 0
  }

  /** Growth is limited, and limited further when the first write is small. */
  function MaxSize(first: seq<Op>): nat {
    if ByteSize(first) <= 128 * 1024 then ByteSize(first) + 128 * 1024 else 1024 * 1024
  }

  /** Writer j may ride along when it does not ask for more durability than the leader pays for, and its
      batch, if any, keeps the group within the limit. */
  predicate Joins(queue: seq<Request>, j: nat)
    requires j < |queue| && queue[0].batch.Some?
  {
    && (queue[j].sync ==> queue[0].sync)
    && (queue[j].batch.Some? ==> BatchBytes(queue[..j + 1]) <= MaxSize(queue[0].batch.value))
  }

  /** The group is the longest run of writers behind the leader that may join. */
  ghost predicate GroupSize(queue: seq<Request>, n: nat)
    requires queue != [] && queue[0].batch.Some?
  {
    && 1 <= n <= |queue|
    && (forall j :: 1 <= j < n ==> Joins(queue, j))
    && (n < |queue| ==> !Joins(queue, n))
  }

  /** The limit for a group whose leader's batch has this many bytes. */
  function GroupLimit(first: nat): nat {
    if first <= 131072 then first + 131072 else 1048576
  }

  /** Why the group ends where it does: at the end of the queue, at a writer that asks for a sync the leader
      does not do, or at a batch with which it would get too big. And all before were neither. */
  lemma LongestRun(queue: seq<Request>, n: nat)
    requires queue != [] && queue[0].batch.Some? && 1 <= n <= |queue|
    ensures var limit := GroupLimit(ByteSize(queue[0].batch.value));
            GroupSize(queue, n) <==>
              && (n < |queue| ==>
                    || (queue[n].sync && !queue[0].sync)
                    || (queue[n].batch.Some? && BatchBytes(queue[..n + 1]) > limit))
              && (forall j :: 1 <= j < n ==>
                    && !(queue[j].sync && !queue[0].sync)
                    && !(queue[j].batch.Some? && BatchBytes(queue[..j + 1]) > limit))
  {
    hide BatchBytes, ByteSize;
    var limit := GroupLimit(ByteSize(queue[0].batch.value));
    forall j | 1 <= j < |queue|
      ensures Joins(queue, j) <==>
                && !(queue[j].sync && !queue[0].sync)
                && !(queue[j].batch.Some? && BatchBytes(queue[..j + 1]) > limit)
    {
    }
  }

  lemma {:induction false} BatchBytesGrow(queue: seq<Request>, i: nat, j: nat)
    requires i <= j <= |queue|
    ensures BatchBytes(queue[..i]) <= BatchBytes(queue[..j])
    decreases j
  {
    hide ByteSize;
    if i < j {
      assert queue[..j][..j - 1] == queue[..j - 1];
      BatchBytesGrow(queue, i, j - 1);
    }
  }

  /** Writers that ask for no more than the leader does and fit in the limit together are all taken. */
  lemma AllThatFitAreTaken(queue: seq<Request>, n: nat, k: nat)
    requires queue != [] && queue[0].batch.Some? && GroupSize(queue, n) && k <= |queue|
    requires forall j :: 1 <= j < k ==> queue[j].sync ==> queue[0].sync
    requires BatchBytes(queue[..k]) <= GroupLimit(ByteSize(queue[0].batch.value))
    ensures n >= k
  {
    hide BatchBytes, ByteSize;
    if n < k {
      LongestRun(queue, n);
      BatchBytesGrow(queue, n + 1, k);
    }
  }

  function Merged(queue: seq<Request>): seq<Op> {
    if queue == [] then []
    else
      var last := queue[|queue| - 1];
      Merged(queue[..|queue| - 1]) + if last.batch.Some? then last.batch.value else []
  }

  /** The merged operations are those of each batch, in order and next to each other. */
  ghost predicate HasAt(ops: seq<Op>, at: nat, batch: seq<Op>) {
    at + |batch| <= |ops| && ops[at..at + |batch|] == batch
  }

  lemma {:induction false} MergedHas(queue: seq<Request>, j: nat)
    requires j < |queue| && queue[j].batch.Some?
    ensures HasAt(Merged(queue), |Merged(queue[..j])|, queue[j].batch.value)
    ensures j + 1 < |queue| && queue[j + 1].batch.Some? ==>
              |Merged(queue[..j + 1])| == |Merged(queue[..j])| + |queue[j].batch.value|
    ensures j + 1 == |queue| ==> |Merged(queue)| == |Merged(queue[..j])| + |queue[j].batch.value|
    decreases |queue|
  {
    assert queue[..j + 1][..j] == queue[..j];
    if j + 1 < |queue| {
      MergedHas(queue[..|queue| - 1], j);
      assert queue[..|queue| - 1][..j] == queue[..j];
    } else {
      assert queue[..j + 1] == queue;
    }
  }

  class Writer {
    const batch: WriteBatch?
    const sync: bool

    constructor (batch: WriteBatch?, sync: bool)
      ensures this.batch == batch && this.sync == sync
    {
      this.batch := batch;
      this.sync := sync;
    }

    ghost predicate Valid()
      reads batch
    {
      batch != null ==> batch.Valid() && |batch.ops| < TWO_TO_31
    }

    ghost function Asks(): Request
      reads batch
    {
      Request(if batch == null then None else Some(batch.ops), sync)
    }
  }

  ghost predicate AskFor(writers: seq<Writer>, queue: seq<Request>)
    reads set w | w in writers && w.batch != null :: w.batch
  {
    && |writers| == |queue|
    && (forall i :: 0 <= i < |queue| ==> writers[i].Valid() && writers[i].Asks() == queue[i])
  }

  lemma RepSize(batch: WriteBatch)
    requires batch.Valid()
    ensures |batch.rep| == ByteSize(batch.ops)
  {
    hide OpsBytes;
  }

  /** The bytes of the batches of some writers. */
  ghost function RepBytes(writers: seq<Writer>): nat
    reads set w | w in writers && w.batch != null :: w.batch
  {
    if writers == [] then 0
    else
      var last := writers[|writers| - 1];
      RepBytes(writers[..|writers| - 1]) + if last.batch == null then 0 else |last.batch.rep|
  }

  lemma {:induction false} RepBytesAre(writers: seq<Writer>, queue: seq<Request>, n: nat)
    requires AskFor(writers, queue) && n <= |writers|
    ensures RepBytes(writers[..n]) == BatchBytes(queue[..n])
    decreases n
  {
    hide ByteSize, Contents;
    if n > 0 {
      assert writers[..n][..n - 1] == writers[..n - 1] && queue[..n][..n - 1] == queue[..n - 1];
      RepBytesAre(writers, queue, n - 1);
      var w := writers[n - 1];
      assert w.Valid() && w.Asks() == queue[n - 1];
      if w.batch != null {
        RepSize(w.batch);
      }
    }
  }

  /** The group stops at the first writer that would make it sync, or too big. */
  ghost predicate StopsAt(writers: seq<Writer>, n: nat)
    requires writers != [] && writers[0].batch != null && n < |writers|
    reads set w | w in writers && w.batch != null :: w.batch
  {
    || (writers[n].sync && !writers[0].sync)
    || (writers[n].batch != null && RepBytes(writers[..n + 1]) > GroupLimit(|writers[0].batch.rep|))
  }

  lemma StopsWhereItMust(writers: seq<Writer>, queue: seq<Request>, n: nat)
    requires AskFor(writers, queue) && queue != [] && queue[0].batch.Some? && writers[0].batch != null
    requires GroupSize(queue, n)
    ensures n < |writers| ==> StopsAt(writers, n)
    ensures forall j :: 1 <= j < n ==> !StopsAt(writers, j)
  {
    LongestRun(queue, n);
    assert writers[0].Valid() && writers[0].Asks() == queue[0];
    RepSize(writers[0].batch);
    hide ByteSize, BatchBytes, GroupSize, RepBytes, Contents;
    forall j | 1 <= j <= n && j < |writers|
      ensures StopsAt(writers, j) <==> || (queue[j].sync && !queue[0].sync)
                                       || (queue[j].batch.Some? && BatchBytes(queue[..j + 1])
                                                                   > GroupLimit(ByteSize(queue[0].batch.value)))
    {
      assert writers[j].Valid() && writers[j].Asks() == queue[j];
      RepBytesAre(writers, queue, j + 1);
    }
  }

  lemma AtFirst(queue: seq<Request>)
    requires queue != [] && queue[0].batch.Some?
    ensures BatchBytes(queue[..1]) == ByteSize(queue[0].batch.value) && Merged(queue[..1]) == queue[0].batch.value
    ensures var size := ByteSize(queue[0].batch.value);
            MaxSize(queue[0].batch.value) == if size <= 128 * 1024 then size + 128 * 1024 else 1024 * 1024
  {
    hide ByteSize;
    assert queue[..1][..0] == [];
  }

  lemma OneMore(queue: seq<Request>, n: nat)
    requires n < |queue|
    ensures var batch := queue[n].batch;
            && BatchBytes(queue[..n + 1]) == BatchBytes(queue[..n]) + (if batch.Some? then ByteSize(batch.value) else 0)
            && Merged(queue[..n + 1]) == Merged(queue[..n]) + if batch.Some? then batch.value else []
  {
    hide ByteSize;
    assert queue[..n + 1][..n] == queue[..n];
  }

  /** The merged batch is built in tmpBatch as soon as there is a second one, so that no caller's batch
      is disturbed; 'n' is how far into the queue the group reaches. */
  method BuildBatchGroup(writers: seq<Writer>, tmpBatch: WriteBatch, ghost queue: seq<Request>)
    returns (result: WriteBatch, n: nat)
    requires AskFor(writers, queue) && queue != [] && queue[0].batch.Some?
    requires forall w :: w in writers ==> w.batch != tmpBatch
    requires tmpBatch.Valid() && tmpBatch.ops == []
    modifies tmpBatch
    ensures AskFor(writers, queue)
    ensures GroupSize(queue, n)
    ensures writers[0].batch != null && (n < |writers| ==> StopsAt(writers, n))
    ensures forall j :: 1 <= j < n ==> !StopsAt(writers, j)
    ensures result.Valid() && result.ops == Merged(queue[..n])
    ensures result == tmpBatch || result == writers[0].batch
  {
    hide ByteSize, Contents, Merged, BatchBytes, MaxSize;
    AtFirst(queue);
    var first := writers[0];
    result := first.batch;
    RepSize(first.batch);
    var size := |first.batch.rep|;
    var maxSize := 1024 * 1024;
    if size <= 128 * 1024 {
      maxSize := size + 128 * 1024;
    }
    n := 1;
    while n < |writers|
      invariant 1 <= n <= |writers|
      invariant AskFor(writers, queue)
      invariant size == BatchBytes(queue[..n]) && maxSize == MaxSize(queue[0].batch.value)
      invariant result.Valid() && result.ops == Merged(queue[..n])
      invariant result == first.batch || result == tmpBatch
      invariant result == first.batch ==> tmpBatch.Valid() && tmpBatch.ops == []
      invariant forall j :: 1 <= j < n ==> Joins(queue, j)
    {
      var w := writers[n];
      assert w.Valid() && w.Asks() == queue[n];
      OneMore(queue, n);
      if w.sync && !first.sync {
        break;
      }
      if w.batch != null {
        RepSize(w.batch);
        size := size + |w.batch.rep|;
        if size > maxSize {
          break;
        }
        if result == first.batch {
          tmpBatch.Append(first.batch);
          result := tmpBatch;
        }
        result.Append(w.batch);
      }
      n := n + 1;
    }
    StopsWhereItMust(writers, queue, n);
  }

  // ----- the state machine -----

  datatype Outcome = Success | Failure

  /** The writers 'first' to 'last' and their merged batch, numbered from 'before' + 1 on. */
  datatype BatchGroup = BatchGroup(first: nat, last: nat, before: nat, ops: seq<Op>) {
    function End(): nat {
      before + |ops|
    }
  }

  /** What became of a group's log record: not appended as a whole, appended, appended and synced, or
      appended with a failing sync after it. */
  datatype Fate = Torn | Written | Synced | SyncFailed

  datatype LogRecord = LogRecord(group: BatchGroup, fate: Fate)

  /** Where a thread is in Write. Leaders run MakeRoomForWrite, log, sync and insert without the mutex. */
  datatype Pc =
    | Sleeping
    | Awake
    | MakingRoom
    | Logging(group: BatchGroup)
    | Syncing(group: BatchGroup)
    | Inserting(group: BatchGroup, added: nat)
    | Failing(group: BatchGroup, syncError: bool)
    | Returned(status: Outcome)
  {
    predicate Leads() {
      !Sleeping? && !Awake? && !Returned?
    }

    predicate Logged() {
      Syncing? || Inserting? || Failing?
    }
  }

  /** 'done' is the writer's done flag together with its status. */
  datatype Thread = Thread(pc: Pc, done: Option<Outcome>) {
    /** What the call of Write returns, once that is settled. */
    function Result(): Option<Outcome> {
      if pc.Returned? then Some(pc.status) else done
    }
  }

  /** 'mem' is what has been inserted in memtables, in order, and 'snapshots' holds every value of
      LastSequence a reader has picked up. */
  datatype State = State(
    requests: seq<Request>, threads: seq<Thread>, writers: seq<nat>, log: seq<LogRecord>,
    mem: seq<Entry>, lastSequence: nat, bgError: bool, snapshots: set<nat>)

  function Start(lastSequence: nat): State {
    State([], [], [], [], [], lastSequence, false, {})
  }

  datatype Step =
    | Arrive(request: Request)
    | SpuriousWakeup(id: nat)
    | Recheck(id: nat)
    | LeaveMakeRoom(id: nat, ok: bool, size: nat)
    | AddRecord(id: nat, ok: bool)
    | SyncLog(id: nat, ok: bool)
    | InsertOne(id: nat)
    | Finish(id: nat)
    | TakeSnapshot
    | BackgroundError

  ghost predicate Formed(s: State) {
    |s.threads| == |s.requests| && forall i :: 0 <= i < |s.writers| ==> s.writers[i] < |s.requests|
  }

  ghost function Queue(s: State): (queue: seq<Request>)
    requires Formed(s)
  {
    seq(|s.writers|, i requires 0 <= i < |s.writers| => s.requests[s.writers[i]])
  }

  /** How many writers are popped until 'last' is. */
  function Popped(writers: seq<nat>, last: nat): (n: nat)
    requires last in writers
    ensures 1 <= n <= |writers| && writers[n - 1] == last && last !in writers[..n - 1]
  {
    if writers[0] == last then 1 else 1 + Popped(writers[1..], last)
  }

  function Signal(pc: Pc): Pc {
    if pc == Sleeping then Awake else pc
  }

  function Move(s: State, id: nat, pc: Pc): State
    requires id < |s.threads|
  {
    s.(threads := s.threads[id := s.threads[id].(pc := pc)])
  }

  /** The popped writers, except 'me', are marked done and signalled. */
  function Mark(threads: seq<Thread>, popped: seq<nat>, me: nat, status: Outcome): (marked: seq<Thread>)
    ensures |marked| == |threads|
  {
    seq(|threads|, i requires 0 <= i < |threads| =>
      if i in popped && i != me then Thread(Signal(threads[i].pc), Some(status)) else threads[i])
  }

  function SetPc(threads: seq<Thread>, id: nat, pc: Pc): seq<Thread>
    requires id < |threads|
  {
    threads[id := threads[id].(pc := pc)]
  }

  /** The end of Write: the writers up to 'last' leave the queue; 'me' returns, the others are marked
      done and signalled, and so is the new head of the queue. */
  function Complete(s: State, me: nat, last: nat, status: Outcome): State
    requires last in s.writers && me < |s.threads| && forall i :: 0 <= i < |s.writers| ==> s.writers[i] < |s.threads|
  {
    var n := Popped(s.writers, last);
    var rest := s.writers[n..];
    var marked := Mark(s.threads, s.writers[..n], me, status);
    var woken := if rest == [] then marked else SetPc(marked, rest[0], Signal(marked[rest[0]].pc));
    s.(writers := rest, threads := SetPc(woken, me, Returned(status)))
  }

  /** The loop at the end of Write. */
  method PopWriters(s: State, me: nat, last: nat, status: Outcome) returns (s': State)
    requires last in s.writers && me < |s.threads| && forall i :: 0 <= i < |s.writers| ==> s.writers[i] < |s.threads|
    ensures s' == Complete(s, me, last, status)
  {
    hide Mark, Popped;
    var writers, threads := s.writers, s.threads;
    ghost var n := 0;
    MarkNone(threads, me, status);
    while true
      invariant n < Popped(s.writers, last) && writers == s.writers[n..]
      invariant threads == Mark(s.threads, s.writers[..n], me, status)
      decreases |writers|
    {
      var ready := writers[0];
      MarkOne(s.threads, s.writers, n, me, status);
      PoppedAt(s.writers, last, n);
      writers := writers[1..];
      n := n + 1;
      if ready != me {
        threads := threads[ready := Thread(Signal(threads[ready].pc), Some(status))];
      }
      if ready == last {
        break;
      }
    }
    if writers != [] {
      threads := SetPc(threads, writers[0], Signal(threads[writers[0]].pc));
    }
    s' := s.(writers := writers, threads := SetPc(threads, me, Returned(status)));
  }

  lemma MarkNone(threads: seq<Thread>, me: nat, status: Outcome)
    ensures Mark(threads, [], me, status) == threads
  {
  }

  lemma MarkOne(threads: seq<Thread>, writers: seq<nat>, n: nat, me: nat, status: Outcome)
    requires n < |writers| && writers[n] < |threads|
    ensures var (before, ready) := (Mark(threads, writers[..n], me, status), writers[n]);
            && |before| == |threads|
            && Mark(threads, writers[..n + 1], me, status)
               == if ready == me then before else before[ready := Thread(Signal(before[ready].pc), Some(status))]
  {
    assert writers[..n + 1] == writers[..n] + [writers[n]];
  }

  lemma PoppedAt(writers: seq<nat>, last: nat, n: nat)
    requires last in writers && n < Popped(writers, last)
    ensures writers[n] == last <==> n + 1 == Popped(writers, last)
  {
    var m := Popped(writers, last);
    assert n < m - 1 ==> writers[n] in writers[..m - 1];
  }

  /** A thread may take a step when it is where the step starts. That the queue keeps two threads from
      leading at once is not assumed here; that the writers named are in the queue, that its front has a
      batch, that a group has a size and that a synced record is there hold wherever they are asked for,
      which GroupCommitSafety.NoGuardHidesAStep proves for every run. */
  ghost predicate Enabled(s: State, step: Step) {
    && Formed(s)
    && match step
       case Arrive(_) => true
       case TakeSnapshot => true
       case BackgroundError => true
       case SpuriousWakeup(id) => id < |s.threads| && s.threads[id].pc.Sleeping?
       case Recheck(id) => id < |s.threads| && s.threads[id].pc.Awake?
       case LeaveMakeRoom(id, ok, size) =>
         && id < |s.threads| && s.threads[id].pc.MakingRoom? && id in s.writers
         && (s.bgError ==> !ok)
         && (ok && s.requests[id].batch.Some? ==> Queue(s)[0].batch.Some? && GroupSize(Queue(s), size))
       case AddRecord(id, _) => id < |s.threads| && s.threads[id].pc.Logging?
       case SyncLog(id, _) => id < |s.threads| && s.threads[id].pc.Syncing? && s.log != []
       case InsertOne(id) =>
         id < |s.threads| && s.threads[id].pc.Inserting? && s.threads[id].pc.added < |s.threads[id].pc.group.ops|
       case Finish(id) =>
         && id < |s.threads|
         && (s.threads[id].pc.Failing?
             || (s.threads[id].pc.Inserting? && s.threads[id].pc.added == |s.threads[id].pc.group.ops|))
         && s.threads[id].pc.group.last in s.writers
  }

  function AfterAddRecord(g: BatchGroup, sync: bool, ok: bool): Pc {
    if !ok then Failing(g, false) else if sync then Syncing(g) else Inserting(g, 0)
  }

  ghost function Apply(s: State, step: Step): State
    requires Enabled(s, step)
  {
    match step
    case Arrive(request) =>
      s.(requests := s.requests + [request],
         threads := s.threads + [Thread(if s.writers == [] then MakingRoom else Sleeping, None)],
         writers := s.writers + [|s.threads|])
    case SpuriousWakeup(id) => Move(s, id, Awake)
    case Recheck(id) =>
      var done := s.threads[id].done;
      Move(s, id,
           if done.Some? then Returned(done.value)
           else if s.writers != [] && s.writers[0] == id then MakingRoom
           else Sleeping)
    case LeaveMakeRoom(id, ok, size) =>
      if ok && s.requests[id].batch.Some? then
        Move(s, id, Logging(BatchGroup(s.writers[0], s.writers[size - 1], s.lastSequence, Merged(Queue(s)[..size]))))
      else
        Complete(s, id, id, if ok then Success else Failure)
    case AddRecord(id, ok) =>
      var g := s.threads[id].pc.group;
      Move(s, id, AfterAddRecord(g, s.requests[id].sync, ok))
      .(log := s.log + [LogRecord(g, if ok then Written else Torn)])
    case SyncLog(id, ok) =>
      var g := s.threads[id].pc.group;
      Move(s, id, if ok then Inserting(g, 0) else Failing(g, true))
      .(log := s.log[..|s.log| - 1] + [s.log[|s.log| - 1].(fate := if ok then Synced else SyncFailed)])
    case InsertOne(id) =>
      var pc := s.threads[id].pc;
      Move(s, id, Inserting(pc.group, pc.added + 1))
      .(mem := s.mem + [AddOf(pc.group.before + 1 + pc.added, pc.group.ops[pc.added])])
    case Finish(id) =>
      var pc := s.threads[id].pc;
      Complete(s.(bgError := s.bgError || (pc.Failing? && pc.syncError), lastSequence := pc.group.End()),
               id, pc.group.last, EndStatus(pc))
    case TakeSnapshot => s.(snapshots := s.snapshots + {s.lastSequence})
    case BackgroundError => s.(bgError := true)
  }

  // ----- what holds in every reachable state -----

  /** The queue is the calls that have not left it yet, in order of arrival. */
  ghost predicate QueueOk(s: State) {
    && |s.threads| == |s.requests| && |s.writers| <= |s.requests|
    && (forall i :: 0 <= i < |s.writers| ==> s.writers[i] == Head(s) + i)
  }

  function Head(s: State): nat
    requires |s.writers| <= |s.requests|
  {
    |s.requests| - |s.writers|
  }

  /** Calls before the head are settled and, unless they have returned, awake to find that out; calls
      behind it wait; the head itself is awake or leads. */
  ghost predicate ThreadOk(t: Thread, id: nat, head: nat) {
    && (id < head ==>
          || (t.pc.Returned? && (t.done.Some? ==> t.done == Some(t.pc.status)))
          || (t.pc.Awake? && t.done.Some?))
    && (id >= head ==> t.done.None? && !t.pc.Returned?)
    && (id == head ==> !t.pc.Sleeping?)
    && (id > head ==> !t.pc.Leads())
  }

  ghost predicate ThreadsOk(s: State)
    requires QueueOk(s)
  {
    forall id {:trigger s.threads[id]} :: 0 <= id < |s.threads| ==> ThreadOk(s.threads[id], id, Head(s))
  }

  function Covers(g: BatchGroup, id: nat): bool {
    g.first <= id <= g.last
  }

  /** A group is a run of consecutive arrivals, led by one with a batch, and by one that syncs if any of
      them asks for it. */
  ghost predicate GroupOk(requests: seq<Request>, g: BatchGroup) {
    && g.first <= g.last < |requests| && requests[g.first].batch.Some?
    && g.ops == Merged(requests[g.first..g.last + 1])
    && (forall id :: 0 <= id < |requests| && Covers(g, id) && requests[id].sync ==> requests[g.first].sync)
  }

  /** Where the head's leader is. */
  function Leader(s: State): Pc
    requires |s.threads| == |s.requests| && |s.writers| <= |s.requests|
  {
    if s.writers == [] then Awake else s.threads[Head(s)].pc
  }

  /** The log without the record of a group that is still being worked on. */
  function Settled(s: State): seq<LogRecord>
    requires |s.threads| == |s.requests| && |s.writers| <= |s.requests|
  {
    if Leader(s).Logged() && s.log != [] then s.log[..|s.log| - 1] else s.log
  }

  function ChainEnd(base: nat, log: seq<LogRecord>): nat {
    if log == [] then base else log[|log| - 1].group.End()
  }

  /** What the fate of a record says about its leader's wish for durability. */
  predicate FateOk(fate: Fate, sync: bool) {
    match fate
    case Torn => true
    case Written => !sync
    case Synced => sync
    case SyncFailed => sync
  }

  /** Groups are logged in order of arrival with consecutive sequence ranges, starting after 'base'; after
      a failed sync nothing is logged. */
  ghost predicate LogOk(requests: seq<Request>, log: seq<LogRecord>, base: nat, head: nat) {
    && (forall i :: 0 <= i < |log| ==> RecordOk(requests, log, base, i))
    && (log != [] ==> log[|log| - 1].group.last < head)
  }

  ghost predicate RecordOk(requests: seq<Request>, log: seq<LogRecord>, base: nat, i: nat)
    requires i < |log|
  {
    && GroupOk(requests, log[i].group)
    && FateOk(log[i].fate, requests[log[i].group.first].sync)
    && log[i].group.before == ChainEnd(base, log[..i])
    && (i > 0 ==> log[i - 1].group.last < log[i].group.first && log[i - 1].fate != SyncFailed)
  }

  predicate SyncHasFailed(log: seq<LogRecord>) {
    log != [] && log[|log| - 1].fate == SyncFailed
  }

  ghost predicate LeaderOk(s: State)
    requires QueueOk(s)
  {
    var pc := Leader(s);
    && (pc.Logging? || pc.Logged() ==>
          && s.writers != [] && GroupOk(s.requests, pc.group) && pc.group.first == Head(s)
          && pc.group.before == s.lastSequence && !SyncHasFailed(Settled(s)))
    && (pc.Logged() ==>
          s.log != [] && s.log[|s.log| - 1] == LogRecord(pc.group, LoggedFate(pc, s.requests[Head(s)].sync)))
    && (pc.Syncing? || (pc.Failing? && pc.syncError) ==> s.requests[Head(s)].sync)
    && (pc.Inserting? ==> pc.added <= |pc.group.ops|)
  }

  /** The fate of the leader's own record so far. */
  function LoggedFate(pc: Pc, sync: bool): Fate
    requires pc.Logged()
  {
    match pc
    case Syncing(_) => Written
    case Inserting(_, _) => if sync then Synced else Written
    case Failing(_, syncError) => if syncError then SyncFailed else Torn
  }

  function OutcomeOf(fate: Fate): Outcome {
    if fate == Written || fate == Synced then Success else Failure
  }

  ghost predicate InSomeGroup(log: seq<LogRecord>, id: nat) {
    exists i :: 0 <= i < |log| && Covers(log[i].group, id)
  }

  /** Everybody in a settled group got the group's status; who was told that a batch was written was in
      one. */
  ghost predicate ResultsOk(s: State)
    requires QueueOk(s)
  {
    && (forall i, id :: 0 <= i < |Settled(s)| && 0 <= id < |s.threads| && Covers(Settled(s)[i].group, id) ==>
          s.threads[id].Result() == Some(OutcomeOf(Settled(s)[i].fate)))
    && (forall id :: 0 <= id < Head(s) && s.requests[id].batch.Some? && s.threads[id].Result() == Some(Success) ==>
          InSomeGroup(Settled(s), id))
  }

  /** The entries of the groups that were written, in order. */
  function Inserted(log: seq<LogRecord>): seq<Entry> {
    if log == [] then []
    else
      var last := log[|log| - 1];
      Inserted(log[..|log| - 1])
      + if OutcomeOf(last.fate) == Success then Adds(last.group.before + 1, last.group.ops) else []
  }

  function InProgress(pc: Pc): seq<Entry> {
    if pc.Inserting? && pc.added <= |pc.group.ops| then Adds(pc.group.before + 1, pc.group.ops[..pc.added]) else []
  }

  /** A group lies wholly at or below the snapshot, or wholly above. */
  predicate Whole(g: BatchGroup, snapshot: nat) {
    g.End() <= snapshot || snapshot <= g.before
  }

  ghost predicate SnapshotsOk(s: State)
    requires QueueOk(s)
  {
    && (forall snapshot :: snapshot in s.snapshots ==> snapshot <= s.lastSequence)
    && (forall snapshot, i :: snapshot in s.snapshots && 0 <= i < |Settled(s)| ==> Whole(Settled(s)[i].group, snapshot))
  }

  ghost predicate Inv(s: State, base: nat) {
    && QueueOk(s) && ThreadsOk(s) && LeaderOk(s)
    && LogOk(s.requests, Settled(s), base, Head(s))
    && s.lastSequence == ChainEnd(base, Settled(s))
    && ResultsOk(s)
    && s.mem == Inserted(Settled(s)) + InProgress(Leader(s))
    && SnapshotsOk(s)
    && (SyncHasFailed(Settled(s)) ==> s.bgError)
  }

  lemma StartInv(base: nat)
    ensures Inv(Start(base), base)
  {
  }

  // ----- every step keeps it -----

  lemma OnlyHeadLeads(s: State, id: nat)
    requires QueueOk(s) && ThreadsOk(s) && id < |s.threads| && s.threads[id].pc.Leads()
    ensures s.writers != [] && id == Head(s) == s.writers[0] && Leader(s) == s.threads[id].pc
  {
    assert ThreadOk(s.threads[id], id, Head(s));
  }

  lemma GroupStays(requests: seq<Request>, request: Request, g: BatchGroup)
    requires GroupOk(requests, g)
    ensures GroupOk(requests + [request], g)
  {
    assert (requests + [request])[g.first..g.last + 1] == requests[g.first..g.last + 1];
  }

  lemma LogStays(requests: seq<Request>, request: Request, log: seq<LogRecord>, base: nat, head: nat)
    requires LogOk(requests, log, base, head)
    ensures LogOk(requests + [request], log, base, head)
  {
    forall i | 0 <= i < |log| ensures RecordOk(requests + [request], log, base, i) {
      assert RecordOk(requests, log, base, i);
      GroupStays(requests, request, log[i].group);
    }
  }

  /** Groups are disjoint and in order of arrival. */
  lemma {:induction false} GroupsInOrder(requests: seq<Request>, log: seq<LogRecord>, base: nat, head: nat, i: nat,
                                         j: nat)
    requires LogOk(requests, log, base, head) && i < |log| && j < |log|
    ensures i < j ==> log[i].group.last < log[j].group.first
    ensures log[i].group.last < head
    decreases |log| - i
  {
    assert RecordOk(requests, log, base, j);
    if i + 1 < |log| {
      assert RecordOk(requests, log, base, i + 1);
      GroupsInOrder(requests, log, base, head, i + 1, j);
    }
  }

  lemma ArriveKeeps(s: State, base: nat, request: Request)
    requires Inv(s, base)
    ensures Enabled(s, Arrive(request)) && Inv(Apply(s, Arrive(request)), base)
  {
    hide LogOk, GroupOk, Inserted, Adds, Merged, GroupSize, Queue;
    var s' := Apply(s, Arrive(request));
    LogStays(s.requests, request, Settled(s), base, Head(s));
    if s.writers != [] && (Leader(s).Logging? || Leader(s).Logged()) {
      GroupStays(s.requests, request, Leader(s).group);
    }
    assert Settled(s') == Settled(s);
    forall i | 0 <= i < |Settled(s)| ensures Settled(s)[i].group.last < |s.requests| {
      GroupsInOrder(s.requests, Settled(s), base, Head(s), i, i);
    }
  }

  /** A thread that does not lead moves to another place where it does not. */
  lemma MoveKeeps(s: State, base: nat, id: nat, pc: Pc)
    requires Inv(s, base) && id < |s.threads| && !s.threads[id].pc.Leads()
    requires ThreadOk(s.threads[id].(pc := pc), id, Head(s)) && !pc.Logging? && !pc.Logged()
    requires s.threads[id].(pc := pc).Result() == s.threads[id].Result()
    ensures Inv(Move(s, id, pc), base)
  {
    hide LogOk, GroupOk, Inserted, Adds, Merged, GroupSize, Queue;
    var s' := Move(s, id, pc);
    assert Settled(s') == Settled(s);
  }

  lemma SpuriousWakeupKeeps(s: State, base: nat, id: nat)
    requires Inv(s, base) && Enabled(s, SpuriousWakeup(id))
    ensures Inv(Apply(s, SpuriousWakeup(id)), base)
  {
    assert ThreadOk(s.threads[id], id, Head(s));
    MoveKeeps(s, base, id, Awake);
  }

  lemma RecheckKeeps(s: State, base: nat, id: nat)
    requires Inv(s, base) && Enabled(s, Recheck(id))
    ensures Inv(Apply(s, Recheck(id)), base)
  {
    assert ThreadOk(s.threads[id], id, Head(s));
    MoveKeeps(s, base, id, Apply(s, Recheck(id)).threads[id].pc);
  }

  lemma SnapshotKeeps(s: State, base: nat)
    requires Inv(s, base)
    ensures Enabled(s, TakeSnapshot) && Inv(Apply(s, TakeSnapshot), base)
  {
    hide LogOk, GroupOk, Inserted, Adds, Merged, GroupSize, Queue;
    var s' := Apply(s, TakeSnapshot);
    assert Settled(s') == Settled(s);
    forall i | 0 <= i < |Settled(s)| ensures Whole(Settled(s)[i].group, s.lastSequence) {
      EndsGrow(s.requests, Settled(s), base, Head(s), i);
    }
  }

  /** Sequence ranges only move up. */
  lemma {:induction false} EndsGrow(requests: seq<Request>, log: seq<LogRecord>, base: nat, head: nat, i: nat)
    requires LogOk(requests, log, base, head) && i < |log|
    ensures log[i].group.End() <= ChainEnd(base, log)
    decreases |log| - i
  {
    if i + 1 < |log| {
      assert RecordOk(requests, log, base, i + 1);
      assert log[..i + 1][i] == log[i];
      EndsGrow(requests, log, base, head, i + 1);
    }
  }

  lemma BackgroundErrorKeeps(s: State, base: nat)
    requires Inv(s, base)
    ensures Enabled(s, BackgroundError) && Inv(Apply(s, BackgroundError), base)
  {
    hide LogOk, GroupOk, Inserted, Adds, Merged, GroupSize, Queue;
    assert Settled(Apply(s, BackgroundError)) == Settled(s);
  }

  lemma QueueIsRun(s: State, size: nat)
    requires QueueOk(s) && Formed(s) && size <= |s.writers|
    ensures Queue(s)[..size] == s.requests[Head(s)..Head(s) + size]
  {
  }

  lemma GroupIsOk(s: State, size: nat)
    requires QueueOk(s) && Formed(s) && s.writers != []
    requires Queue(s)[0].batch.Some? && GroupSize(Queue(s), size)
    ensures GroupOk(s.requests, BatchGroup(s.writers[0], s.writers[size - 1], s.lastSequence, Merged(Queue(s)[..size])))
  {
    hide Merged, BatchBytes;
    QueueIsRun(s, size);
    var g := BatchGroup(s.writers[0], s.writers[size - 1], s.lastSequence, Merged(Queue(s)[..size]));
    forall id | 0 <= id < |s.requests| && Covers(g, id) && s.requests[id].sync ensures s.requests[g.first].sync {
      assert id > g.first ==> Joins(Queue(s), id - g.first);
    }
  }

  /** What completing does to one thread. */
  lemma CompletesThread(s: State, me: nat, last: nat, status: Outcome, id: nat)
    requires QueueOk(s) && s.writers != [] && me == Head(s) && last in s.writers && id < |s.threads|
    ensures var (s', t) := (Complete(s, me, last, status), s.threads[id]);
            && |s'.threads| == |s.threads|
            && s'.threads[id] == if id == me then t.(pc := Returned(status))
                                 else if me < id <= last then Thread(Signal(t.pc), Some(status))
                                 else if id == last + 1 then t.(pc := Signal(t.pc))
                                 else t
  {
    var n := Popped(s.writers, last);
    assert me <= id <= last ==> s.writers[..n][id - me] == id;
  }

  /** Popping up to 'last' settles exactly the head's run of writers and wakes the new head. */
  lemma CompleteSettles(s: State, me: nat, last: nat, status: Outcome)
    requires QueueOk(s) && ThreadsOk(s) && s.writers != [] && me == Head(s) && last in s.writers
    ensures var s' := Complete(s, me, last, status);
            && QueueOk(s') && ThreadsOk(s') && Head(s') == last + 1 && !Leader(s').Leads()
            && s' == s.(threads := s'.threads, writers := s'.writers)
            && (forall id {:trigger s'.threads[id]} :: 0 <= id < |s.threads| ==>
                  s'.threads[id].Result() == if me <= id <= last then Some(status) else s.threads[id].Result())
  {
    hide Mark;
    var s', n := Complete(s, me, last, status), Popped(s.writers, last);
    forall id {:trigger s'.threads[id]} | 0 <= id < |s.threads|
      ensures ThreadOk(s'.threads[id], id, last + 1)
      ensures s'.threads[id].Result() == if me <= id <= last then Some(status) else s.threads[id].Result()
    {
      assert ThreadOk(s.threads[id], id, Head(s));
      CompletesThread(s, me, last, status, id);
    }
    if s'.writers != [] {
      CompletesThread(s, me, last, status, last + 1);
      assert ThreadOk(s.threads[last + 1], last + 1, Head(s));
    }
  }

  lemma LeaveMakeRoomKeeps(s: State, base: nat, id: nat, ok: bool, size: nat)
    requires Inv(s, base) && Enabled(s, LeaveMakeRoom(id, ok, size))
    ensures Inv(Apply(s, LeaveMakeRoom(id, ok, size)), base)
  {
    hide LogOk, GroupOk, Inserted, Adds, Merged, GroupSize, Complete;
    OnlyHeadLeads(s, id);
    var s' := Apply(s, LeaveMakeRoom(id, ok, size));
    if ok && s.requests[id].batch.Some? {
      hide Queue;
      GroupIsOk(s, size);
      assert Settled(s') == Settled(s) == s.log;
    } else {
      CompleteSettles(s, id, id, if ok then Success else Failure);
      assert Settled(s') == Settled(s) == s.log;
      LogHeadGrows(s.requests, s.log, base, Head(s), Head(s'));
      forall i | 0 <= i < |s.log| ensures s.log[i].group.last < id {
        GroupsInOrder(s.requests, s.log, base, Head(s), i, i);
      }
    }
  }

  lemma LogHeadGrows(requests: seq<Request>, log: seq<LogRecord>, base: nat, head: nat, head': nat)
    requires LogOk(requests, log, base, head) && head <= head'
    ensures LogOk(requests, log, base, head')
  {
  }

  /** The leader moves on without giving up the lead. */
  lemma LeaderMoveKeeps(s: State, s': State, base: nat, id: nat, pc: Pc)
    requires Inv(s, base) && id < |s.threads| && s.threads[id].pc.Leads() && pc.Leads()
    requires s' == Move(s, id, pc).(log := s'.log, mem := s'.mem)
    requires Settled(s') == Settled(s) && LeaderOk(s') && s'.mem == Inserted(Settled(s)) + InProgress(pc)
    ensures Inv(s', base)
  {
    hide LogOk, GroupOk, Inserted, InProgress, Settled, LeaderOk, Whole, Covers;
    OnlyHeadLeads(s, id);
  }

  /** The leader's own record is appended, or its fate changes. */
  lemma RecordMoveKeeps(s: State, base: nat, id: nat, pc: Pc, init: seq<LogRecord>, r: LogRecord)
    requires Inv(s, base) && id < |s.threads| && id < |s.requests|
    requires s.threads[id].pc.Logging? || s.threads[id].pc.Syncing?
    requires init == Settled(s) && pc.Logged() && pc.group == r.group == s.threads[id].pc.group
    requires pc.Inserting? ==> pc.added == 0
    requires pc.Syncing? || (pc.Failing? && pc.syncError) ==> s.requests[id].sync
    requires r.fate == LoggedFate(pc, s.requests[id].sync)
    ensures Inv(Move(s, id, pc).(log := init + [r]), base)
  {
    hide LogOk, GroupOk, Inserted, ThreadsOk, ResultsOk, SnapshotsOk, LoggedFate, InProgress;
    OnlyHeadLeads(s, id);
    LastOf(init, r);
    NothingAdded(s.threads[id].pc);
    NothingAdded(pc);
    LeaderMoveKeeps(s, Move(s, id, pc).(log := init + [r]), base, id, pc);
  }

  lemma LastOf<T>(log: seq<T>, r: T)
    ensures (log + [r])[..|log|] == log && (log + [r])[|log|] == r
  {
  }

  lemma AddRecordKeeps(s: State, base: nat, id: nat, ok: bool)
    requires Inv(s, base) && Enabled(s, AddRecord(id, ok))
    ensures Inv(Apply(s, AddRecord(id, ok)), base)
  {
    hide LogOk, GroupOk, Inserted, ThreadsOk, ResultsOk, SnapshotsOk, LeaderOk, InProgress;
    LeaderKnown(s, base, id);
    var g := s.threads[id].pc.group;
    RecordMoveKeeps(s, base, id, AfterAddRecord(g, s.requests[id].sync, ok), s.log,
                    LogRecord(g, if ok then Written else Torn));
  }

  lemma LeaderKnown(s: State, base: nat, id: nat)
    requires Inv(s, base) && id < |s.threads| && s.threads[id].pc.Leads()
    ensures Leader(s) == s.threads[id].pc
    ensures s.threads[id].pc.Syncing? ==>
              && s.log != [] && s.requests[id].sync
              && s.log[|s.log| - 1] == LogRecord(s.threads[id].pc.group, Written)
  {
    hide LogOk, GroupOk, Inserted, ResultsOk, SnapshotsOk, InProgress;
    OnlyHeadLeads(s, id);
  }

  lemma NothingAdded(pc: Pc)
    requires pc.Inserting? ==> pc.added == 0
    ensures InProgress(pc) == []
  {
  }

  lemma SyncLogKeeps(s: State, base: nat, id: nat, ok: bool)
    requires Inv(s, base) && Enabled(s, SyncLog(id, ok))
    ensures Inv(Apply(s, SyncLog(id, ok)), base)
  {
    hide LogOk, GroupOk, Inserted, ThreadsOk, ResultsOk, SnapshotsOk, LeaderOk, InProgress;
    LeaderKnown(s, base, id);
    var g := s.threads[id].pc.group;
    RecordMoveKeeps(s, base, id, if ok then Inserting(g, 0) else Failing(g, true), s.log[..|s.log| - 1],
                    LogRecord(g, if ok then Synced else SyncFailed));
  }

  lemma OneMoreAdded(pc: Pc)
    requires pc.Inserting? && pc.added < |pc.group.ops|
    ensures InProgress(Inserting(pc.group, pc.added + 1))
         == InProgress(pc) + [AddOf(pc.group.before + 1 + pc.added, pc.group.ops[pc.added])]
  {
    assert pc.group.ops[..pc.added + 1][..pc.added] == pc.group.ops[..pc.added];
  }

  lemma InsertOneKeeps(s: State, base: nat, id: nat)
    requires Inv(s, base) && Enabled(s, InsertOne(id))
    ensures Inv(Apply(s, InsertOne(id)), base)
  {
    hide LogOk, GroupOk, Inserted, ThreadsOk, ResultsOk, SnapshotsOk, InProgress;
    OnlyHeadLeads(s, id);
    var s' := Apply(s, InsertOne(id));
    OneMoreAdded(s.threads[id].pc);
    LeaderMoveKeeps(s, s', base, id, s'.threads[id].pc);
  }

  lemma LogExtends(requests: seq<Request>, log: seq<LogRecord>, base: nat, head: nat, r: LogRecord)
    requires LogOk(requests, log, base, head) && GroupOk(requests, r.group)
    requires r.group.first == head && r.group.before == ChainEnd(base, log)
    requires FateOk(r.fate, requests[head].sync) && !SyncHasFailed(log)
    ensures LogOk(requests, log + [r], base, r.group.last + 1)
    ensures Inserted(log + [r])
         == Inserted(log) + if OutcomeOf(r.fate) == Success then Adds(r.group.before + 1, r.group.ops) else []
  {
    hide GroupOk, Inserted, Adds;
    var log' := log + [r];
    assert log'[..|log|] == log;
    InsertedUnfold(log');
    forall i | 0 <= i < |log'| ensures RecordOk(requests, log', base, i) {
      assert i < |log| ==> RecordOk(requests, log, base, i);
      assert i < |log| ==> log'[..i] == log[..i];
    }
  }

  lemma InsertedUnfold(log: seq<LogRecord>)
    requires log != []
    ensures var last := log[|log| - 1];
            Inserted(log) == Inserted(log[..|log| - 1])
                             + (if OutcomeOf(last.fate) == Success then Adds(last.group.before + 1, last.group.ops)
                                else [])
  {
  }

  function EndStatus(pc: Pc): Outcome {
    if pc.Failing? then Failure else Success
  }

  /** The leader that is about to finish, and its log record. */
  lemma FinishFrom(s: State, base: nat, id: nat) returns (r: LogRecord)
    requires Inv(s, base) && Enabled(s, Finish(id))
    ensures var pc := s.threads[id].pc;
            && s.writers != [] && id == Head(s) && Leader(s) == pc && s.log == Settled(s) + [r]
            && r.group == pc.group && r.group.first == Head(s)
            && GroupOk(s.requests, r.group) && r.group.before == ChainEnd(base, Settled(s)) == s.lastSequence
            && FateOk(r.fate, s.requests[Head(s)].sync) && !SyncHasFailed(Settled(s))
            && OutcomeOf(r.fate) == EndStatus(pc) && (r.fate == SyncFailed ==> pc.Failing? && pc.syncError)
            && InProgress(pc) == if pc.Failing? then [] else Adds(pc.group.before + 1, pc.group.ops)
  {
    hide GroupOk, Inserted, Adds, InProgress, Complete, Merged, Queue, GroupSize, LogOk, ResultsOk, SnapshotsOk;
    hide LoggedFate, FateOk, OutcomeOf, EndStatus, ThreadsOk, ChainEnd, SyncHasFailed;
    OnlyHeadLeads(s, id);
    r := s.log[|s.log| - 1];
    AllAdded(s.threads[id].pc);
    EndFate(s.threads[id].pc, s.requests[Head(s)].sync);
  }

  /** The fate of the record of a leader that is about to finish. */
  lemma EndFate(pc: Pc, sync: bool)
    requires (pc.Inserting? || pc.Failing?) && (pc.Failing? && pc.syncError ==> sync)
    ensures var fate := LoggedFate(pc, sync);
            && FateOk(fate, sync) && OutcomeOf(fate) == EndStatus(pc)
            && (fate == SyncFailed ==> pc.Failing? && pc.syncError)
  {
  }

  lemma FinishTo(s: State, base: nat, id: nat)
    requires Inv(s, base) && Enabled(s, Finish(id)) && s.writers != [] && id == Head(s)
    ensures var (g, s') := (s.threads[id].pc.group, Apply(s, Finish(id)));
            && QueueOk(s') && ThreadsOk(s') && LeaderOk(s') && Settled(s') == s.log && Head(s') == g.last + 1
            && InProgress(Leader(s')) == []
            && s'.requests == s.requests && s'.mem == s.mem && s'.lastSequence == g.End() && s'.snapshots == s.snapshots
            && (s.threads[id].pc.Failing? && s.threads[id].pc.syncError ==> s'.bgError)
            && (forall i {:trigger s'.threads[i]} :: 0 <= i < |s.threads| ==>
                  s'.threads[i].Result() == if id <= i <= g.last then Some(EndStatus(s.threads[id].pc))
                                            else s.threads[i].Result())
  {
    hide GroupOk, Inserted, Adds, Complete, Merged, Queue, GroupSize, LogOk, ResultsOk, SnapshotsOk;
    var pc := s.threads[id].pc;
    CompleteSettles(s.(bgError := s.bgError || (pc.Failing? && pc.syncError), lastSequence := pc.group.End()),
                    id, pc.group.last, EndStatus(pc));
  }

  lemma FinishKeeps(s: State, base: nat, id: nat)
    requires Inv(s, base) && Enabled(s, Finish(id))
    ensures Inv(Apply(s, Finish(id)), base)
  {
    hide GroupOk, Inserted, Adds, Apply, LogOk, LeaderOk, ThreadsOk, InProgress, Settled, ResultsOk;
    var s' := Apply(s, Finish(id));
    var r := FinishFrom(s, base, id);
    FinishTo(s, base, id);
    LogExtends(s.requests, Settled(s), base, Head(s), r);
    FinishResults(s, s', base, r);
    assert s'.mem == Inserted(Settled(s')) + [];
  }

  lemma AllAdded(pc: Pc)
    requires pc.Failing? || (pc.Inserting? && pc.added == |pc.group.ops|)
    ensures InProgress(pc) == if pc.Failing? then [] else Adds(pc.group.before + 1, pc.group.ops)
  {
    if pc.Inserting? {
      assert pc.group.ops[..pc.added] == pc.group.ops;
    }
  }

  lemma FinishResults(s: State, s': State, base: nat, r: LogRecord)
    requires QueueOk(s) && QueueOk(s') && LogOk(s.requests, Settled(s), base, Head(s)) && ResultsOk(s)
    requires Settled(s') == Settled(s) + [r] && r.group.first == Head(s) && Head(s') == r.group.last + 1
    requires s'.requests == s.requests
    requires forall id {:trigger s'.threads[id]} :: 0 <= id < |s.threads| ==>
               s'.threads[id].Result() == if Covers(r.group, id) then Some(OutcomeOf(r.fate))
                                          else s.threads[id].Result()
    ensures ResultsOk(s')
  {
    hide LogOk;
    var log, log' := Settled(s), Settled(s');
    forall i, id | 0 <= i < |log'| && 0 <= id < |s'.threads| && Covers(log'[i].group, id)
      ensures s'.threads[id].Result() == Some(OutcomeOf(log'[i].fate))
    {
      if i < |log| {
        GroupsInOrder(s.requests, log, base, Head(s), i, i);
        assert log'[i] == log[i] && !Covers(r.group, id);
      }
    }
    forall id | 0 <= id < Head(s') && s'.requests[id].batch.Some? && s'.threads[id].Result() == Some(Success)
      ensures InSomeGroup(log', id)
    {
      if id < Head(s) {
        assert InSomeGroup(log, id);
        var i :| 0 <= i < |log| && Covers(log[i].group, id);
        assert Covers(log'[i].group, id);
      } else {
        assert Covers(log'[|log|].group, id);
      }
    }
  }

  lemma StepKeeps(s: State, base: nat, step: Step)
    requires Inv(s, base) && Enabled(s, step)
    ensures Inv(Apply(s, step), base)
  {
    hide *;
    match step
    case Arrive(request) => ArriveKeeps(s, base, request);
    case SpuriousWakeup(id) => SpuriousWakeupKeeps(s, base, id);
    case Recheck(id) => RecheckKeeps(s, base, id);
    case LeaveMakeRoom(id, ok, size) => LeaveMakeRoomKeeps(s, base, id, ok, size);
    case AddRecord(id, ok) => AddRecordKeeps(s, base, id, ok);
    case SyncLog(id, ok) => SyncLogKeeps(s, base, id, ok);
    case InsertOne(id) => InsertOneKeeps(s, base, id);
    case Finish(id) => FinishKeeps(s, base, id);
    case TakeSnapshot => SnapshotKeeps(s, base);
    case BackgroundError => BackgroundErrorKeeps(s, base);
  }
}

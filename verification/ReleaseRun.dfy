/**
 Executing a frozen shard plan over any sequence of crashes and restarts, as a
 state machine.  Only `completed` is durable; a crash loses everything else.
 */
module ReleaseRun {
  import opened Outcomes
  import opened ReleaseTiming
  import opened ReleasePlan

  // ---- Results ----------------------------------------------------------

  /** What a finished pytest process reports about a shard. */
  datatype Evidence = Evidence(
    schemaOk: bool,
    collected: int,
    passed: int,
    skipped: int,
    failed: int,
    xfailed: int,
    xpassed: int,
    collectionErrors: int,
    deselected: int,
    exitStatus: int
  ) {
    /** The evidence is accepted only from a shard in which nothing went wrong. */
    predicate ReleaseClean() {
      && schemaOk
      && passed >= 0 && skipped >= 0
      && failed == xfailed == xpassed == collectionErrors == deselected == exitStatus == 0
      && collected > 0 && passed + skipped == collected
    }
  }

  /** `identity` stands for the digest of the shard's files. */
  datatype ShardResult = ShardResult(
    index: nat, identity: seq<File>, firstFile: File, lastFile: File, collected: int, passed: int, skipped: int)

  /** The result recorded for a shard, or none if the evidence is refused and the run aborts. */
  function ExecuteShard(shard: Shard, evidence: Evidence): Option<ShardResult>
    requires shard.files != []
  {
    if !evidence.ReleaseClean() then None
    else Some(ShardResult(shard.index, shard.files, shard.files[0], shard.files[|shard.files| - 1],
                          evidence.collected, evidence.passed, evidence.skipped))
  }

  /** `row` is a clean result of `shard`. */
  ghost predicate CleanResultOf(row: ShardResult, shard: Shard) {
    && row.index == shard.index && row.identity == shard.files
    && row.collected > 0 && row.passed + row.skipped == row.collected
  }

  /** The persisted rows, one per shard index. */
  type Progress = map<nat, ShardResult>

  predicate Cached(completed: Progress, shard: Shard) {
    shard.index in completed && completed[shard.index].identity == shard.files
  }

  function WithResult(completed: Progress, row: ShardResult): Progress {
    completed[row.index := row]
  }

  /** The shards of `plan` still to run, in plan order. */
  function Pending(plan: seq<Shard>, completed: Progress, parallel: bool): seq<Shard> {
    if plan == [] then [] else
      var last := plan[|plan| - 1];
      Pending(plan[..|plan| - 1], completed, parallel)
      + if !Cached(completed, last) && last.RunsInParallel() == parallel then [last] else []
  }

  // ---- States and steps -------------------------------------------------

  datatype Phase = Down | InParallel | InSequence | Finished

  /** A collected shard and its outcome, waiting to be persisted. */
  datatype Collected = Collected(shard: Shard, outcome: Option<ShardResult>)

  datatype System = System(
    completed: Progress,         // durable
    phase: Phase,
    workers: nat,
    pending: seq<Shard>,         // parallel shards not yet submitted
    active: seq<Shard>,          // submitted shards not yet collected
    batch: seq<Collected>,       // collected shards, persisted one by one from the front
    exclusive: seq<Shard>,       // exclusive shards not yet run
    results: Progress            // what this process knows to be complete
  )

  function Shards(batch: seq<Collected>): (shards: seq<Shard>)
    ensures |shards| == |batch|
  {
    if batch == [] then [] else [batch[0].shard] + Shards(batch[1..])
  }

  function Stopped(completed: Progress): System {
    System(completed, Down, 0, [], [], [], [], map[])
  }

  /** The source keeps a collected shard in its active window until the whole batch is persisted;
      no shard is admitted while a batch is open, so the window is `active` and `batch` together. */
  function Window(s: System): nat {
    |s.active| + |s.batch|
  }

  /** A new process reads the durable rows and orders the parallel shards by its timing history. */
  ghost predicate Boot(plan: seq<Shard>, s: System, s': System) {
    && s.phase == Down
    && exists limit: nat, order: seq<Shard> :: limit >= 1 && s' == Booted(plan, s.completed, limit, order)
         && multiset(order) == multiset(Pending(plan, s.completed, true))
  }

  function Booted(plan: seq<Shard>, completed: Progress, limit: nat, order: seq<Shard>): System {
    System(completed, InParallel, if |order| < limit then |order| else limit, order, [], [],
           Pending(plan, completed, false), CachedResults(plan, completed))
  }

  function CachedResults(plan: seq<Shard>, completed: Progress): Progress {
    map shard | shard in plan && Cached(completed, shard) :: shard.index := completed[shard.index]
  }

  ghost predicate Submit(s: System, s': System) {
    && s.phase == InParallel && s.pending != [] && s.batch == [] && Window(s) < s.workers
    && s' == s.(pending := s.pending[1..], active := s.active + [s.pending[0]])
  }

  /** A full window, or the last of the work, is polled; the finished shards leave the window. */
  ghost predicate Collect(s: System, s': System) {
    exists still: seq<Shard>, batch: seq<Collected> ::
      && s.phase == InParallel && s.batch == [] && (s.pending == [] || Window(s) == s.workers)
      && batch != [] && multiset(s.active) == multiset(still) + multiset(Shards(batch))
      && (forall i, j :: 0 <= i < j < |batch| ==> batch[i].shard.index <= batch[j].shard.index)
      && CleanBatch(batch)
      && s' == s.(active := still, batch := batch)
  }

  function Persisted(s: System, row: ShardResult): System {
    s.(completed := WithResult(s.completed, row), results := s.results[row.index := row])
  }

  /** The front of the batch is made durable, or its failure aborts the run. */
  ghost predicate Persist(s: System, s': System) {
    && s.phase == InParallel && s.batch != []
    && s' == match s.batch[0].outcome
             case Some(row) => Persisted(s, row).(batch := s.batch[1..])
             case None => Stopped(s.completed)
  }

  ghost predicate GoSequential(s: System, s': System) {
    && s.phase == InParallel && s.pending == [] && s.active == [] && s.batch == []
    && s' == s.(phase := InSequence)
  }

  /** The next exclusive shard runs and is made durable. */
  ghost predicate RunExclusive(s: System, s': System) {
    exists row ::
      && s.phase == InSequence && s.exclusive != [] && CleanResultOf(row, s.exclusive[0])
      && s' == Persisted(s, row).(exclusive := s.exclusive[1..])
  }

  ghost predicate Finish(s: System, s': System) {
    s.phase == InSequence && s.exclusive == [] && s' == s.(phase := Finished)
  }

  /** The process can die at any moment; an exclusive shard that fails also ends the run here. */
  ghost predicate Crash(s: System, s': System) {
    s' == Stopped(s.completed)
  }

  ghost predicate Next(plan: seq<Shard>, s: System, s': System) {
    || Boot(plan, s, s') || Submit(s, s') || Collect(s, s') || Persist(s, s') || GoSequential(s, s')
    || RunExclusive(s, s') || Finish(s, s') || Crash(s, s')
  }

  ghost predicate Steps(plan: seq<Shard>, states: seq<System>) {
    forall i :: 0 < i < |states| ==> Next(plan, states[i - 1], states[i])
  }

  /** Any sequence of crashes and restarts, from no durable rows or from those earlier runs left. */
  ghost predicate Behaviour(plan: seq<Shard>, states: seq<System>) {
    && states != [] && states[0] == Stopped(states[0].completed) && DurableOk(plan, states[0].completed)
    && Steps(plan, states)
  }

  // ---- The invariant ----------------------------------------------------

  /** A plan the validator accepts and the planner can have made. */
  ghost predicate Frozen(plan: seq<Shard>) {
    DistinctIndexes(plan) && forall i :: 0 <= i < |plan| ==> plan[i].files != []
  }

  /** Everything this process has still to persist. */
  function Work(s: System): seq<Shard> {
    s.pending + s.active + Shards(s.batch) + s.exclusive
  }

  /** A row recorded for a planned shard is a clean result of it.  Rows that match no planned shard by
      index and identity may say anything; they are passed over. */
  ghost predicate DurableOk(plan: seq<Shard>, completed: Progress) {
    forall shard :: shard in plan && Cached(completed, shard) ==> CleanResultOf(completed[shard.index], shard)
  }

  /** The plan is the disjoint union of the work left and the shards persisted. */
  ghost predicate Partitioned(plan: seq<Shard>, work: seq<Shard>, completed: Progress) {
    forall shard :: multiset(plan)[shard]
                    == multiset(work)[shard] + if shard in plan && Cached(completed, shard) then 1 else 0
  }

  /** Every result in the batch is a clean one of its shard. */
  ghost predicate CleanBatch(batch: seq<Collected>) {
    forall c :: c in batch && c.outcome.Some? ==> CleanResultOf(c.outcome.value, c.shard)
  }

  ghost predicate Inv(plan: seq<Shard>, s: System) {
    && DurableOk(plan, s.completed)
    && CleanBatch(s.batch)
    && Window(s) <= s.workers
    && if s.phase == Down then s == Stopped(s.completed)
       else
         && Partitioned(plan, Work(s), s.completed)
         && s.results == CachedResults(plan, s.completed)
         && (s.phase != InParallel ==> s.pending == [] && s.active == [] && s.batch == [])
         && (s.phase == Finished ==> s.exclusive == [])
  }

  // ---- Counting shards --------------------------------------------------

  lemma CountPlan(plan: seq<Shard>, shard: Shard)
    requires DistinctIndexes(plan)
    ensures multiset(plan)[shard] == if shard in plan then 1 else 0
    decreases |plan|
  {
    if plan != [] {
      var n := |plan| - 1;
      assert plan == plan[..n] + [plan[n]];
      CountPlan(plan[..n], shard);
      if shard in plan[..n] {
        var i :| 0 <= i < n && plan[..n][i] == shard;
        assert plan[i].index != plan[n].index;
      }
    }
  }

  lemma {:induction false} CountPending(plan: seq<Shard>, completed: Progress, parallel: bool, shard: Shard)
    ensures multiset(Pending(plan, completed, parallel))[shard]
            == if !Cached(completed, shard) && shard.RunsInParallel() == parallel then multiset(plan)[shard] else 0
    decreases |plan|
  {
    if plan != [] {
      var n := |plan| - 1;
      assert plan == plan[..n] + [plan[n]];
      CountPending(plan[..n], completed, parallel, shard);
    }
  }

  /** Booting splits the plan into what is persisted and what is left. */
  lemma {:induction false} BootPartitions(plan: seq<Shard>, completed: Progress, order: seq<Shard>)
    requires DistinctIndexes(plan) && multiset(order) == multiset(Pending(plan, completed, true))
    ensures Partitioned(plan, order + Pending(plan, completed, false), completed)
  {
    forall shard
      ensures multiset(plan)[shard]
              == multiset(order + Pending(plan, completed, false))[shard]
                 + if shard in plan && Cached(completed, shard) then 1 else 0
    {
      CountPlan(plan, shard);
      CountPending(plan, completed, true, shard);
      CountPending(plan, completed, false, shard);
    }
  }

  lemma {:induction false} IndexNamesShard(plan: seq<Shard>, a: Shard, b: Shard)
    requires DistinctIndexes(plan) && a in plan && b in plan && a.index == b.index
    ensures a == b
  {
    var p :| 0 <= p < |plan| && plan[p] == a;
    var q :| 0 <= q < |plan| && plan[q] == b;
  }

  lemma {:induction false} DurableGrows(plan: seq<Shard>, completed: Progress, shard: Shard, row: ShardResult)
    requires DistinctIndexes(plan) && DurableOk(plan, completed) && shard in plan && CleanResultOf(row, shard)
    ensures DurableOk(plan, WithResult(completed, row))
  {
    forall other | other in plan && Cached(WithResult(completed, row), other)
      ensures CleanResultOf(WithResult(completed, row)[other.index], other)
    {
      if other.index == shard.index { IndexNamesShard(plan, other, shard); }
    }
  }

  /** Recording a result adds it to what the process knows. */
  lemma {:induction false} ResultsGrow(plan: seq<Shard>, completed: Progress, shard: Shard, row: ShardResult)
    requires DistinctIndexes(plan) && shard in plan && CleanResultOf(row, shard)
    ensures CachedResults(plan, WithResult(completed, row)) == CachedResults(plan, completed)[row.index := row]
  {
    var after := WithResult(completed, row);
    forall other | other in plan
      ensures Cached(after, other) <==> other == shard || Cached(completed, other)
      ensures other != shard ==> other.index != row.index
    {
      OthersStay(plan, completed, shard, row, other);
      if other.index == shard.index { IndexNamesShard(plan, other, shard); }
    }
    assert Cached(after, shard);
    assert CachedResults(plan, after).Keys == CachedResults(plan, completed).Keys + {row.index};
  }

  /** Work that is left has no durable result. */
  lemma WorkIsNotDurable(plan: seq<Shard>, work: seq<Shard>, completed: Progress, shard: Shard)
    requires DistinctIndexes(plan) && Partitioned(plan, work, completed)
    requires multiset(work)[shard] >= 1
    ensures shard in plan && !Cached(completed, shard) && multiset(work)[shard] == 1
  {
    CountPlan(plan, shard);
  }

  lemma {:induction false} OthersStay(
    plan: seq<Shard>, completed: Progress, shard: Shard, row: ShardResult, other: Shard)
    requires DistinctIndexes(plan) && shard in plan && other in plan && CleanResultOf(row, shard)
    ensures Cached(WithResult(completed, row), other) <==> other == shard || Cached(completed, other)
  {
    if other.index == shard.index { IndexNamesShard(plan, other, shard); }
  }

  lemma {:induction false} TakenOut(
    plan: seq<Shard>, work: seq<Shard>, rest: seq<Shard>, completed: Progress, shard: Shard, row: ShardResult)
    requires DistinctIndexes(plan) && Partitioned(plan, work, completed) && shard in plan && !Cached(completed, shard)
    requires multiset(work) == multiset(rest) + multiset{shard} && CleanResultOf(row, shard)
    ensures Partitioned(plan, rest, WithResult(completed, row))
  {
    var after := WithResult(completed, row);
    forall other
      ensures multiset(plan)[other] == multiset(rest)[other] + if other in plan && Cached(after, other) then 1 else 0
    {
      assert multiset(work)[other] == multiset(rest)[other] + if other == shard then 1 else 0;
      if other in plan { OthersStay(plan, completed, shard, row, other); }
    }
  }

  /** Persisting a shard that is part of the work takes it out of the work. */
  lemma {:induction false} PersistPartitions(
    plan: seq<Shard>, work: seq<Shard>, rest: seq<Shard>, completed: Progress, shard: Shard, row: ShardResult)
    requires DistinctIndexes(plan) && DurableOk(plan, completed) && Partitioned(plan, work, completed)
    requires multiset(work) == multiset(rest) + multiset{shard} && CleanResultOf(row, shard)
    ensures shard in plan && !Cached(completed, shard)
    ensures Partitioned(plan, rest, WithResult(completed, row))
    ensures DurableOk(plan, WithResult(completed, row))
    ensures CachedResults(plan, WithResult(completed, row)) == CachedResults(plan, completed)[row.index := row]
    ensures Keeps(plan, completed, WithResult(completed, row))
  {
    WorkIsNotDurable(plan, work, completed, shard);
    TakenOut(plan, work, rest, completed, shard, row);
    DurableGrows(plan, completed, shard, row);
    ResultsGrow(plan, completed, shard, row);
    KeptByResult(plan, completed, shard, row);
  }

  lemma {:induction false} SamePartition(plan: seq<Shard>, work: seq<Shard>, same: seq<Shard>, completed: Progress)
    requires Partitioned(plan, work, completed) && multiset(work) == multiset(same)
    ensures Partitioned(plan, same, completed)
  {
    forall shard
      ensures multiset(plan)[shard]
              == multiset(same)[shard] + if shard in plan && Cached(completed, shard) then 1 else 0
    {
      assert multiset(work)[shard] == multiset(same)[shard];
    }
  }

  // ---- What stays durable -----------------------------------------------

  /** Row `k` was no result of the planned shard with its index, and has become a clean one. */
  ghost predicate Replaced(plan: seq<Shard>, earlier: Progress, later: Progress, k: nat) {
    k in later
    && exists shard :: shard in plan && shard.index == k && !Cached(earlier, shard) && CleanResultOf(later[k], shard)
  }

  /** `later` has every row of `earlier`, unchanged unless it was a stale row of a planned index. */
  ghost predicate Keeps(plan: seq<Shard>, earlier: Progress, later: Progress) {
    forall k :: k in earlier ==> k in later && (later[k] == earlier[k] || Replaced(plan, earlier, later, k))
  }

  /** A recorded result of a planned shard is not stale, so it is kept as it is. */
  lemma {:induction false} CachedIsKept(plan: seq<Shard>, earlier: Progress, later: Progress, shard: Shard)
    requires DistinctIndexes(plan) && Keeps(plan, earlier, later) && shard in plan && Cached(earlier, shard)
    ensures Cached(later, shard) && later[shard.index] == earlier[shard.index]
  {
    var k := shard.index;
    if Replaced(plan, earlier, later, k) {
      var other :|
        other in plan && other.index == k && !Cached(earlier, other) && CleanResultOf(later[k], other);
      IndexNamesShard(plan, other, shard);
    }
  }

  lemma {:induction false} KeptByResult(plan: seq<Shard>, completed: Progress, shard: Shard, row: ShardResult)
    requires shard in plan && !Cached(completed, shard) && CleanResultOf(row, shard)
    ensures Keeps(plan, completed, WithResult(completed, row))
  {
    var after := WithResult(completed, row);
    forall k | k in completed ensures k in after && (after[k] == completed[k] || Replaced(plan, completed, after, k)) {
      if k == row.index { assert CleanResultOf(after[k], shard); }
    }
  }

  lemma {:induction false} KeepsTwice(plan: seq<Shard>, a: Progress, b: Progress, c: Progress)
    requires DistinctIndexes(plan) && Keeps(plan, a, b) && Keeps(plan, b, c)
    ensures Keeps(plan, a, c)
  {
    forall k | k in a ensures k in c && (c[k] == a[k] || Replaced(plan, a, c, k)) {
      if c[k] == b[k] {
        if b[k] != a[k] {
          var shard :| shard in plan && shard.index == k && !Cached(a, shard) && CleanResultOf(b[k], shard);
          assert CleanResultOf(c[k], shard);
        }
      } else {
        var shard :| shard in plan && shard.index == k && !Cached(b, shard) && CleanResultOf(c[k], shard);
        if Cached(a, shard) { CachedIsKept(plan, a, b, shard); }
      }
    }
  }

  // ---- Every step keeps the invariant -----------------------------------

  lemma {:induction false} BootKeeps(plan: seq<Shard>, s: System, limit: nat, order: seq<Shard>)
    requires DistinctIndexes(plan) && DurableOk(plan, s.completed)
    requires multiset(order) == multiset(Pending(plan, s.completed, true))
    ensures Inv(plan, Booted(plan, s.completed, limit, order))
  {
    BootPartitions(plan, s.completed, order);
    WorkAtBoot(order, Pending(plan, s.completed, false));
  }

  lemma WorkAtBoot(parallel: seq<Shard>, exclusive: seq<Shard>)
    ensures parallel + [] + Shards([]) + exclusive == parallel + exclusive
  {
  }

  lemma {:induction false} SubmitKeeps(plan: seq<Shard>, s: System, s': System)
    requires Inv(plan, s) && Submit(s, s')
    ensures Inv(plan, s')
  {
    assert s.pending == [s.pending[0]] + s.pending[1..];
    SamePartition(plan, Work(s), Work(s'), s.completed);
  }

  lemma CollectKeeps(plan: seq<Shard>, s: System, s': System)
    requires Inv(plan, s) && Collect(s, s')
    ensures Inv(plan, s')
  {
    assert multiset(s.active) == multiset(s'.active) + multiset(Shards(s'.batch));
    assert |multiset(s.active)| == |s'.active| + |s'.batch|;
    SamePartition(plan, Work(s), Work(s'), s.completed);
  }

  lemma {:induction false} WorkWithoutFront(before: seq<Shard>, batch: seq<Collected>, after: seq<Shard>)
    requires batch != []
    ensures multiset(before + Shards(batch) + after)
            == multiset(before + Shards(batch[1..]) + after) + multiset{batch[0].shard}
  {
    assert Shards(batch) == [batch[0].shard] + Shards(batch[1..]);
  }

  lemma {:induction false} PersistKeeps(plan: seq<Shard>, s: System, row: ShardResult)
    requires DistinctIndexes(plan) && Inv(plan, s)
    requires s.phase == InParallel && s.batch != [] && s.batch[0].outcome == Some(row)
    ensures Inv(plan, Persisted(s, row).(batch := s.batch[1..]))
    ensures Keeps(plan, s.completed, WithResult(s.completed, row))
  {
    WorkWithoutFront(s.pending + s.active, s.batch, s.exclusive);
    var after := Persisted(s, row).(batch := s.batch[1..]);
    PersistPartitions(plan, Work(s), Work(after), s.completed, s.batch[0].shard, row);
  }

  lemma {:induction false} FrontTaken(before: seq<Shard>, exclusive: seq<Shard>)
    requires exclusive != []
    ensures multiset(before + exclusive) == multiset(before + exclusive[1..]) + multiset{exclusive[0]}
  {
    assert exclusive == [exclusive[0]] + exclusive[1..];
  }

  lemma {:induction false} ExclusiveKeeps(plan: seq<Shard>, s: System, row: ShardResult)
    requires DistinctIndexes(plan) && Inv(plan, s)
    requires s.phase == InSequence && s.exclusive != [] && CleanResultOf(row, s.exclusive[0])
    ensures Inv(plan, Persisted(s, row).(exclusive := s.exclusive[1..]))
    ensures Keeps(plan, s.completed, WithResult(s.completed, row))
  {
    FrontTaken(s.pending + s.active + Shards(s.batch), s.exclusive);
    var after := Persisted(s, row).(exclusive := s.exclusive[1..]);
    PersistPartitions(plan, Work(s), Work(after), s.completed, s.exclusive[0], row);
  }

  lemma {:induction false} BootStepKeeps(plan: seq<Shard>, s: System, s': System)
    requires DistinctIndexes(plan) && Inv(plan, s) && Boot(plan, s, s')
    ensures Inv(plan, s') && Keeps(plan, s.completed, s'.completed)
  {
    var limit: nat, order: seq<Shard> :| limit >= 1 && s' == Booted(plan, s.completed, limit, order)
      && multiset(order) == multiset(Pending(plan, s.completed, true));
    BootKeeps(plan, s, limit, order);
  }

  lemma {:induction false} PersistStepKeeps(plan: seq<Shard>, s: System, s': System)
    requires DistinctIndexes(plan) && Inv(plan, s) && Persist(s, s')
    ensures Inv(plan, s') && Keeps(plan, s.completed, s'.completed)
  {
    if s.batch[0].outcome.Some? { PersistKeeps(plan, s, s.batch[0].outcome.value); }
  }

  lemma ExclusiveStepKeeps(plan: seq<Shard>, s: System, s': System)
    requires DistinctIndexes(plan) && Inv(plan, s) && RunExclusive(s, s')
    ensures Inv(plan, s') && Keeps(plan, s.completed, s'.completed)
  {
    var row :| CleanResultOf(row, s.exclusive[0]) && s' == Persisted(s, row).(exclusive := s.exclusive[1..]);
    ExclusiveKeeps(plan, s, row);
  }

  lemma {:induction false} PhaseStepKeeps(plan: seq<Shard>, s: System, s': System)
    requires Inv(plan, s) && (GoSequential(s, s') || Finish(s, s') || Crash(s, s'))
    ensures Inv(plan, s') && Keeps(plan, s.completed, s'.completed)
  {
    if GoSequential(s, s') || Finish(s, s') { assert Work(s') == Work(s); }
  }

  /** Every step keeps the invariant, and every durable row. */
  lemma {:induction false} NextKeeps(plan: seq<Shard>, s: System, s': System)
    requires Frozen(plan) && Inv(plan, s) && Next(plan, s, s')
    ensures Inv(plan, s') && Keeps(plan, s.completed, s'.completed)
  {
    if Boot(plan, s, s') {
      BootStepKeeps(plan, s, s');
    } else if Submit(s, s') {
      SubmitKeeps(plan, s, s');
    } else if Collect(s, s') {
      CollectKeeps(plan, s, s');
    } else if Persist(s, s') {
      PersistStepKeeps(plan, s, s');
    } else if RunExclusive(s, s') {
      ExclusiveStepKeeps(plan, s, s');
    } else {
      PhaseStepKeeps(plan, s, s');
    }
  }

  lemma {:induction false} NextKeepsInv(plan: seq<Shard>, s: System, s': System)
    requires Frozen(plan) && Inv(plan, s) && Next(plan, s, s')
    ensures Inv(plan, s')
  {
    NextKeeps(plan, s, s');
  }

  lemma StepAt(plan: seq<Shard>, states: seq<System>, k: nat)
    requires Steps(plan, states) && 0 < k < |states|
    ensures Next(plan, states[k - 1], states[k])
  {
  }

  lemma {:induction false} Inductive(p: System -> bool, states: seq<System>, k: nat)
    requires k < |states| && p(states[0])
    requires forall i :: 0 < i < |states| && p(states[i - 1]) ==> p(states[i])
    ensures p(states[k])
    decreases k
  {
    if k > 0 { Inductive(p, states, k - 1); }
  }

  lemma {:induction false} StateKeepsInv(plan: seq<Shard>, states: seq<System>, k: nat)
    requires Frozen(plan) && Steps(plan, states) && k < |states| && Inv(plan, states[0])
    ensures Inv(plan, states[k])
  {
    forall i | 0 < i < |states| && Inv(plan, states[i - 1]) ensures Inv(plan, states[i]) {
      StepAt(plan, states, i);
      NextKeepsInv(plan, states[i - 1], states[i]);
    }
    Inductive((s: System) => Inv(plan, s), states, k);
  }

  /** Two successive states keep the durable rows. */
  lemma {:induction false} StateKeepsRows(plan: seq<Shard>, states: seq<System>, k: nat)
    requires Frozen(plan) && Behaviour(plan, states) && 0 < k < |states|
    ensures Keeps(plan, states[k - 1].completed, states[k].completed)
  {
    StateKeepsInv(plan, states, k - 1);
    StepAt(plan, states, k);
    NextKeeps(plan, states[k - 1], states[k]);
  }

  /** Over any sequence of crashes and restarts: the work of the running process and the persisted
      shards are disjoint and together are the plan, every result recorded for a shard is a clean one,
      and the window never exceeds the workers. */
  lemma {:induction false} BehaviourKeepsInv(plan: seq<Shard>, states: seq<System>)
    requires Frozen(plan) && Behaviour(plan, states)
    ensures forall i :: 0 <= i < |states| ==> Inv(plan, states[i])
  {
    forall i | 0 <= i < |states| ensures Inv(plan, states[i]) {
      StateKeepsInv(plan, states, i);
    }
  }

  // ---- What follows -----------------------------------------------------

  /** `shard` starts running in this step. */
  ghost predicate Starts(s: System, s': System, shard: Shard) {
    || (Submit(s, s') && shard == s.pending[0])
    || (RunExclusive(s, s') && shard == s.exclusive[0])
  }

  lemma {:induction false} KeepsAll(plan: seq<Shard>, states: seq<System>, i: nat, j: nat)
    requires Frozen(plan) && Behaviour(plan, states) && i <= j < |states|
    ensures Keeps(plan, states[i].completed, states[j].completed)
  {
    var first, later := states[i].completed, states[i..];
    forall k | 0 < k < |later| && Keeps(plan, first, later[k - 1].completed)
      ensures Keeps(plan, first, later[k].completed)
    {
      StateKeepsRows(plan, states, i + k);
      KeepsTwice(plan, first, later[k - 1].completed, later[k].completed);
    }
    Inductive((s: System) => Keeps(plan, first, s.completed), later, j - i);
  }

  /** Durable rows are never lost, and results of planned shards never changed, not even by a crash. */
  lemma {:induction false} ProgressIsDurable(plan: seq<Shard>, states: seq<System>, i: nat, j: nat)
    requires Frozen(plan) && Behaviour(plan, states) && i <= j < |states|
    ensures Keeps(plan, states[i].completed, states[j].completed)
    ensures forall shard :: shard in plan && Cached(states[i].completed, shard) ==>
              && Cached(states[j].completed, shard)
              && states[j].completed[shard.index] == states[i].completed[shard.index]
  {
    KeepsAll(plan, states, i, j);
    forall shard | shard in plan && Cached(states[i].completed, shard)
      ensures Cached(states[j].completed, shard)
      ensures states[j].completed[shard.index] == states[i].completed[shard.index]
    {
      CachedIsKept(plan, states[i].completed, states[j].completed, shard);
    }
  }

  /** A shard that has been persisted is never run again, in this process or any later one. */
  lemma {:induction false} PersistedNeverRuns(plan: seq<Shard>, states: seq<System>, i: nat, j: nat, shard: Shard)
    requires Frozen(plan) && Behaviour(plan, states) && i <= j && j + 1 < |states|
    requires shard in plan && Cached(states[i].completed, shard)
    ensures !Starts(states[j], states[j + 1], shard)
  {
    ProgressIsDurable(plan, states, i, j);
    StateKeepsInv(plan, states, j);
    PersistedIsNotWork(plan, states[j], shard);
    NotWaiting(states[j], states[j + 1], shard);
  }

  lemma NotWaiting(s: System, s': System, shard: Shard)
    requires shard !in s.pending && shard !in s.exclusive
    ensures !Starts(s, s', shard)
  {
  }

  lemma PersistedIsNotWork(plan: seq<Shard>, s: System, shard: Shard)
    requires Frozen(plan) && Inv(plan, s) && shard in plan && Cached(s.completed, shard)
    ensures shard !in s.pending && shard !in s.exclusive
  {
    if s.phase != Down {
      CountPlan(plan, shard);
      assert multiset(s.pending)[shard] == 0 && multiset(s.exclusive)[shard] == 0;
    }
  }

  /** A run that finishes has exactly one clean result for every planned shard, and no other. */
  lemma {:induction false} FinishedIsComplete(plan: seq<Shard>, s: System)
    requires Frozen(plan) && Inv(plan, s) && s.phase == Finished
    ensures forall i :: 0 <= i < |plan| ==>
              plan[i].index in s.results && CleanResultOf(s.results[plan[i].index], plan[i])
    ensures forall k :: k in s.results ==> exists i :: 0 <= i < |plan| && plan[i].index == k
    ensures forall i :: 0 <= i < |plan| ==> Cached(s.completed, plan[i])
  {
    forall i | 0 <= i < |plan|
      ensures plan[i].index in s.results && CleanResultOf(s.results[plan[i].index], plan[i])
      ensures Cached(s.completed, plan[i])
    {
      CountPlan(plan, plan[i]);
      assert Work(s) == [];
      assert plan[i] in plan && Cached(s.completed, plan[i]);
    }
  }
}

/**
 The executor's own loops, proved to take only steps of the state machine, and
 the final accounting.

 Polling is driven by a finite list of answers; running out of them is a crash.
 */
module ReleaseExecutor {
  import opened Outcomes
  import opened Ordering
  import opened ReleaseTiming
  import opened ReleasePlan
  import opened ReleaseRun
  import opened ReleaseSchedule
  import opened ReleaseWindow

  // ---- Runs -------------------------------------------------------------

  ghost predicate Run(plan: seq<Shard>, trace: seq<System>, first: System, last: System) {
    && trace != [] && trace[0] == first && trace[|trace| - 1] == last
    && Steps(plan, trace)
  }

  lemma Extend(plan: seq<Shard>, trace: seq<System>, first: System, last: System, next: System)
    requires Run(plan, trace, first, last) && Next(plan, last, next)
    ensures Run(plan, trace + [next], first, next)
  {
  }

  lemma {:induction false} Join(
    plan: seq<Shard>, a: seq<System>, b: seq<System>, first: System, middle: System, last: System)
    requires Run(plan, a, first, middle) && Run(plan, b, middle, last)
    ensures Run(plan, a + b[1..], first, last)
  {
    var all := a + b[1..];
    forall i | 0 < i < |all| ensures Next(plan, all[i - 1], all[i]) {
      if i >= |a| {
        assert all[i] == b[i - |a| + 1];
        assert all[i - 1] == b[i - |a|];
      }
    }
  }

  // ---- Partitioning -----------------------------------------------------

  /** Splits the plan into what is already persisted and what each phase still has to run. */
  method PartitionPendingPlans(plan: seq<Shard>, completed: Progress)
    returns (results: Progress, parallel: seq<Shard>, exclusive: seq<Shard>)
    ensures results == CachedResults(plan, completed)
    ensures parallel == Pending(plan, completed, true) && exclusive == Pending(plan, completed, false)
  {
    results, parallel, exclusive := map[], [], [];
    ghost var done: seq<Shard> := [];
    for i := 0 to |plan|
      invariant done == plan[..i] && results == CachedResults(done, completed)
      invariant parallel == Pending(done, completed, true) && exclusive == Pending(done, completed, false)
    {
      var shard := plan[i];
      OneMoreShard(done, shard, completed);
      if Cached(completed, shard) {
        results := results[shard.index := completed[shard.index]];
      } else if shard.RunsInParallel() {
        parallel := parallel + [shard];
      } else {
        exclusive := exclusive + [shard];
      }
      done := done + [shard];
    }
    assert done == plan;
  }

  lemma {:induction false} OneMoreShard(plan: seq<Shard>, shard: Shard, completed: Progress)
    ensures CachedResults(plan + [shard], completed)
            == if Cached(completed, shard) then CachedResults(plan, completed)[shard.index := completed[shard.index]]
               else CachedResults(plan, completed)
    ensures forall parallel :: Pending(plan + [shard], completed, parallel)
              == Pending(plan, completed, parallel)
                 + if !Cached(completed, shard) && shard.RunsInParallel() == parallel then [shard] else []
  {
    assert (plan + [shard])[..|plan|] == plan;
    assert forall s :: s in plan + [shard] <==> s in plan || s == shard;
  }

  // ---- The rolling window -----------------------------------------------

  /** Tops the window up from the pending shards. */
  method FillWindow(plan: seq<Shard>, start: System, ghost trace0: seq<System>, ghost first: System)
    returns (s: System, ghost trace: seq<System>)
    requires start.phase == InParallel && start.batch == [] && Window(start) <= start.workers
    requires Run(plan, trace0, first, start)
    ensures Run(plan, trace, first, s)
    ensures s == Filled(start) && Window(s) <= s.workers
    ensures s.pending == [] || Window(s) == s.workers
  {
    s, trace := start, trace0;
    while s.pending != [] && |s.active| < s.workers
      invariant Run(plan, trace, first, s)
      invariant s == start.(pending := s.pending, active := s.active) && Window(s) <= s.workers
      invariant Filled(s) == Filled(start)
      decreases |s.pending|
    {
      var next := s.(pending := s.pending[1..], active := s.active + [s.pending[0]]);
      assert Submit(s, next);
      Extend(plan, trace, first, s, next);
      trace := trace + [next];
      s := next;
    }
  }

  function Filled(s: System): System {
    var (pending, active) := Fill(s.pending, s.active, s.workers);
    s.(pending := pending, active := active)
  }

  /** The state once a batch is recorded: the rows up to the first failure, which stops the process. */
  ghost predicate BatchRecorded(start: System, s: System) {
    && s.completed == Record(start.batch, start.completed)
    && (s.phase == Down <==> AnyFailed(start.batch))
    && (s.phase != Down ==> s == start.(batch := [], completed := s.completed, results := s.results))
  }

  /** Makes a batch durable, front to back; a failed shard ends the run. */
  method PersistBatch(plan: seq<Shard>, start: System, ghost trace0: seq<System>, ghost first: System)
    returns (s: System, ghost trace: seq<System>)
    requires start.phase == InParallel && Run(plan, trace0, first, start)
    ensures Run(plan, trace, first, s) && BatchRecorded(start, s)
  {
    s, trace := start, trace0;
    while s.batch != []
      invariant Run(plan, trace, first, s)
      invariant s == start.(batch := s.batch, completed := s.completed, results := s.results)
      invariant Record(s.batch, s.completed) == Record(start.batch, start.completed)
      invariant AnyFailed(s.batch) <==> AnyFailed(start.batch)
      decreases |s.batch|
    {
      FirstFails(s.batch);
      var next := match s.batch[0].outcome
                  case Some(row) => Persisted(s, row).(batch := s.batch[1..])
                  case None => Stopped(s.completed);
      assert Persist(s, next);
      Extend(plan, trace, first, s, next);
      trace := trace + [next];
      s := next;
      if s.phase == Down {
        return;
      }
    }
  }

  lemma {:induction false} FirstFails(batch: seq<Collected>)
    requires batch != []
    ensures AnyFailed(batch) <==> batch[0].outcome.None? || AnyFailed(batch[1..])
  {
    assert batch == [batch[0]] + batch[1..];
    if batch[0].outcome.None? { assert batch[0] in batch; }
  }

  /** One poll of a full window: what finished leaves it and is made durable. */
  method PollWindow(plan: seq<Shard>, start: System, poll: Poll, ghost trace0: seq<System>, ghost first: System)
    returns (s: System, ghost trace: seq<System>)
    requires Frozen(plan) && Inv(plan, start) && start.phase == InParallel && start.batch == []
    requires start.pending == [] || Window(start) == start.workers
    requires Run(plan, trace0, first, start)
    ensures Run(plan, trace, first, s)
    ensures Polled(start, poll, s)
  {
    ActiveHasFiles(plan, start);
    ActiveDistinct(plan, start);
    var still, batch := TakeFinished(start.active, poll);
    RecordSaves(start.active, poll, still, batch, start.completed);
    FailureIsUnclean(start.active, poll, still, batch);
    if batch == [] {
      UnansweredMembers(start.active, poll);
      return start, trace0;
    }
    TakenIsClean(start.active, poll, still, batch);
    var open := start.(active := still, batch := batch);
    CollectStep(start, poll, still, batch);
    Extend(plan, trace0, first, start, open);
    s, trace := PersistBatch(plan, open, trace0 + [open], first);
  }

  /** A poll stops the process exactly when it brings an unclean answer; otherwise the answered shards
      have left the window.  Either way exactly the saved rows have become durable. */
  ghost predicate Polled(start: System, poll: Poll, s: System) {
    && Saves(start.active, poll, start.completed, s.completed)
    && if AllClean(start.active, poll)
       then s == start.(active := Unanswered(start.active, poll), completed := s.completed, results := s.results)
       else s.phase == Down
  }

  /** From state `s`, with the polls `left`, the phase comes to what it comes to from `start`. */
  ghost predicate SameOutcome(start: System, polls: seq<Poll>, s: System, left: seq<Poll>) {
    && s.workers == start.workers && s.exclusive == start.exclusive
    && (Drains(start.pending, start.active, start.workers, polls)
        <==> Drains(s.pending, s.active, s.workers, left))
    && forall after :: PhaseSaves(s.pending, s.active, s.workers, left, s.completed, after) ==>
         PhaseSaves(start.pending, start.active, start.workers, polls, start.completed, after)
  }

  lemma {:induction false} NextPoll(
    start: System, polls: seq<Poll>, s: System, left: seq<Poll>, filled: System, next: System)
    requires SameOutcome(start, polls, s, left) && left != []
    requires s.pending != [] || s.active != []
    requires filled == Filled(s) && filled.phase == InParallel && Polled(filled, left[0], next)
    ensures next.phase != Down ==> SameOutcome(start, polls, next, left[1..])
    ensures next.phase == Down ==> PhaseEnds(start, polls, next)
  {
  }

  /** The phase was stopped by an unclean answer or for want of answers, leaving exactly these rows. */
  ghost predicate PhaseEnds(start: System, polls: seq<Poll>, s: System) {
    && !Drains(start.pending, start.active, start.workers, polls)
    && PhaseSaves(start.pending, start.active, start.workers, polls, start.completed, s.completed)
  }

  /** What the rolling window keeps from turn to turn. */
  ghost predicate Rolling(
    plan: seq<Shard>, trace: seq<System>, start: System, polls: seq<Poll>, s: System, left: seq<Poll>)
  {
    && Frozen(plan) && Inv(plan, start) && Inv(plan, s)
    && s.phase == InParallel && s.batch == []
    && Run(plan, trace, start, s) && SameOutcome(start, polls, s, left)
  }

  /** Stops the process where it stands. */
  method Stop(plan: seq<Shard>, s: System, ghost trace0: seq<System>, ghost start: System)
    returns (dead: System, ghost trace: seq<System>)
    requires Run(plan, trace0, start, s)
    ensures dead == Stopped(s.completed) && Run(plan, trace, start, dead)
  {
    dead := Stopped(s.completed);
    assert Crash(s, dead);
    Extend(plan, trace0, start, s, dead);
    trace := trace0 + [dead];
  }

  /** One turn of the rolling window: fill it, poll it, persist what finished. */
  method TurnWindow(
    plan: seq<Shard>, s0: System, poll: Poll,
    ghost trace0: seq<System>, ghost start: System, ghost polls: seq<Poll>, ghost left: seq<Poll>)
    returns (s: System, ghost trace: seq<System>)
    requires Rolling(plan, trace0, start, polls, s0, left)
    requires (s0.pending != [] || s0.active != []) && left != [] && poll == left[0]
    ensures s.phase != Down ==> Rolling(plan, trace, start, polls, s, left[1..])
    ensures s.phase == Down ==> Run(plan, trace, start, s) && PhaseEnds(start, polls, s)
  {
    s, trace := FillWindow(plan, s0, trace0, start);
    RunKeeps(plan, trace, start, s);
    ghost var filled := s;
    s, trace := PollWindow(plan, s, poll, trace, start);
    RunKeeps(plan, trace, start, s);
    NextPoll(start, polls, s0, left, filled, s);
  }

  /** The rolling window, until no work is left or the answers stop it. */
  method RunParallelPlans(plan: seq<Shard>, start: System, polls: seq<Poll>)
    returns (s: System, ghost trace: seq<System>)
    requires Frozen(plan) && Inv(plan, start) && start.phase == InParallel && start.batch == []
    ensures Run(plan, trace, start, s)
    ensures s.phase == if Drains(start.pending, start.active, start.workers, polls) then InSequence else Down
    ensures PhaseSaves(start.pending, start.active, start.workers, polls, start.completed, s.completed)
    ensures s.phase == InSequence ==> s.exclusive == start.exclusive
  {
    s, trace := start, [start];
    var t := 0;
    ghost var left := polls;
    while s.pending != [] || s.active != []
      invariant 0 <= t <= |polls| && left == polls[t..]
      invariant Rolling(plan, trace, start, polls, s, left)
      decreases |polls| - t
    {
      if t == |polls| {
        s, trace := FillWindow(plan, s, trace, start);
        s, trace := Stop(plan, s, trace, start);
        return;
      }
      s, trace := TurnWindow(plan, s, polls[t], trace, start, polls, left);
      t, left := t + 1, left[1..];
      if s.phase == Down {
        return;
      }
    }
    var next := s.(phase := InSequence);
    assert GoSequential(s, next);
    Extend(plan, trace, start, s, next);
    s, trace := next, trace + [next];
  }

  lemma {:induction false} CollectStep(s: System, poll: Poll, still: seq<Shard>, batch: seq<Collected>)
    requires s.phase == InParallel && s.batch == [] && (s.pending == [] || Window(s) == s.workers)
    requires batch != [] && Taken(s.active, poll, still, batch) && Sorted(batch, ByIndex) && CleanBatch(batch)
    ensures Collect(s, s.(active := still, batch := batch))
  {
    forall i, j | 0 <= i < j < |batch| ensures batch[i].shard.index <= batch[j].shard.index {
      assert ByIndex(batch[i], batch[j]);
    }
  }

  /** No two shards of the window have the same index. */
  lemma {:induction false} ActiveDistinct(plan: seq<Shard>, s: System)
    requires Frozen(plan) && Inv(plan, s) && s.phase == InParallel
    ensures DistinctIndexes(s.active)
  {
    forall i, j | 0 <= i < j < |s.active| ensures s.active[i].index != s.active[j].index {
      var a, b := s.active[i], s.active[j];
      InPlan(plan, s, a);
      InPlan(plan, s, b);
      if a.index == b.index {
        IndexNamesShard(plan, a, b);
        CountTwice(s.active, i, j);
        CountPlan(plan, a);
        assert false;
      }
    }
  }

  lemma {:induction false} InPlan(plan: seq<Shard>, s: System, shard: Shard)
    requires Frozen(plan) && Inv(plan, s) && s.phase == InParallel && shard in s.active
    ensures shard in plan && multiset(s.active)[shard] <= multiset(plan)[shard]
  {
    assert shard in multiset(s.active);
    assert multiset(Work(s))[shard] >= multiset(s.active)[shard];
    assert shard in multiset(plan);
  }

  lemma RunKeeps(plan: seq<Shard>, trace: seq<System>, first: System, last: System)
    requires Frozen(plan) && Inv(plan, first) && Run(plan, trace, first, last)
    ensures Inv(plan, last)
  {
    StateKeepsInv(plan, trace, |trace| - 1);
  }

  lemma ActiveHasFiles(plan: seq<Shard>, s: System)
    requires Frozen(plan) && Inv(plan, s) && s.phase == InParallel
    ensures AllHaveFiles(s.active)
  {
    forall k | 0 <= k < |s.active| ensures s.active[k].files != [] {
      var shard := s.active[k];
      assert shard in multiset(s.active);
      assert multiset(Work(s))[shard] >= 1;
      assert multiset(plan)[shard] >= 1;
      var i :| 0 <= i < |plan| && plan[i] == shard;
    }
  }

  // ---- The exclusive shards ---------------------------------------------

  /** Makes the next exclusive shard's result durable. */
  method RecordExclusive(
    plan: seq<Shard>, s0: System, row: ShardResult, ghost trace0: seq<System>, ghost start: System)
    returns (s: System, ghost trace: seq<System>)
    requires Frozen(plan) && Inv(plan, s0) && s0.phase == InSequence && Run(plan, trace0, start, s0)
    requires s0.exclusive != [] && CleanResultOf(row, s0.exclusive[0])
    ensures s == Persisted(s0, row).(exclusive := s0.exclusive[1..])
    ensures Inv(plan, s) && Run(plan, trace, start, s)
  {
    s := Persisted(s0, row).(exclusive := s0.exclusive[1..]);
    assert RunExclusive(s0, s);
    Extend(plan, trace0, start, s0, s);
    ExclusiveKeeps(plan, s0, row);
    trace := trace0 + [s];
  }

  /** Runs the exclusive shards one after the other, making each durable before the next starts, until
      one has no clean report. */
  method RunExclusivePlans(plan: seq<Shard>, start: System, reports: seq<Evidence>)
    returns (s: System, ghost trace: seq<System>)
    requires Frozen(plan) && Inv(plan, start) && start.phase == InSequence
    ensures Run(plan, trace, start, s)
    ensures s.phase == if AllReported(start.exclusive, reports) then Finished else Down
    ensures s.completed == SaveEach(start.exclusive, reports, start.completed)
  {
    s, trace := start, [start];
    var i := 0;
    ghost var left := reports;
    while s.exclusive != []
      invariant Run(plan, trace, start, s)
      invariant s.phase == InSequence && Inv(plan, s)
      invariant 0 <= i <= |reports| && left == reports[i..]
      invariant AllReported(s.exclusive, left) <==> AllReported(start.exclusive, reports)
      invariant SaveEach(s.exclusive, left, s.completed) == SaveEach(start.exclusive, reports, start.completed)
      decreases |s.exclusive|
    {
      ExclusiveHasFiles(plan, s);
      ReportedFirst(s.exclusive, left);
      var outcome := if i < |reports| then ExecuteShard(s.exclusive[0], reports[i]) else None;
      assert left != [] ==> left[0] == reports[i];
      if outcome.None? {
        s, trace := Stop(plan, s, trace, start);
        return;
      }
      s, trace := RecordExclusive(plan, s, outcome.value, trace, start);
      i, left := i + 1, left[1..];
    }
    var next := s.(phase := Finished);
    assert Finish(s, next);
    Extend(plan, trace, start, s, next);
    s, trace := next, trace + [next];
  }

  lemma ExclusiveHasFiles(plan: seq<Shard>, s: System)
    requires Frozen(plan) && Inv(plan, s) && s.phase == InSequence && s.exclusive != []
    ensures s.exclusive[0].files != []
  {
    assert s.exclusive[0] in multiset(s.exclusive);
    assert multiset(Work(s))[s.exclusive[0]] >= 1;
    assert multiset(plan)[s.exclusive[0]] >= 1;
    var i :| 0 <= i < |plan| && plan[i] == s.exclusive[0];
  }

  // ---- The final accounting ---------------------------------------------

  datatype Summary = Summary(collected: int, passed: int, skipped: int, shardCount: nat)

  predicate Below(a: nat, b: nat) { a < b }

  /** Every index has a result. */
  predicate Known(results: Progress, indexes: seq<nat>) {
    forall k :: k in indexes ==> k in results
  }

  /** The totals with one more result. */
  function Added(t: Summary, row: ShardResult): Summary {
    Summary(t.collected + row.collected, t.passed + row.passed, t.skipped + row.skipped, t.shardCount + 1)
  }

  /** Totals over the results with the given indexes. */
  function Totals(results: Progress, indexes: seq<nat>): Summary
    requires Known(results, indexes)
  {
    if indexes == [] then Summary(0, 0, 0, 0)
    else Added(Totals(results, indexes[..|indexes| - 1]), results[indexes[|indexes| - 1]])
  }

  lemma {:induction false} TotalsAppend(results: Progress, indexes: seq<nat>, k: nat)
    requires Known(results, indexes) && k in results
    ensures Known(results, indexes + [k])
    ensures Totals(results, indexes + [k]) == Added(Totals(results, indexes), results[k])
  {
    assert (indexes + [k])[..|indexes|] == indexes;
  }

  /** `t` are the totals over all results, in index order. */
  ghost predicate TotalOf(results: Progress, t: Summary) {
    exists indexes: seq<nat> :: InIndexOrder(results, indexes) && t == Totals(results, indexes)
  }

  ghost predicate InIndexOrder(results: Progress, indexes: seq<nat>) {
    Increasing(indexes, Below) && Elements(indexes) == results.Keys && Known(results, indexes)
  }

  /** Adds up the results in index order; refuses totals that do not account for every test. */
  method SummarizeRegressionResults(results: Progress) returns (r: Option<Summary>)
    ensures exists t :: TotalOf(results, t)
    ensures forall t :: TotalOf(results, t) ==>
              r == if t.collected <= 0 || t.passed + t.skipped != t.collected then None else Some(t)
  {
    var ordered := SortedKeys(results.Keys, Below);
    KnownKeys(results, ordered);
    var t := AddUp(results, ordered);
    assert TotalOf(results, t);
    forall u | TotalOf(results, u) ensures u == t {
      OneTotal(results, u, t);
    }
    r := if t.collected <= 0 || t.passed + t.skipped != t.collected then None else Some(t);
  }

  lemma {:induction false} OneTotal(results: Progress, t: Summary, u: Summary)
    requires TotalOf(results, t) && TotalOf(results, u)
    ensures t == u
  {
    var a: seq<nat> :| InIndexOrder(results, a) && t == Totals(results, a);
    var b: seq<nat> :| InIndexOrder(results, b) && u == Totals(results, b);
    IncreasingIsUnique(a, b, Below);
  }

  lemma {:induction false} KnownKeys(results: Progress, indexes: seq<nat>)
    requires Elements(indexes) == results.Keys
    ensures Known(results, indexes)
  {
    forall k | k in indexes ensures k in results {
      assert k in Elements(indexes);
    }
  }

  lemma KnownAt(results: Progress, indexes: seq<nat>, i: nat)
    requires Known(results, indexes) && i < |indexes|
    ensures indexes[i] in results
  {
  }

  method AddUp(results: Progress, indexes: seq<nat>) returns (t: Summary)
    requires Known(results, indexes)
    ensures t == Totals(results, indexes)
  {
    t := Summary(0, 0, 0, 0);
    ghost var done: seq<nat> := [];
    for i := 0 to |indexes|
      invariant done == indexes[..i] && Known(results, done) && t == Totals(results, done)
    {
      KnownAt(results, indexes, i);
      TotalsAppend(results, done, indexes[i]);
      done := done + [indexes[i]];
      t := Added(t, results[indexes[i]]);
    }
    assert done == indexes;
  }

  lemma {:induction false} CleanTotals(results: Progress, indexes: seq<nat>)
    requires forall k :: k in indexes ==>
               && k in results && results[k].collected > 0
               && results[k].passed + results[k].skipped == results[k].collected
    ensures var t := Totals(results, indexes);
            t.passed + t.skipped == t.collected && t.collected >= |indexes| && t.shardCount == |indexes|
    decreases |indexes|
  {
    if indexes != [] { CleanTotals(results, indexes[..|indexes| - 1]); }
  }

  /** When a run finishes, its totals cannot fail the final check unless the plan is empty. */
  lemma {:induction false} FinishedAddsUp(plan: seq<Shard>, s: System, t: Summary)
    requires Frozen(plan) && Inv(plan, s) && s.phase == Finished && TotalOf(s.results, t)
    ensures t.passed + t.skipped == t.collected && t.shardCount == |plan| && (t.collected > 0 <==> plan != [])
  {
    FinishedIsComplete(plan, s);
    var indexes: seq<nat> :| InIndexOrder(s.results, indexes) && t == Totals(s.results, indexes);
    forall k | k in indexes
      ensures k in s.results && s.results[k].collected > 0
              && s.results[k].passed + s.results[k].skipped == s.results[k].collected
    {
      assert k in Elements(indexes);
      var i :| 0 <= i < |plan| && plan[i].index == k;
      assert CleanResultOf(s.results[plan[i].index], plan[i]);
    }
    CleanTotals(s.results, indexes);
    SameSize(plan, indexes);
  }

  /** Distinct indexes that are exactly those of the plan are as many as its shards. */
  lemma {:induction false} SameSize(plan: seq<Shard>, indexes: seq<nat>)
    requires DistinctIndexes(plan) && Increasing(indexes, Below)
    requires forall k :: k in indexes <==> exists i :: 0 <= i < |plan| && plan[i].index == k
    ensures |indexes| == |plan|
  {
    var planned := set i | 0 <= i < |plan| :: plan[i].index;
    IndexSetSize(plan);
    ElementsSize(indexes);
    assert Elements(indexes) == planned;
  }

  lemma {:induction false} IndexSetSize(plan: seq<Shard>)
    requires DistinctIndexes(plan)
    ensures |set i | 0 <= i < |plan| :: plan[i].index| == |plan|
    decreases |plan|
  {
    if plan != [] {
      var n := |plan| - 1;
      IndexSetSize(plan[..n]);
      var before := set i | 0 <= i < n :: plan[..n][i].index;
      assert (set i | 0 <= i < |plan| :: plan[i].index) == before + {plan[n].index};
      assert plan[n].index !in before;
    }
  }

  lemma {:induction false} ElementsSize(indexes: seq<nat>)
    requires Increasing(indexes, Below)
    ensures |Elements(indexes)| == |indexes|
    decreases |indexes|
  {
    if indexes != [] {
      var n := |indexes| - 1;
      ElementsSize(indexes[..n]);
      assert indexes == indexes[..n] + [indexes[n]];
      assert Elements(indexes) == Elements(indexes[..n]) + {indexes[n]};
      assert indexes[n] !in Elements(indexes[..n]);
    }
  }

  // ---- The whole command ------------------------------------------------

  datatype RunError = PlanRefused(error: PlanError) | Interrupted | InventoryMismatch

  /** Runs or resumes a frozen plan from its durable rows.  Whatever happens, the process only takes
      steps of the state machine; if it gets through, the totals account for every planned shard. */
  method RunReleaseRegression(
    plan: seq<Shard>, inventory: seq<Row>, durable: Progress, limit: nat, timing: TimingHistory,
    polls: seq<Poll>, reports: seq<Evidence>)
    returns (r: Result<Summary, RunError>, completed: Progress, ghost trace: seq<System>)
    requires (forall i :: 0 <= i < |plan| ==> plan[i].files != []) && DurableOk(plan, durable) && limit >= 1
    ensures !Covers(plan, inventory) ==> r.Err? && r.error.PlanRefused? && completed == durable
    ensures Covers(plan, inventory) ==> Accounted(plan, completed, r)
    ensures Covers(plan, inventory) ==> Reaches(plan, trace, durable, completed)
    ensures Covers(plan, inventory) ==>
              ComesTo(plan, durable, limit, timing, polls, reports, r != Err(Interrupted), completed)
  {
    var refused := ValidatePlan(plan, inventory);
    if refused.Some? {
      return Err(PlanRefused(refused.value)), durable, [];
    }
    r, completed, trace := RunFrozen(plan, durable, limit, timing, polls, reports);
  }

  /** A run of the state machine from one set of durable rows to another. */
  ghost predicate Reaches(plan: seq<Shard>, trace: seq<System>, durable: Progress, completed: Progress) {
    && trace != [] && Run(plan, trace, Stopped(durable), trace[|trace| - 1])
    && completed == trace[|trace| - 1].completed
  }

  /** A process ends well only if every planned shard is durable; it then reports the totals of the
      planned shards' durable rows, which account for every test.  A mismatch is only reported for an empty plan. */
  ghost predicate Accounted(plan: seq<Shard>, completed: Progress, r: Result<Summary, RunError>) {
    match r
    case Ok(summary) =>
      && plan != [] && (forall i :: 0 <= i < |plan| ==> Cached(completed, plan[i]))
      && TotalOf(CachedResults(plan, completed), summary) && summary.shardCount == |plan|
      && summary.passed + summary.skipped == summary.collected
    case Err(error) => error == Interrupted || (error == InventoryMismatch && plan == [])
  }

  method RunFrozen(
    plan: seq<Shard>, durable: Progress, limit: nat, timing: TimingHistory, polls: seq<Poll>, reports: seq<Evidence>)
    returns (r: Result<Summary, RunError>, completed: Progress, ghost trace: seq<System>)
    requires Frozen(plan) && DurableOk(plan, durable) && limit >= 1
    ensures Accounted(plan, completed, r) && Reaches(plan, trace, durable, completed)
    ensures ComesTo(plan, durable, limit, timing, polls, reports, r != Err(Interrupted), completed)
  {
    var s;
    s, trace := RunPhases(plan, durable, limit, timing, polls, reports);
    completed := s.completed;
    if s.phase != Finished {
      return Err(Interrupted), completed, trace;
    }
    r := AccountFor(plan, s);
  }

  /** The totals of a finished run. */
  method AccountFor(plan: seq<Shard>, s: System) returns (r: Result<Summary, RunError>)
    requires Frozen(plan) && Inv(plan, s) && s.phase == Finished
    ensures Accounted(plan, s.completed, r) && (r.Ok? <==> plan != []) && r != Err(Interrupted)
  {
    var summary := SummarizeRegressionResults(s.results);
    ghost var t :| TotalOf(s.results, t);
    FinishedAddsUp(plan, s, t);
    FinishedIsComplete(plan, s);
    r := if summary.Some? then Ok(summary.value) else Err(InventoryMismatch);
  }

  lemma RunsPreorder(timing: TimingHistory, before: (Shard, Shard) -> bool)
    requires forall a, b :: before(a, b) == RunsBefore(timing, a, b)
    ensures TotalPreorder(before)
  {
  }

  /** A booted process: the parallel phase, then the exclusive one. */
  method RunPhases(
    plan: seq<Shard>, durable: Progress, limit: nat, timing: TimingHistory, polls: seq<Poll>, reports: seq<Evidence>)
    returns (s: System, ghost trace: seq<System>)
    requires Frozen(plan) && DurableOk(plan, durable) && limit >= 1
    ensures Run(plan, trace, Stopped(durable), s) && Inv(plan, s)
    ensures s.phase == Finished || s.phase == Down
    ensures ComesTo(plan, durable, limit, timing, polls, reports, s.phase == Finished, s.completed)
  {
    var results, parallel, exclusive := PartitionPendingPlans(plan, durable);
    var order := SortPending(timing, parallel);
    ghost var down := Stopped(durable);
    var booted := System(durable, InParallel, Workers(|order|, limit), order, [], [], exclusive, results);
    assert booted == Booted(plan, durable, limit, order);
    assert Boot(plan, down, booted);
    BootKeeps(plan, down, limit, order);
    trace := [down, booted];
    ghost var more;
    s, more := RunParallelPlans(plan, booted, polls);
    RunKeeps(plan, more, booted, s);
    Join(plan, trace, more, down, booted, s);
    trace := trace + more[1..];
    ghost var middle := s;
    if s.phase == InSequence {
      s, more := RunExclusivePlans(plan, s, reports);
      RunKeeps(plan, more, middle, s);
      Join(plan, trace, more, down, middle, s);
      trace := trace + more[1..];
    }
    assert WindowThenRest(order, exclusive, durable, limit, polls, reports, middle.completed,
                          s.phase == Finished, s.completed);
  }

  method SortPending(timing: TimingHistory, shards: seq<Shard>) returns (order: seq<Shard>)
    ensures InRunOrder(timing, shards, order)
  {
    var before := (a, b) => RunsBefore(timing, a, b);
    RunsPreorder(timing, before);
    order := SortBy(shards, before);
    forall i, j | 0 <= i < j < |order| ensures RunsBefore(timing, order[i], order[j]) {
      assert before(order[i], order[j]);
    }
  }
}

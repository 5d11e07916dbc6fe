/**
 What a run comes to, as far as the answers decide it: which shards are waited for, whether the run
 gets through, and which results it leaves behind.
 */
module ReleaseSchedule {
  import opened Outcomes
  import opened ReleaseTiming
  import opened ReleasePlan
  import opened ReleaseRun

  /** Which submitted shards a poll finds finished, and what their processes reported. */
  type Poll = map<Shard, Evidence>

  /** What running a shard comes to; a shard without files would abort the run. */
  function Outcome(shard: Shard, evidence: Evidence): Option<ShardResult> {
    if shard.files == [] then None else ExecuteShard(shard, evidence)
  }

  // ---- The rolling window -----------------------------------------------

  /** Moves pending shards into the window while there is room. */
  function Fill(pending: seq<Shard>, active: seq<Shard>, workers: nat): (seq<Shard>, seq<Shard>)
    decreases |pending|
  {
    if pending != [] && |active| < workers then Fill(pending[1..], active + [pending[0]], workers)
    else (pending, active)
  }

  /** The shards of the window that a poll finds still running. */
  function Unanswered(active: seq<Shard>, poll: Poll): seq<Shard> {
    if active == [] then [] else
      var last := active[|active| - 1];
      Unanswered(active[..|active| - 1], poll) + if last in poll then [] else [last]
  }

  predicate Clean(shard: Shard, poll: Poll) {
    shard in poll && Outcome(shard, poll[shard]).Some?
  }

  ghost predicate AllClean(active: seq<Shard>, poll: Poll) {
    forall shard :: shard in active && shard in poll ==> Clean(shard, poll)
  }

  /** The polls answer every shard, and none of the answers they come to is unclean. */
  ghost predicate Drains(pending: seq<Shard>, active: seq<Shard>, workers: nat, polls: seq<Poll>)
    decreases |polls|
  {
    if pending == [] && active == [] then true
    else if polls == [] then false
    else
      var (waiting, window) := Fill(pending, active, workers);
      AllClean(window, polls[0]) && Drains(waiting, Unanswered(window, polls[0]), workers, polls[1..])
  }

  /** A clean answer is recorded unless an unclean one with a smaller index comes before it. */
  ghost predicate Saved(active: seq<Shard>, poll: Poll, shard: Shard) {
    && shard in active && Clean(shard, poll)
    && forall other :: other in active && other in poll && !Clean(other, poll) ==> shard.index < other.index
  }

  /** `after` is `before` with exactly the results of one poll that are recorded. */
  ghost predicate Saves(active: seq<Shard>, poll: Poll, before: Progress, after: Progress) {
    && (forall shard :: Saved(active, poll, shard) ==>
          shard.index in after && Outcome(shard, poll[shard]) == Some(after[shard.index]))
    && (forall k :: k in before && !(exists shard :: Saved(active, poll, shard) && shard.index == k) ==>
          k in after && after[k] == before[k])
    && (forall k :: k in after ==> k in before || exists shard :: Saved(active, poll, shard) && shard.index == k)
  }

  /** The durable rows after the whole phase: poll after poll, up to an unclean answer. */
  ghost predicate PhaseSaves(
    pending: seq<Shard>, active: seq<Shard>, workers: nat, polls: seq<Poll>, before: Progress, after: Progress)
    decreases |polls|
  {
    if (pending == [] && active == []) || polls == [] then after == before
    else
      var (waiting, window) := Fill(pending, active, workers);
      exists middle ::
        && Saves(window, polls[0], before, middle)
        && if AllClean(window, polls[0])
           then PhaseSaves(waiting, Unanswered(window, polls[0]), workers, polls[1..], middle, after)
           else after == middle
  }

  // ---- The exclusive shards ---------------------------------------------

  /** There is a clean report for every shard. */
  ghost predicate AllReported(shards: seq<Shard>, reports: seq<Evidence>) {
    |shards| <= |reports| && forall i :: 0 <= i < |shards| ==> Outcome(shards[i], reports[i]).Some?
  }

  /** The durable rows after running the shards one by one, up to the first without a clean report. */
  function SaveEach(shards: seq<Shard>, reports: seq<Evidence>, completed: Progress): Progress
    decreases |shards|
  {
    if shards == [] || reports == [] then completed else
      match Outcome(shards[0], reports[0])
      case None => completed
      case Some(row) => SaveEach(shards[1..], reports[1..], WithResult(completed, row))
  }

  lemma {:induction false} ReportedFirst(shards: seq<Shard>, reports: seq<Evidence>)
    requires shards != []
    ensures AllReported(shards, reports)
            <==> reports != [] && Outcome(shards[0], reports[0]).Some? && AllReported(shards[1..], reports[1..])
  {
    if reports != [] && Outcome(shards[0], reports[0]).Some? && AllReported(shards[1..], reports[1..]) {
      forall i | 0 <= i < |shards| ensures Outcome(shards[i], reports[i]).Some? {
        if i > 0 { assert shards[i] == shards[1..][i - 1] && reports[i] == reports[1..][i - 1]; }
      }
    }
    if AllReported(shards, reports) {
      forall i | 0 <= i < |shards[1..]| ensures Outcome(shards[1..][i], reports[1..][i]).Some? {
        assert shards[1..][i] == shards[i + 1] && reports[1..][i] == reports[i + 1];
      }
    }
  }

  // ---- When the polls drain the window ----------------------------------

  lemma {:induction false} FillMembers(pending: seq<Shard>, active: seq<Shard>, workers: nat)
    ensures var (waiting, window) := Fill(pending, active, workers);
            |waiting| + |window| == |pending| + |active|
            && (workers > 0 && pending != [] ==> window != [])
            && forall s :: s in waiting || s in window <==> s in pending || s in active
    decreases |pending|
  {
    if pending != [] && |active| < workers {
      FillMembers(pending[1..], active + [pending[0]], workers);
      assert pending == [pending[0]] + pending[1..];
    }
  }

  lemma {:induction false} UnansweredMember(active: seq<Shard>, poll: Poll, shard: Shard)
    ensures shard in Unanswered(active, poll) <==> shard in active && shard !in poll
    decreases |active|
  {
    if active != [] {
      var front, last := active[..|active| - 1], active[|active| - 1];
      UnansweredMember(front, poll, shard);
      assert active == front + [last];
    }
  }

  lemma {:induction false} UnansweredSize(active: seq<Shard>, poll: Poll)
    ensures |Unanswered(active, poll)| <= |active|
    ensures |Unanswered(active, poll)| == |active| ==> Unanswered(active, poll) == active
    decreases |active|
  {
    if active != [] {
      var front, last := active[..|active| - 1], active[|active| - 1];
      UnansweredSize(front, poll);
      assert active == front + [last];
    }
  }

  lemma {:induction false} UnansweredMembers(active: seq<Shard>, poll: Poll)
    ensures forall s :: s in Unanswered(active, poll) <==> s in active && s !in poll
    ensures |Unanswered(active, poll)| <= |active|
    ensures |Unanswered(active, poll)| == |active| ==> Unanswered(active, poll) == active
  {
    forall s ensures s in Unanswered(active, poll) <==> s in active && s !in poll {
      UnansweredMember(active, poll, s);
    }
    UnansweredSize(active, poll);
  }

  /** The phase never gets through without a clean answer for every shard. */
  lemma {:induction false} DrainedIsAnswered(
    pending: seq<Shard>, active: seq<Shard>, workers: nat, polls: seq<Poll>, shard: Shard)
    returns (t: nat)
    requires Drains(pending, active, workers, polls) && (shard in pending || shard in active)
    ensures t < |polls| && Clean(shard, polls[t])
    decreases |polls|
  {
    var (waiting, window) := Fill(pending, active, workers);
    FillMembers(pending, active, workers);
    if shard in window && shard in polls[0] {
      t := 0;
    } else {
      UnansweredMembers(window, polls[0]);
      var later := DrainedIsAnswered(waiting, Unanswered(window, polls[0]), workers, polls[1..], shard);
      t := later + 1;
    }
  }

  /** No poll has an unclean answer about these shards. */
  ghost predicate NeverUnclean(shards: seq<Shard>, polls: seq<Poll>) {
    forall t, shard :: 0 <= t < |polls| && shard in shards && shard in polls[t] ==> Clean(shard, polls[t])
  }

  ghost predicate FindsSome(window: seq<Shard>, poll: Poll) {
    exists shard :: shard in window && shard in poll
  }

  /** How many polls find some shard of the window, as it then is, finished. */
  ghost function Productive(pending: seq<Shard>, active: seq<Shard>, workers: nat, polls: seq<Poll>): nat
    decreases |polls|
  {
    if (pending == [] && active == []) || polls == [] then 0
    else
      var (waiting, window) := Fill(pending, active, workers);
      (if FindsSome(window, polls[0]) then 1 else 0)
      + Productive(waiting, Unanswered(window, polls[0]), workers, polls[1..])
  }

  lemma {:induction false} LaterNeverUnclean(shards: seq<Shard>, fewer: seq<Shard>, polls: seq<Poll>)
    requires NeverUnclean(shards, polls) && polls != [] && forall shard :: shard in fewer ==> shard in shards
    ensures NeverUnclean(fewer, polls[1..])
  {
    forall t, shard | 0 <= t < |polls[1..]| && shard in fewer && shard in polls[1..][t]
      ensures Clean(shard, polls[1..][t])
    {
      assert polls[1..][t] == polls[t + 1];
    }
  }

  lemma {:induction false} SomeLeave(window: seq<Shard>, poll: Poll)
    requires FindsSome(window, poll)
    ensures |Unanswered(window, poll)| < |window|
  {
    UnansweredMembers(window, poll);
  }

  /** Without an unclean answer, as many productive polls as there are shards get the phase through,
      however many polls in between find nothing finished. */
  lemma {:induction false} ProductivePollsDrain(
    pending: seq<Shard>, active: seq<Shard>, workers: nat, polls: seq<Poll>)
    requires NeverUnclean(pending + active, polls)
    requires Productive(pending, active, workers, polls) >= |pending| + |active|
    ensures Drains(pending, active, workers, polls)
    decreases |polls|
  {
    if pending != [] || active != [] {
      var (waiting, window) := Fill(pending, active, workers);
      var left := Unanswered(window, polls[0]);
      FillMembers(pending, active, workers);
      UnansweredMembers(window, polls[0]);
      if FindsSome(window, polls[0]) { SomeLeave(window, polls[0]); }
      forall shard | shard in window && shard in polls[0] ensures Clean(shard, polls[0]) {
        assert shard in pending + active;
      }
      LaterNeverUnclean(pending + active, waiting + left, polls);
      ProductivePollsDrain(waiting, left, workers, polls[1..]);
    }
  }

  // ---- A whole process --------------------------------------------------

  /** Longest estimate first, then by index. */
  predicate RunsBefore(timing: TimingHistory, a: Shard, b: Shard) {
    Load(timing, a.files) > Load(timing, b.files)
    || (Load(timing, a.files) == Load(timing, b.files) && a.index <= b.index)
  }

  ghost predicate InRunOrder(timing: TimingHistory, shards: seq<Shard>, order: seq<Shard>) {
    multiset(order) == multiset(shards) && RunOrdered(timing, order)
  }

  ghost predicate RunOrdered(timing: TimingHistory, order: seq<Shard>) {
    forall i, j :: 0 <= i < j < |order| ==>
      || Load(timing, order[i].files) > Load(timing, order[j].files)
      || (Load(timing, order[i].files) == Load(timing, order[j].files) && order[i].index <= order[j].index)
  }

  function Workers(count: nat, limit: nat): nat {
    if count < limit then count else limit
  }

  /** Started from these durable rows and given these answers, a process finishes or not and leaves
      these rows: first the rolling window over the parallel shards, then the exclusive ones. */
  ghost predicate ComesTo(
    plan: seq<Shard>, durable: Progress, limit: nat, timing: TimingHistory, polls: seq<Poll>, reports: seq<Evidence>,
    finished: bool, completed: Progress)
  {
    exists order, middle ::
      InRunOrder(timing, Pending(plan, durable, true), order)
      && WindowThenRest(order, Pending(plan, durable, false), durable, limit, polls, reports,
                        middle, finished, completed)
  }

  ghost predicate WindowThenRest(
    order: seq<Shard>, exclusive: seq<Shard>, durable: Progress, limit: nat, polls: seq<Poll>, reports: seq<Evidence>,
    middle: Progress, finished: bool, completed: Progress)
  {
    var workers := Workers(|order|, limit);
    var drains := Drains(order, [], workers, polls);
    && PhaseSaves(order, [], workers, polls, durable, middle)
    && finished == (drains && AllReported(exclusive, reports))
    && completed == if drains then SaveEach(exclusive, reports, middle) else middle
  }

  // ---- The answers decide the outcome -----------------------------------

  lemma {:induction false} OneSave(active: seq<Shard>, poll: Poll, before: Progress, a: Progress, b: Progress)
    requires Saves(active, poll, before, a) && Saves(active, poll, before, b)
    ensures a == b
  {
    forall k ensures k in a <==> k in b {
    }
    forall k | k in a ensures a[k] == b[k] {
      if shard :| Saved(active, poll, shard) && shard.index == k {
        assert Outcome(shard, poll[shard]) == Some(a[k]) == Some(b[k]);
      }
    }
  }

  lemma {:induction false} OnePhase(
    pending: seq<Shard>, active: seq<Shard>, workers: nat, polls: seq<Poll>, before: Progress, a: Progress, b: Progress)
    requires PhaseSaves(pending, active, workers, polls, before, a)
    requires PhaseSaves(pending, active, workers, polls, before, b)
    ensures a == b
    decreases |polls|
  {
    if (pending != [] || active != []) && polls != [] {
      var (waiting, window) := Fill(pending, active, workers);
      var x := AfterFirst(pending, active, workers, polls, before, a);
      var y := AfterFirst(pending, active, workers, polls, before, b);
      OneSave(window, polls[0], before, x, y);
      if AllClean(window, polls[0]) {
        OnePhase(waiting, Unanswered(window, polls[0]), workers, polls[1..], x, a, b);
      }
    }
  }

  lemma {:induction false} AfterFirst(
    pending: seq<Shard>, active: seq<Shard>, workers: nat, polls: seq<Poll>, before: Progress, after: Progress)
    returns (middle: Progress)
    requires PhaseSaves(pending, active, workers, polls, before, after)
    requires (pending != [] || active != []) && polls != []
    ensures var (waiting, window) := Fill(pending, active, workers);
            && Saves(window, polls[0], before, middle)
            && if AllClean(window, polls[0])
               then PhaseSaves(waiting, Unanswered(window, polls[0]), workers, polls[1..], middle, after)
               else after == middle
  {
    var (waiting, window) := Fill(pending, active, workers);
    middle :|
      && Saves(window, polls[0], before, middle)
      && if AllClean(window, polls[0])
         then PhaseSaves(waiting, Unanswered(window, polls[0]), workers, polls[1..], middle, after)
         else after == middle;
  }

  lemma {:induction false} FirstRuns(timing: TimingHistory, order: seq<Shard>, shard: Shard)
    requires shard in order && RunOrdered(timing, order)
    ensures RunsBefore(timing, order[0], shard)
  {
    var k :| 0 <= k < |order| && order[k] == shard;
  }

  lemma {:induction false} SameRest(a: seq<Shard>, b: seq<Shard>)
    requires multiset(a) == multiset(b) && a != [] && b != [] && a[0] == b[0]
    ensures multiset(a[1..]) == multiset(b[1..])
  {
    assert a == [a[0]] + a[1..] && b == [b[0]] + b[1..];
    assert multiset(a[1..]) == multiset(a) - multiset{a[0]} && multiset(b[1..]) == multiset(b) - multiset{b[0]};
  }

  lemma {:induction false} SameFirst(timing: TimingHistory, a: seq<Shard>, b: seq<Shard>)
    requires multiset(a) == multiset(b) && a != [] && DistinctIndexes(a)
    requires RunOrdered(timing, a) && RunOrdered(timing, b)
    ensures |a| == |b| && a[0] == b[0]
  {
    assert |multiset(a)| == |multiset(b)|;
    assert a[0] in multiset(b) && b[0] in multiset(a);
    FirstRuns(timing, a, b[0]);
    FirstRuns(timing, b, a[0]);
    IndexNamesShard(a, a[0], b[0]);
  }

  /** With distinct indexes there is only one run order. */
  lemma {:induction false} OneRunOrder(timing: TimingHistory, a: seq<Shard>, b: seq<Shard>)
    requires multiset(a) == multiset(b) && DistinctIndexes(a) && RunOrdered(timing, a) && RunOrdered(timing, b)
    ensures a == b
    decreases |a|
  {
    if a == [] {
      assert |multiset(b)| == 0;
    } else {
      SameFirst(timing, a, b);
      SameRest(a, b);
      OneRunOrder(timing, a[1..], b[1..]);
      assert a == [a[0]] + a[1..] && b == [b[0]] + b[1..];
    }
  }

  lemma {:induction false} PendingDistinct(plan: seq<Shard>, completed: Progress, order: seq<Shard>)
    requires DistinctIndexes(plan) && multiset(order) == multiset(Pending(plan, completed, true))
    ensures DistinctIndexes(order)
  {
    forall i, j | 0 <= i < j < |order| ensures order[i].index != order[j].index {
      var a, b := order[i], order[j];
      CountPending(plan, completed, true, a);
      CountPending(plan, completed, true, b);
      CountPlan(plan, a);
      CountPlan(plan, b);
      assert a in multiset(order) && b in multiset(order);
      if a.index == b.index {
        IndexNamesShard(plan, a, b);
        CountTwice(order, i, j);
        assert false;
      }
    }
  }

  /** The same answers on the same durable rows always come to the same. */
  lemma {:induction false} OneOutcome(
    plan: seq<Shard>, durable: Progress, limit: nat, timing: TimingHistory, polls: seq<Poll>, reports: seq<Evidence>,
    finished: bool, completed: Progress, finished': bool, completed': Progress)
    requires DistinctIndexes(plan)
    requires ComesTo(plan, durable, limit, timing, polls, reports, finished, completed)
    requires ComesTo(plan, durable, limit, timing, polls, reports, finished', completed')
    ensures finished == finished' && completed == completed'
  {
    var parallel, exclusive := Pending(plan, durable, true), Pending(plan, durable, false);
    var a, x :| InRunOrder(timing, parallel, a)
      && WindowThenRest(a, exclusive, durable, limit, polls, reports, x, finished, completed);
    var b, y :| InRunOrder(timing, parallel, b)
      && WindowThenRest(b, exclusive, durable, limit, polls, reports, y, finished', completed');
    PendingDistinct(plan, durable, a);
    OneRunOrder(timing, a, b);
    OnePhase(a, [], Workers(|a|, limit), polls, durable, x, y);
  }

  lemma {:induction false} PendingMember(plan: seq<Shard>, completed: Progress, parallel: bool, shard: Shard)
    ensures shard in Pending(plan, completed, parallel)
            <==> shard in plan && !Cached(completed, shard) && shard.RunsInParallel() == parallel
    decreases |plan|
  {
    if plan != [] {
      var front, last := plan[..|plan| - 1], plan[|plan| - 1];
      PendingMember(front, completed, parallel, shard);
      assert plan == front + [last];
    }
  }

  /** A process finishes only if every shard it still had to run got a clean answer: a parallel one
      in some poll, an exclusive one in the report of its own run. */
  lemma {:induction false} FinishedIsAnswered(
    plan: seq<Shard>, durable: Progress, limit: nat, timing: TimingHistory, polls: seq<Poll>, reports: seq<Evidence>,
    completed: Progress)
    requires ComesTo(plan, durable, limit, timing, polls, reports, true, completed)
    ensures forall shard :: shard in plan && !Cached(durable, shard) && shard.RunsInParallel() ==>
              exists t :: 0 <= t < |polls| && Clean(shard, polls[t])
    ensures AllReported(Pending(plan, durable, false), reports)
  {
    var order, middle :| InRunOrder(timing, Pending(plan, durable, true), order)
      && WindowThenRest(order, Pending(plan, durable, false), durable, limit, polls, reports, middle, true, completed);
    forall shard | shard in plan && !Cached(durable, shard) && shard.RunsInParallel()
      ensures exists t :: 0 <= t < |polls| && Clean(shard, polls[t])
    {
      PendingMember(plan, durable, true, shard);
      assert shard in multiset(order);
      var t := DrainedIsAnswered(order, [], Workers(|order|, limit), polls, shard);
    }
  }

  /** A process always finishes if no shard it has to run gets an unclean answer, as many polls find
      something finished as there are parallel shards left, and every exclusive shard is reported. */
  lemma {:induction false} CleanAnswersFinish(
    plan: seq<Shard>, durable: Progress, limit: nat, timing: TimingHistory, polls: seq<Poll>, reports: seq<Evidence>,
    order: seq<Shard>, finished: bool, completed: Progress)
    requires DistinctIndexes(plan) && InRunOrder(timing, Pending(plan, durable, true), order)
    requires NeverUnclean(order, polls) && Productive(order, [], Workers(|order|, limit), polls) >= |order|
    requires AllReported(Pending(plan, durable, false), reports)
    requires ComesTo(plan, durable, limit, timing, polls, reports, finished, completed)
    ensures finished
  {
    var parallel, exclusive := Pending(plan, durable, true), Pending(plan, durable, false);
    var same, middle :| InRunOrder(timing, parallel, same)
      && WindowThenRest(same, exclusive, durable, limit, polls, reports, middle, finished, completed);
    PendingDistinct(plan, durable, order);
    OneRunOrder(timing, order, same);
    assert order + [] == order;
    ProductivePollsDrain(order, [], Workers(|order|, limit), polls);
  }
}

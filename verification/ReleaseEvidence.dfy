/**
 Where recorded results come from: every row a process makes durable repeats what the test process of
 its shard reported, and the totals of a run that succeeds are sums over those reports.
 */
module ReleaseEvidence {
  import opened Outcomes
  import opened Ordering
  import opened ReleaseTiming
  import opened ReleasePlan
  import opened ReleaseRun
  import opened ReleaseSchedule
  import opened ReleaseExecutor

  // ---- One report -------------------------------------------------------

  /** No fault is counted, some tests were collected, and every one of them passed or was skipped. */
  predicate Faultless(e: Evidence) {
    && e.schemaOk && e.exitStatus == 0 && e.collectionErrors == 0 && e.deselected == 0
    && e.failed == 0 && e.xfailed == 0 && e.xpassed == 0
    && e.passed >= 0 && e.skipped >= 0 && e.collected >= 1
    && e.passed + e.skipped == e.collected
  }

  /** The row names its shard and repeats the counts of the evidence. */
  predicate Repeats(row: ShardResult, shard: Shard, e: Evidence) {
    && shard.files != []
    && row.index == shard.index && row.identity == shard.files
    && row.firstFile == shard.files[0] && row.lastFile == shard.files[|shard.files| - 1]
    && row.collected == e.collected && row.passed == e.passed && row.skipped == e.skipped
  }

  /** A report is accepted exactly when it is faultless, and the row recorded then repeats it. */
  lemma {:induction false} AcceptedExactly(shard: Shard, e: Evidence)
    requires shard.files != []
    ensures Outcome(shard, e).Some? <==> Faultless(e)
    ensures forall row :: Outcome(shard, e) == Some(row) <==> Faultless(e) && Repeats(row, shard, e)
  {
    if Faultless(e) {
      forall row | Repeats(row, shard, e) ensures Outcome(shard, e) == Some(row) {
        assert row == Outcome(shard, e).value;
      }
    }
  }

  // ---- Who reports about a shard ----------------------------------------

  ghost predicate AllFaultless(window: seq<Shard>, poll: Poll) {
    forall shard :: shard in window && shard in poll ==> Faultless(poll[shard])
  }

  /** The rolling window gets as far as poll `t`, which finds the shard in it finished. */
  ghost predicate PolledAt(
    pending: seq<Shard>, active: seq<Shard>, workers: nat, polls: seq<Poll>, shard: Shard, t: nat)
    decreases |polls|
  {
    && polls != [] && (pending != [] || active != [])
    && var (waiting, window) := Fill(pending, active, workers);
       if t == 0 then shard in window && shard in polls[0]
       else AllFaultless(window, polls[0])
            && PolledAt(waiting, Unanswered(window, polls[0]), workers, polls[1..], shard, t - 1)
  }

  /** A poll the window gets to reports faultlessly about the shard with this index, and the row repeats it. */
  ghost predicate PollAnswers(
    pending: seq<Shard>, active: seq<Shard>, workers: nat, polls: seq<Poll>, shard: Shard, e: Evidence)
  {
    && (shard in pending || shard in active)
    && exists t: nat :: t < |polls| && PolledAt(pending, active, workers, polls, shard, t)
         && shard in polls[t] && polls[t][shard] == e
  }

  /** A result of this index and these files was recorded before. */
  predicate Recorded(durable: Progress, shard: Shard) {
    shard.index in durable && durable[shard.index].identity == shard.files
  }

  /** What the test process of a planned shard reported: in the first poll that found it finished, or, if
      it must run alone, in its own turn. */
  ghost predicate AnsweredBy(
    plan: seq<Shard>, durable: Progress, limit: nat, timing: TimingHistory, polls: seq<Poll>, reports: seq<Evidence>,
    shard: Shard, e: Evidence)
  {
    && shard in plan && !Recorded(durable, shard) && Faultless(e)
    && if shard.isolation == Exclusive
       then exists i :: 0 <= i < |reports| && i < |Pending(plan, durable, false)|
              && Pending(plan, durable, false)[i] == shard && reports[i] == e
       else exists order :: InRunOrder(timing, Pending(plan, durable, true), order)
              && PollAnswers(order, [], if |order| < limit then |order| else limit, polls, shard, e)
  }

  // ---- The rolling window -----------------------------------------------

  ghost predicate WithFiles(shards: seq<Shard>) {
    forall shard :: shard in shards ==> shard.files != []
  }

  lemma {:induction false} CleanIsFaultless(window: seq<Shard>, poll: Poll)
    requires WithFiles(window)
    ensures AllClean(window, poll) <==> AllFaultless(window, poll)
  {
    forall shard | shard in window && shard in poll
      ensures Clean(shard, poll) <==> Faultless(poll[shard])
    {
      AcceptedExactly(shard, poll[shard]);
    }
  }

  /** Row `k` repeats a poll's report about some shard of these. */
  ghost predicate PolledRow(
    pending: seq<Shard>, active: seq<Shard>, workers: nat, polls: seq<Poll>, k: nat, row: ShardResult)
  {
    exists shard: Shard, e :: shard.index == k && Faultless(e) && Repeats(row, shard, e)
      && PollAnswers(pending, active, workers, polls, shard, e)
  }

  lemma {:induction false} SavedNow(
    pending: seq<Shard>, active: seq<Shard>, workers: nat, polls: seq<Poll>,
    before: Progress, middle: Progress, k: nat)
    requires polls != [] && (pending != [] || active != []) && WithFiles(pending + active)
    requires Saves(Fill(pending, active, workers).1, polls[0], before, middle) && k in middle
    ensures (k in before && middle[k] == before[k]) || PolledRow(pending, active, workers, polls, k, middle[k])
  {
    var (waiting, window) := Fill(pending, active, workers);
    FillMembers(pending, active, workers);
    if shard :| Saved(window, polls[0], shard) && shard.index == k {
      var e := polls[0][shard];
      assert shard in pending + active;
      AcceptedExactly(shard, e);
      assert PolledAt(pending, active, workers, polls, shard, 0);
      assert PollAnswers(pending, active, workers, polls, shard, e);
    }
  }

  lemma {:induction false} AnsweredLater(
    pending: seq<Shard>, active: seq<Shard>, workers: nat, polls: seq<Poll>, k: nat, row: ShardResult)
    requires polls != [] && (pending != [] || active != []) && WithFiles(pending + active)
    requires var (waiting, window) := Fill(pending, active, workers);
             && AllFaultless(window, polls[0])
             && PolledRow(waiting, Unanswered(window, polls[0]), workers, polls[1..], k, row)
    ensures PolledRow(pending, active, workers, polls, k, row)
  {
    var (waiting, window) := Fill(pending, active, workers);
    var left := Unanswered(window, polls[0]);
    FillMembers(pending, active, workers);
    UnansweredMembers(window, polls[0]);
    var shard: Shard, e :| shard.index == k && Faultless(e) && Repeats(row, shard, e)
      && PollAnswers(waiting, left, workers, polls[1..], shard, e);
    var t: nat :| t < |polls[1..]| && PolledAt(waiting, left, workers, polls[1..], shard, t)
      && shard in polls[1..][t] && polls[1..][t][shard] == e;
    assert PolledAt(pending, active, workers, polls, shard, t + 1);
    assert polls[1..][t] == polls[t + 1];
    assert PollAnswers(pending, active, workers, polls, shard, e);
  }

  /** Every row the rolling window leaves was there before or repeats a poll's report. */
  lemma {:induction false} PhaseRows(
    pending: seq<Shard>, active: seq<Shard>, workers: nat, polls: seq<Poll>,
    before: Progress, after: Progress, k: nat)
    requires WithFiles(pending + active) && k in after
    requires PhaseSaves(pending, active, workers, polls, before, after)
    ensures (k in before && after[k] == before[k]) || PolledRow(pending, active, workers, polls, k, after[k])
    decreases |polls|
  {
    if (pending != [] || active != []) && polls != [] {
      var (waiting, window) := Fill(pending, active, workers);
      var left := Unanswered(window, polls[0]);
      FillMembers(pending, active, workers);
      UnansweredMembers(window, polls[0]);
      var middle := AfterFirst(pending, active, workers, polls, before, after);
      assert WithFiles(window) && WithFiles(waiting + left);
      CleanIsFaultless(window, polls[0]);
      if AllClean(window, polls[0]) {
        PhaseRows(waiting, left, workers, polls[1..], middle, after, k);
        if PolledRow(waiting, left, workers, polls[1..], k, after[k]) {
          AnsweredLater(pending, active, workers, polls, k, after[k]);
        } else {
          SavedNow(pending, active, workers, polls, before, middle, k);
        }
      } else {
        SavedNow(pending, active, workers, polls, before, middle, k);
      }
    }
  }

  // ---- The exclusive shards ---------------------------------------------

  /** Row `k` repeats the report of one of these shards, in its own turn. */
  ghost predicate ReportedRow(shards: seq<Shard>, reports: seq<Evidence>, k: nat, row: ShardResult) {
    exists i :: 0 <= i < |shards| && i < |reports| && shards[i].index == k
      && Faultless(reports[i]) && Repeats(row, shards[i], reports[i])
  }

  lemma {:induction false} SaveEachRows(shards: seq<Shard>, reports: seq<Evidence>, before: Progress, k: nat)
    requires WithFiles(shards) && k in SaveEach(shards, reports, before)
    ensures var after := SaveEach(shards, reports, before);
            (k in before && after[k] == before[k]) || ReportedRow(shards, reports, k, after[k])
    decreases |shards|
  {
    if shards != [] && reports != [] && Outcome(shards[0], reports[0]).Some? {
      var row := Outcome(shards[0], reports[0]).value;
      var after := SaveEach(shards, reports, before);
      SaveEachRows(shards[1..], reports[1..], WithResult(before, row), k);
      AcceptedExactly(shards[0], reports[0]);
      if ReportedRow(shards[1..], reports[1..], k, after[k]) {
        var i :| 0 <= i < |shards[1..]| && i < |reports[1..]| && shards[1..][i].index == k
          && Faultless(reports[1..][i]) && Repeats(after[k], shards[1..][i], reports[1..][i]);
        assert shards[1..][i] == shards[i + 1] && reports[1..][i] == reports[i + 1];
      } else if k == row.index {
        assert Repeats(after[k], shards[0], reports[0]);
      }
    }
  }

  // ---- A whole process --------------------------------------------------

  lemma {:induction false} PendingHasFiles(plan: seq<Shard>, durable: Progress, parallel: bool, shards: seq<Shard>)
    requires Frozen(plan) && multiset(shards) == multiset(Pending(plan, durable, parallel))
    ensures WithFiles(shards)
    ensures forall shard :: shard in shards ==>
              shard in plan && !Recorded(durable, shard) && (shard.isolation != Exclusive) == parallel
  {
    forall shard | shard in shards
      ensures shard in plan && shard.files != []
      ensures !Recorded(durable, shard) && (shard.isolation != Exclusive) == parallel
    {
      assert shard in multiset(shards);
      PendingMember(plan, durable, parallel, shard);
    }
  }

  /** Row `k` repeats the report of the test process of the planned shard with that index. */
  ghost predicate RowFromAnswer(
    plan: seq<Shard>, durable: Progress, limit: nat, timing: TimingHistory, polls: seq<Poll>, reports: seq<Evidence>,
    k: nat, row: ShardResult)
  {
    exists shard: Shard, e :: shard.index == k && Repeats(row, shard, e)
      && AnsweredBy(plan, durable, limit, timing, polls, reports, shard, e)
  }

  lemma {:induction false} FromPoll(
    plan: seq<Shard>, durable: Progress, limit: nat, timing: TimingHistory, polls: seq<Poll>, reports: seq<Evidence>,
    order: seq<Shard>, k: nat, row: ShardResult)
    requires Frozen(plan) && InRunOrder(timing, Pending(plan, durable, true), order)
    requires PolledRow(order, [], Workers(|order|, limit), polls, k, row)
    ensures RowFromAnswer(plan, durable, limit, timing, polls, reports, k, row)
  {
    PendingHasFiles(plan, durable, true, order);
    var shard: Shard, e :| shard.index == k && Faultless(e) && Repeats(row, shard, e)
      && PollAnswers(order, [], Workers(|order|, limit), polls, shard, e);
    assert AnsweredBy(plan, durable, limit, timing, polls, reports, shard, e);
  }

  lemma {:induction false} FromReport(
    plan: seq<Shard>, durable: Progress, limit: nat, timing: TimingHistory, polls: seq<Poll>, reports: seq<Evidence>,
    k: nat, row: ShardResult)
    requires Frozen(plan) && ReportedRow(Pending(plan, durable, false), reports, k, row)
    ensures RowFromAnswer(plan, durable, limit, timing, polls, reports, k, row)
  {
    var exclusive := Pending(plan, durable, false);
    PendingHasFiles(plan, durable, false, exclusive);
    var i :| 0 <= i < |exclusive| && i < |reports| && exclusive[i].index == k
      && Faultless(reports[i]) && Repeats(row, exclusive[i], reports[i]);
    assert exclusive[i] in exclusive;
    assert AnsweredBy(plan, durable, limit, timing, polls, reports, exclusive[i], reports[i]);
  }

  /** Every row a process leaves was durable before, unchanged, or repeats the faultless report of the
      test process of the planned shard with that index. */
  lemma {:induction false} RowsRepeatReports(
    plan: seq<Shard>, durable: Progress, limit: nat, timing: TimingHistory, polls: seq<Poll>, reports: seq<Evidence>,
    finished: bool, completed: Progress)
    requires Frozen(plan) && ComesTo(plan, durable, limit, timing, polls, reports, finished, completed)
    ensures forall k :: k in completed ==>
              || (k in durable && completed[k] == durable[k])
              || RowFromAnswer(plan, durable, limit, timing, polls, reports, k, completed[k])
  {
    var exclusive := Pending(plan, durable, false);
    var order, middle :| InRunOrder(timing, Pending(plan, durable, true), order)
      && WindowThenRest(order, exclusive, durable, limit, polls, reports, middle, finished, completed);
    PendingHasFiles(plan, durable, true, order);
    PendingHasFiles(plan, durable, false, exclusive);
    forall k | k in completed
      ensures (k in durable && completed[k] == durable[k])
              || RowFromAnswer(plan, durable, limit, timing, polls, reports, k, completed[k])
    {
      if completed != middle { SaveEachRows(exclusive, reports, middle, k); }
      if completed != middle && ReportedRow(exclusive, reports, k, completed[k]) {
        FromReport(plan, durable, limit, timing, polls, reports, k, completed[k]);
      } else {
        PhaseRows(order, [], Workers(|order|, limit), polls, durable, middle, k);
        if PolledRow(order, [], Workers(|order|, limit), polls, k, middle[k]) {
          FromPoll(plan, durable, limit, timing, polls, reports, order, k, middle[k]);
        }
      }
    }
  }

  // ---- When a process finishes ------------------------------------------

  /** How often a shard is in the two lists together. */
  function Times(a: seq<Shard>, b: seq<Shard>, shard: Shard): nat {
    multiset(a)[shard] + multiset(b)[shard]
  }

  ghost predicate NoneTwice(a: seq<Shard>, b: seq<Shard>) {
    forall shard :: Times(a, b, shard) <= 1
  }

  lemma TimesBoth(a: seq<Shard>, b: seq<Shard>, shard: Shard)
    requires NoneTwice(a, b) && shard in a
    ensures shard !in b
  {
    assert Times(a, b, shard) <= 1;
    assert multiset(a)[shard] >= 1;
  }

  lemma {:induction false} FillTimes(pending: seq<Shard>, active: seq<Shard>, workers: nat, shard: Shard)
    ensures var (waiting, window) := Fill(pending, active, workers);
            Times(waiting, window, shard) == Times(pending, active, shard)
    decreases |pending|
  {
    if pending != [] && |active| < workers {
      assert pending == [pending[0]] + pending[1..];
      FillTimes(pending[1..], active + [pending[0]], workers, shard);
    }
  }

  lemma {:induction false} FillNoneTwice(pending: seq<Shard>, active: seq<Shard>, workers: nat)
    requires NoneTwice(pending, active)
    ensures var (waiting, window) := Fill(pending, active, workers);
            NoneTwice(waiting, window)
  {
    var (waiting, window) := Fill(pending, active, workers);
    forall shard ensures Times(waiting, window, shard) <= 1 {
      FillTimes(pending, active, workers, shard);
    }
  }

  lemma {:induction false} UnansweredTimes(active: seq<Shard>, poll: Poll, shard: Shard)
    ensures multiset(Unanswered(active, poll))[shard] <= multiset(active)[shard]
    decreases |active|
  {
    if active != [] {
      var front, last := active[..|active| - 1], active[|active| - 1];
      UnansweredTimes(front, poll, shard);
      assert active == front + [last];
    }
  }

  /** A poll the window gets to reports faultlessly about the shard. */
  ghost predicate PolledWell(
    pending: seq<Shard>, active: seq<Shard>, workers: nat, polls: seq<Poll>, shard: Shard)
  {
    exists e :: Faultless(e) && PollAnswers(pending, active, workers, polls, shard, e)
  }

  lemma {:induction false} WellNow(
    pending: seq<Shard>, active: seq<Shard>, workers: nat, polls: seq<Poll>, shard: Shard)
    requires polls != [] && (pending != [] || active != []) && (shard in pending || shard in active)
    requires shard in Fill(pending, active, workers).1 && shard in polls[0] && Faultless(polls[0][shard])
    ensures PolledWell(pending, active, workers, polls, shard)
  {
    assert PolledAt(pending, active, workers, polls, shard, 0);
    assert PollAnswers(pending, active, workers, polls, shard, polls[0][shard]);
  }

  lemma {:induction false} WellLater(
    pending: seq<Shard>, active: seq<Shard>, workers: nat, polls: seq<Poll>, shard: Shard)
    requires polls != [] && (pending != [] || active != []) && (shard in pending || shard in active)
    requires var (waiting, window) := Fill(pending, active, workers);
             && AllFaultless(window, polls[0])
             && PolledWell(waiting, Unanswered(window, polls[0]), workers, polls[1..], shard)
    ensures PolledWell(pending, active, workers, polls, shard)
  {
    var (waiting, window) := Fill(pending, active, workers);
    var left := Unanswered(window, polls[0]);
    var e :| Faultless(e) && PollAnswers(waiting, left, workers, polls[1..], shard, e);
    var t: nat :| t < |polls[1..]| && PolledAt(waiting, left, workers, polls[1..], shard, t)
      && shard in polls[1..][t] && polls[1..][t][shard] == e;
    assert PolledAt(pending, active, workers, polls, shard, t + 1) && polls[1..][t] == polls[t + 1];
    assert PollAnswers(pending, active, workers, polls, shard, e);
  }

  /** The phase gets through only if every shard is reported faultlessly while it is in the window. */
  lemma {:induction false} DrainedIsPolled(
    pending: seq<Shard>, active: seq<Shard>, workers: nat, polls: seq<Poll>, shard: Shard)
    requires WithFiles(pending + active) && Drains(pending, active, workers, polls)
    requires shard in pending || shard in active
    ensures PolledWell(pending, active, workers, polls, shard)
    decreases |polls|
  {
    var (waiting, window) := Fill(pending, active, workers);
    var left := Unanswered(window, polls[0]);
    FillMembers(pending, active, workers);
    UnansweredMembers(window, polls[0]);
    assert WithFiles(window) && WithFiles(waiting + left);
    CleanIsFaultless(window, polls[0]);
    if shard in window && shard in polls[0] {
      WellNow(pending, active, workers, polls, shard);
    } else {
      DrainedIsPolled(waiting, left, workers, polls[1..], shard);
      WellLater(pending, active, workers, polls, shard);
    }
  }

  /** Taking one poll off: a shard is reported well by it, or by a later one. */
  lemma {:induction false} WellNowOrLater(
    pending: seq<Shard>, active: seq<Shard>, workers: nat, polls: seq<Poll>, shard: Shard)
    requires PolledWell(pending, active, workers, polls, shard) && NoneTwice(pending, active)
    ensures polls != [] && (pending != [] || active != [])
    ensures var (waiting, window) := Fill(pending, active, workers);
            if shard in window && shard in polls[0] then Faultless(polls[0][shard])
            else PolledWell(waiting, Unanswered(window, polls[0]), workers, polls[1..], shard)
  {
    var (waiting, window) := Fill(pending, active, workers);
    FillMembers(pending, active, workers);
    FillNoneTwice(pending, active, workers);
    var e :| Faultless(e) && PollAnswers(pending, active, workers, polls, shard, e);
    var t: nat :| t < |polls| && PolledAt(pending, active, workers, polls, shard, t)
      && shard in polls[t] && polls[t][shard] == e;
    var left := Unanswered(window, polls[0]);
    UnansweredMembers(window, polls[0]);
    if t > 0 {
      assert polls[1..][t - 1] == polls[t];
      PolledIsMember(waiting, left, workers, polls[1..], shard, t - 1);
      if shard in waiting { TimesBoth(waiting, window, shard); }
      assert PollAnswers(waiting, left, workers, polls[1..], shard, e);
    }
  }

  lemma {:induction false} PolledIsMember(
    pending: seq<Shard>, active: seq<Shard>, workers: nat, polls: seq<Poll>, shard: Shard, t: nat)
    requires PolledAt(pending, active, workers, polls, shard, t)
    ensures shard in pending || shard in active
    decreases |polls|
  {
    var (waiting, window) := Fill(pending, active, workers);
    FillMembers(pending, active, workers);
    if t > 0 {
      UnansweredMembers(window, polls[0]);
      PolledIsMember(waiting, Unanswered(window, polls[0]), workers, polls[1..], shard, t - 1);
    }
  }

  /** And it gets through if every shard is. */
  lemma {:induction false} PolledIsDrained(
    pending: seq<Shard>, active: seq<Shard>, workers: nat, polls: seq<Poll>)
    requires WithFiles(pending + active) && NoneTwice(pending, active)
    requires forall shard :: shard in pending || shard in active ==>
               PolledWell(pending, active, workers, polls, shard)
    ensures Drains(pending, active, workers, polls)
    decreases |polls|
  {
    if pending != [] || active != [] {
      var some := if pending != [] then pending[0] else active[0];
      WellNowOrLater(pending, active, workers, polls, some);
      var (waiting, window) := Fill(pending, active, workers);
      var left := Unanswered(window, polls[0]);
      FillMembers(pending, active, workers);
      UnansweredMembers(window, polls[0]);
      StillNoneTwice(pending, active, workers, polls[0]);
      forall shard | shard in window && shard in polls[0] ensures Faultless(polls[0][shard]) {
        WellNowOrLater(pending, active, workers, polls, shard);
      }
      forall shard | shard in waiting || shard in left
        ensures PolledWell(waiting, left, workers, polls[1..], shard)
      {
        WellNowOrLater(pending, active, workers, polls, shard);
      }
      assert WithFiles(window) && WithFiles(waiting + left);
      CleanIsFaultless(window, polls[0]);
      PolledIsDrained(waiting, left, workers, polls[1..]);
    }
  }

  lemma {:induction false} StillNoneTwice(pending: seq<Shard>, active: seq<Shard>, workers: nat, poll: Poll)
    requires NoneTwice(pending, active)
    ensures var (waiting, window) := Fill(pending, active, workers);
            && NoneTwice(waiting, Unanswered(window, poll))
            && forall shard :: shard in waiting ==> shard !in window
  {
    var (waiting, window) := Fill(pending, active, workers);
    FillNoneTwice(pending, active, workers);
    forall shard ensures Times(waiting, Unanswered(window, poll), shard) <= 1 {
      assert Times(waiting, window, shard) <= 1;
      UnansweredTimes(window, poll, shard);
    }
    forall shard | shard in waiting ensures shard !in window {
      TimesBoth(waiting, window, shard);
    }
  }

  /** A planned shard is done: its result was recorded before, or its test process reports faultlessly. */
  ghost predicate Done(
    plan: seq<Shard>, durable: Progress, limit: nat, timing: TimingHistory, polls: seq<Poll>, reports: seq<Evidence>,
    shard: Shard)
  {
    Recorded(durable, shard) || exists e :: AnsweredBy(plan, durable, limit, timing, polls, reports, shard, e)
  }

  lemma {:induction false} PendingOnce(plan: seq<Shard>, durable: Progress, parallel: bool, shards: seq<Shard>)
    requires Frozen(plan) && multiset(shards) == multiset(Pending(plan, durable, parallel))
    ensures NoneTwice(shards, [])
  {
    forall shard ensures Times(shards, [], shard) <= 1 {
      CountPending(plan, durable, parallel, shard);
      CountPlan(plan, shard);
    }
  }

  lemma {:induction false} OnePlace(shards: seq<Shard>, i: nat, k: nat)
    requires NoneTwice(shards, []) && i < |shards| && k < |shards| && shards[i] == shards[k]
    ensures i == k
  {
    assert Times(shards, [], shards[i]) <= 1;
    if i < k { CountTwice(shards, i, k); }
    if k < i { CountTwice(shards, k, i); }
  }

  lemma {:induction false} ReportedIsDone(
    plan: seq<Shard>, durable: Progress, limit: nat, timing: TimingHistory, polls: seq<Poll>, reports: seq<Evidence>,
    shard: Shard)
    requires Frozen(plan) && AllReported(Pending(plan, durable, false), reports)
    requires shard in plan && shard.isolation == Exclusive
    ensures Done(plan, durable, limit, timing, polls, reports, shard)
  {
    var exclusive := Pending(plan, durable, false);
    PendingMember(plan, durable, false, shard);
    if !Recorded(durable, shard) {
      PendingHasFiles(plan, durable, false, exclusive);
      var i :| 0 <= i < |exclusive| && exclusive[i] == shard;
      AcceptedExactly(shard, reports[i]);
      assert AnsweredBy(plan, durable, limit, timing, polls, reports, shard, reports[i]);
    }
  }

  lemma {:induction false} DoneIsReported(
    plan: seq<Shard>, durable: Progress, limit: nat, timing: TimingHistory, polls: seq<Poll>, reports: seq<Evidence>,
    i: nat)
    requires Frozen(plan) && i < |Pending(plan, durable, false)|
    requires Done(plan, durable, limit, timing, polls, reports, Pending(plan, durable, false)[i])
    ensures i < |reports| && Outcome(Pending(plan, durable, false)[i], reports[i]).Some?
  {
    var exclusive := Pending(plan, durable, false);
    PendingHasFiles(plan, durable, false, exclusive);
    PendingOnce(plan, durable, false, exclusive);
    var shard := exclusive[i];
    assert shard in exclusive;
    var e :| AnsweredBy(plan, durable, limit, timing, polls, reports, shard, e);
    var k :| 0 <= k < |reports| && k < |exclusive| && exclusive[k] == shard && reports[k] == e;
    OnePlace(exclusive, i, k);
    AcceptedExactly(shard, e);
  }

  /** Every planned shard that runs in this phase is done. */
  ghost predicate AllDone(
    plan: seq<Shard>, durable: Progress, limit: nat, timing: TimingHistory, polls: seq<Poll>, reports: seq<Evidence>,
    parallel: bool)
  {
    forall shard :: shard in plan && (shard.isolation != Exclusive) == parallel ==>
      Done(plan, durable, limit, timing, polls, reports, shard)
  }

  /** The exclusive phase gets through exactly when each of its shards is done. */
  lemma {:induction false} ExclusiveDone(
    plan: seq<Shard>, durable: Progress, limit: nat, timing: TimingHistory, polls: seq<Poll>, reports: seq<Evidence>)
    requires Frozen(plan)
    ensures AllReported(Pending(plan, durable, false), reports)
            <==> AllDone(plan, durable, limit, timing, polls, reports, false)
  {
    var exclusive := Pending(plan, durable, false);
    if AllReported(exclusive, reports) {
      forall shard | shard in plan && shard.isolation == Exclusive
        ensures Done(plan, durable, limit, timing, polls, reports, shard)
      {
        ReportedIsDone(plan, durable, limit, timing, polls, reports, shard);
      }
    }
    if AllDone(plan, durable, limit, timing, polls, reports, false) {
      PendingHasFiles(plan, durable, false, exclusive);
      forall i | 0 <= i < |exclusive| ensures i < |reports| && Outcome(exclusive[i], reports[i]).Some? {
        assert exclusive[i] in exclusive;
        DoneIsReported(plan, durable, limit, timing, polls, reports, i);
      }
      if exclusive != [] {
        var last := |exclusive| - 1;
        assert exclusive[last] in exclusive;
        DoneIsReported(plan, durable, limit, timing, polls, reports, last);
      }
    }
  }

  lemma {:induction false} PolledIsDone(
    plan: seq<Shard>, durable: Progress, limit: nat, timing: TimingHistory, polls: seq<Poll>, reports: seq<Evidence>,
    order: seq<Shard>, shard: Shard)
    requires Frozen(plan) && InRunOrder(timing, Pending(plan, durable, true), order)
    requires Drains(order, [], Workers(|order|, limit), polls)
    requires shard in plan && shard.isolation != Exclusive
    ensures Done(plan, durable, limit, timing, polls, reports, shard)
  {
    PendingMember(plan, durable, true, shard);
    if !Recorded(durable, shard) {
      PendingHasFiles(plan, durable, true, order);
      assert order + [] == order;
      assert shard in multiset(order);
      DrainedIsPolled(order, [], Workers(|order|, limit), polls, shard);
      var e :| Faultless(e) && PollAnswers(order, [], Workers(|order|, limit), polls, shard, e);
      assert AnsweredBy(plan, durable, limit, timing, polls, reports, shard, e);
    }
  }

  lemma {:induction false} DoneIsPolled(
    plan: seq<Shard>, durable: Progress, limit: nat, timing: TimingHistory, polls: seq<Poll>, reports: seq<Evidence>,
    order: seq<Shard>, shard: Shard)
    requires Frozen(plan) && InRunOrder(timing, Pending(plan, durable, true), order)
    requires shard in order && Done(plan, durable, limit, timing, polls, reports, shard)
    ensures PolledWell(order, [], Workers(|order|, limit), polls, shard)
  {
    PendingHasFiles(plan, durable, true, order);
    var e :| AnsweredBy(plan, durable, limit, timing, polls, reports, shard, e);
    var same :| InRunOrder(timing, Pending(plan, durable, true), same)
      && PollAnswers(same, [], if |same| < limit then |same| else limit, polls, shard, e);
    PendingDistinct(plan, durable, order);
    OneRunOrder(timing, order, same);
  }

  /** The rolling window gets through exactly when each parallel shard is done. */
  lemma {:induction false} ParallelDone(
    plan: seq<Shard>, durable: Progress, limit: nat, timing: TimingHistory, polls: seq<Poll>, reports: seq<Evidence>,
    order: seq<Shard>)
    requires Frozen(plan) && InRunOrder(timing, Pending(plan, durable, true), order)
    ensures Drains(order, [], Workers(|order|, limit), polls)
            <==> AllDone(plan, durable, limit, timing, polls, reports, true)
  {
    var workers := Workers(|order|, limit);
    if Drains(order, [], workers, polls) {
      forall shard | shard in plan && shard.isolation != Exclusive
        ensures Done(plan, durable, limit, timing, polls, reports, shard)
      {
        PolledIsDone(plan, durable, limit, timing, polls, reports, order, shard);
      }
    }
    if AllDone(plan, durable, limit, timing, polls, reports, true) {
      PendingHasFiles(plan, durable, true, order);
      PendingOnce(plan, durable, true, order);
      assert order + [] == order;
      forall shard | shard in order ensures PolledWell(order, [], workers, polls, shard) {
        DoneIsPolled(plan, durable, limit, timing, polls, reports, order, shard);
      }
      PolledIsDrained(order, [], workers, polls);
    }
  }

  /** A process finishes if and only if the result of every planned shard was recorded before or is
      reported faultlessly: by the poll that finds the shard finished, or in its own turn. */
  lemma {:induction false} FinishesExactly(
    plan: seq<Shard>, durable: Progress, limit: nat, timing: TimingHistory, polls: seq<Poll>, reports: seq<Evidence>,
    finished: bool, completed: Progress)
    requires Frozen(plan) && ComesTo(plan, durable, limit, timing, polls, reports, finished, completed)
    ensures finished <==>
              forall shard :: shard in plan ==> Done(plan, durable, limit, timing, polls, reports, shard)
  {
    var exclusive := Pending(plan, durable, false);
    var order, middle :| InRunOrder(timing, Pending(plan, durable, true), order)
      && WindowThenRest(order, exclusive, durable, limit, polls, reports, middle, finished, completed);
    ParallelDone(plan, durable, limit, timing, polls, reports, order);
    ExclusiveDone(plan, durable, limit, timing, polls, reports);
  }

  // ---- The totals -------------------------------------------------------

  /** The three counts of one shard, or of many. */
  datatype Counts = Counts(collected: int, passed: int, skipped: int)

  function Sum(counts: seq<Counts>): Counts {
    if counts == [] then Counts(0, 0, 0) else
      var t, last := Sum(counts[..|counts| - 1]), counts[|counts| - 1];
      Counts(t.collected + last.collected, t.passed + last.passed, t.skipped + last.skipped)
  }

  /** The counts of a planned shard are those of its earlier row, if it has one, and else those its test
      process reported. */
  ghost predicate CountsFor(
    plan: seq<Shard>, durable: Progress, limit: nat, timing: TimingHistory, polls: seq<Poll>, reports: seq<Evidence>,
    shard: Shard, c: Counts)
  {
    if Recorded(durable, shard)
    then var row := durable[shard.index]; c == Counts(row.collected, row.passed, row.skipped)
    else exists e :: AnsweredBy(plan, durable, limit, timing, polls, reports, shard, e)
           && c == Counts(e.collected, e.passed, e.skipped)
  }

  lemma {:induction false} TotalsOfPermutation(results: Progress, a: seq<nat>, b: seq<nat>)
    requires multiset(a) == multiset(b) && Known(results, a) && Known(results, b)
    ensures Totals(results, a) == Totals(results, b)
    decreases |a|
  {
    if a == [] {
      assert |multiset(b)| == 0;
    } else {
      var front, last := a[..|a| - 1], a[|a| - 1];
      assert a == front + [last];
      var k := FindLast(front, last, b);
      var left, right := b[..k], b[k + 1..];
      assert b == left + [last] + right;
      TotalsOfPermutation(results, front, left + right);
      TotalsMiddle(results, left, last, right);
    }
  }

  lemma {:induction false} TotalsMiddle(results: Progress, left: seq<nat>, k: nat, right: seq<nat>)
    requires Known(results, left + [k] + right) && Known(results, left + right) && k in results
    ensures Totals(results, left + [k] + right) == Added(Totals(results, left + right), results[k])
    decreases |right|
  {
    if right == [] {
      TotalsAppend(results, left, k);
      assert left + [k] + right == left + [k] && left + right == left;
    } else {
      var front, last := right[..|right| - 1], right[|right| - 1];
      assert left + [k] + right == left + [k] + front + [last] && left + right == left + front + [last];
      assert last in left + right;
      assert forall x :: x in left + [k] + front ==> x in left + [k] + right;
      assert forall x :: x in left + front ==> x in left + right;
      TotalsMiddle(results, left, k, front);
      TotalsAppend(results, left + [k] + front, last);
      TotalsAppend(results, left + front, last);
    }
  }

  function IndexesOf(plan: seq<Shard>): seq<nat> {
    seq(|plan|, i requires 0 <= i < |plan| => plan[i].index)
  }

  /** The counts of the rows of these shards. */
  function RowCounts(results: Progress, indexes: seq<nat>): seq<Counts>
    requires Known(results, indexes)
  {
    seq(|indexes|, i requires 0 <= i < |indexes| =>
      (KnownAt(results, indexes, i);
       var row := results[indexes[i]]; Counts(row.collected, row.passed, row.skipped)))
  }

  lemma {:induction false} TotalsAreSums(results: Progress, indexes: seq<nat>)
    requires Known(results, indexes)
    ensures var t, c := Totals(results, indexes), Sum(RowCounts(results, indexes));
            && t.collected == c.collected && t.passed == c.passed && t.skipped == c.skipped
            && t.shardCount == |indexes|
    decreases |indexes|
  {
    if indexes != [] {
      var n := |indexes| - 1;
      TotalsAreSums(results, indexes[..n]);
      assert RowCounts(results, indexes)[..n] == RowCounts(results, indexes[..n]);
    }
  }

  lemma {:induction false} SameIndexes(plan: seq<Shard>, indexes: seq<nat>)
    requires DistinctIndexes(plan) && Increasing(indexes, Below)
    requires forall k :: k in indexes <==> exists i :: 0 <= i < |plan| && plan[i].index == k
    ensures multiset(indexes) == multiset(IndexesOf(plan))
  {
    var planned := IndexesOf(plan);
    forall k ensures multiset(indexes)[k] == multiset(planned)[k] {
      CountDistinct(indexes, k);
      CountDistinct(planned, k);
      if i :| 0 <= i < |planned| && planned[i] == k { assert plan[i].index == k; }
      if i :| 0 <= i < |plan| && plan[i].index == k { assert planned[i] == k; }
    }
  }

  lemma {:induction false} CountDistinct(ks: seq<nat>, k: nat)
    requires forall i, j :: 0 <= i < j < |ks| ==> ks[i] != ks[j]
    ensures multiset(ks)[k] == if k in ks then 1 else 0
    decreases |ks|
  {
    if ks != [] {
      var n := |ks| - 1;
      CountDistinct(ks[..n], k);
      assert ks == ks[..n] + [ks[n]];
    }
  }

  /** Totals over the planned shards' rows are sums in plan order. */
  lemma {:induction false} PlanTotals(plan: seq<Shard>, results: Progress, t: Summary)
    requires DistinctIndexes(plan) && TotalOf(results, t)
    requires forall k :: k in results <==> exists i :: 0 <= i < |plan| && plan[i].index == k
    ensures Known(results, IndexesOf(plan))
    ensures var c := Sum(RowCounts(results, IndexesOf(plan)));
            t == Summary(c.collected, c.passed, c.skipped, |plan|)
  {
    var indexes: seq<nat> :| InIndexOrder(results, indexes) && t == Totals(results, indexes);
    forall k ensures k in indexes <==> k in results {
      assert k in Elements(indexes) <==> k in indexes;
    }
    forall k | k in IndexesOf(plan) ensures k in results {
      var i :| 0 <= i < |plan| && IndexesOf(plan)[i] == k;
      assert plan[i].index == k;
    }
    SameIndexes(plan, indexes);
    TotalsOfPermutation(results, indexes, IndexesOf(plan));
    TotalsAreSums(results, IndexesOf(plan));
  }

  lemma {:induction false} PlannedKeys(plan: seq<Shard>, completed: Progress)
    requires DistinctIndexes(plan) && forall i :: 0 <= i < |plan| ==> Cached(completed, plan[i])
    ensures var results := CachedResults(plan, completed);
            && (forall k :: k in results <==> exists i :: 0 <= i < |plan| && plan[i].index == k)
            && (forall i :: 0 <= i < |plan| ==>
                  plan[i].index in results && results[plan[i].index] == completed[plan[i].index])
  {
    forall i | 0 <= i < |plan|
      ensures plan[i].index in CachedResults(plan, completed)
      ensures CachedResults(plan, completed)[plan[i].index] == completed[plan[i].index]
    {
      assert plan[i] in plan;
    }
  }

  /** The row of a planned shard that is durable at the end: the earlier one, or one from an answer. */
  lemma {:induction false} RowSource(
    plan: seq<Shard>, durable: Progress, limit: nat, timing: TimingHistory, polls: seq<Poll>, reports: seq<Evidence>,
    finished: bool, completed: Progress, shard: Shard)
    requires Frozen(plan) && ComesTo(plan, durable, limit, timing, polls, reports, finished, completed)
    requires shard in plan && Recorded(completed, shard)
    ensures var row := completed[shard.index];
            CountsFor(plan, durable, limit, timing, polls, reports, shard,
                      Counts(row.collected, row.passed, row.skipped))
  {
    RowsRepeatReports(plan, durable, limit, timing, polls, reports, finished, completed);
    var k := shard.index;
    if RowFromAnswer(plan, durable, limit, timing, polls, reports, k, completed[k]) {
      var other: Shard, e :| other.index == k && Repeats(completed[k], other, e)
        && AnsweredBy(plan, durable, limit, timing, polls, reports, other, e);
      IndexNamesShard(plan, other, shard);
    }
  }

  /** The totals are the sums of `counts`, which holds the counts of every planned shard, in plan order. */
  ghost predicate AddsUp(
    plan: seq<Shard>, durable: Progress, limit: nat, timing: TimingHistory, polls: seq<Poll>, reports: seq<Evidence>,
    counts: seq<Counts>, t: Summary)
  {
    && |counts| == |plan|
    && (forall i :: 0 <= i < |plan| ==>
          CountsFor(plan, durable, limit, timing, polls, reports, plan[i], counts[i]))
    && t == Summary(Sum(counts).collected, Sum(counts).passed, Sum(counts).skipped, |plan|)
  }

  /** A run that succeeds returns the sums, over the planned shards, of the three counts their test
      processes reported, in this process or, for the shards recorded before, in an earlier one. */
  lemma {:induction false} TotalsAddUpReports(
    plan: seq<Shard>, durable: Progress, limit: nat, timing: TimingHistory, polls: seq<Poll>, reports: seq<Evidence>,
    completed: Progress, t: Summary)
    returns (counts: seq<Counts>)
    requires Frozen(plan) && ComesTo(plan, durable, limit, timing, polls, reports, true, completed)
    requires Accounted(plan, completed, Ok(t))
    ensures AddsUp(plan, durable, limit, timing, polls, reports, counts, t)
  {
    var results := CachedResults(plan, completed);
    PlannedKeys(plan, completed);
    PlanTotals(plan, results, t);
    counts := RowCounts(results, IndexesOf(plan));
    forall i | 0 <= i < |plan|
      ensures CountsFor(plan, durable, limit, timing, polls, reports, plan[i], counts[i])
    {
      RowSource(plan, durable, limit, timing, polls, reports, true, completed, plan[i]);
    }
  }
}

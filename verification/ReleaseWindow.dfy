/** Taking the finished shards out of the window, and what recording them makes durable. */
module ReleaseWindow {
  import opened Outcomes
  import opened Ordering
  import opened ReleasePlan
  import opened ReleaseRun
  import opened ReleaseSchedule

  // ---- Shards of a batch ------------------------------------------------

  lemma {:induction false} ShardsCons(c: Collected, batch: seq<Collected>)
    ensures Shards([c] + batch) == [c.shard] + Shards(batch)
  {
    assert ([c] + batch)[1..] == batch;
  }

  lemma {:induction false} ShardsConcat(a: seq<Collected>, b: seq<Collected>)
    ensures Shards(a + b) == Shards(a) + Shards(b)
    decreases |a|
  {
    if a == [] {
      assert a + b == b;
    } else {
      var first, rest := a[0], a[1..];
      ShardsConcat(rest, b);
      ShardsCons(first, rest + b);
      ShardsCons(first, rest);
      assert a == [first] + rest && a + b == [first] + (rest + b);
    }
  }

  lemma ShardsAppend(batch: seq<Collected>, c: Collected)
    ensures Shards(batch + [c]) == Shards(batch) + [c.shard]
  {
    ShardsConcat(batch, [c]);
    ShardsCons(c, []);
    assert [c] + [] == [c];
  }

  lemma ShardsInsert(left: seq<Collected>, c: Collected, right: seq<Collected>)
    ensures multiset(Shards(left + [c] + right)) == multiset(Shards(left + right)) + multiset{c.shard}
  {
    ShardsConcat(left, right);
    ShardsConcat(left + [c], right);
    ShardsAppend(left, c);
  }

  lemma {:induction false} ShardsOfPermutation(a: seq<Collected>, b: seq<Collected>)
    requires multiset(a) == multiset(b)
    ensures multiset(Shards(a)) == multiset(Shards(b))
    decreases |a|
  {
    if a == [] {
      assert |multiset(b)| == 0;
    } else {
      var front, last := a[..|a| - 1], a[|a| - 1];
      assert a == front + [last];
      var k := FindLast(front, last, b);
      ShardsOfPermutation(front, b[..k] + b[k + 1..]);
      ShardsInsert(b[..k], last, b[k + 1..]);
      ShardsAppend(front, last);
      assert b == b[..k] + [last] + b[k + 1..];
    }
  }

  lemma {:induction false} ShardsAt(batch: seq<Collected>, i: nat)
    requires i < |batch|
    ensures Shards(batch)[i] == batch[i].shard
    decreases |batch|
  {
    if i > 0 { ShardsAt(batch[1..], i - 1); }
  }

  lemma {:induction false} InShards(batch: seq<Collected>, shard: Shard) returns (i: nat)
    requires shard in Shards(batch)
    ensures i < |batch| && batch[i].shard == shard
    decreases |batch|
  {
    if batch[0].shard == shard {
      i := 0;
    } else {
      var later := InShards(batch[1..], shard);
      i := later + 1;
    }
  }

  // ---- Taking -----------------------------------------------------------

  predicate ByIndex(a: Collected, b: Collected) {
    a.shard.index <= b.shard.index
  }

  /** `c` is a shard the poll found finished, with what it came to. */
  ghost predicate Answers(poll: Poll, c: Collected) {
    c.shard in poll && c.outcome == Outcome(c.shard, poll[c.shard])
  }

  ghost predicate AllAnswer(poll: Poll, found: seq<Collected>) {
    forall c :: c in found ==> Answers(poll, c)
  }

  /** `done` is split into the shards the poll found running and those it found finished. */
  ghost predicate Taken(done: seq<Shard>, poll: Poll, still: seq<Shard>, found: seq<Collected>) {
    && still == Unanswered(done, poll)
    && multiset(done) == multiset(still) + multiset(Shards(found))
    && AllAnswer(poll, found)
    && |still| + |found| == |done|
  }

  lemma {:induction false} LeaveRunning(
    done: seq<Shard>, poll: Poll, still: seq<Shard>, found: seq<Collected>, shard: Shard)
    requires Taken(done, poll, still, found) && shard !in poll
    ensures Taken(done + [shard], poll, still + [shard], found)
  {
    assert (done + [shard])[..|done|] == done;
  }

  lemma {:induction false} TakeOne(
    done: seq<Shard>, poll: Poll, still: seq<Shard>, found: seq<Collected>, shard: Shard)
    requires Taken(done, poll, still, found) && shard in poll
    ensures Taken(done + [shard], poll, still, found + [Collected(shard, Outcome(shard, poll[shard]))])
  {
    assert (done + [shard])[..|done|] == done;
    ShardsAppend(found, Collected(shard, Outcome(shard, poll[shard])));
  }

  lemma {:induction false} TakenInAnyOrder(
    done: seq<Shard>, poll: Poll, still: seq<Shard>, found: seq<Collected>, batch: seq<Collected>)
    requires Taken(done, poll, still, found) && multiset(batch) == multiset(found)
    ensures Taken(done, poll, still, batch)
  {
    ShardsOfPermutation(found, batch);
    assert |multiset(batch)| == |multiset(found)|;
    forall c | c in batch ensures c in found {
      assert c in multiset(batch);
    }
  }

  /** Puts one shard of the window with those still running, or with what finished. */
  method SortOut(shard: Shard, poll: Poll, running: seq<Shard>, finished: seq<Collected>, ghost done: seq<Shard>)
    returns (still: seq<Shard>, found: seq<Collected>)
    requires shard.files != [] && Taken(done, poll, running, finished)
    ensures Taken(done + [shard], poll, still, found)
  {
    still, found := running, finished;
    if shard in poll {
      TakeOne(done, poll, still, found, shard);
      found := found + [Collected(shard, ExecuteShard(shard, poll[shard]))];
    } else {
      LeaveRunning(done, poll, still, found, shard);
      still := still + [shard];
    }
  }

  ghost predicate AllHaveFiles(shards: seq<Shard>) {
    forall i :: 0 <= i < |shards| ==> shards[i].files != []
  }

  /** Sorts out the whole window. */
  method SortOutAll(active: seq<Shard>, poll: Poll) returns (still: seq<Shard>, found: seq<Collected>)
    requires AllHaveFiles(active)
    ensures Taken(active, poll, still, found)
  {
    still, found := [], [];
    ghost var done: seq<Shard> := [];
    TakenNothing(poll);
    for i := 0 to |active|
      invariant done == active[..i] && Taken(done, poll, still, found)
    {
      still, found := SortOut(active[i], poll, still, found, done);
      done := done + [active[i]];
    }
    assert done == active;
  }

  /** Takes out of the window exactly the shards the poll found finished, in index order. */
  method TakeFinished(active: seq<Shard>, poll: Poll) returns (still: seq<Shard>, batch: seq<Collected>)
    requires AllHaveFiles(active)
    ensures Taken(active, poll, still, batch) && Sorted(batch, ByIndex)
  {
    var found;
    still, found := SortOutAll(active, poll);
    IndexPreorder();
    batch := SortBy(found, ByIndex);
    TakenInAnyOrder(active, poll, still, found, batch);
  }

  lemma TakenNothing(poll: Poll)
    ensures Taken([], poll, [], [])
  {
  }

  lemma IndexPreorder()
    ensures TotalPreorder(ByIndex)
  {
  }

  /** The collected shards are exactly the answered ones, and the others are still running. */
  lemma {:induction false} TakenMembers(
    active: seq<Shard>, poll: Poll, still: seq<Shard>, batch: seq<Collected>, shard: Shard)
    requires Taken(active, poll, still, batch)
    ensures shard in active && shard in poll <==> exists c :: c in batch && c.shard == shard
    ensures shard in still <==> shard in active && shard !in poll
  {
    UnansweredMembers(active, poll);
    assert shard in active <==> shard in multiset(active);
    if shard in active && shard in poll {
      assert shard in multiset(Shards(batch));
      var i := InShards(batch, shard);
      assert batch[i] in batch;
    }
    if c :| c in batch && c.shard == shard {
      var i :| 0 <= i < |batch| && batch[i] == c;
      ShardsAt(batch, i);
      assert shard in multiset(Shards(batch));
    }
  }

  lemma {:induction false} TakenIsClean(
    active: seq<Shard>, poll: Poll, still: seq<Shard>, batch: seq<Collected>)
    requires Taken(active, poll, still, batch)
    ensures CleanBatch(batch)
  {
    forall c | c in batch && c.outcome.Some? ensures CleanResultOf(c.outcome.value, c.shard) {
      assert Answers(poll, c);
    }
  }

  // ---- Recording --------------------------------------------------------

  ghost predicate AnyFailed(batch: seq<Collected>) {
    exists c :: c in batch && c.outcome.None?
  }

  lemma {:induction false} FailureIsUnclean(
    active: seq<Shard>, poll: Poll, still: seq<Shard>, batch: seq<Collected>)
    requires Taken(active, poll, still, batch)
    ensures AnyFailed(batch) <==> !AllClean(active, poll)
  {
    if c :| c in batch && c.outcome.None? {
      TakenMembers(active, poll, still, batch, c.shard);
      assert Answers(poll, c);
    }
    if !AllClean(active, poll) {
      var shard :| shard in active && shard in poll && !Clean(shard, poll);
      TakenMembers(active, poll, still, batch, shard);
      var c :| c in batch && c.shard == shard;
      assert Answers(poll, c);
    }
  }

  /** The durable rows once a batch is recorded front to back, up to its first failure. */
  function Record(batch: seq<Collected>, completed: Progress): Progress
    decreases |batch|
  {
    if batch == [] then completed else
      match batch[0].outcome
      case None => completed
      case Some(row) => Record(batch[1..], WithResult(completed, row))
  }

  /** Entry `j` is recorded: nothing up to it failed. */
  ghost predicate Recorded(batch: seq<Collected>, j: nat) {
    j < |batch| && forall i :: 0 <= i <= j ==> batch[i].outcome.Some?
  }

  ghost predicate RecordedAt(batch: seq<Collected>, k: nat) {
    exists j: nat :: Recorded(batch, j) && batch[j].shard.index == k
  }

  /** Indexes strictly rise, and every row carries its shard's index. */
  ghost predicate Strict(batch: seq<Collected>) {
    && (forall i, j :: 0 <= i < j < |batch| ==> batch[i].shard.index < batch[j].shard.index)
    && CleanBatch(batch)
  }

  /** What recording a batch does to each row. */
  ghost predicate Records(batch: seq<Collected>, before: Progress, after: Progress) {
    && (forall j: nat :: Recorded(batch, j) ==>
          batch[j].shard.index in after && batch[j].outcome == Some(after[batch[j].shard.index]))
    && (forall k :: k in before && !RecordedAt(batch, k) ==> k in after && after[k] == before[k])
    && (forall k :: k in after ==> k in before || RecordedAt(batch, k))
  }

  lemma {:induction false} RecordedLater(batch: seq<Collected>, j: nat)
    requires batch != [] && batch[0].outcome.Some?
    ensures Recorded(batch[1..], j) <==> Recorded(batch, j + 1)
  {
    if Recorded(batch[1..], j) {
      forall i | 0 <= i <= j + 1 ensures batch[i].outcome.Some? {
        if i > 0 { assert batch[i] == batch[1..][i - 1]; }
      }
    }
    if Recorded(batch, j + 1) {
      forall i | 0 <= i <= j ensures batch[1..][i].outcome.Some? {
        assert batch[1..][i] == batch[i + 1];
      }
    }
  }

  lemma {:induction false} RecordedAtLater(batch: seq<Collected>, k: nat)
    requires batch != [] && batch[0].outcome.Some?
    ensures RecordedAt(batch, k) <==> batch[0].shard.index == k || RecordedAt(batch[1..], k)
  {
    assert Recorded(batch, 0);
    if j: nat :| Recorded(batch, j) && batch[j].shard.index == k {
      if j > 0 {
        RecordedLater(batch, j - 1);
        assert batch[1..][j - 1] == batch[j];
      }
    }
    if j: nat :| Recorded(batch[1..], j) && batch[1..][j].shard.index == k {
      RecordedLater(batch, j);
      assert batch[1..][j] == batch[j + 1];
    }
  }

  lemma {:induction false} StrictRest(batch: seq<Collected>)
    requires Strict(batch) && batch != []
    ensures Strict(batch[1..]) && !RecordedAt(batch[1..], batch[0].shard.index)
  {
    var rest := batch[1..];
    forall i, j | 0 <= i < j < |rest| ensures rest[i].shard.index < rest[j].shard.index {
      assert batch[i + 1].shard.index < batch[j + 1].shard.index;
    }
    forall j: nat | Recorded(rest, j) ensures rest[j].shard.index != batch[0].shard.index {
      assert batch[0].shard.index < batch[j + 1].shard.index;
    }
  }

  lemma {:induction false} RecordFirst(batch: seq<Collected>, before: Progress, row: ShardResult, after: Progress)
    requires Strict(batch) && batch != [] && batch[0].outcome == Some(row)
    requires Records(batch[1..], WithResult(before, row), after)
    ensures Records(batch, before, after)
  {
    StrictRest(batch);
    assert batch[0] in batch && row.index == batch[0].shard.index;
    forall j: nat | Recorded(batch, j)
      ensures batch[j].shard.index in after && batch[j].outcome == Some(after[batch[j].shard.index])
    {
      if j > 0 {
        RecordedLater(batch, j - 1);
        assert batch[1..][j - 1] == batch[j];
      }
    }
    forall k: nat ensures RecordedAt(batch, k) <==> row.index == k || RecordedAt(batch[1..], k) {
      RecordedAtLater(batch, k);
    }
  }

  lemma {:induction false} RecordRecords(batch: seq<Collected>, before: Progress)
    requires Strict(batch)
    ensures Records(batch, before, Record(batch, before))
    decreases |batch|
  {
    if batch != [] && batch[0].outcome.Some? {
      StrictRest(batch);
      RecordRecords(batch[1..], WithResult(before, batch[0].outcome.value));
      RecordFirst(batch, before, batch[0].outcome.value, Record(batch, before));
    }
  }

  /** Shards with distinct indexes, in index order, are in strict order. */
  lemma {:induction false} SortedIsStrict(
    active: seq<Shard>, poll: Poll, still: seq<Shard>, batch: seq<Collected>)
    requires DistinctIndexes(active) && Taken(active, poll, still, batch) && Sorted(batch, ByIndex)
    ensures Strict(batch)
  {
    TakenIsClean(active, poll, still, batch);
    forall i, j | 0 <= i < j < |batch| ensures batch[i].shard.index < batch[j].shard.index {
      assert ByIndex(batch[i], batch[j]);
      var a, b := batch[i].shard, batch[j].shard;
      TakenMembers(active, poll, still, batch, a);
      TakenMembers(active, poll, still, batch, b);
      if a.index == b.index {
        IndexNamesShard(active, a, b);
        ShardsAt(batch, i);
        ShardsAt(batch, j);
        CountTwice(Shards(batch), i, j);
        CountPlan(active, a);
        assert false;
      }
    }
  }

  lemma {:induction false} RecordedIsSaved(
    active: seq<Shard>, poll: Poll, still: seq<Shard>, batch: seq<Collected>, j: nat)
    requires Taken(active, poll, still, batch) && Strict(batch) && j < |batch|
    ensures Recorded(batch, j) <==> Saved(active, poll, batch[j].shard)
  {
    TakenMembers(active, poll, still, batch, batch[j].shard);
    if Recorded(batch, j) {
      forall other | other in active && other in poll && !Clean(other, poll)
        ensures batch[j].shard.index < other.index
      {
        TakenMembers(active, poll, still, batch, other);
        var c :| c in batch && c.shard == other;
        var p :| 0 <= p < |batch| && batch[p] == c;
        assert Answers(poll, c) && p > j;
      }
      assert Answers(poll, batch[j]);
    }
    if Saved(active, poll, batch[j].shard) {
      forall i | 0 <= i <= j ensures batch[i].outcome.Some? {
        TakenMembers(active, poll, still, batch, batch[i].shard);
        assert Answers(poll, batch[i]);
        assert Clean(batch[i].shard, poll);
      }
    }
  }

  /** Recording the shards a poll found finished makes exactly the saved ones durable. */
  lemma {:induction false} RecordSaves(
    active: seq<Shard>, poll: Poll, still: seq<Shard>, batch: seq<Collected>, before: Progress)
    requires DistinctIndexes(active) && Taken(active, poll, still, batch) && Sorted(batch, ByIndex)
    ensures Saves(active, poll, before, Record(batch, before))
  {
    SortedIsStrict(active, poll, still, batch);
    RecordRecords(batch, before);
    var after := Record(batch, before);
    forall shard | Saved(active, poll, shard)
      ensures shard.index in after && Outcome(shard, poll[shard]) == Some(after[shard.index])
      ensures RecordedAt(batch, shard.index)
    {
      var j := FindAnswer(active, poll, still, batch, shard);
      RecordedIsSaved(active, poll, still, batch, j);
      assert Recorded(batch, j);
    }
    forall k: nat | RecordedAt(batch, k) ensures exists shard :: Saved(active, poll, shard) && shard.index == k {
      var j: nat :| Recorded(batch, j) && batch[j].shard.index == k;
      RecordedIsSaved(active, poll, still, batch, j);
    }
  }

  lemma {:induction false} FindAnswer(
    active: seq<Shard>, poll: Poll, still: seq<Shard>, batch: seq<Collected>, shard: Shard)
    returns (j: nat)
    requires Taken(active, poll, still, batch) && shard in active && shard in poll
    ensures j < |batch| && batch[j].shard == shard && batch[j].outcome == Outcome(shard, poll[shard])
  {
    TakenMembers(active, poll, still, batch, shard);
    var c :| c in batch && c.shard == shard;
    j :| 0 <= j < |batch| && batch[j] == c;
    assert Answers(poll, c);
  }
}

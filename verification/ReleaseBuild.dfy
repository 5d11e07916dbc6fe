/** Building a shard plan, and why every plan built passes the validator. */
module ReleaseBuild {
  import opened Outcomes
  import opened Ordering
  import opened ReleaseTiming
  import opened ReleaseSplit
  import opened ReleaseBalance
  import opened ReleasePlan

  /** The rows of one isolation class, in order. */
  function WithClass(rows: seq<Row>, isolation: Isolation): seq<Row> {
    if rows == [] then [] else
      var last := rows[|rows| - 1];
      WithClass(rows[..|rows| - 1], isolation) + if last.isolation == isolation then [last] else []
  }

  function FilesOf(rows: seq<Row>, isolation: Isolation): (files: seq<File>)
    ensures RowsOf(files, isolation) == WithClass(rows, isolation)
  {
    if rows == [] then [] else
      var last := rows[|rows| - 1];
      FilesOf(rows[..|rows| - 1], isolation) + if last.isolation == isolation then [last.file] else []
  }

  predicate KnownClass(isolation: Isolation) {
    !isolation.Unknown?
  }

  /** The rows a plan is built from: those whose class the planner knows. */
  function Plannable(rows: seq<Row>): seq<Row> {
    if rows == [] then [] else
      var last := rows[|rows| - 1];
      Plannable(rows[..|rows| - 1]) + if KnownClass(last.isolation) then [last] else []
  }

  lemma {:induction false} PlannableSplits(rows: seq<Row>)
    ensures multiset(Plannable(rows))
            == multiset(WithClass(rows, ParallelSafe)) + multiset(WithClass(rows, ProcessIsolated))
               + multiset(WithClass(rows, Exclusive))
    decreases |rows|
  {
    if rows != [] {
      var front, last := rows[..|rows| - 1], rows[|rows| - 1];
      PlannableSplits(front);
      if KnownClass(last.isolation) {
        assert multiset(Plannable(rows)) == multiset(Plannable(front)) + multiset{last};
        assert multiset(WithClass(rows, last.isolation)) == multiset(WithClass(front, last.isolation)) + multiset{last};
      }
    }
  }

  lemma {:induction false} PlannableCounts(rows: seq<Row>)
    ensures |Plannable(rows)| <= |rows|
    ensures |Plannable(rows)| == |rows| <==> forall i :: 0 <= i < |rows| ==> KnownClass(rows[i].isolation)
    ensures |Plannable(rows)| == |rows| ==> Plannable(rows) == rows
    decreases |rows|
  {
    if rows != [] { PlannableCounts(rows[..|rows| - 1]); }
  }

  // ---- Rows of a plan under construction --------------------------------

  lemma {:induction false} WithClassConcat(a: seq<Row>, b: seq<Row>, isolation: Isolation)
    ensures WithClass(a + b, isolation) == WithClass(a, isolation) + WithClass(b, isolation)
    decreases |b|
  {
    if b == [] {
      assert a + b == a;
    } else {
      var n := |b| - 1;
      WithClassConcat(a, b[..n], isolation);
      assert (a + b)[..|a + b| - 1] == a + b[..n];
    }
  }

  lemma {:induction false} WithClassOfRows(files: seq<File>, c: Isolation, isolation: Isolation)
    ensures WithClass(RowsOf(files, c), isolation) == if c == isolation then RowsOf(files, c) else []
    decreases |files|
  {
    if files != [] {
      var n := |files| - 1;
      WithClassOfRows(files[..n], c, isolation);
      assert RowsOf(files, c)[..n] == RowsOf(files[..n], c);
    }
  }

  lemma RowsOfConcat(a: seq<File>, b: seq<File>, isolation: Isolation)
    ensures RowsOf(a + b, isolation) == RowsOf(a, isolation) + RowsOf(b, isolation)
  {
  }

  lemma {:induction false} RowsOfPermutation(a: seq<File>, b: seq<File>, isolation: Isolation)
    requires multiset(a) == multiset(b)
    ensures multiset(RowsOf(a, isolation)) == multiset(RowsOf(b, isolation))
    decreases |a|
  {
    if a == [] {
      assert |multiset(b)| == 0;
    } else {
      var n, last := |a| - 1, a[|a| - 1];
      assert a == a[..n] + [last];
      var k := FindLast(a[..n], last, b);
      var left, right := b[..k], b[k + 1..];
      RowsOfPermutation(a[..n], left + right, isolation);
      assert b == left + [last] + right;
      RowsOfConcat(a[..n], [last], isolation);
      RowsOfConcat(left + [last], right, isolation);
      RowsOfConcat(left, [last], isolation);
      RowsOfConcat(left, right, isolation);
    }
  }

  // ---- The planner ------------------------------------------------------

  lemma {:induction false} AddShard(plan: seq<Shard>, shard: Shard, before: seq<Row>, files: seq<File>)
    requires Rows(plan) == before + RowsOf(files, shard.isolation)
    ensures Rows(plan + [shard]) == before + RowsOf(files + shard.files, shard.isolation)
  {
    RowsAppend(plan, shard);
    RowsOfConcat(files, shard.files, shard.isolation);
  }

  /** Numbered from one, of known classes, no shard empty or over its class's size limit. */
  ghost predicate PlanOk(timing: TimingHistory, size: int, plan: seq<Shard>) {
    forall i :: 0 <= i < |plan| ==>
      plan[i].index == i + 1 && plan[i].files != [] && KnownClass(plan[i].isolation) && Sized(timing, size, plan[i])
  }

  /** The size limit of a shard, by its class. */
  predicate Sized(timing: TimingHistory, size: int, shard: Shard) {
    if shard.RunsInParallel() then |shard.files| <= PARALLEL_SHARD_SIZE
    else Fits(timing, size, EXCLUSIVE_TARGET, shard.files)
  }

  /** One shard per group, numbered on from `n`. */
  function Numbered(n: nat, groups: seq<seq<File>>, isolation: Isolation): seq<Shard> {
    seq(|groups|, i requires 0 <= i < |groups| => Shard(n + 1 + i, groups[i], isolation))
  }

  lemma NumberedAppend(n: nat, groups: seq<seq<File>>, group: seq<File>, isolation: Isolation)
    ensures Numbered(n, groups + [group], isolation)
            == Numbered(n, groups, isolation) + [Shard(n + 1 + |groups|, group, isolation)]
  {
  }

  /** As few groups of at most eight as hold the files, each in path order, balanced, and exactly those
      that dealing the files out longest first makes. */
  ghost predicate Even(timing: TimingHistory, files: seq<File>, groups: seq<seq<File>>) {
    && multiset(Flatten(groups)) == multiset(files)
    && 8 * (|groups| - 1) < |files| <= 8 * |groups|
    && (forall i :: 0 <= i < |groups| ==> 1 <= |groups[i]| <= 8 && Sorted(groups[i], PathOrder))
    && (files != [] ==> Balanced(timing, MaxFiles(|files|), groups) && DealtOut(timing, files, groups))
  }

  /** The files in order, cut into as few groups as the two limits allow, each as long as it can be. */
  ghost predicate CutShort(timing: TimingHistory, size: int, files: seq<File>, groups: seq<seq<File>>) {
    && IsSplit(timing, size, EXCLUSIVE_TARGET, files, groups) && IsTight(timing, size, EXCLUSIVE_TARGET, groups)
    && forall other :: IsSplit(timing, size, EXCLUSIVE_TARGET, files, other) ==> |groups| <= |other|
  }

  /** The parallel-safe shards, then the process-isolated ones, then the exclusive ones. */
  ghost predicate Consists(
    plan: seq<Shard>, safe: seq<seq<File>>, isolated: seq<seq<File>>, exclusive: seq<seq<File>>)
  {
    plan == Numbered(0, safe, ParallelSafe) + Numbered(|safe|, isolated, ProcessIsolated)
            + Numbered(|safe| + |isolated|, exclusive, Exclusive)
  }

  /** What each part of a plan is made of. */
  ghost predicate Planned(timing: TimingHistory, size: int, inventory: seq<Row>, plan: seq<Shard>) {
    exists safe, isolated, exclusive :: PlannedAs(timing, size, inventory, plan, safe, isolated, exclusive)
  }

  ghost predicate PlannedAs(
    timing: TimingHistory, size: int, inventory: seq<Row>, plan: seq<Shard>,
    safe: seq<seq<File>>, isolated: seq<seq<File>>, exclusive: seq<seq<File>>)
  {
    && Consists(plan, safe, isolated, exclusive)
    && Even(timing, FilesOf(inventory, ParallelSafe), safe)
    && Even(timing, FilesOf(inventory, ProcessIsolated), isolated)
    && CutShort(timing, size, FilesOf(inventory, Exclusive), exclusive)
  }

  /** Numbers groups on from the shards already planned. */
  method AppendGroups(
    timing: TimingHistory, size: int, plan: seq<Shard>, groups: seq<seq<File>>, isolation: Isolation)
    returns (r: seq<Shard>)
    requires PlanOk(timing, size, plan) && KnownClass(isolation)
    requires forall i :: 0 <= i < |groups| ==>
               groups[i] != [] && Sized(timing, size, Shard(|plan| + 1 + i, groups[i], isolation))
    ensures Appended(timing, size, plan, groups, isolation, r)
  {
    r := plan;
    var index := |plan| + 1;
    ghost var done: seq<seq<File>> := [];
    NothingAppended(timing, size, plan, isolation);
    for i := 0 to |groups|
      invariant done == groups[..i] && index == |plan| + 1 + i && Appended(timing, size, plan, done, isolation, r)
    {
      AppendOne(timing, size, plan, done, groups[i], isolation, r);
      r := r + [Shard(index, groups[i], isolation)];
      index := index + 1;
      done := done + [groups[i]];
    }
    assert done == groups;
  }

  /** `r` is the plan with these groups appended. */
  ghost predicate Appended(
    timing: TimingHistory, size: int, plan: seq<Shard>, groups: seq<seq<File>>, isolation: Isolation, r: seq<Shard>)
  {
    && PlanOk(timing, size, r) && r == plan + Numbered(|plan|, groups, isolation)
    && Rows(r) == Rows(plan) + RowsOf(Flatten(groups), isolation)
  }

  lemma NothingAppended(timing: TimingHistory, size: int, plan: seq<Shard>, isolation: Isolation)
    requires PlanOk(timing, size, plan)
    ensures Appended(timing, size, plan, [], isolation, plan)
  {
  }

  lemma {:induction false} AppendOne(
    timing: TimingHistory, size: int, plan: seq<Shard>, groups: seq<seq<File>>, group: seq<File>,
    isolation: Isolation, r: seq<Shard>)
    requires Appended(timing, size, plan, groups, isolation, r) && KnownClass(isolation) && group != []
    requires Sized(timing, size, Shard(|plan| + 1 + |groups|, group, isolation))
    ensures Appended(timing, size, plan, groups + [group], isolation,
                     r + [Shard(|plan| + 1 + |groups|, group, isolation)])
  {
    var shard := Shard(|plan| + 1 + |groups|, group, isolation);
    AddShard(r, shard, Rows(plan), Flatten(groups));
    FlattenAppend(groups, group);
    NumberedAppend(|plan|, groups, group, isolation);
    PlanGrows(timing, size, r, shard);
  }

  lemma PlanGrows(timing: TimingHistory, size: int, plan: seq<Shard>, shard: Shard)
    requires PlanOk(timing, size, plan) && shard.index == |plan| + 1 && shard.files != []
    requires KnownClass(shard.isolation) && Sized(timing, size, shard)
    ensures PlanOk(timing, size, plan + [shard])
  {
  }

  /** The shards of one balanced class. */
  method AppendBalanced(timing: TimingHistory, size: int, plan: seq<Shard>, inventory: seq<Row>, isolation: Isolation)
    returns (r: seq<Shard>, ghost groups: seq<seq<File>>)
    requires PlanOk(timing, size, plan) && KnownClass(isolation) && isolation != Exclusive
    ensures PlanOk(timing, size, r)
    ensures Rows(r) == Rows(plan) + RowsOf(Flatten(groups), isolation)
    ensures multiset(RowsOf(Flatten(groups), isolation)) == multiset(WithClass(inventory, isolation))
    ensures Even(timing, FilesOf(inventory, isolation), groups) && r == plan + Numbered(|plan|, groups, isolation)
  {
    var balanced := BalancedParallelGroups(timing, FilesOf(inventory, isolation));
    groups := balanced;
    r := AppendGroups(timing, size, plan, balanced, isolation);
    RowsOfPermutation(Flatten(groups), FilesOf(inventory, isolation), isolation);
  }

  /** The shards of the exclusive class, or the splitter's error. */
  method AppendExclusive(timing: TimingHistory, size: int, plan: seq<Shard>, inventory: seq<Row>)
    returns (r: Result<seq<Shard>, SplitError>, ghost groups: seq<seq<File>>)
    requires PlanOk(timing, size, plan)
    ensures r.Err? <==> size <= 0
    ensures r.Err? ==> r.error == ShardSizeNotPositive
    ensures r.Ok? ==> CutShort(timing, size, FilesOf(inventory, Exclusive), groups)
    ensures r.Ok? ==> r.value == plan + Numbered(|plan|, groups, Exclusive)
    ensures r.Ok? ==> PlanOk(timing, size, r.value)
    ensures r.Ok? ==> Rows(r.value) == Rows(plan) + WithClass(inventory, Exclusive)
  {
    var files := FilesOf(inventory, Exclusive);
    var bounded := BoundedExclusiveGroups(timing, files, size, EXCLUSIVE_TARGET);
    if bounded.Err? {
      return Err(bounded.error), [];
    }
    groups := bounded.value;
    var longer := AppendGroups(timing, size, plan, bounded.value, Exclusive);
    r := Ok(longer);
  }

  /** What the three parts of a plan amount to. */
  lemma {:induction false} PartsCover(inventory: seq<Row>, safe: seq<File>, isolated: seq<File>, rows: seq<Row>)
    requires multiset(RowsOf(safe, ParallelSafe)) == multiset(WithClass(inventory, ParallelSafe))
    requires multiset(RowsOf(isolated, ProcessIsolated)) == multiset(WithClass(inventory, ProcessIsolated))
    requires rows == RowsOf(safe, ParallelSafe) + RowsOf(isolated, ProcessIsolated) + WithClass(inventory, Exclusive)
    ensures multiset(rows) == multiset(Plannable(inventory))
    ensures WithClass(rows, Exclusive) == WithClass(inventory, Exclusive)
  {
    PlannableSplits(inventory);
    var a, b := RowsOf(safe, ParallelSafe), RowsOf(isolated, ProcessIsolated);
    WithClassConcat(a + b, WithClass(inventory, Exclusive), Exclusive);
    WithClassConcat(a, b, Exclusive);
    WithClassOfRows(safe, ParallelSafe, Exclusive);
    WithClassOfRows(isolated, ProcessIsolated, Exclusive);
    WithClassTwice(inventory, Exclusive);
  }

  lemma {:induction false} WithClassTwice(rows: seq<Row>, isolation: Isolation)
    ensures WithClass(WithClass(rows, isolation), isolation) == WithClass(rows, isolation)
    decreases |rows|
  {
    if rows != [] {
      var front, last := rows[..|rows| - 1], rows[|rows| - 1];
      WithClassTwice(front, isolation);
      WithClassConcat(WithClass(front, isolation), if last.isolation == isolation then [last] else [], isolation);
    }
  }

  lemma {:induction false} PartsConsist(
    safe: seq<Shard>, isolated: seq<Shard>, plan: seq<Shard>,
    a: seq<seq<File>>, b: seq<seq<File>>, c: seq<seq<File>>)
    requires safe == [] + Numbered(0, a, ParallelSafe)
    requires isolated == safe + Numbered(|safe|, b, ProcessIsolated)
    requires plan == isolated + Numbered(|isolated|, c, Exclusive)
    ensures Consists(plan, a, b, c)
  {
  }

  /** Plans the three known classes, parallel-safe first and exclusive last: numbered from one, no shard
      empty or too large, every plannable row exactly once; the first two classes dealt out evenly over as
      few shards as possible, the exclusive files cut, in their order, into as few as the limits allow. */
  method BuildShardPlan(
    timing: TimingHistory, size: int, inventory: seq<Row>) returns (r: Result<seq<Shard>, SplitError>)
    ensures if size <= 0 then r == Err(ShardSizeNotPositive) else r.Ok?
    ensures r.Ok? ==> PlanOk(timing, size, r.value) && Planned(timing, size, inventory, r.value)
    ensures r.Ok? ==> multiset(Rows(r.value)) == multiset(Plannable(inventory))
    ensures r.Ok? ==> WithClass(Rows(r.value), Exclusive) == WithClass(inventory, Exclusive)
  {
    ghost var a, b, c;
    var safe, isolated;
    safe, a := AppendBalanced(timing, size, [], inventory, ParallelSafe);
    assert Rows(safe) == RowsOf(Flatten(a), ParallelSafe);
    isolated, b := AppendBalanced(timing, size, safe, inventory, ProcessIsolated);
    r, c := AppendExclusive(timing, size, isolated, inventory);
    if r.Ok? {
      PartsCover(inventory, Flatten(a), Flatten(b), Rows(r.value));
      PartsConsist(safe, isolated, r.value, a, b, c);
      assert PlannedAs(timing, size, inventory, r.value, a, b, c);
    }
  }

  /** A plan built from an inventory that lists no file twice passes the validator exactly when the
      planner knows every isolation class in it. */
  lemma {:induction false} BuiltPlanIsValid(timing: TimingHistory, size: int, plan: seq<Shard>, inventory: seq<Row>)
    requires DistinctFiles(inventory) && PlanOk(timing, size, plan)
    requires multiset(Rows(plan)) == multiset(Plannable(inventory))
    ensures Covers(plan, inventory) <==> forall i :: 0 <= i < |inventory| ==> KnownClass(inventory[i].isolation)
  {
    CoversIsPermutation(plan, inventory);
    PlannableCounts(inventory);
    if multiset(Rows(plan)) == multiset(inventory) {
      assert |multiset(Plannable(inventory))| == |multiset(inventory)|;
    }
  }
}

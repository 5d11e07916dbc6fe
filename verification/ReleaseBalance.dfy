/**
 Balancing parallel-safe test files over shards: longest files first, each into
 the open shard with the least work.
 */
module ReleaseBalance {
  import opened Ordering
  import opened ReleaseTiming

  const PARALLEL_SHARD_SIZE := 8

  /** A shard that can still take files, as the heap holds it. */
  datatype Slot = Slot(load: real, index: nat)

  predicate SlotLess(a: Slot, b: Slot) {
    a.load < b.load || (a.load == b.load && a.index < b.index)
  }

  /** Removes the least slot; a heap of distinct slots is a set. */
  method PopLeast(heap: set<Slot>) returns (least: Slot, rest: set<Slot>)
    requires heap != {}
    ensures least in heap && rest == heap - {least}
    ensures forall s :: s in rest ==> SlotLess(least, s)
  {
    least :| least in heap;
    var todo := heap - {least};
    while todo != {}
      invariant least in heap && todo <= heap && least !in todo
      invariant forall s :: s in heap - todo && s != least ==> SlotLess(least, s)
    {
      var s :| s in todo;
      assert forall x :: x in heap - (todo - {s}) ==> x in heap - todo || x == s;
      todo := todo - {s};
      assert s.load == least.load && s.index == least.index ==> s == least;
      if SlotLess(s, least) {
        least := s;
      }
    }
    rest := heap - {least};
  }

  function ShardCount(n: nat): nat {
    var shards := (n + PARALLEL_SHARD_SIZE - 1) / PARALLEL_SHARD_SIZE;
    if shards >= 1 then shards else 1
  }

  function MaxFiles(n: nat): nat {
    (n + ShardCount(n) - 1) / ShardCount(n)
  }

  /** The shards have room for all files, but not if one of them is left out. */
  lemma {:induction false} Capacity(n: nat)
    requires n > 0
    ensures 1 <= MaxFiles(n) <= PARALLEL_SHARD_SIZE
    ensures (ShardCount(n) - 1) * MaxFiles(n) < n <= ShardCount(n) * MaxFiles(n)
    ensures PARALLEL_SHARD_SIZE * (ShardCount(n) - 1) < n <= PARALLEL_SHARD_SIZE * ShardCount(n)
  {
    var k, m := ShardCount(n), MaxFiles(n);
    assert k * m <= n + k - 1 < k * m + k;
    assert k * (m - 1) < n;
    Times(k, PARALLEL_SHARD_SIZE, if m > PARALLEL_SHARD_SIZE then m - 1 else PARALLEL_SHARD_SIZE);
    Times(k - 1, m, PARALLEL_SHARD_SIZE);
  }

  lemma Times(a: nat, b: nat, c: nat)
    requires b <= c
    ensures a * b <= a * c
  {
  }

  // ---- Buckets ----------------------------------------------------------

  lemma {:induction false} FlattenMiddle(left: seq<seq<File>>, group: seq<File>, right: seq<seq<File>>)
    ensures multiset(Flatten(left + [group] + right))
            == multiset(Flatten(left)) + multiset(group) + multiset(Flatten(right))
    decreases |right|
  {
    if right == [] {
      FlattenAppend(left, group);
      assert left + [group] + right == left + [group];
    } else {
      var front, last := right[..|right| - 1], right[|right| - 1];
      FlattenMiddle(left, group, front);
      FlattenAppend(left + [group] + front, last);
      assert left + [group] + right == left + [group] + front + [last];
    }
  }

  /** Putting one file into one bucket adds that file and nothing else. */
  lemma FlattenPlace(buckets: seq<seq<File>>, i: nat, file: File)
    requires i < |buckets|
    ensures multiset(Flatten(buckets[i := buckets[i] + [file]])) == multiset(Flatten(buckets)) + multiset{file}
  {
    var left, right := buckets[..i], buckets[i + 1..];
    PutAt(buckets, i, buckets[i] + [file]);
    FlattenMiddle(left, buckets[i], right);
    FlattenMiddle(left, buckets[i] + [file], right);
  }

  lemma PutAt<T>(s: seq<T>, i: nat, x: T)
    requires i < |s|
    ensures s == s[..i] + [s[i]] + s[i + 1..] && s[i := x] == s[..i] + [x] + s[i + 1..]
  {
  }

  predicate AtMost(buckets: seq<seq<File>>, max: nat) {
    forall i :: 0 <= i < |buckets| ==> |buckets[i]| <= max
  }

  lemma {:induction false} FlattenSize(buckets: seq<seq<File>>, max: nat)
    requires AtMost(buckets, max)
    ensures |Flatten(buckets)| <= |buckets| * max
    decreases |buckets|
  {
    if buckets != [] {
      var front := buckets[..|buckets| - 1];
      FlattenSize(front, max);
      assert |front| * max + max == |buckets| * max;
    }
  }

  /** One bucket short of `max` leaves the whole short by as much. */
  lemma {:induction false} FlattenShort(buckets: seq<seq<File>>, i: nat, max: nat)
    requires AtMost(buckets, max) && i < |buckets|
    ensures |Flatten(buckets)| <= (|buckets| - 1) * max + |buckets[i]|
    decreases |buckets|
  {
    var n := |buckets| - 1;
    var front := buckets[..n];
    if i < n {
      FlattenShort(front, i, max);
      assert (n - 1) * max + max == n * max;
    } else {
      FlattenSize(front, max);
    }
  }

  lemma {:induction false} FlattenFull(buckets: seq<seq<File>>, max: nat)
    requires forall i :: 0 <= i < |buckets| ==> |buckets[i]| == max
    ensures |Flatten(buckets)| == |buckets| * max
    decreases |buckets|
  {
    if buckets != [] {
      var front := buckets[..|buckets| - 1];
      FlattenFull(front, max);
      assert |front| * max + max == |buckets| * max;
    }
  }

  lemma {:induction false} FlattenEmpty(buckets: seq<seq<File>>)
    requires forall i :: 0 <= i < |buckets| ==> buckets[i] == []
    ensures Flatten(buckets) == []
    decreases |buckets|
  {
    if buckets != [] { FlattenEmpty(buckets[..|buckets| - 1]); }
  }

  /** The load of a group does not depend on its order. */
  lemma {:induction false} LoadOfPermutation(timing: TimingHistory, a: seq<File>, b: seq<File>)
    requires multiset(a) == multiset(b)
    ensures Load(timing, a) == Load(timing, b)
    decreases |a|
  {
    if a == [] {
      assert |multiset(b)| == 0;
    } else {
      var n, last := |a| - 1, a[|a| - 1];
      assert a == a[..n] + [last];
      assert last in multiset(b);
      var k :| 0 <= k < |b| && b[k] == last;
      assert b == b[..k] + [last] + b[k + 1..];
      assert multiset(a[..n]) == multiset(a) - multiset{last};
      assert multiset(b[..k] + b[k + 1..]) == multiset(b) - multiset{last};
      LoadOfPermutation(timing, a[..n], b[..k] + b[k + 1..]);
      LoadConcat(timing, b[..k], b[k + 1..]);
      LoadConcat(timing, b[..k] + [last], b[k + 1..]);
      LoadAppend(timing, b[..k], last);
    }
  }

  // ---- Balance ----------------------------------------------------------

  /** No bucket carries more than an open one, even after the open one is given any single file of
      that bucket.  A bucket is open while it has fewer than `max` files. */
  ghost predicate Balanced(timing: TimingHistory, max: nat, buckets: seq<seq<File>>) {
    forall i, j, f :: 0 <= i < |buckets| && 0 <= j < |buckets| && f in buckets[i] && |buckets[j]| < max ==>
      Load(timing, buckets[i]) <= Load(timing, buckets[j]) + Estimate(timing, f)
  }

  /** Bucket `b` is the first of the least loaded open ones. */
  ghost predicate FirstLeast(timing: TimingHistory, max: nat, buckets: seq<seq<File>>, b: nat) {
    && b < |buckets| && |buckets[b]| < max
    && forall j :: 0 <= j < |buckets| && |buckets[j]| < max ==>
         || Load(timing, buckets[b]) < Load(timing, buckets[j])
         || (Load(timing, buckets[b]) == Load(timing, buckets[j]) && b <= j)
  }

  /** Without a heap: the file goes to the first of the least loaded open buckets. */
  ghost predicate Places(
    timing: TimingHistory, max: nat, before: seq<seq<File>>, file: File, after: seq<seq<File>>)
  {
    exists b: nat :: FirstLeast(timing, max, before, b) && after == before[b := before[b] + [file]]
  }

  lemma {:induction false} OnePlace(
    timing: TimingHistory, max: nat, before: seq<seq<File>>, file: File, a: seq<seq<File>>, b: seq<seq<File>>)
    requires Places(timing, max, before, file, a) && Places(timing, max, before, file, b)
    ensures a == b
  {
    var i: nat :| FirstLeast(timing, max, before, i) && a == before[i := before[i] + [file]];
    var j: nat :| FirstLeast(timing, max, before, j) && b == before[j := before[j] + [file]];
    assert i == j;
  }

  /** `stages` are the buckets as the files are placed one by one. */
  ghost predicate Stages(timing: TimingHistory, max: nat, files: seq<File>, stages: seq<seq<seq<File>>>) {
    && |stages| == |files| + 1
    && (forall i :: 0 <= i < |stages[0]| ==> stages[0][i] == [])
    && forall k :: 0 <= k < |files| ==> Places(timing, max, stages[k], files[k], stages[k + 1])
  }

  /** From empty buckets, placing each file in turn leaves `buckets`. */
  ghost predicate Dealt(timing: TimingHistory, max: nat, files: seq<File>, buckets: seq<seq<File>>) {
    exists stages :: Stages(timing, max, files, stages) && stages[|files|] == buckets
  }

  lemma {:induction false} NextStage(
    timing: TimingHistory, max: nat, files: seq<File>, stages: seq<seq<seq<File>>>, file: File, after: seq<seq<File>>)
    requires Stages(timing, max, files, stages) && Places(timing, max, stages[|files|], file, after)
    ensures Stages(timing, max, files + [file], stages + [after])
  {
  }

  lemma {:induction false} SameStages(
    timing: TimingHistory, max: nat, files: seq<File>, a: seq<seq<seq<File>>>, b: seq<seq<seq<File>>>, k: nat)
    requires Stages(timing, max, files, a) && Stages(timing, max, files, b) && |a[0]| == |b[0]| && k <= |files|
    ensures a[k] == b[k]
    decreases k
  {
    if k > 0 {
      SameStages(timing, max, files, a, b, k - 1);
      OnePlace(timing, max, a[k - 1], files[k - 1], a[k], b[k]);
    }
  }

  lemma {:induction false} StageSize(
    timing: TimingHistory, max: nat, files: seq<File>, stages: seq<seq<seq<File>>>, k: nat)
    requires Stages(timing, max, files, stages) && k <= |files|
    ensures |stages[k]| == |stages[0]|
    decreases k
  {
    if k > 0 {
      StageSize(timing, max, files, stages, k - 1);
      assert Places(timing, max, stages[k - 1], files[k - 1], stages[k]);
    }
  }

  /** The files, their order and the number of buckets decide where every file goes. */
  lemma {:induction false} OneDeal(
    timing: TimingHistory, max: nat, files: seq<File>, a: seq<seq<File>>, b: seq<seq<File>>)
    requires Dealt(timing, max, files, a) && Dealt(timing, max, files, b) && |a| == |b|
    ensures a == b
  {
    var x :| Stages(timing, max, files, x) && x[|files|] == a;
    var y :| Stages(timing, max, files, y) && y[|files|] == b;
    StageSize(timing, max, files, x, |files|);
    StageSize(timing, max, files, y, |files|);
    SameStages(timing, max, files, x, y, |files|);
  }

  /** The heap holds exactly the open buckets, each with its load. */
  ghost predicate Holds(timing: TimingHistory, max: nat, buckets: seq<seq<File>>, heap: set<Slot>) {
    && (forall s :: s in heap ==>
          s.index < |buckets| && |buckets[s.index]| < max && s.load == Load(timing, buckets[s.index]))
    && (forall i :: 0 <= i < |buckets| && |buckets[i]| < max ==> Slot(Load(timing, buckets[i]), i) in heap)
    && AtMost(buckets, max)
  }

  /** Longest first, ties by path. */
  predicate RankedBefore(timing: TimingHistory, a: File, b: File) {
    || Estimate(timing, a) > Estimate(timing, b)
    || (Estimate(timing, a) == Estimate(timing, b) && !TextLess(b, a))
  }

  ghost predicate LongestFirst(timing: TimingHistory, files: seq<File>) {
    forall i, j :: 0 <= i < j < |files| ==> Estimate(timing, files[i]) >= Estimate(timing, files[j])
  }

  ghost predicate Ranks(timing: TimingHistory, before: (File, File) -> bool) {
    forall a, b :: before(a, b) == RankedBefore(timing, a, b)
  }

  lemma RankPreorder(timing: TimingHistory, before: (File, File) -> bool)
    requires Ranks(timing, before)
    ensures TotalPreorder(before)
  {
    forall a, b ensures before(a, b) || before(b, a) {
      if TextLess(a, b) && TextLess(b, a) {
        TextTransitive(a, b, a);
        TextTrichotomy(a, a);
      }
    }
    forall a, b, c | before(a, b) && before(b, c) ensures before(a, c) {
      if !TextLess(b, a) && !TextLess(c, b) { NotLessTransitive(a, b, c); }
    }
  }

  lemma {:induction false} RankedIsLongestFirst(timing: TimingHistory, ranked: seq<File>, before: (File, File) -> bool)
    requires Ranks(timing, before) && Sorted(ranked, before)
    ensures LongestFirst(timing, ranked)
    ensures forall i, j :: 0 <= i < j < |ranked| ==> RankedBefore(timing, ranked[i], ranked[j])
  {
    forall i, j | 0 <= i < j < |ranked| ensures RankedBefore(timing, ranked[i], ranked[j]) {
      assert before(ranked[i], ranked[j]);
    }
  }

  method Rank(timing: TimingHistory, files: seq<File>) returns (ranked: seq<File>)
    ensures LongestFirst(timing, ranked) && multiset(ranked) == multiset(files) && |ranked| == |files|
    ensures forall i, j :: 0 <= i < j < |ranked| ==> RankedBefore(timing, ranked[i], ranked[j])
  {
    var before := (a, b) => RankedBefore(timing, a, b);
    RankPreorder(timing, before);
    ranked := SortBy(files, before);
    RankedIsLongestFirst(timing, ranked, before);
  }

  /** What the placing loop keeps: the heap matches the buckets, `placed` is in them, they are
      balanced, and no file placed so far is estimated below `floor`. */
  ghost predicate Placing(
    timing: TimingHistory, max: nat, placed: seq<File>, floor: real, buckets: seq<seq<File>>, heap: set<Slot>)
  {
    && Holds(timing, max, buckets, heap)
    && Balanced(timing, max, buckets)
    && multiset(Flatten(buckets)) == multiset(placed)
    && forall i, f :: 0 <= i < |buckets| && f in buckets[i] ==> Estimate(timing, f) >= floor
  }

  /** The bucket that takes a file was the least loaded open one, so it stays within that file's
      estimate of every bucket still open. */
  lemma {:induction false} PlaceBalanced(timing: TimingHistory, max: nat, buckets: seq<seq<File>>, b: nat, file: File)
    requires b < |buckets| && |buckets[b]| < max && Balanced(timing, max, buckets)
    requires forall j :: 0 <= j < |buckets| && |buckets[j]| < max ==>
               Load(timing, buckets[b]) <= Load(timing, buckets[j])
    requires forall i, f :: 0 <= i < |buckets| && f in buckets[i] ==> Estimate(timing, f) >= Estimate(timing, file)
    ensures Balanced(timing, max, buckets[b := buckets[b] + [file]])
  {
    var after := buckets[b := buckets[b] + [file]];
    LoadAppend(timing, buckets[b], file);
    forall i, j, f | 0 <= i < |after| && 0 <= j < |after| && f in after[i] && |after[j]| < max
      ensures Load(timing, after[i]) <= Load(timing, after[j]) + Estimate(timing, f)
    {
      assert |buckets[j]| < max && Load(timing, buckets[j]) <= Load(timing, after[j]);
      if i == b {
        assert Estimate(timing, f) >= Estimate(timing, file);
      } else {
        assert f in buckets[i];
      }
    }
  }

  lemma {:induction false} PlaceHolds(
    timing: TimingHistory, max: nat, buckets: seq<seq<File>>, heap: set<Slot>, least: Slot, file: File)
    requires Holds(timing, max, buckets, heap) && least in heap
    ensures var after := buckets[least.index := buckets[least.index] + [file]];
            var slot := Slot(least.load + Estimate(timing, file), least.index);
            Holds(timing, max, after,
                  heap - {least} + if |after[least.index]| < max then {slot} else {})
  {
    LoadAppend(timing, buckets[least.index], file);
  }

  /** The least slot of the heap is the one a scan of the buckets would find. */
  lemma {:induction false} LeastIsFirst(
    timing: TimingHistory, max: nat, buckets: seq<seq<File>>, heap: set<Slot>, least: Slot)
    requires Holds(timing, max, buckets, heap)
    requires least in heap && forall s :: s in heap - {least} ==> SlotLess(least, s)
    ensures FirstLeast(timing, max, buckets, least.index)
  {
    forall j | 0 <= j < |buckets| && |buckets[j]| < max
      ensures least.load < Load(timing, buckets[j])
              || (least.load == Load(timing, buckets[j]) && least.index <= j)
    {
      var slot := Slot(Load(timing, buckets[j]), j);
      assert slot == least || slot in heap - {least};
    }
  }

  lemma {:induction false} PlaceFloor(timing: TimingHistory, buckets: seq<seq<File>>, b: nat, file: File)
    requires b < |buckets|
    requires forall i, f :: 0 <= i < |buckets| && f in buckets[i] ==> Estimate(timing, f) >= Estimate(timing, file)
    ensures var after := buckets[b := buckets[b] + [file]];
            forall i, f :: 0 <= i < |after| && f in after[i] ==> Estimate(timing, f) >= Estimate(timing, file)
  {
  }

  lemma {:induction false} PlaceKeeps(
    timing: TimingHistory, max: nat, placed: seq<File>, floor: real, buckets: seq<seq<File>>, heap: set<Slot>,
    least: Slot, file: File)
    requires Placing(timing, max, placed, floor, buckets, heap) && Estimate(timing, file) <= floor
    requires least in heap && forall s :: s in heap - {least} ==> SlotLess(least, s)
    ensures var after := buckets[least.index := buckets[least.index] + [file]];
            var slot := Slot(least.load + Estimate(timing, file), least.index);
            Placing(timing, max, placed + [file], Estimate(timing, file), after,
                    heap - {least} + if |after[least.index]| < max then {slot} else {})
  {
    LeastIsFirst(timing, max, buckets, heap, least);
    PlaceBalanced(timing, max, buckets, least.index, file);
    PlaceFloor(timing, buckets, least.index, file);
    PlaceHolds(timing, max, buckets, heap, least, file);
    FlattenPlace(buckets, least.index, file);
  }

  /** While files are left, some bucket is open. */
  lemma {:induction false} HeapIsNotEmpty(timing: TimingHistory, max: nat, buckets: seq<seq<File>>, heap: set<Slot>)
    requires Holds(timing, max, buckets, heap) && |Flatten(buckets)| < |buckets| * max
    ensures heap != {}
  {
    if forall i :: 0 <= i < |buckets| ==> |buckets[i]| == max { FlattenFull(buckets, max); }
    var i :| 0 <= i < |buckets| && |buckets[i]| != max;
    assert Slot(Load(timing, buckets[i]), i) in heap;
  }

  lemma {:induction false} SomeOpen(
    timing: TimingHistory, max: nat, placed: seq<File>, floor: real, buckets: seq<seq<File>>, heap: set<Slot>)
    requires Placing(timing, max, placed, floor, buckets, heap) && |placed| < |buckets| * max
    ensures heap != {}
  {
    assert |multiset(Flatten(buckets))| == |multiset(placed)|;
    HeapIsNotEmpty(timing, max, buckets, heap);
  }

  function EmptyBuckets(shards: nat): seq<seq<File>> {
    seq(shards, i => [])
  }

  function EmptySlots(shards: nat): set<Slot> {
    set i: nat | i < shards :: Slot(0.0, i)
  }

  lemma NothingPlaced(timing: TimingHistory, shards: nat, max: nat, floor: real)
    requires max > 0
    ensures Placing(timing, max, [], floor, EmptyBuckets(shards), EmptySlots(shards))
    ensures |EmptyBuckets(shards)| == shards && Stages(timing, max, [], [EmptyBuckets(shards)])
  {
    FlattenEmpty(EmptyBuckets(shards));
  }

  ghost predicate Dealing(
    timing: TimingHistory, max: nat, placed: seq<File>, floor: real, buckets: seq<seq<File>>, heap: set<Slot>,
    stages: seq<seq<seq<File>>>)
  {
    && Placing(timing, max, placed, floor, buckets, heap)
    && Stages(timing, max, placed, stages) && stages[|placed|] == buckets
  }

  /** Pops the least loaded open bucket, puts the file there, and pushes it back if it is still open. */
  method PlaceFile(
    timing: TimingHistory, max: nat, before: seq<seq<File>>, heap: set<Slot>, file: File,
    ghost placed: seq<File>, ghost floor: real, ghost stages: seq<seq<seq<File>>>)
    returns (buckets: seq<seq<File>>, open: set<Slot>)
    requires Dealing(timing, max, placed, floor, before, heap, stages) && Estimate(timing, file) <= floor
    requires |placed| < |before| * max
    ensures Dealing(timing, max, placed + [file], Estimate(timing, file), buckets, open, stages + [buckets])
    ensures |buckets| == |before|
  {
    SomeOpen(timing, max, placed, floor, before, heap);
    var least, rest := PopLeast(heap);
    DealKeeps(timing, max, placed, floor, before, heap, stages, least, file);
    var estimate := Estimate(timing, file);
    buckets := before[least.index := before[least.index] + [file]];
    open := rest + if |buckets[least.index]| < max then {Slot(least.load + estimate, least.index)} else {};
  }

  lemma {:induction false} DealKeeps(
    timing: TimingHistory, max: nat, placed: seq<File>, floor: real, buckets: seq<seq<File>>, heap: set<Slot>,
    stages: seq<seq<seq<File>>>, least: Slot, file: File)
    requires Dealing(timing, max, placed, floor, buckets, heap, stages) && Estimate(timing, file) <= floor
    requires least in heap && forall s :: s in heap - {least} ==> SlotLess(least, s)
    ensures var after := buckets[least.index := buckets[least.index] + [file]];
            var slot := Slot(least.load + Estimate(timing, file), least.index);
            Dealing(timing, max, placed + [file], Estimate(timing, file), after,
                    heap - {least} + (if |after[least.index]| < max then {slot} else {}), stages + [after])
  {
    PlaceKeeps(timing, max, placed, floor, buckets, heap, least, file);
    LeastIsFirst(timing, max, buckets, heap, least);
    NextStage(timing, max, placed, stages, file, buckets[least.index := buckets[least.index] + [file]]);
  }

  lemma AllUsed(buckets: seq<seq<File>>, max: nat)
    requires AtMost(buckets, max) && (|buckets| - 1) * max < |Flatten(buckets)|
    ensures forall i :: 0 <= i < |buckets| ==> 1 <= |buckets[i]|
  {
    forall i | 0 <= i < |buckets| ensures 1 <= |buckets[i]| { FlattenShort(buckets, i, max); }
  }

  /** No file is estimated above the first of the longest-first order. */
  ghost function Floor(timing: TimingHistory, ranked: seq<File>): real {
    if ranked == [] then 0.0 else Estimate(timing, ranked[0])
  }

  /** What the placing loop keeps, in buckets that have room for `all` files. */
  ghost predicate Filling(
    timing: TimingHistory, max: nat, shards: nat, all: seq<File>, placed: seq<File>,
    buckets: seq<seq<File>>, heap: set<Slot>, stages: seq<seq<seq<File>>>)
  {
    && placed <= all && |buckets| == shards && |all| <= shards * max
    && Dealing(timing, max, placed, Floor(timing, all[|placed|..]), buckets, heap, stages)
  }

  lemma {:induction false} Room(
    timing: TimingHistory, max: nat, shards: nat, all: seq<File>, placed: seq<File>,
    buckets: seq<seq<File>>, heap: set<Slot>, stages: seq<seq<seq<File>>>)
    requires Filling(timing, max, shards, all, placed, buckets, heap, stages) && |placed| < |all|
    ensures |placed| < |buckets| * max && Floor(timing, all[|placed|..]) == Estimate(timing, all[|placed|])
  {
  }

  /** A lower floor holds too. */
  lemma {:induction false} LowerFloor(
    timing: TimingHistory, max: nat, placed: seq<File>, floor: real, lower: real, buckets: seq<seq<File>>,
    heap: set<Slot>, stages: seq<seq<seq<File>>>)
    requires Dealing(timing, max, placed, floor, buckets, heap, stages) && lower <= floor
    ensures Dealing(timing, max, placed, lower, buckets, heap, stages)
  {
  }

  lemma {:induction false} FloorFalls(timing: TimingHistory, all: seq<File>, n: nat)
    requires LongestFirst(timing, all) && n < |all|
    ensures Floor(timing, all[n + 1..]) <= Estimate(timing, all[n])
  {
  }

  /** Deals the next file. */
  method DealNext(
    timing: TimingHistory, max: nat, shards: nat, all: seq<File>, n: nat, before: seq<seq<File>>, heap: set<Slot>,
    ghost placed: seq<File>, ghost stages: seq<seq<seq<File>>>)
    returns (buckets: seq<seq<File>>, open: set<Slot>)
    requires LongestFirst(timing, all) && n < |all| && |placed| == n
    requires Filling(timing, max, shards, all, placed, before, heap, stages)
    ensures Filling(timing, max, shards, all, placed + [all[n]], buckets, open, stages + [buckets])
  {
    Room(timing, max, shards, all, placed, before, heap, stages);
    FloorFalls(timing, all, n);
    buckets, open := PlaceFile(timing, max, before, heap, all[n], placed, Estimate(timing, all[n]), stages);
    LowerFloor(timing, max, placed + [all[n]], Estimate(timing, all[n]), Floor(timing, all[n + 1..]),
               buckets, open, stages + [buckets]);
  }

  lemma NothingFilled(timing: TimingHistory, max: nat, shards: nat, all: seq<File>)
    requires max > 0 && |all| <= shards * max
    ensures Filling(timing, max, shards, all, [], EmptyBuckets(shards), EmptySlots(shards), [EmptyBuckets(shards)])
  {
    NothingPlaced(timing, shards, max, Floor(timing, all));
    assert all[0..] == all;
  }

  lemma AllFilled(
    timing: TimingHistory, max: nat, shards: nat, all: seq<File>, buckets: seq<seq<File>>, heap: set<Slot>,
    stages: seq<seq<seq<File>>>)
    requires Filling(timing, max, shards, all, all, buckets, heap, stages)
    ensures |buckets| == shards && multiset(Flatten(buckets)) == multiset(all)
    ensures AtMost(buckets, max) && Balanced(timing, max, buckets) && Dealt(timing, max, all, buckets)
  {
  }

  /** Deals the files, longest first, into the buckets. */
  method FillBuckets(timing: TimingHistory, ranked: seq<File>, shards: nat, max: nat) returns (buckets: seq<seq<File>>)
    requires LongestFirst(timing, ranked) && max > 0 && |ranked| <= shards * max
    ensures |buckets| == shards && multiset(Flatten(buckets)) == multiset(ranked)
    ensures AtMost(buckets, max) && Balanced(timing, max, buckets) && Dealt(timing, max, ranked, buckets)
  {
    buckets := EmptyBuckets(shards);
    var heap := EmptySlots(shards);
    ghost var placed, stages := [], [buckets];
    NothingFilled(timing, max, shards, ranked);
    for n := 0 to |ranked|
      invariant placed == ranked[..n] && Filling(timing, max, shards, ranked, placed, buckets, heap, stages)
    {
      buckets, heap := DealNext(timing, max, shards, ranked, n, buckets, heap, placed, stages);
      placed, stages := placed + [ranked[n]], stages + [buckets];
    }
    assert placed == ranked;
    AllFilled(timing, max, shards, ranked, buckets, heap, stages);
  }

  /** `group` is `bucket` in path order. */
  ghost predicate SortedCopy(bucket: seq<File>, group: seq<File>) {
    multiset(group) == multiset(bucket) && |group| == |bucket| && Sorted(group, PathOrder)
  }

  /** Paths compare component by component, that is, with the separator below every other character. */
  predicate PathOrder(a: File, b: File) {
    !TextLess(PathKey(b), PathKey(a))
  }

  function PathKey(file: File): string {
    seq(|file|, i requires 0 <= i < |file| => if file[i] == '/' then '\0' else file[i])
  }

  /** The components of a path. */
  function Components(file: File): (parts: seq<string>)
    ensures parts != []
  {
    if file == [] then [""]
    else if file[0] == '/' then [""] + Components(file[1..])
    else
      var rest := Components(file[1..]);
      [[file[0]] + rest[0]] + rest[1..]
  }

  /** Component by component; a path that runs out first comes first. */
  predicate ComponentsLess(a: seq<string>, b: seq<string>) {
    if b == [] then false
    else if a == [] then true
    else if a[0] != b[0] then TextLess(a[0], b[0])
    else ComponentsLess(a[1..], b[1..])
  }

  lemma {:induction false} KeysCompareComponents(a: File, b: File)
    requires '\0' !in a && '\0' !in b
    ensures TextLess(PathKey(a), PathKey(b)) <==> ComponentsLess(Components(a), Components(b))
    decreases |a|
  {
    if a != [] && b != [] {
      KeysCompareComponents(a[1..], b[1..]);
      assert PathKey(a)[1..] == PathKey(a[1..]) && PathKey(b)[1..] == PathKey(b[1..]);
      if a[0] == b[0] { SameHead(a, b); } else { OtherHead(a, b); }
    }
  }

  lemma {:induction false} SameHead(a: File, b: File)
    requires a != [] && b != [] && a[0] == b[0]
    ensures ComponentsLess(Components(a), Components(b)) <==> ComponentsLess(Components(a[1..]), Components(b[1..]))
  {
    var x, y := Components(a[1..]), Components(b[1..]);
    if a[0] == '/' {
      assert Components(a)[1..] == x && Components(b)[1..] == y;
    } else {
      var p, q := [a[0]] + x[0], [b[0]] + y[0];
      assert p[1..] == x[0] && q[1..] == y[0];
      assert Components(a)[1..] == x[1..] && Components(b)[1..] == y[1..];
    }
  }

  lemma {:induction false} OtherHead(a: File, b: File)
    requires a != [] && b != [] && a[0] != b[0]
    ensures ComponentsLess(Components(a), Components(b)) <==> a[0] == '/' || (b[0] != '/' && a[0] < b[0])
  {
    var p, q := Components(a)[0], Components(b)[0];
    assert a[0] != '/' ==> p != [] && p[0] == a[0];
    assert b[0] != '/' ==> q != [] && q[0] == b[0];
    assert p != q;
  }

  /** Paths are in order exactly when their components are. */
  lemma {:induction false} PathOrderIsByComponents(a: File, b: File)
    requires '\0' !in a && '\0' !in b
    ensures PathOrder(a, b) <==> !ComponentsLess(Components(b), Components(a))
  {
    KeysCompareComponents(b, a);
  }

  lemma PathPreorder()
    ensures TotalPreorder(PathOrder)
  {
    forall a, b ensures PathOrder(a, b) || PathOrder(b, a) {
      if TextLess(PathKey(a), PathKey(b)) && TextLess(PathKey(b), PathKey(a)) {
        TextTransitive(PathKey(a), PathKey(b), PathKey(a));
        TextTrichotomy(PathKey(a), PathKey(a));
      }
    }
    forall a, b, c | PathOrder(a, b) && PathOrder(b, c) ensures PathOrder(a, c) {
      NotLessTransitive(PathKey(a), PathKey(b), PathKey(c));
    }
  }

  lemma {:induction false} NotLessTransitive(a: string, b: string, c: string)
    requires !TextLess(b, a) && !TextLess(c, b)
    ensures !TextLess(c, a)
  {
    TextTrichotomy(a, b);
    TextTrichotomy(b, c);
    if TextLess(c, a) {
      if a != b { TextTransitive(c, a, b); }
    }
  }

  ghost predicate SortedCopies(buckets: seq<seq<File>>, groups: seq<seq<File>>) {
    && |groups| == |buckets| && multiset(Flatten(groups)) == multiset(Flatten(buckets))
    && forall k :: 0 <= k < |groups| ==> SortedCopy(buckets[k], groups[k])
  }

  /** Each bucket in path order; empty ones would be dropped. */
  method SortBuckets(buckets: seq<seq<File>>) returns (groups: seq<seq<File>>)
    requires forall i :: 0 <= i < |buckets| ==> buckets[i] != []
    ensures SortedCopies(buckets, groups)
  {
    PathPreorder();
    groups := [];
    ghost var done: seq<seq<File>> := [];
    for i := 0 to |buckets|
      invariant done == buckets[..i] && SortedCopies(done, groups)
    {
      if buckets[i] != [] {
        var group := SortBy(buckets[i], PathOrder);
        MoreCopies(done, buckets[i], groups, group);
        groups := groups + [group];
      }
      done := done + [buckets[i]];
    }
    assert done == buckets;
  }

  lemma {:induction false} MoreCopies(
    buckets: seq<seq<File>>, bucket: seq<File>, groups: seq<seq<File>>, group: seq<File>)
    requires SortedCopies(buckets, groups) && SortedCopy(bucket, group)
    ensures SortedCopies(buckets + [bucket], groups + [group])
  {
    FlattenCounts(groups, group, buckets, bucket);
  }

  lemma {:induction false} FlattenCounts(
    groups: seq<seq<File>>, group: seq<File>, buckets: seq<seq<File>>, bucket: seq<File>)
    requires multiset(Flatten(groups)) == multiset(Flatten(buckets)) && multiset(group) == multiset(bucket)
    ensures multiset(Flatten(groups + [group])) == multiset(Flatten(buckets + [bucket]))
  {
    FlattenAppend(groups, group);
    FlattenAppend(buckets, bucket);
  }

  /** Every file lands in exactly one shard, there are as few shards of eight files as there can be,
      none is empty, and the loads are balanced. */
  method BalancedParallelGroups(timing: TimingHistory, files: seq<File>) returns (groups: seq<seq<File>>)
    ensures files == [] ==> groups == []
    ensures files != [] ==> |groups| == ShardCount(|files|) && Balanced(timing, MaxFiles(|files|), groups)
    ensures multiset(Flatten(groups)) == multiset(files)
    ensures forall i :: 0 <= i < |groups| ==> 1 <= |groups[i]| <= PARALLEL_SHARD_SIZE && Sorted(groups[i], PathOrder)
    ensures PARALLEL_SHARD_SIZE * (|groups| - 1) < |files| <= PARALLEL_SHARD_SIZE * |groups|
    ensures files != [] ==> DealtOut(timing, files, groups)
  {
    if files == [] {
      return [];
    }
    var shards, max := ShardCount(|files|), MaxFiles(|files|);
    Capacity(|files|);
    var ranked := Rank(timing, files);
    var buckets := FillBuckets(timing, ranked, shards, max);
    assert |multiset(Flatten(buckets))| == |multiset(files)|;
    AllUsed(buckets, max);
    groups := SortBuckets(buckets);
    SortingKeepsBalance(timing, MaxFiles(|files|), buckets, groups);
    assert DealtSorted(timing, files, ranked, buckets, groups);
  }

  /** Each group is, in path order, what the files dealt out longest first come to. */
  ghost predicate DealtOut(timing: TimingHistory, files: seq<File>, groups: seq<seq<File>>) {
    exists ranked, buckets :: DealtSorted(timing, files, ranked, buckets, groups)
  }

  ghost predicate DealtSorted(
    timing: TimingHistory, files: seq<File>, ranked: seq<File>, buckets: seq<seq<File>>, groups: seq<seq<File>>)
  {
    && multiset(ranked) == multiset(files)
    && (forall i, j :: 0 <= i < j < |ranked| ==>
          || Estimate(timing, ranked[i]) > Estimate(timing, ranked[j])
          || (Estimate(timing, ranked[i]) == Estimate(timing, ranked[j]) && !TextLess(ranked[j], ranked[i])))
    && Dealt(timing, MaxFiles(|files|), ranked, buckets) && SortedCopies(buckets, groups)
  }

  lemma SortingKeepsBalance(timing: TimingHistory, max: nat, buckets: seq<seq<File>>, groups: seq<seq<File>>)
    requires Balanced(timing, max, buckets) && SortedCopies(buckets, groups)
    ensures Balanced(timing, max, groups)
  {
    forall i, j, f | 0 <= i < |groups| && 0 <= j < |groups| && f in groups[i] && |groups[j]| < max
      ensures Load(timing, groups[i]) <= Load(timing, groups[j]) + Estimate(timing, f)
    {
      LoadOfPermutation(timing, groups[i], buckets[i]);
      LoadOfPermutation(timing, groups[j], buckets[j]);
      assert f in multiset(groups[i]);
      assert f in buckets[i];
    }
  }
}

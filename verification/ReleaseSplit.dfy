/**
 Splitting the exclusive test files, which must keep their order, into shards
 bounded by file count and by estimated time.
 */
module ReleaseSplit {
  import opened Outcomes
  import opened ReleaseTiming
  import opened Sequences

  const EXCLUSIVE_TARGET: real := 20.0

  datatype SplitError = ShardSizeNotPositive | TargetNotPositive

  /** A shard within both limits; a single file may exceed the time target. */
  predicate Fits(timing: TimingHistory, size: int, target: real, group: seq<File>) {
    group != [] && |group| <= size && (|group| == 1 || Load(timing, group) <= target)
  }

  /** `groups` cuts `files`, in order, into shards that fit. */
  predicate IsSplit(timing: TimingHistory, size: int, target: real, files: seq<File>, groups: seq<seq<File>>) {
    Flatten(groups) == files && forall i :: 0 <= i < |groups| ==> Fits(timing, size, target, groups[i])
  }

  /** No shard could also have taken the first file of the next one. */
  predicate IsTight(timing: TimingHistory, size: int, target: real, groups: seq<seq<File>>) {
    forall i :: 0 < i < |groups| ==>
      groups[i] != [] && !Fits(timing, size, target, groups[i - 1] + [groups[i][0]])
  }

  /** A non-empty stretch of a shard that fits also fits. */
  lemma StretchFits(
    timing: TimingHistory, size: int, target: real, before: seq<File>, stretch: seq<File>, after: seq<File>)
    requires Fits(timing, size, target, before + stretch + after) && stretch != []
    ensures Fits(timing, size, target, stretch)
  {
    LoadConcat(timing, before + stretch, after);
    LoadConcat(timing, before, stretch);
  }

  /** Two ways to cut one sequence in two. */
  lemma Overlap<T>(a: seq<T>, b: seq<T>, x: seq<T>, y: seq<T>)
    requires a + b == x + y
    ensures |x| <= |a| ==> x == a[..|x|] && y == a[|x|..] + b
    ensures |x| >= |a| ==> |x| - |a| <= |b| && x == a + b[..|x| - |a|] && y == b[|x| - |a|..]
  {
    var all := a + b;
    assert x == all[..|x|] && y == all[|x|..];
  }

  /** What is left of a split without its first shard. */
  lemma WithoutFirst(timing: TimingHistory, size: int, target: real, files: seq<File>, groups: seq<seq<File>>)
    requires IsSplit(timing, size, target, files, groups) && groups != []
    ensures files == groups[0] + Flatten(groups[1..]) && Fits(timing, size, target, groups[0])
    ensures IsSplit(timing, size, target, Flatten(groups[1..]), groups[1..])
    ensures IsTight(timing, size, target, groups) ==> IsTight(timing, size, target, groups[1..])
  {
    FlattenSplit(groups);
  }

  /** Greedy stays ahead: a tight split of a suffix needs no more shards than any split of the whole. */
  lemma {:induction false} TightIsShortest(
    timing: TimingHistory, size: int, target: real,
    skipped: seq<File>, files: seq<File>, tight: seq<seq<File>>, other: seq<seq<File>>)
    requires IsSplit(timing, size, target, files, tight) && IsTight(timing, size, target, tight)
    requires IsSplit(timing, size, target, skipped + files, other)
    ensures |tight| <= |other|
    decreases |other|
  {
    if tight == [] {
    } else if other == [] {
      WithoutFirst(timing, size, target, files, tight);
      assert false;
    } else {
      WithoutFirst(timing, size, target, files, tight);
      WithoutFirst(timing, size, target, skipped + files, other);
      var g, o := tight[0], other[0];
      var later, rest := Flatten(tight[1..]), Flatten(other[1..]);
      Overlap(skipped, files, o, rest);
      if |o| <= |skipped| {
        TightIsShortest(timing, size, target, skipped[|o|..], files, tight, other[1..]);
      } else {
        // `o` reaches `taken` files into the ones `tight` has to cover; its first shard covers them.
        var taken := |o| - |skipped|;
        FirstIsLongest(timing, size, target, skipped, files, tight, taken);
        assert files == files[..taken] + files[taken..];
        Overlap(g, later, files[..taken], files[taken..]);
        TightIsShortest(timing, size, target, g[taken..], later, tight[1..], other[1..]);
      }
    }
  }

  /** No shard reaches further into `files` than the first one of a tight split. */
  lemma FirstIsLongest(
    timing: TimingHistory, size: int, target: real,
    skipped: seq<File>, files: seq<File>, tight: seq<seq<File>>, taken: nat)
    requires IsSplit(timing, size, target, files, tight) && IsTight(timing, size, target, tight) && tight != []
    requires taken <= |files| && Fits(timing, size, target, skipped + files[..taken])
    ensures taken <= |tight[0]|
  {
    var g, rest := tight[0], tight[1..];
    FlattenSplit(tight);
    if rest != [] && taken > |g| {
      FlattenSplit(rest);
      assert rest[0] == tight[1] && Fits(timing, size, target, tight[1]);
      var next := tight[1][0];
      var longer := g + [next];
      StartsWithNext(g, tight[1], Flatten(rest[1..]), taken);
      var more := files[..taken][|longer|..];
      Regroup(skipped, longer, more);
      StretchFits(timing, size, target, skipped, longer, more);
    }
  }

  /** A stretch longer than the first shard takes the first file of the next one. */
  lemma {:induction false} StartsWithNext(first: seq<File>, second: seq<File>, others: seq<File>, taken: nat)
    requires second != [] && |first| < taken <= |first + (second + others)|
    ensures var cut, longer := (first + (second + others))[..taken], first + [second[0]];
            |longer| <= |cut| && cut == longer + cut[|longer|..]
  {
  }

  lemma {:induction false} EmptySplit(
    timing: TimingHistory, size: int, target: real, files: seq<File>, groups: seq<seq<File>>)
    requires IsSplit(timing, size, target, files, groups)
    ensures groups == [] <==> files == []
  {
    if groups != [] { WithoutFirst(timing, size, target, files, groups); }
  }

  lemma {:induction false} FirstReaches(
    timing: TimingHistory, size: int, target: real, files: seq<File>, tight: seq<seq<File>>, other: seq<seq<File>>)
    requires IsSplit(timing, size, target, files, tight) && IsTight(timing, size, target, tight) && tight != []
    requires IsSplit(timing, size, target, files, other) && other != []
    ensures |other[0]| <= |tight[0]|
  {
    WithoutFirst(timing, size, target, files, other);
    assert [] + files[..|other[0]|] == other[0];
    FirstIsLongest(timing, size, target, [], files, tight, |other[0]|);
  }

  lemma {:induction false} SameFirst(
    timing: TimingHistory, size: int, target: real, files: seq<File>, a: seq<seq<File>>, b: seq<seq<File>>)
    requires IsSplit(timing, size, target, files, a) && IsTight(timing, size, target, a) && a != []
    requires IsSplit(timing, size, target, files, b) && IsTight(timing, size, target, b) && b != []
    ensures a[0] == b[0] && Flatten(a[1..]) == Flatten(b[1..])
  {
    FirstReaches(timing, size, target, files, a, b);
    FirstReaches(timing, size, target, files, b, a);
    FlattenSplit(a);
    FlattenSplit(b);
    Overlap(a[0], Flatten(a[1..]), b[0], Flatten(b[1..]));
  }

  /** There is only one tight split, so being one says where every cut is. */
  lemma {:induction false} TightIsUnique(
    timing: TimingHistory, size: int, target: real, files: seq<File>, a: seq<seq<File>>, b: seq<seq<File>>)
    requires IsSplit(timing, size, target, files, a) && IsTight(timing, size, target, a)
    requires IsSplit(timing, size, target, files, b) && IsTight(timing, size, target, b)
    ensures a == b
    decreases |a|
  {
    EmptySplit(timing, size, target, files, a);
    EmptySplit(timing, size, target, files, b);
    if a != [] && b != [] {
      WithoutFirst(timing, size, target, files, a);
      WithoutFirst(timing, size, target, files, b);
      SameFirst(timing, size, target, files, a, b);
      TightIsUnique(timing, size, target, Flatten(a[1..]), a[1..], b[1..]);
      assert a == [a[0]] + a[1..] && b == [b[0]] + b[1..];
    }
  }

  /** The last shard may grow, and a new one may start once the last one cannot take its file. */
  lemma GrowTight(
    timing: TimingHistory, size: int, target: real, groups: seq<seq<File>>, current: seq<File>, file: File)
    requires IsTight(timing, size, target, groups + [current]) && current != []
    ensures IsTight(timing, size, target, groups + [current + [file]])
    ensures !Fits(timing, size, target, current + [file]) ==>
              IsTight(timing, size, target, groups + [current] + [[file]])
  {
    var open, grown := groups + [current], groups + [current + [file]];
    forall i | 0 < i < |grown|
      ensures grown[i] != [] && !Fits(timing, size, target, grown[i - 1] + [grown[i][0]])
    {
      assert open[i] != [] && !Fits(timing, size, target, open[i - 1] + [open[i][0]]);
    }
  }

  /** `groups` are closed and `current` is open, and together they split `done` tightly. */
  ghost predicate CutSoFar(
    timing: TimingHistory, size: int, target: real, done: seq<File>, groups: seq<seq<File>>, current: seq<File>)
  {
    && Flatten(groups) + current == done
    && (forall k :: 0 <= k < |groups| ==> Fits(timing, size, target, groups[k]))
    && if current == [] then groups == []
       else Fits(timing, size, target, current) && IsTight(timing, size, target, groups + [current])
  }

  lemma Grow(
    timing: TimingHistory, size: int, target: real, done: seq<File>, groups: seq<seq<File>>, current: seq<File>,
    file: File)
    requires CutSoFar(timing, size, target, done, groups, current)
    requires Fits(timing, size, target, current + [file])
    ensures CutSoFar(timing, size, target, done + [file], groups, current + [file])
  {
    if current != [] { GrowTight(timing, size, target, groups, current, file); }
  }

  lemma {:induction false} Close(
    timing: TimingHistory, size: int, target: real, done: seq<File>, groups: seq<seq<File>>, current: seq<File>,
    file: File)
    requires CutSoFar(timing, size, target, done, groups, current) && current != [] && size > 0
    requires !Fits(timing, size, target, current + [file])
    ensures CutSoFar(timing, size, target, done + [file], groups + [current], [] + [file])
  {
    GrowTight(timing, size, target, groups, current, file);
    FlattenAppend(groups, current);
    assert [] + [file] == [file];
    assert Flatten(groups) + current + [file] == done + [file];
  }

  lemma {:induction false} CloseLast(
    timing: TimingHistory, size: int, target: real, done: seq<File>, groups: seq<seq<File>>, current: seq<File>)
    requires CutSoFar(timing, size, target, done, groups, current)
    ensures var all := if current == [] then groups else groups + [current];
            IsSplit(timing, size, target, done, all) && IsTight(timing, size, target, all)
  {
    FlattenAppend(groups, current);
  }

  /** Whether the open shard cannot take another file of this estimate. */
  predicate WouldExceed(size: int, target: real, current: seq<File>, seconds: real, estimate: real) {
    (current != [] && seconds + estimate > target) || |current| >= size
  }

  lemma {:induction false} ExceedsExactly(
    timing: TimingHistory, size: int, target: real, current: seq<File>, file: File)
    requires size > 0
    ensures WouldExceed(size, target, current, Load(timing, current), Estimate(timing, file))
            <==> !Fits(timing, size, target, current + [file])
  {
    LoadAppend(timing, current, file);
  }

  /** Closes the open shard if the next file would break a limit, and adds the file to the open one. */
  method CutBefore(
    timing: TimingHistory, size: int, target: real, closed: seq<seq<File>>, open: seq<File>, seconds: real,
    file: File, ghost done: seq<File>)
    returns (groups: seq<seq<File>>, current: seq<File>, currentSeconds: real)
    requires size > 0 && CutSoFar(timing, size, target, done, closed, open) && seconds == Load(timing, open)
    ensures CutSoFar(timing, size, target, done + [file], groups, current) && currentSeconds == Load(timing, current)
  {
    groups, current, currentSeconds := closed, open, seconds;
    var estimate := Estimate(timing, file);
    ExceedsExactly(timing, size, target, open, file);
    if WouldExceed(size, target, open, seconds, estimate) {
      Close(timing, size, target, done, closed, open, file);
      groups := groups + [current];
      current := [];
      currentSeconds := 0.0;
    } else {
      Grow(timing, size, target, done, closed, open, file);
    }
    LoadAppend(timing, current, file);
    current := current + [file];
    currentSeconds := currentSeconds + estimate;
  }

  /** The cutting loop. */
  method CutGroups(timing: TimingHistory, files: seq<File>, size: int, target: real) returns (groups: seq<seq<File>>)
    requires size > 0
    ensures IsSplit(timing, size, target, files, groups) && IsTight(timing, size, target, groups)
  {
    groups := [];
    var current: seq<File> := [];
    var currentSeconds: real := 0.0;
    ghost var done: seq<File> := [];
    for i := 0 to |files|
      invariant done == files[..i] && CutSoFar(timing, size, target, done, groups, current)
      invariant currentSeconds == Load(timing, current)
    {
      groups, current, currentSeconds :=
        CutBefore(timing, size, target, groups, current, currentSeconds, files[i], done);
      done := done + [files[i]];
    }
    assert done == files;
    CloseLast(timing, size, target, done, groups, current);
    if current != [] {
      groups := groups + [current];
    }
  }

  /** Splits files in order.  The shards fit, and no order-preserving split that fits has fewer. */
  method BoundedExclusiveGroups(timing: TimingHistory, files: seq<File>, size: int, target: real)
    returns (r: Result<seq<seq<File>>, SplitError>)
    ensures r.Err? <==> size <= 0 || target <= 0.0
    ensures r.Err? ==> r.error == if size <= 0 then ShardSizeNotPositive else TargetNotPositive
    ensures r.Ok? ==> IsSplit(timing, size, target, files, r.value) && IsTight(timing, size, target, r.value)
    ensures r.Ok? ==> forall other :: IsSplit(timing, size, target, files, other) ==> |r.value| <= |other|
  {
    if size <= 0 {
      return Err(ShardSizeNotPositive);
    }
    if target <= 0.0 {
      return Err(TargetNotPositive);
    }
    var groups := CutGroups(timing, files, size, target);
    forall other | IsSplit(timing, size, target, files, other) ensures |groups| <= |other| {
      assert [] + files == files;
      TightIsShortest(timing, size, target, [], files, groups, other);
    }
    r := Ok(groups);
  }
}

/** The advisory timing history: how long a test file, or a group of them, is expected to take. */
module ReleaseTiming {

  type File = string

  /** Recorded durations are never negative. */
  type Seconds = s: real | s >= 0.0

  type TimingHistory = map<File, Seconds>

  const DEFAULT_ESTIMATE: Seconds := 1.0

  function Estimate(timing: TimingHistory, file: File): Seconds {
    if file in timing then timing[file] else DEFAULT_ESTIMATE
  }

  /** The estimated duration of a group. */
  function Load(timing: TimingHistory, files: seq<File>): Seconds {
    if files == [] then 0.0 else Load(timing, files[..|files| - 1]) + Estimate(timing, files[|files| - 1])
  }

  lemma {:induction false} LoadAppend(timing: TimingHistory, files: seq<File>, file: File)
    ensures Load(timing, files + [file]) == Load(timing, files) + Estimate(timing, file)
  {
    assert (files + [file])[..|files|] == files;
  }

  lemma {:induction false} LoadConcat(timing: TimingHistory, a: seq<File>, b: seq<File>)
    ensures Load(timing, a + b) == Load(timing, a) + Load(timing, b)
    decreases |b|
  {
    if b == [] {
      assert a + b == a;
    } else {
      var n := |b| - 1;
      LoadConcat(timing, a, b[..n]);
      LoadAppend(timing, a + b[..n], b[n]);
      assert a + b == a + b[..n] + [b[n]];
    }
  }

  /** Groups laid end to end. */
  function Flatten(groups: seq<seq<File>>): seq<File> {
    if groups == [] then [] else Flatten(groups[..|groups| - 1]) + groups[|groups| - 1]
  }

  lemma {:induction false} FlattenAppend(groups: seq<seq<File>>, group: seq<File>)
    ensures Flatten(groups + [group]) == Flatten(groups) + group
  {
    assert (groups + [group])[..|groups|] == groups;
  }

  lemma {:induction false} FlattenCons(group: seq<File>, groups: seq<seq<File>>)
    ensures Flatten([group] + groups) == group + Flatten(groups)
    decreases |groups|
  {
    if groups == [] {
      FlattenAppend([], group);
      assert [] + [group] == [group] + groups;
    } else {
      var front, last := groups[..|groups| - 1], groups[|groups| - 1];
      FlattenCons(group, front);
      FlattenAppend([group] + front, last);
      assert [group] + groups == [group] + front + [last];
      assert group + Flatten(front) + last == group + (Flatten(front) + last);
    }
  }

  lemma FlattenSplit(groups: seq<seq<File>>)
    requires groups != []
    ensures Flatten(groups) == groups[0] + Flatten(groups[1..])
  {
    FlattenCons(groups[0], groups[1..]);
    assert groups == [groups[0]] + groups[1..];
  }
}

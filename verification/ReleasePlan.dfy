/** Building the shard plan of a test inventory, and checking a plan against one. */
module ReleasePlan {
  import opened Outcomes
  import opened ReleaseTiming

  /** The isolation classes the planner knows, and any other name an inventory may give. */
  datatype Isolation = ParallelSafe | ProcessIsolated | Exclusive | Unknown(name: string)

  datatype Shard = Shard(index: nat, files: seq<File>, isolation: Isolation) {
    predicate RunsInParallel() { isolation != Exclusive }
  }

  /** A test file and the isolation class it needs, or is run under. */
  datatype Row = Row(file: File, isolation: Isolation)

  datatype PlanError = DuplicateIndex | DuplicateFile | OmittedFile | UnknownFile | IsolationDrift

  // ---- What a valid plan is ---------------------------------------------

  function RowsOf(files: seq<File>, isolation: Isolation): seq<Row> {
    seq(|files|, i requires 0 <= i < |files| => Row(files[i], isolation))
  }

  /** Every file a plan runs, with the class it runs under, shard by shard. */
  function Rows(plan: seq<Shard>): seq<Row> {
    if plan == [] then [] else
      var last := plan[|plan| - 1];
      Rows(plan[..|plan| - 1]) + RowsOf(last.files, last.isolation)
  }

  /** The class of each file; a later row overrides an earlier one. */
  function Classes(rows: seq<Row>): map<File, Isolation> {
    if rows == [] then map[] else
      var last := rows[|rows| - 1];
      Classes(rows[..|rows| - 1])[last.file := last.isolation]
  }

  ghost predicate DistinctIndexes(plan: seq<Shard>) {
    forall i, j :: 0 <= i < j < |plan| ==> plan[i].index != plan[j].index
  }

  ghost predicate DistinctFiles(rows: seq<Row>) {
    forall i, j :: 0 <= i < j < |rows| ==> rows[i].file != rows[j].file
  }

  ghost predicate Repeatless(plan: seq<Shard>) {
    DistinctIndexes(plan) && DistinctFiles(Rows(plan))
  }

  /** The plan runs every file of the inventory once, under its own class, and no other. */
  ghost predicate Covers(plan: seq<Shard>, inventory: seq<Row>) {
    Repeatless(plan) && Classes(Rows(plan)) == Classes(inventory)
  }

  // ---- The validator ----------------------------------------------------

  lemma {:induction false} ClassesAppend(rows: seq<Row>, row: Row)
    ensures Classes(rows + [row]) == Classes(rows)[row.file := row.isolation]
  {
    assert (rows + [row])[..|rows|] == rows;
  }

  lemma {:induction false} RowsAppend(plan: seq<Shard>, shard: Shard)
    ensures Rows(plan + [shard]) == Rows(plan) + RowsOf(shard.files, shard.isolation)
  {
    assert (plan + [shard])[..|plan|] == plan;
  }

  lemma {:induction false} ClassesKeys(rows: seq<Row>, f: File)
    ensures f in Classes(rows) <==> exists i :: 0 <= i < |rows| && rows[i].file == f
    decreases |rows|
  {
    if rows != [] {
      var n := |rows| - 1;
      ClassesKeys(rows[..n], f);
      if f in Classes(rows[..n]) {
        var i :| 0 <= i < n && rows[..n][i].file == f;
        assert rows[i].file == f;
      }
      if i :| 0 <= i < n && rows[i].file == f {
        assert rows[..n][i].file == f;
      }
    }
  }

  /** A row may be added exactly when its file has no class yet. */
  lemma AddRow(rows: seq<Row>, row: Row)
    requires DistinctFiles(rows)
    ensures row.file !in Classes(rows) <==> DistinctFiles(rows + [row])
  {
    ClassesKeys(rows, row.file);
    var more := rows + [row];
    if i :| 0 <= i < |rows| && rows[i].file == row.file {
      assert more[i].file == more[|rows|].file;
    }
  }

  lemma PrefixOfDistinct(a: seq<Row>, b: seq<Row>)
    requires DistinctFiles(a + b)
    ensures DistinctFiles(a)
  {
    forall i, j | 0 <= i < j < |a| ensures a[i].file != a[j].file {
      assert (a + b)[i].file != (a + b)[j].file;
    }
  }

  lemma {:induction false} RowsPrefix(plan: seq<Shard>, n: nat)
    requires n <= |plan|
    ensures Rows(plan[..n]) <= Rows(plan)
    decreases |plan|
  {
    if n < |plan| {
      RowsPrefix(plan[..|plan| - 1], n);
      assert plan[..|plan| - 1][..n] == plan[..n];
    } else {
      assert plan[..n] == plan;
    }
  }

  /** `observed` is the table of `rows`, none of which repeats a file. */
  ghost predicate Observed(rows: seq<Row>, observed: map<File, Isolation>) {
    DistinctFiles(rows) && observed == Classes(rows)
  }

  lemma ObserveRow(rows: seq<Row>, observed: map<File, Isolation>, row: Row)
    requires Observed(rows, observed)
    ensures row.file in observed <==> !DistinctFiles(rows + [row])
    ensures row.file !in observed ==> Observed(rows + [row], observed[row.file := row.isolation])
  {
    AddRow(rows, row);
    ClassesAppend(rows, row);
  }

  lemma RepeatStays(rows: seq<Row>, more: seq<Row>)
    requires !DistinctFiles(rows)
    ensures !DistinctFiles(rows + more)
  {
    if DistinctFiles(rows + more) { PrefixOfDistinct(rows, more); }
  }

  /** Records one shard's files, stopping at the first one recorded before. */
  method ObserveShard(start: map<File, Isolation>, ghost rows: seq<Row>, shard: Shard)
    returns (observed: map<File, Isolation>, repeated: bool)
    requires Observed(rows, start)
    ensures !repeated <==> DistinctFiles(rows + RowsOf(shard.files, shard.isolation))
    ensures !repeated ==> Observed(rows + RowsOf(shard.files, shard.isolation), observed)
  {
    observed := start;
    ghost var mine := RowsOf(shard.files, shard.isolation);
    ghost var done, left := rows, mine;
    for j := 0 to |shard.files|
      invariant left == mine[j..] && rows + mine == done + left && Observed(done, observed)
    {
      var file := shard.files[j];
      assert left[0] == Row(file, shard.isolation);
      ObserveRow(done, observed, left[0]);
      MoveOne(done, left);
      if file in observed {
        RepeatStays(done + [left[0]], left[1..]);
        return observed, true;
      }
      observed := observed[file := shard.isolation];
      done, left := done + [left[0]], left[1..];
    }
    assert done + left == done;
    repeated := false;
  }

  lemma MoveOne<T>(done: seq<T>, left: seq<T>)
    requires left != []
    ensures done + left == done + [left[0]] + left[1..]
  {
  }

  /** The shards of `done` pass so far, with their indexes and their files' classes recorded. */
  ghost predicate Scanned(done: seq<Shard>, indexes: set<nat>, observed: map<File, Isolation>) {
    && DistinctIndexes(done) && Observed(Rows(done), observed)
    && indexes == set shard | shard in done :: shard.index
  }

  lemma ScanIndex(done: seq<Shard>, indexes: set<nat>, observed: map<File, Isolation>, shard: Shard)
    requires Scanned(done, indexes, observed)
    ensures shard.index in indexes <==> !DistinctIndexes(done + [shard])
    ensures indexes + {shard.index} == set s | s in done + [shard] :: s.index
  {
    var more := done + [shard];
    if shard.index in indexes {
      var s :| s in done && s.index == shard.index;
      var i :| 0 <= i < |done| && done[i] == s;
      assert more[i].index == more[|done|].index;
    }
    forall s | s in more ensures s.index in indexes + {shard.index} {}
    assert shard in more;
  }

  lemma PrefixRepeatless(plan: seq<Shard>, more: seq<Shard>)
    requires Repeatless(plan + more)
    ensures Repeatless(plan)
  {
    var all := plan + more;
    RowsPrefix(all, |plan|);
    assert all[..|plan|] == plan;
    assert Rows(all) == Rows(plan) + Rows(all)[|Rows(plan)|..];
    PrefixOfDistinct(Rows(plan), Rows(all)[|Rows(plan)|..]);
    forall i, j | 0 <= i < j < |plan| ensures plan[i].index != plan[j].index {
      assert all[i].index != all[j].index;
    }
  }

  /** The first `i` shards repeat nothing, but shard `i` repeats an index or a file. */
  ghost predicate FirstRepeat(plan: seq<Shard>, i: nat) {
    i < |plan| && Repeatless(plan[..i]) && !Repeatless(plan[..i + 1])
  }

  ghost predicate IndexBefore(plan: seq<Shard>, i: nat)
    requires i < |plan|
  {
    exists j :: 0 <= j < i && plan[j].index == plan[i].index
  }

  /** The first shard to repeat anything repeats an index. */
  ghost predicate RepeatsIndex(plan: seq<Shard>) {
    exists i: nat :: FirstRepeat(plan, i) && IndexBefore(plan, i)
  }

  /** The first shard to repeat anything has a new index, and so repeats a file. */
  ghost predicate RepeatsFile(plan: seq<Shard>) {
    exists i: nat :: FirstRepeat(plan, i) && !IndexBefore(plan, i)
  }

  lemma {:induction false} OneFirstRepeat(plan: seq<Shard>, i: nat, k: nat)
    requires FirstRepeat(plan, i) && FirstRepeat(plan, k)
    ensures i >= k
  {
    if i < k {
      assert plan[..k] == plan[..i + 1] + plan[i + 1..k];
      PrefixRepeatless(plan[..i + 1], plan[i + 1..k]);
    }
  }

  /** Which of the two errors a repetition raises is decided where it first occurs. */
  lemma {:induction false} ErrorAt(plan: seq<Shard>, i: nat)
    requires FirstRepeat(plan, i)
    ensures !Repeatless(plan)
    ensures RepeatsIndex(plan) <==> IndexBefore(plan, i)
    ensures RepeatsFile(plan) <==> !IndexBefore(plan, i)
  {
    assert plan == plan[..i + 1] + plan[i + 1..];
    if Repeatless(plan) { PrefixRepeatless(plan[..i + 1], plan[i + 1..]); }
    forall k: nat | FirstRepeat(plan, k) ensures k == i {
      OneFirstRepeat(plan, i, k);
      OneFirstRepeat(plan, k, i);
    }
  }

  lemma {:induction false} NothingRepeats(plan: seq<Shard>)
    requires Repeatless(plan)
    ensures !RepeatsIndex(plan) && !RepeatsFile(plan)
  {
    forall i: nat | i < |plan| ensures !FirstRepeat(plan, i) {
      assert plan == plan[..i + 1] + plan[i + 1..];
      PrefixRepeatless(plan[..i + 1], plan[i + 1..]);
    }
  }

  /** The classes a plan runs its files under, or the first repetition. */
  method ObservePlan(plan: seq<Shard>) returns (r: Result<map<File, Isolation>, PlanError>)
    ensures r.Ok? <==> Repeatless(plan)
    ensures r.Err? ==> r.error in {DuplicateIndex, DuplicateFile}
    ensures r == Err(DuplicateIndex) <==> RepeatsIndex(plan)
    ensures r == Err(DuplicateFile) <==> RepeatsFile(plan)
    ensures r.Ok? ==> r.value == Classes(Rows(plan))
  {
    var observed: map<File, Isolation> := map[];
    var indexes: set<nat> := {};
    ghost var done := [];
    for i := 0 to |plan|
      invariant done == plan[..i] && Scanned(done, indexes, observed)
    {
      var shard := plan[i];
      ScanIndex(done, indexes, observed, shard);
      Advance(plan, i);
      if shard.index in indexes {
        ErrorAt(plan, i);
        return Err(DuplicateIndex);
      }
      indexes := indexes + {shard.index};
      RowsAppend(done, shard);
      var repeated;
      observed, repeated := ObserveShard(observed, Rows(done), shard);
      if repeated {
        ErrorAt(plan, i);
        return Err(DuplicateFile);
      }
      done := done + [shard];
    }
    assert plan == done;
    NothingRepeats(plan);
    r := Ok(observed);
  }

  lemma {:induction false} Advance(plan: seq<Shard>, i: nat)
    requires i < |plan| && DistinctIndexes(plan[..i])
    ensures plan[..i + 1] == plan[..i] + [plan[i]]
    ensures DistinctIndexes(plan[..i + 1]) <==> !IndexBefore(plan, i)
  {
    var before, after := plan[..i], plan[..i + 1];
    if IndexBefore(plan, i) {
      var j :| 0 <= j < i && plan[j].index == plan[i].index;
      assert after[j].index == after[i].index;
    } else {
      forall a, b | 0 <= a < b < |after| ensures after[a].index != after[b].index {
        if b < i { assert before[a].index != before[b].index; }
      }
    }
  }

  /** Accepts exactly the plans that cover the inventory; each error says which rule is broken first. */
  method ValidatePlan(plan: seq<Shard>, inventory: seq<Row>) returns (error: Option<PlanError>)
    ensures error.None? <==> Covers(plan, inventory)
    ensures error == Some(DuplicateIndex) <==> RepeatsIndex(plan)
    ensures error == Some(DuplicateFile) <==> RepeatsFile(plan)
    ensures RepeatsIndex(plan) || RepeatsFile(plan) <==> !Repeatless(plan)
    ensures error == Some(OmittedFile) <==>
              Repeatless(plan) && !(Classes(inventory).Keys <= Classes(Rows(plan)).Keys)
    ensures error == Some(UnknownFile) <==>
              Repeatless(plan) && Classes(inventory).Keys < Classes(Rows(plan)).Keys
    ensures error == Some(IsolationDrift) <==>
              Repeatless(plan) && Classes(inventory).Keys == Classes(Rows(plan)).Keys && !Covers(plan, inventory)
  {
    var expected := Classes(inventory);
    var scan := ObservePlan(plan);
    if scan.Err? {
      return Some(scan.error);
    }
    var observed := scan.value;
    if expected.Keys - observed.Keys != {} {
      var f :| f in expected.Keys - observed.Keys;
      return Some(OmittedFile);
    }
    forall f | f in expected.Keys ensures f in observed.Keys {
      assert f !in expected.Keys - observed.Keys;
    }
    if observed.Keys - expected.Keys != {} {
      var f :| f in observed.Keys - expected.Keys;
      return Some(UnknownFile);
    }
    forall f | f in observed.Keys ensures f in expected.Keys {
      assert f !in observed.Keys - expected.Keys;
    }
    var todo := expected.Keys;
    while todo != {}
      invariant todo <= expected.Keys
      invariant forall f :: f in expected.Keys - todo ==> observed[f] == expected[f]
    {
      var f :| f in todo;
      if observed[f] != expected[f] {
        return Some(IsolationDrift);
      }
      todo := todo - {f};
    }
    error := None;
  }

  // ---- Coverage as a permutation ----------------------------------------

  /** With no file twice, the class table and the rows say the same. */
  lemma {:induction false} ClassesAreRows(rows: seq<Row>, row: Row)
    requires DistinctFiles(rows)
    ensures row in rows <==> row.file in Classes(rows) && Classes(rows)[row.file] == row.isolation
    decreases |rows|
  {
    if rows != [] {
      var n := |rows| - 1;
      assert rows == rows[..n] + [rows[n]];
      PrefixOfDistinct(rows[..n], [rows[n]]);
      ClassesAreRows(rows[..n], row);
      ClassesKeys(rows[..n], rows[n].file);
      if row in rows[..n] {
        var i :| 0 <= i < n && rows[..n][i] == row;
        assert rows[i].file != rows[n].file;
      }
    }
  }

  lemma {:induction false} CountOnce(rows: seq<Row>, row: Row)
    requires DistinctFiles(rows)
    ensures multiset(rows)[row] == if row in rows then 1 else 0
    decreases |rows|
  {
    if rows != [] {
      var n := |rows| - 1;
      assert rows == rows[..n] + [rows[n]];
      PrefixOfDistinct(rows[..n], [rows[n]]);
      CountOnce(rows[..n], row);
      if row in rows[..n] {
        var i :| 0 <= i < n && rows[..n][i] == row;
        assert rows[i].file != rows[n].file;
      }
    }
  }

  lemma CountTwice<T>(rows: seq<T>, i: nat, j: nat)
    requires i < j < |rows| && rows[i] == rows[j]
    ensures multiset(rows)[rows[i]] >= 2
  {
    assert rows == rows[..i] + [rows[i]] + rows[i + 1..j] + [rows[j]] + rows[j + 1..];
  }

  lemma PermutationKeepsDistinct(a: seq<Row>, b: seq<Row>)
    requires multiset(a) == multiset(b) && DistinctFiles(a)
    ensures DistinctFiles(b)
  {
    forall i, j | 0 <= i < j < |b| ensures b[i].file != b[j].file {
      if b[i].file == b[j].file {
        assert b[i] in multiset(b) && b[j] in multiset(b);
        var p :| 0 <= p < |a| && a[p] == b[i];
        var q :| 0 <= q < |a| && a[q] == b[j];
        assert p == q;
        CountOnce(a, b[i]);
        CountTwice(b, i, j);
      }
    }
  }

  /** For an inventory that lists no file twice, a plan covers it exactly when its indexes differ and
      its rows are the inventory's rows in some order. */
  lemma {:induction false} CoversIsPermutation(plan: seq<Shard>, inventory: seq<Row>)
    requires DistinctFiles(inventory)
    ensures Covers(plan, inventory) <==> DistinctIndexes(plan) && multiset(Rows(plan)) == multiset(inventory)
  {
    var rows := Rows(plan);
    if Covers(plan, inventory) {
      forall row ensures multiset(rows)[row] == multiset(inventory)[row] {
        ClassesAreRows(rows, row);
        ClassesAreRows(inventory, row);
        CountOnce(rows, row);
        CountOnce(inventory, row);
      }
    }
    if multiset(rows) == multiset(inventory) {
      PermutationKeepsDistinct(inventory, rows);
      forall f ensures f in Classes(rows) <==> f in Classes(inventory) {
        if f in Classes(rows) { SameRows(rows, inventory, f); }
        if f in Classes(inventory) { SameRows(inventory, rows, f); }
      }
      forall f | f in Classes(rows) ensures Classes(rows)[f] == Classes(inventory)[f] {
        var row := Row(f, Classes(rows)[f]);
        ClassesAreRows(rows, row);
        assert row in multiset(rows);
        ClassesAreRows(inventory, row);
      }
      assert Classes(rows) == Classes(inventory);
    }
  }

  lemma SameRows(a: seq<Row>, b: seq<Row>, f: File)
    requires multiset(a) == multiset(b) && f in Classes(a)
    ensures f in Classes(b)
  {
    ClassesKeys(a, f);
    var i :| 0 <= i < |a| && a[i].file == f;
    assert a[i] in multiset(b);
    var j :| 0 <= j < |b| && b[j] == a[i];
    ClassesKeys(b, f);
  }
}

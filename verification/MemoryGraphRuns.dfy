/**
 What staging guarantees, and what holds over every history of stage, activate and restore.
 */
module MemoryGraphRuns {
  import opened Outcomes
  import opened Ordering
  import opened MemoryGraphRecords
  import opened PlainText
  import opened GraphEdits
  import opened VersionedMemoryGraph

  // ---- Listing and reading back -----------------------------------------

  lemma ListedNode(s: Snapshot, generation: string, w: Working, id: string) returns (i: nat)
    requires Lists(s, generation, w) && id in w.nodes
    ensures i < |s.nodes| && s.nodes[i] == w.nodes[id] && s.nodes[i].nodeId == id
  {
    assert Snapshot("", s.nodes, []).NodeIds() == s.NodeIds();
    assert id in Elements(s.NodeIds());
    i :| 0 <= i < |s.NodeIds()| && s.NodeIds()[i] == id;
  }

  lemma ListedEdge(s: Snapshot, generation: string, w: Working, k: EdgeKey) returns (i: nat)
    requires Lists(s, generation, w) && k in w.edges
    ensures i < |s.edges| && s.edges[i] == EdgeRecord(k, w.edges[k])
  {
    assert Snapshot("", [], s.edges).EdgeKeys() == s.EdgeKeys();
    assert k in Elements(s.EdgeKeys());
    i :| 0 <= i < |s.EdgeKeys()| && s.EdgeKeys()[i] == k;
  }

  lemma SameEntries<K, V>(a: map<K, V>, b: map<K, V>)
    requires forall k :: k in a <==> k in b
    requires forall k :: k in a ==> a[k] == b[k]
    ensures a == b
  {
  }

  lemma {:induction false} NodesInvert(s: Snapshot, generation: string, w: Working)
    requires s.Valid() && Lists(s, generation, w)
    ensures WorkingOf(s).nodes == w.nodes
  {
    OneNodePerId(s);
    var nodes := WorkingOf(s).nodes;
    forall id | id in w.nodes ensures id in nodes && nodes[id] == w.nodes[id] {
      var i := ListedNode(s, generation, w, id);
      assert s.nodes[i] in s.nodes;
    }
    assert forall id :: id in nodes ==> id in w.nodes;
    SameEntries(nodes, w.nodes);
  }

  lemma {:induction false} EdgesInvert(s: Snapshot, generation: string, w: Working)
    requires s.Valid() && Lists(s, generation, w)
    ensures WorkingOf(s).edges == w.edges
  {
    var edges := WorkingOf(s).edges;
    forall k | k in w.edges ensures k in edges && edges[k] == w.edges[k] {
      ReadEdge(s, generation, w, k);
    }
    forall k | k in edges ensures k in w.edges {
      var e :| e in s.edges && e.key == k;
    }
    SameEntries(edges, w.edges);
  }

  lemma {:induction false} ReadEdge(s: Snapshot, generation: string, w: Working, k: EdgeKey)
    requires s.Valid() && Lists(s, generation, w) && k in w.edges
    ensures k in WorkingOf(s).edges && WorkingOf(s).edges[k] == w.edges[k]
  {
    OneEdgePerKey(s);
    var i := ListedEdge(s, generation, w, k);
    assert s.edges[i] in s.edges;
  }

  /** Listing a working copy and reading the snapshot back gives the same dictionaries. */
  lemma {:induction false} ListingInverts(s: Snapshot, generation: string, w: Working)
    requires s.Valid() && Lists(s, generation, w)
    ensures WorkingOf(s) == w
  {
    NodesInvert(s, generation, w);
    EdgesInvert(s, generation, w);
  }

  /** A working copy has one canonical listing. */
  lemma {:induction false} ListingIsCanonical(s: Snapshot, t: Snapshot, generation: string, w: Working)
    requires Lists(s, generation, w) && Lists(t, generation, w)
    ensures s == t
  {
    TextOrder();
    EdgeOrder();
    IncreasingIsUnique(Snapshot("", s.nodes, []).NodeIds(), Snapshot("", t.nodes, []).NodeIds(), TextLess);
    IncreasingIsUnique(Snapshot("", [], s.edges).EdgeKeys(), Snapshot("", [], t.edges).EdgeKeys(), EdgeLess);
    assert |s.nodes| == |Snapshot("", s.nodes, []).NodeIds()| == |t.nodes|;
    assert |s.edges| == |Snapshot("", [], s.edges).EdgeKeys()| == |t.edges|;
    forall i | 0 <= i < |s.nodes| ensures s.nodes[i] == t.nodes[i] {
      assert s.nodes[i].nodeId == Snapshot("", s.nodes, []).NodeIds()[i] == t.nodes[i].nodeId;
    }
    forall i | 0 <= i < |s.edges| ensures s.edges[i] == t.edges[i] {
      assert s.edges[i].key == Snapshot("", [], s.edges).EdgeKeys()[i] == t.edges[i].key;
    }
  }

  ghost predicate ParentsPresent(w: Working) {
    forall id, p :: id in w.nodes && p in w.nodes[id].parentIds ==> p in w.nodes
  }

  lemma {:induction false} ListedIds(s: Snapshot, generation: string, w: Working)
    requires Lists(s, generation, w)
    ensures Increasing(s.NodeIds(), TextLess) && Increasing(s.EdgeKeys(), EdgeLess)
    ensures forall id :: id in w.nodes <==> id in s.NodeIds()
  {
    assert Snapshot("", s.nodes, []).NodeIds() == s.NodeIds();
    assert Snapshot("", [], s.edges).EdgeKeys() == s.EdgeKeys();
    forall id ensures id in w.nodes <==> id in s.NodeIds() {
      assert id in Elements(s.NodeIds()) <==> id in s.NodeIds();
    }
  }

  lemma {:induction false} ListedRecords(s: Snapshot, generation: string, w: Working)
    requires WellFormed(w) && Lists(s, generation, w)
    ensures forall i :: 0 <= i < |s.nodes| ==> s.nodes[i].Valid()
    ensures forall i :: 0 <= i < |s.edges| ==>
              s.edges[i].Valid() && s.edges[i].key.source in w.nodes && s.edges[i].key.target in w.nodes
  {
    forall i | 0 <= i < |s.edges|
      ensures s.edges[i].Valid() && s.edges[i].key.source in w.nodes && s.edges[i].key.target in w.nodes
    {
      assert s.edges[i] == EdgeRecord(s.edges[i].key, w.edges[s.edges[i].key]);
    }
  }

  lemma {:induction false} ListedParents(s: Snapshot, generation: string, w: Working)
    requires Lists(s, generation, w)
    ensures ParentsPresent(w) <==>
              forall i :: 0 <= i < |s.nodes| ==> forall p :: p in s.nodes[i].parentIds ==> p in w.nodes
  {
    if forall i :: 0 <= i < |s.nodes| ==> forall p :: p in s.nodes[i].parentIds ==> p in w.nodes {
      forall id, p | id in w.nodes && p in w.nodes[id].parentIds ensures p in w.nodes {
        var i := ListedNode(s, generation, w, id);
      }
    }
  }

  /** The only thing a well-formed working copy can still lack is a parent. */
  lemma {:induction false} ListingIsValid(s: Snapshot, generation: string, w: Working)
    requires WellFormed(w) && IsText(generation) && Lists(s, generation, w)
    ensures s.Valid() <==> ParentsPresent(w)
  {
    ListedIds(s, generation, w);
    ListedRecords(s, generation, w);
    ListedParents(s, generation, w);
  }

  // ---- When staging succeeds --------------------------------------------

  /** Everything a batch must satisfy to be staged. */
  ghost predicate Stageable(base: Snapshot, ops: seq<Operation>, evidence: seq<string>, rationale: string)
    requires base.Valid()
  {
    && 0 < |ops| <= MAX_OPERATIONS
    && NextGeneration(base).Some?
    && ApplyAll(NextGeneration(base), WorkingOf(base), ops).Ok?
    && (var w := ApplyAll(NextGeneration(base), WorkingOf(base), ops).value;
        IsDag(w) && ParentsPresent(w))
    && IsText(rationale) && AllText(evidence)
  }

  lemma SortedKeepsText(evidence: seq<string>, sorted: seq<string>)
    requires SortedEvidence(evidence, sorted)
    ensures AllText(sorted) <==> AllText(evidence)
  {
    forall e ensures e in sorted <==> e in evidence {
      assert e in Elements(sorted) <==> e in Elements(evidence);
    }
    assert AllText(sorted) <==> forall e :: e in sorted ==> IsText(e);
    assert AllText(evidence) <==> forall e :: e in evidence ==> IsText(e);
  }

  /** The next generation is text, counts one higher, and so is never the base's own. */
  lemma GenerationAdvances(base: Snapshot)
    requires NextGeneration(base).Some?
    ensures GenerationNumber(base.generation).Some?
    ensures GenerationNumber(NextGeneration(base).value) == Some(GenerationNumber(base.generation).value + 1)
    ensures IsText(NextGeneration(base).value) && NextGeneration(base).value != base.generation
  {
    GenerationRoundTrip(GenerationNumber(base.generation).value + 1);
  }

  /** The no-op test compares whole snapshots, so a new generation always passes it. */
  lemma {:induction false} CheckedExactly(
    base: Snapshot, ops: seq<Operation>, rationale: string, s: Snapshot, sorted: seq<string>)
    requires s.generation != base.generation
    ensures var r := Checked(base, ops, rationale, s, sorted);
            && (r.Ok? <==> s.Valid() && IsText(rationale) && AllText(sorted))
            && (r.Ok? ==> r.value == Transaction(SnapshotDigest(base), s, sorted, rationale, Digests(ops)))
            && r != Err(NoOp)
  {
    assert SnapshotDigest(s) == SnapshotDigest(base) ==> s == base;
  }

  /** What staging a batch that passed the DAG check returns, and when. */
  ghost predicate Concluded(
    base: Snapshot, ops: seq<Operation>, evidence: seq<string>, rationale: string, w: Working, tx: Transaction)
  {
    && NextGeneration(base).Some?
    && tx.base == SnapshotDigest(base) && tx.operationDigests == Digests(ops)
    && tx.rationale == rationale && SortedEvidence(evidence, tx.evidenceIds)
    && tx.snapshot.Valid() && Lists(tx.snapshot, NextGeneration(base).value, w)
  }

  lemma {:induction false} ListedIsChecked(
    base: Snapshot, ops: seq<Operation>, evidence: seq<string>, rationale: string, w: Working,
    s: Snapshot, sorted: seq<string>)
    requires WellFormed(w) && Listed(base, evidence, w, s, sorted)
    ensures var r := Checked(base, ops, rationale, s, sorted);
            && (r.Ok? <==> ParentsPresent(w) && IsText(rationale) && AllText(evidence))
            && (r.Ok? ==> Concluded(base, ops, evidence, rationale, w, r.value))
            && r != Err(NoOp)
  {
    GenerationAdvances(base);
    CheckedExactly(base, ops, rationale, s, sorted);
    ListingIsValid(s, NextGeneration(base).value, w);
    SortedKeepsText(evidence, sorted);
  }

  lemma {:induction false} ConcludesExactly(
    base: Snapshot, ops: seq<Operation>, evidence: seq<string>, rationale: string, w: Working,
    r: Result<Transaction, GraphError>)
    requires WellFormed(w) && Concludes(base, ops, evidence, rationale, w, r)
    ensures r.Ok? <==>
              NextGeneration(base).Some? && ParentsPresent(w) && IsText(rationale) && AllText(evidence)
    ensures r != Err(NoOp)
    ensures r.Ok? ==> Concluded(base, ops, evidence, rationale, w, r.value)
  {
    if NextGeneration(base).Some? {
      var s, sorted :| Listed(base, evidence, w, s, sorted) && r == Checked(base, ops, rationale, s, sorted);
      ListedIsChecked(base, ops, evidence, rationale, w, s, sorted);
    }
  }

  /** Staging succeeds for exactly the batches that satisfy the rules, and the no-op test, which
      compares whole snapshots, can never fire because the generation always changes. */
  lemma {:induction false} StagesExactly(
    base: Snapshot, ops: seq<Operation>, evidence: seq<string>, rationale: string, r: Result<Transaction, GraphError>)
    requires base.Valid() && Stages(base, ops, evidence, rationale, r)
    ensures r.Ok? <==> Stageable(base, ops, evidence, rationale)
    ensures r != Err(NoOp)
  {
    if 0 < |ops| <= MAX_OPERATIONS {
      var applied := ApplyAll(NextGeneration(base), WorkingOf(base), ops);
      SnapshotIsWellFormed(base);
      BatchKeepsWellFormed(NextGeneration(base), WorkingOf(base), ops);
      match applied
      case Err(error) => OperationNeverNoOp(NextGeneration(base), WorkingOf(base), ops);
      case Ok(w) =>
        if IsDag(w) { ConcludesExactly(base, ops, evidence, rationale, w, r); }
    }
  }

  lemma {:induction false} OperationNeverNoOp(next: Option<string>, w: Working, ops: seq<Operation>)
    ensures ApplyAll(next, w, ops) != Err(NoOp)
    decreases |ops|
  {
    if ops != [] && ApplyOperation(next, w, ops[0]).Ok? {
      OperationNeverNoOp(next, ApplyOperation(next, w, ops[0]).value, ops[1..]);
    }
  }

  /** Canonical, with unique keys and nothing missing, and acyclic over active nodes and edges. */
  ghost predicate SoundSnapshot(s: Snapshot) {
    s.Valid() && IsDag(WorkingOf(s))
  }

  /** A transaction that may be activated: its snapshot is a valid DAG one generation after its base. */
  ghost predicate SoundTransaction(tx: Transaction) {
    SoundSnapshot(tx.snapshot) && Advances(tx)
  }

  ghost predicate Advances(tx: Transaction) {
    && GenerationNumber(tx.base.of.generation).Some?
    && GenerationNumber(tx.snapshot.generation) == Some(GenerationNumber(tx.base.of.generation).value + 1)
  }

  lemma {:induction false} StagedIsSound(
    base: Snapshot, ops: seq<Operation>, evidence: seq<string>, rationale: string, tx: Transaction)
    requires base.Valid() && Stages(base, ops, evidence, rationale, Ok(tx))
    ensures SoundTransaction(tx) && tx.base == SnapshotDigest(base)
    ensures WorkingOf(tx.snapshot) == ApplyAll(NextGeneration(base), WorkingOf(base), ops).value
  {
    StagesExactly(base, ops, evidence, rationale, Ok(tx));
    var w := ApplyAll(NextGeneration(base), WorkingOf(base), ops).value;
    SnapshotIsWellFormed(base);
    BatchKeepsWellFormed(NextGeneration(base), WorkingOf(base), ops);
    ConcludesExactly(base, ops, evidence, rationale, w, Ok(tx));
    ListingInverts(tx.snapshot, NextGeneration(base).value, w);
    GenerationAdvances(base);
  }

  /** Staging the same batch twice against the same snapshot gives the same transaction. */
  lemma {:induction false} StagingIsDeterministic(
    base: Snapshot, ops: seq<Operation>, evidence: seq<string>, rationale: string, one: Transaction, two: Transaction)
    requires base.Valid()
    requires Stages(base, ops, evidence, rationale, Ok(one)) && Stages(base, ops, evidence, rationale, Ok(two))
    ensures one == two
  {
    var w := ApplyAll(NextGeneration(base), WorkingOf(base), ops).value;
    SnapshotIsWellFormed(base);
    BatchKeepsWellFormed(NextGeneration(base), WorkingOf(base), ops);
    StagesExactly(base, ops, evidence, rationale, Ok(one));
    ConcludesExactly(base, ops, evidence, rationale, w, Ok(one));
    ConcludesExactly(base, ops, evidence, rationale, w, Ok(two));
    ListingIsCanonical(one.snapshot, two.snapshot, NextGeneration(base).value, w);
    TextOrder();
    IncreasingIsUnique(one.evidenceIds, two.evidenceIds, TextLess);
  }

  // ---- Histories --------------------------------------------------------

  /** A graph and its clients: the transactions staged so far, and since the last restore the
      snapshot it left (`origin`) and the transactions activated. */
  datatype System = System(
    snapshot: Snapshot,
    ledger: seq<LedgerEntry>,
    origin: Snapshot,
    staged: set<Transaction>,
    activated: seq<Transaction>
  )

  ghost predicate Init(s: System) {
    s == System(EmptySnapshot(), [], EmptySnapshot(), {}, [])
  }

  ghost predicate StageStep(s: System, s': System) {
    && s.snapshot.Valid()
    && exists ops, evidence, rationale, tx ::
         Stages(s.snapshot, ops, evidence, rationale, Ok(tx)) && s' == s.(staged := s.staged + {tx})
  }

  /** Any client may activate any transaction that was ever staged. */
  ghost predicate ActivateStep(s: System, s': System) {
    exists tx ::
      && tx in s.staged && tx.base == SnapshotDigest(s.snapshot)
      && s' == s.(snapshot := tx.snapshot, ledger := s.ledger + [EntryOf(tx)], activated := s.activated + [tx])
  }

  ghost predicate RestoreStep(s: System, s': System) {
    exists snapshot: Snapshot ::
      && SoundSnapshot(snapshot)
      && s' == s.(snapshot := snapshot, ledger := [], origin := snapshot, activated := [])
  }

  /** A call that is refused changes nothing. */
  ghost predicate Next(s: System, s': System) {
    StageStep(s, s') || ActivateStep(s, s') || RestoreStep(s, s') || s' == s
  }

  ghost predicate History(states: seq<System>) {
    states != [] && Init(states[0]) && forall i :: 0 < i < |states| ==> Next(states[i - 1], states[i])
  }

  /** The snapshot current when the `i`-th activation since the last restore takes place. */
  ghost function Before(s: System, i: nat): Snapshot
    requires i <= |s.activated|
  {
    if i == 0 then s.origin else s.activated[i - 1].snapshot
  }

  /** Each activated transaction was staged from what the one before it installed. */
  ghost predicate Chained(s: System) {
    && (forall i {:trigger Before(s, i)} :: 0 <= i < |s.activated| ==>
          s.activated[i] in s.staged
          && s.activated[i].base == SnapshotDigest(Before(s, i)))
    && s.snapshot == Before(s, |s.activated|)
    && |s.ledger| == |s.activated|
    && (forall i :: 0 <= i < |s.ledger| ==> s.ledger[i] == EntryOf(s.activated[i]))
  }

  ghost predicate Inv(s: System) {
    && SoundSnapshot(s.snapshot)
    && (forall tx :: tx in s.staged ==> SoundTransaction(tx))
    && Chained(s)
  }

  lemma EmptyIsDag()
    ensures SoundSnapshot(EmptySnapshot())
  {
    var s := EmptySnapshot();
    assert !IsBlankChar(s.generation[0]);
    assert s.NodeIds() == [] && s.EdgeKeys() == [];
    assert ActiveEdges(WorkingOf(s)) == {};
    forall path ensures !Loop({}, path) {
      if |path| >= 2 { assert !Linked({}, path[0], path[1]); }
    }
  }

  lemma {:induction false} StageKeepsInv(s: System, s': System)
    requires Inv(s) && StageStep(s, s')
    ensures Inv(s')
  {
    var ops, evidence, rationale, tx :|
      Stages(s.snapshot, ops, evidence, rationale, Ok(tx)) && s' == s.(staged := s.staged + {tx});
    StagedIsSound(s.snapshot, ops, evidence, rationale, tx);
    StageKeepsChained(s, tx);
  }

  lemma StageKeepsChained(s: System, tx: Transaction)
    requires Chained(s)
    ensures Chained(s.(staged := s.staged + {tx}))
  {
    var s' := s.(staged := s.staged + {tx});
    assert Before(s', |s.activated|) == Before(s, |s.activated|);
    forall i | 0 <= i < |s.activated|
      ensures s.activated[i] in s'.staged && s.activated[i].base == SnapshotDigest(Before(s', i))
    {
      assert Before(s', i) == Before(s, i);
    }
  }

  lemma ActivateKeepsChained(s: System, tx: Transaction)
    requires Chained(s) && tx in s.staged && tx.base == SnapshotDigest(s.snapshot)
    ensures Chained(s.(snapshot := tx.snapshot, ledger := s.ledger + [EntryOf(tx)], activated := s.activated + [tx]))
  {
    var s' := s.(snapshot := tx.snapshot, ledger := s.ledger + [EntryOf(tx)], activated := s.activated + [tx]);
    assert Before(s', |s'.activated|) == tx.snapshot;
    forall i | 0 <= i < |s'.activated|
      ensures s'.activated[i] in s.staged && s'.activated[i].base == SnapshotDigest(Before(s', i))
    {
      assert Before(s', i) == Before(s, i);
      if i < |s.activated| { assert s'.activated[i] == s.activated[i]; }
    }
    forall i | 0 <= i < |s'.ledger| ensures s'.ledger[i] == EntryOf(s'.activated[i]) {
      if i < |s.ledger| { assert s'.ledger[i] == s.ledger[i]; }
    }
  }

  lemma ActivateKeepsInv(s: System, s': System)
    requires Inv(s) && ActivateStep(s, s')
    ensures Inv(s')
  {
    var tx :|
      && tx in s.staged && tx.base == SnapshotDigest(s.snapshot)
      && s' == s.(snapshot := tx.snapshot, ledger := s.ledger + [EntryOf(tx)], activated := s.activated + [tx]);
    ActivateKeepsChained(s, tx);
  }

  lemma {:induction false} NextKeepsInv(s: System, s': System)
    requires Inv(s) && Next(s, s')
    ensures Inv(s')
  {
    if StageStep(s, s') {
      StageKeepsInv(s, s');
    } else if ActivateStep(s, s') {
      ActivateKeepsInv(s, s');
    }
  }

  lemma {:induction false} HistoryKeepsInv(states: seq<System>, k: nat)
    requires History(states) && k < |states|
    ensures Inv(states[k])
    decreases k
  {
    if k == 0 {
      EmptyIsDag();
    } else {
      HistoryKeepsInv(states, k - 1);
      NextKeepsInv(states[k - 1], states[k]);
    }
  }

  /** Every graph reachable from empty is valid, canonical and acyclic, and its ledger is the chain
      of the transactions activated since the last restore. */
  lemma {:induction false} HistoriesKeepInv(states: seq<System>)
    requires History(states)
    ensures forall i :: 0 <= i < |states| ==> Inv(states[i])
  {
    forall i | 0 <= i < |states| ensures Inv(states[i]) {
      HistoryKeepsInv(states, i);
    }
  }

  // ---- The object takes these steps -------------------------------------

  /** What a client may ask: to stage a batch, to activate one of the transactions it was given, or to
      restore a snapshot. */
  datatype Request =
    | StageRequest(ops: seq<Operation>, evidence: seq<string>, rationale: string)
    | ActivateRequest(tx: Transaction)
    | RestoreRequest(snapshot: Snapshot)

  /** The object and its clients are in state `s`. */
  ghost predicate Mirrors(s: System, graph: MemoryGraph, given: set<Transaction>)
    reads graph
  {
    graph.snapshot == s.snapshot && graph.ledger == s.ledger && given == s.staged
  }

  ghost predicate Askable(request: Request, given: set<Transaction>) {
    match request
    case StageRequest(_, _, _) => true
    case ActivateRequest(tx) => tx in given
    case RestoreRequest(snapshot) => snapshot.Valid()
  }

  /** Whatever a client asks and whatever the answer, the object takes one step of a history. */
  method Perform(graph: MemoryGraph, request: Request, given: set<Transaction>, ghost s: System)
    returns (more: set<Transaction>, ghost s': System)
    requires Mirrors(s, graph, given) && Inv(s) && Askable(request, given)
    modifies graph
    ensures Next(s, s') && Mirrors(s', graph, more)
  {
    more, s' := given, s;
    match request
    case StageRequest(ops, evidence, rationale) =>
      var r := graph.Stage(ops, evidence, rationale);
      if r.Ok? {
        more := given + {r.value};
        s' := s.(staged := s.staged + {r.value});
        assert StageStep(s, s');
      }
    case ActivateRequest(tx) =>
      var r := graph.Activate(tx);
      if r.Ok? {
        s' := s.(snapshot := tx.snapshot, ledger := s.ledger + [EntryOf(tx)], activated := s.activated + [tx]);
        assert ActivateStep(s, s');
      }
    case RestoreRequest(snapshot) =>
      var error := graph.Restore(snapshot);
      if error.None? {
        s' := s.(snapshot := snapshot, ledger := [], origin := snapshot, activated := []);
        assert RestoreStep(s, s');
      }
  }

  /** If every staged transaction counts its base's number up by one, so does every activation. */
  lemma {:induction false} NumbersRise(s: System, number: Snapshot -> Option<int>, i: nat, j: nat)
    requires Chained(s) && i < j < |s.activated|
    requires forall tx :: tx in s.staged ==>
               number(tx.base.of).Some? && number(tx.snapshot) == Some(number(tx.base.of).value + 1)
    ensures number(s.activated[i].snapshot).Some? && number(s.activated[j].snapshot).Some?
    ensures number(s.activated[j].base.of).Some? && number(s.activated[i].base.of).Some?
    ensures number(s.activated[j].snapshot).value == number(s.activated[i].snapshot).value + (j - i)
    decreases j
  {
    assert s.activated[i].base == SnapshotDigest(Before(s, i));
    assert s.activated[j].base == SnapshotDigest(Before(s, j));
    if i < j - 1 {
      NumbersRise(s, number, i, j - 1);
    }
  }

  /** Between restores generations rise by one with every activation, so no base is ever used twice
      and no transaction is activated twice. */
  lemma {:induction false} NoDoubleActivation(s: System, i: nat, j: nat)
    requires Inv(s) && i < j < |s.activated|
    ensures var a, b := s.activated[i], s.activated[j];
            && GenerationNumber(a.snapshot.generation).Some? && GenerationNumber(b.snapshot.generation).Some?
            && GenerationNumber(b.snapshot.generation).value == GenerationNumber(a.snapshot.generation).value + (j - i)
            && a.base != b.base && a != b
  {
    var number := (x: Snapshot) => GenerationNumber(x.generation);
    forall tx | tx in s.staged
      ensures number(tx.base.of).Some? && number(tx.snapshot) == Some(number(tx.base.of).value + 1)
    {
      assert SoundTransaction(tx) && Advances(tx);
    }
    NumbersRise(s, number, i, j);
    assert s.activated[i].base == SnapshotDigest(Before(s, i)) && s.activated[i] in s.staged;
    assert s.activated[j].base == SnapshotDigest(Before(s, j)) && s.activated[j] in s.staged;
    assert number(s.activated[i].snapshot).value == number(s.activated[i].base.of).value + 1;
    assert number(s.activated[j].snapshot).value == number(s.activated[j].base.of).value + 1;
  }

  /** The entry has everything the transaction says about itself. */
  ghost predicate Describes(entry: LedgerEntry, tx: Transaction) {
    && entry.base == tx.base && entry.result == SnapshotDigest(tx.snapshot)
    && entry.generation == tx.snapshot.generation && entry.operationDigests == tx.operationDigests
    && entry.evidenceIds == tx.evidenceIds && entry.rationale == tx.rationale
  }

  /** The ledger links each result to the next base, from the last restore to the current snapshot. */
  lemma {:induction false} LedgerIsAChain(s: System)
    requires Chained(s)
    ensures forall i :: 0 < i < |s.ledger| ==> s.ledger[i - 1].result == s.ledger[i].base
    ensures s.ledger != [] ==>
              && s.ledger[0].base == SnapshotDigest(s.origin)
              && s.ledger[|s.ledger| - 1].result == SnapshotDigest(s.snapshot)
              && s.ledger[|s.ledger| - 1].generation == s.snapshot.generation
    ensures |s.ledger| == |s.activated|
    ensures forall i :: 0 <= i < |s.ledger| ==> Describes(s.ledger[i], s.activated[i])
  {
    forall i | 0 <= i < |s.ledger| ensures Describes(s.ledger[i], s.activated[i]) {
      assert s.ledger[i] == EntryOf(s.activated[i]);
    }
    if s.ledger != [] {
      assert s.ledger[0] == EntryOf(s.activated[0]) && s.activated[0].base == SnapshotDigest(Before(s, 0));
      assert s.snapshot == Before(s, |s.activated|);
      assert s.ledger[|s.ledger| - 1] == EntryOf(s.activated[|s.activated| - 1]);
    }
    forall i | 0 < i < |s.ledger| ensures s.ledger[i - 1].result == s.ledger[i].base {
      assert s.activated[i].base == SnapshotDigest(Before(s, i));
      assert s.ledger[i] == EntryOf(s.activated[i]) && s.ledger[i - 1] == EntryOf(s.activated[i - 1]);
    }
  }
}

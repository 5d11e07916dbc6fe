/** The versioned memory graph: staging against a snapshot, activation by compare-and-swap, restore. */
module VersionedMemoryGraph {
  import opened Outcomes
  import opened Ordering
  import opened MemoryGraphRecords
  import opened GraphEdits

  // ---- What staging promises --------------------------------------------

  /** The nodes, ordered by ID. */
  ghost predicate ListsNodes(nodes: seq<NodeRecord>, of: map<string, NodeRecord>) {
    && Increasing(Snapshot("", nodes, []).NodeIds(), TextLess)
    && Elements(Snapshot("", nodes, []).NodeIds()) == of.Keys
    && forall i :: 0 <= i < |nodes| ==> nodes[i].nodeId in of && nodes[i] == of[nodes[i].nodeId]
  }

  /** The edges, ordered by key. */
  ghost predicate ListsEdges(edges: seq<EdgeRecord>, of: map<EdgeKey, bool>) {
    && Increasing(Snapshot("", [], edges).EdgeKeys(), EdgeLess)
    && Elements(Snapshot("", [], edges).EdgeKeys()) == of.Keys
    && forall i :: 0 <= i < |edges| ==> edges[i].key in of && edges[i].active == of[edges[i].key]
  }

  /** `s` lists the working copy canonically. */
  ghost predicate Lists(s: Snapshot, generation: string, w: Working) {
    s.generation == generation && ListsNodes(s.nodes, w.nodes) && ListsEdges(s.edges, w.edges)
  }

  function NextGeneration(base: Snapshot): Option<string> {
    match GenerationNumber(base.generation)
    case None => None
    case Some(n) => Some(GenerationName(n + 1))
  }

  /** `evidence`, sorted and without repetition. */
  ghost predicate SortedEvidence(evidence: seq<string>, sorted: seq<string>) {
    Increasing(sorted, TextLess) && Elements(sorted) == Elements(evidence)
  }

  function Digests(ops: seq<Operation>): seq<OperationDigest> {
    seq(|ops|, i requires 0 <= i < |ops| => OperationDigest(ops[i]))
  }

  /** The checks on the records of the result. */
  function Checked(base: Snapshot, ops: seq<Operation>, rationale: string, s: Snapshot, sorted: seq<string>)
    : Result<Transaction, GraphError>
  {
    var tx := Transaction(SnapshotDigest(base), s, sorted, rationale, Digests(ops));
    if !s.Valid() then Err(InvalidSnapshot)
    else if SnapshotDigest(s) == SnapshotDigest(base) then Err(NoOp)
    else if !tx.Valid() then Err(InvalidTransaction)
    else Ok(tx)
  }

  /** `s` and `sorted` are what the working copy and the evidence are listed as. */
  ghost predicate Listed(
    base: Snapshot, evidence: seq<string>, w: Working, s: Snapshot, sorted: seq<string>)
  {
    && NextGeneration(base).Some?
    && Lists(s, NextGeneration(base).value, w) && SortedEvidence(evidence, sorted)
  }

  /** How a checked batch ends: `w` is a DAG, and everything left to check is the result's records. */
  ghost predicate Concludes(
    base: Snapshot, ops: seq<Operation>, evidence: seq<string>, rationale: string, w: Working,
    r: Result<Transaction, GraphError>)
  {
    if NextGeneration(base).None? then r == Err(BadGeneration)
    else exists s, sorted :: Listed(base, evidence, w, s, sorted) && r == Checked(base, ops, rationale, s, sorted)
  }

  /** What `stage` may answer for this base and these arguments. */
  ghost predicate Stages(
    base: Snapshot, ops: seq<Operation>, evidence: seq<string>, rationale: string, r: Result<Transaction, GraphError>)
    requires base.Valid()
  {
    if ops == [] then r == Err(EmptyEdit)
    else if |ops| > MAX_OPERATIONS then r == Err(TooManyOperations)
    else
      match ApplyAll(NextGeneration(base), WorkingOf(base), ops)
      case Err(error) => r == Err(error)
      case Ok(w) =>
        if !JoinsActive(w.nodes, ActiveEdges(w)) then r == Err(InactiveEndpoint)
        else if !Acyclic(ActiveEdges(w)) then r == Err(CyclicGraph)
        else Concludes(base, ops, evidence, rationale, w, r)
  }

  function EntryOf(tx: Transaction): LedgerEntry {
    LedgerEntry(tx.base, SnapshotDigest(tx.snapshot), tx.snapshot.generation, tx.operationDigests, tx.evidenceIds,
                tx.rationale)
  }

  function EmptySnapshot(): Snapshot {
    Snapshot("g0", [], [])
  }

  /** What is wrong with the active edges, if anything is. */
  ghost function DagError(w: Working): Option<GraphError> {
    if !JoinsActive(w.nodes, ActiveEdges(w)) then Some(InactiveEndpoint)
    else if !Acyclic(ActiveEdges(w)) then Some(CyclicGraph)
    else None
  }

  /** Checks the active edges of a graph that has no dangling ones. */
  method CheckActive(w: Working) returns (error: Option<GraphError>)
    requires WellFormed(w)
    ensures error == DagError(w)
  {
    var active := ListKeys(ActiveEdges(w));
    NothingDangles(w, active);
    error := ValidateDag(w.nodes, active);
    assert forall i :: 0 <= i < |active| ==> active[i] in active && !Dangles(w.nodes, active[i]);
  }

  // ---- The object -------------------------------------------------------

  class MemoryGraph {
    var snapshot: Snapshot
    var ledger: seq<LedgerEntry>

    constructor ()
      ensures snapshot == EmptySnapshot() && ledger == []
    {
      snapshot, ledger := EmptySnapshot(), [];
    }

    /** Builds a transaction against the current snapshot; the graph itself is not touched. */
    method Stage(ops: seq<Operation>, evidence: seq<string>, rationale: string)
      returns (r: Result<Transaction, GraphError>)
      requires snapshot.Valid()
      ensures Stages(snapshot, ops, evidence, rationale, r)
    {
      var base := snapshot;
      if ops == [] {
        return Err(EmptyEdit);
      }
      if |ops| > MAX_OPERATIONS {
        return Err(TooManyOperations);
      }
      SnapshotIsWellFormed(base);
      var edited := ApplyBatch(NextGeneration(base), WorkingOf(base), ops);
      if edited.Err? {
        return Err(edited.error);
      }
      var error := CheckActive(edited.value);
      if error.Some? {
        return Err(error.value);
      }
      r := Conclude(base, ops, evidence, rationale, edited.value);
    }

    /** Installs a transaction's snapshot, unless the graph has changed since it was staged. */
    method Activate(tx: Transaction) returns (r: Result<LedgerEntry, GraphError>)
      modifies this
      ensures tx.base == SnapshotDigest(old(snapshot)) ==>
                && r == Ok(EntryOf(tx)) && snapshot == tx.snapshot && ledger == old(ledger) + [EntryOf(tx)]
      ensures tx.base != SnapshotDigest(old(snapshot)) ==>
                r == Err(Conflict) && snapshot == old(snapshot) && ledger == old(ledger)
    {
      if tx.base != SnapshotDigest(snapshot) {
        return Err(Conflict);
      }
      snapshot := tx.snapshot;
      var entry := EntryOf(tx);
      ledger := ledger + [entry];
      r := Ok(entry);
    }

    /** Replaces the graph by any snapshot that is a DAG, and forgets the ledger. */
    method Restore(s: Snapshot) returns (error: Option<GraphError>)
      requires s.Valid()
      modifies this
      ensures error == DagError(WorkingOf(s))
      ensures error.None? ==> snapshot == s && ledger == []
      ensures error.Some? ==> snapshot == old(snapshot) && ledger == old(ledger)
    {
      SnapshotIsWellFormed(s);
      error := CheckActive(WorkingOf(s));
      if error.None? {
        snapshot, ledger := s, [];
      }
    }
  }

  /** Nodes are never removed, so an edited graph cannot have a dangling edge. */
  lemma {:induction false} NothingDangles(w: Working, edges: seq<EdgeKey>)
    requires WellFormed(w) && Elements(edges) == ActiveEdges(w)
    ensures forall k :: k in edges ==> k.source in w.nodes && k.target in w.nodes
  {
    forall k | k in edges ensures k in w.edges {
      assert k in Elements(edges);
    }
  }

  /** The edges in some order; nothing that follows depends on which. */
  method ListKeys(edges: set<EdgeKey>) returns (r: seq<EdgeKey>)
    ensures Elements(r) == edges
  {
    r := [];
    var todo := edges;
    while todo != {}
      invariant todo <= edges && Elements(r) == edges - todo
    {
      var k :| k in todo;
      assert Elements(r + [k]) == Elements(r) + {k};
      r, todo := r + [k], todo - {k};
    }
  }

  method ListNodes(nodes: map<string, NodeRecord>) returns (r: seq<NodeRecord>)
    requires forall id :: id in nodes ==> nodes[id].nodeId == id
    ensures ListsNodes(r, nodes)
  {
    TextOrder();
    var ids := SortedKeys(nodes.Keys, TextLess);
    assert forall i :: 0 <= i < |ids| ==> ids[i] in Elements(ids);
    r := seq(|ids|, i requires 0 <= i < |ids| => nodes[ids[i]]);
    assert Snapshot("", r, []).NodeIds() == ids;
  }

  method ListEdges(edges: map<EdgeKey, bool>) returns (r: seq<EdgeRecord>)
    ensures ListsEdges(r, edges)
  {
    EdgeOrder();
    var keys := SortedKeys(edges.Keys, EdgeLess);
    assert forall i :: 0 <= i < |keys| ==> keys[i] in Elements(keys);
    r := seq(|keys|, i requires 0 <= i < |keys| => EdgeRecord(keys[i], edges[keys[i]]));
    assert Snapshot("", [], r).EdgeKeys() == keys;
  }

  /** Builds the snapshot and the transaction of a batch that passed the DAG check. */
  method Conclude(base: Snapshot, ops: seq<Operation>, evidence: seq<string>, rationale: string, w: Working)
    returns (r: Result<Transaction, GraphError>)
    requires WellFormed(w)
    ensures Concludes(base, ops, evidence, rationale, w, r)
  {
    var next := NextGeneration(base);
    if next.None? {
      return Err(BadGeneration);
    }
    var nodes := ListNodes(w.nodes);
    var edges := ListEdges(w.edges);
    TextOrder();
    var sorted := SortedKeys(Elements(evidence), TextLess);
    var s := Snapshot(next.value, nodes, edges);
    r := Checked(base, ops, rationale, s, sorted);
    assert Listed(base, evidence, w, s, sorted);
  }
}

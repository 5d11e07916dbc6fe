/** Batches of edits on a working copy of a snapshot, and the check that a graph stays a DAG. */
module GraphEdits {
  import opened Outcomes
  import opened Ordering
  import opened MemoryGraphRecords
  import DepthFirst

  const MAX_OPERATIONS := 8

  /** The two dictionaries a batch edits; an edge is its key and whether it is active. */
  datatype Working = Working(nodes: map<string, NodeRecord>, edges: map<EdgeKey, bool>)

  lemma OneNodePerId(s: Snapshot)
    requires s.Valid()
    ensures forall a, b :: a in s.nodes && b in s.nodes && a.nodeId == b.nodeId ==> a == b
  {
    TextOrder();
    forall a, b | a in s.nodes && b in s.nodes && a.nodeId == b.nodeId ensures a == b {
      var i :| 0 <= i < |s.nodes| && s.nodes[i] == a;
      var j :| 0 <= j < |s.nodes| && s.nodes[j] == b;
      IncreasingDiffers(s.NodeIds(), TextLess, i, j);
    }
  }

  lemma OneEdgePerKey(s: Snapshot)
    requires s.Valid()
    ensures forall a, b :: a in s.edges && b in s.edges && a.key == b.key ==> a == b
  {
    EdgeOrder();
    forall a, b | a in s.edges && b in s.edges && a.key == b.key ensures a == b {
      var i :| 0 <= i < |s.edges| && s.edges[i] == a;
      var j :| 0 <= j < |s.edges| && s.edges[j] == b;
      IncreasingDiffers(s.EdgeKeys(), EdgeLess, i, j);
    }
  }

  function WorkingOf(s: Snapshot): (w: Working)
    requires s.Valid()
  {
    OneNodePerId(s);
    OneEdgePerKey(s);
    Working(map n | n in s.nodes :: n.nodeId := n, map e | e in s.edges :: e.key := e.active)
  }

  // ---- One operation ----------------------------------------------------

  /** The node a create or update operation writes. */
  function WrittenNode(id: string, defaults: NodeRecord, payload: Payload, generation: string): NodeRecord {
    NodeRecord(id, Get(payload.kind, defaults.kind), Get(payload.caption, defaults.caption),
               Get(payload.content, defaults.content), generation, Get(payload.active, defaults.active),
               Get(payload.evidenceIds, defaults.evidenceIds), Get(payload.parentIds, defaults.parentIds))
  }

  function WriteNode(w: Working, record: NodeRecord): Result<Working, GraphError> {
    if !record.Valid() then Err(InvalidRecord)
    else Ok(w.(nodes := w.nodes[record.nodeId := record]))
  }

  /** The edge key an edge operation names. */
  function NamedEdge(payload: Payload): EdgeKey {
    EdgeKey(Get(payload.source, ""), Get(payload.target, ""), Get(payload.relation, "supports"))
  }

  /** `next` is the generation the edit will produce, if the base's generation can be counted on. */
  function ApplyOperation(next: Option<string>, w: Working, op: Operation): Result<Working, GraphError> {
    match op.kind
    case CreateNode =>
      if op.targetId in w.nodes then Err(NodeExists)
      else if next.None? then Err(BadGeneration)
      else
        var blank := NodeRecord(op.targetId, "semantic", op.targetId, "", next.value, true, [], []);
        WriteNode(w, WrittenNode(op.targetId, blank, op.payload, next.value))
    case UpdateNode =>
      if op.targetId !in w.nodes then Err(NodeMissing)
      else if next.None? then Err(BadGeneration)
      else WriteNode(w, WrittenNode(w.nodes[op.targetId].nodeId, w.nodes[op.targetId], op.payload, next.value))
    case RetireNode =>
      if op.targetId !in w.nodes then Err(NodeMissing)
      else if next.None? then Err(BadGeneration)
      else WriteNode(w, w.nodes[op.targetId].(generation := next.value, active := false))
    case CreateEdge =>
      var key := NamedEdge(op.payload);
      if key.source !in w.nodes || key.target !in w.nodes then Err(EndpointMissing)
      else if key in w.edges then Err(EdgeExists)
      else if !EdgeRecord(key, true).Valid() then Err(InvalidRecord)
      else Ok(w.(edges := w.edges[key := true]))
    case RetireEdge =>
      var key := NamedEdge(op.payload);
      if key !in w.edges then Err(EdgeMissing)
      else Ok(w.(edges := w.edges[key := false]))
  }

  function ApplyAll(next: Option<string>, w: Working, ops: seq<Operation>): Result<Working, GraphError>
    decreases |ops|
  {
    if ops == [] then Ok(w) else
      match ApplyOperation(next, w, ops[0])
      case Err(error) => Err(error)
      case Ok(edited) => ApplyAll(next, edited, ops[1..])
  }

  /** Records sit under their own keys and are valid, and no edge has a missing endpoint. */
  ghost predicate WellFormed(w: Working) {
    && (forall id :: id in w.nodes ==> w.nodes[id].nodeId == id && w.nodes[id].Valid())
    && (forall k :: k in w.edges ==>
          EdgeRecord(k, w.edges[k]).Valid() && k.source in w.nodes && k.target in w.nodes)
  }

  lemma {:induction false} SnapshotIsWellFormed(s: Snapshot)
    requires s.Valid()
    ensures WellFormed(WorkingOf(s))
  {
    OneNodePerId(s);
    OneEdgePerKey(s);
    var w := WorkingOf(s);
    forall id | id in s.NodeIds() ensures id in w.nodes {
      var i :| 0 <= i < |s.nodes| && s.NodeIds()[i] == id;
      assert s.nodes[i] in s.nodes;
    }
  }

  lemma WriteKeepsWellFormed(w: Working, record: NodeRecord)
    requires WellFormed(w) && WriteNode(w, record).Ok?
    ensures WellFormed(WriteNode(w, record).value)
  {
  }

  lemma EdgeKeepsWellFormed(w: Working, k: EdgeKey, active: bool)
    requires WellFormed(w) && EdgeRecord(k, active).Valid() && k.source in w.nodes && k.target in w.nodes
    ensures WellFormed(w.(edges := w.edges[k := active]))
  {
  }

  lemma {:induction false} OperationKeepsWellFormed(next: Option<string>, w: Working, op: Operation)
    requires WellFormed(w) && ApplyOperation(next, w, op).Ok?
    ensures WellFormed(ApplyOperation(next, w, op).value)
  {
    match op.kind
    case CreateNode =>
      var blank := NodeRecord(op.targetId, "semantic", op.targetId, "", next.value, true, [], []);
      WriteKeepsWellFormed(w, WrittenNode(op.targetId, blank, op.payload, next.value));
    case UpdateNode =>
      WriteKeepsWellFormed(w, WrittenNode(w.nodes[op.targetId].nodeId, w.nodes[op.targetId], op.payload, next.value));
    case RetireNode =>
      WriteKeepsWellFormed(w, w.nodes[op.targetId].(generation := next.value, active := false));
    case CreateEdge =>
      EdgeKeepsWellFormed(w, NamedEdge(op.payload), true);
    case RetireEdge =>
      EdgeKeepsWellFormed(w, NamedEdge(op.payload), false);
  }

  lemma {:induction false} BatchKeepsWellFormed(next: Option<string>, w: Working, ops: seq<Operation>)
    requires WellFormed(w)
    ensures ApplyAll(next, w, ops).Ok? ==> WellFormed(ApplyAll(next, w, ops).value)
    decreases |ops|
  {
    if ops != [] && ApplyOperation(next, w, ops[0]).Ok? {
      OperationKeepsWellFormed(next, w, ops[0]);
      BatchKeepsWellFormed(next, ApplyOperation(next, w, ops[0]).value, ops[1..]);
    }
  }

  /** A whole batch, one operation after the other. */
  method ApplyBatch(next: Option<string>, start: Working, ops: seq<Operation>) returns (r: Result<Working, GraphError>)
    requires WellFormed(start)
    ensures r == ApplyAll(next, start, ops)
    ensures r.Ok? ==> WellFormed(r.value)
  {
    BatchKeepsWellFormed(next, start, ops);
    var w := start;
    ghost var left := ops;
    for i := 0 to |ops|
      invariant left == ops[i..] && ApplyAll(next, start, ops) == ApplyAll(next, w, left)
    {
      var edited := ApplyOperation(next, w, ops[i]);
      if edited.Err? {
        return edited;
      }
      w := edited.value;
      left := left[1..];
    }
    r := Ok(w);
  }

  // ---- The graph of active edges ----------------------------------------

  function ActiveEdges(w: Working): set<EdgeKey> {
    set k | k in w.edges && w.edges[k]
  }

  /** Every edge joins existing, active nodes. */
  ghost predicate JoinsActive(nodes: map<string, NodeRecord>, edges: set<EdgeKey>) {
    forall k :: k in edges ==>
      && k.source in nodes && k.target in nodes
      && nodes[k.source].active && nodes[k.target].active
  }

  ghost predicate Linked(edges: set<EdgeKey>, a: string, b: string) {
    exists k :: k in edges && k.source == a && k.target == b
  }

  /** A walk along edges that returns to where it started. */
  ghost predicate Loop(edges: set<EdgeKey>, path: seq<string>) {
    && |path| >= 2 && path[0] == path[|path| - 1]
    && forall i :: 0 < i < |path| ==> Linked(edges, path[i - 1], path[i])
  }

  ghost predicate Acyclic(edges: set<EdgeKey>) {
    forall path :: !Loop(edges, path)
  }

  ghost predicate IsDag(w: Working) {
    JoinsActive(w.nodes, ActiveEdges(w)) && Acyclic(ActiveEdges(w))
  }

  /** The adjacency table lists, for every node, exactly the targets of its edges. */
  ghost predicate Tabulates(adjacency: map<string, seq<string>>, nodes: map<string, NodeRecord>, edges: set<EdgeKey>) {
    && adjacency.Keys == nodes.Keys
    && forall n, c :: n in adjacency ==> (c in adjacency[n] <==> Linked(edges, n, c))
  }

  lemma {:induction false} TableHasSameCycles(
    adjacency: map<string, seq<string>>, nodes: map<string, NodeRecord>, edges: set<EdgeKey>)
    requires Tabulates(adjacency, nodes, edges) && JoinsActive(nodes, edges)
    ensures DepthFirst.Closed(adjacency)
    ensures DepthFirst.Cyclic(adjacency) <==> !Acyclic(edges)
  {
    forall n, c | n in adjacency && c in adjacency[n] ensures c in adjacency {
      assert Linked(edges, n, c);
    }
    if DepthFirst.Cyclic(adjacency) {
      var path :| DepthFirst.Cycle(adjacency, path);
      assert Loop(edges, path);
    }
    if !Acyclic(edges) {
      var path :| Loop(edges, path);
      forall i | 0 <= i < |path| ensures path[i] in adjacency {
        if i > 0 {
          assert Linked(edges, path[i - 1], path[i]);
        } else {
          assert Linked(edges, path[0], path[1]);
        }
      }
      assert DepthFirst.Cycle(adjacency, path);
    }
  }

  ghost predicate Dangles(nodes: map<string, NodeRecord>, k: EdgeKey) {
    k.source !in nodes || k.target !in nodes
  }

  ghost predicate JoinsTwo(nodes: map<string, NodeRecord>, k: EdgeKey) {
    !Dangles(nodes, k) && nodes[k.source].active && nodes[k.target].active
  }

  /** Edge `i` is the first that does not join two active nodes. */
  ghost predicate FirstBad(nodes: map<string, NodeRecord>, edges: seq<EdgeKey>, i: int) {
    && 0 <= i < |edges| && !JoinsTwo(nodes, edges[i])
    && forall j :: 0 <= j < i ==> JoinsTwo(nodes, edges[j])
  }

  /** Accepts exactly the graphs whose edges join existing active nodes and close no loop.  The first bad
      edge decides the error, and a cycle is only reported for a graph without one. */
  method ValidateDag(nodes: map<string, NodeRecord>, edges: seq<EdgeKey>) returns (error: Option<GraphError>)
    ensures error.None? <==> JoinsActive(nodes, Elements(edges)) && Acyclic(Elements(edges))
    ensures error == Some(CyclicGraph) <==> JoinsActive(nodes, Elements(edges)) && !Acyclic(Elements(edges))
    ensures error.Some? ==> error.value in {DanglingEdge, InactiveEndpoint, CyclicGraph}
    ensures error == Some(DanglingEdge) <==> exists i :: FirstBad(nodes, edges, i) && Dangles(nodes, edges[i])
    ensures error == Some(InactiveEndpoint) <==> exists i :: FirstBad(nodes, edges, i) && !Dangles(nodes, edges[i])
  {
    var adjacency: map<string, seq<string>> := map n | n in nodes :: [];
    ghost var seen: set<EdgeKey> := {};
    for i := 0 to |edges|
      invariant seen == set j | 0 <= j < i :: edges[j]
      invariant JoinsActive(nodes, seen) && Tabulates(adjacency, nodes, seen)
      invariant forall j :: 0 <= j < i ==> JoinsTwo(nodes, edges[j])
    {
      var k := edges[i];
      assert k in Elements(edges);
      if k.source !in nodes || k.target !in nodes {
        assert FirstBad(nodes, edges, i);
        return Some(DanglingEdge);
      }
      if !nodes[k.source].active || !nodes[k.target].active {
        assert FirstBad(nodes, edges, i);
        return Some(InactiveEndpoint);
      }
      AddEdge(adjacency, nodes, seen, k);
      adjacency := adjacency[k.source := adjacency[k.source] + [k.target]];
      seen := seen + {k};
    }
    assert seen == Elements(edges);
    TableHasSameCycles(adjacency, nodes, Elements(edges));
    var explorer := new DepthFirst.Explorer(adjacency);
    var acyclic := explorer.VisitAll();
    error := if acyclic then None else Some(CyclicGraph);
  }

  lemma {:induction false} AddEdge(
    adjacency: map<string, seq<string>>, nodes: map<string, NodeRecord>, edges: set<EdgeKey>, k: EdgeKey)
    requires Tabulates(adjacency, nodes, edges) && k.source in nodes
    ensures Tabulates(adjacency[k.source := adjacency[k.source] + [k.target]], nodes, edges + {k})
  {
    var table := adjacency[k.source := adjacency[k.source] + [k.target]];
    forall n, c | n in table ensures c in table[n] <==> Linked(edges + {k}, n, c) {
      if Linked(edges + {k}, n, c) && !Linked(edges, n, c) {
        assert n == k.source && c == k.target;
      }
      if Linked(edges, n, c) {
        var e :| e in edges && e.source == n && e.target == c;
        assert e in edges + {k};
      }
      if n == k.source && c == k.target {
        assert k in edges + {k};
      }
    }
  }
}

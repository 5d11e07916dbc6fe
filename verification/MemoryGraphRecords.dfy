/**
 The immutable records of the memory graph and the checks their constructors make.

 Digests are modelled as free constructors, so they are equal exactly when what
 they digest is equal.
 */
module MemoryGraphRecords {
  import opened Outcomes
  import opened Ordering
  import opened Decimal
  import opened PlainText

  predicate AllText(rows: seq<string>) {
    forall i :: 0 <= i < |rows| ==> IsText(rows[i])
  }

  datatype NodeRecord = NodeRecord(
    nodeId: string,
    kind: string,
    caption: string,
    content: string,
    generation: string,
    active: bool,
    evidenceIds: seq<string>,
    parentIds: seq<string>
  ) {
    predicate Valid() {
      && IsText(nodeId) && IsText(kind) && IsText(caption) && IsText(content) && IsText(generation)
      && AllText(evidenceIds) && AllText(parentIds)
    }
  }

  datatype EdgeKey = EdgeKey(source: string, target: string, relation: string)

  datatype EdgeRecord = EdgeRecord(key: EdgeKey, active: bool) {
    predicate Valid() {
      IsText(key.source) && IsText(key.target) && IsText(key.relation) && key.source != key.target
    }
  }

  /** Edge keys compare as tuples. */
  predicate EdgeLess(a: EdgeKey, b: EdgeKey) {
    || TextLess(a.source, b.source)
    || (a.source == b.source && TextLess(a.target, b.target))
    || (a.source == b.source && a.target == b.target && TextLess(a.relation, b.relation))
  }

  lemma {:induction false} EdgeOrder()
    ensures StrictTotalOrder(EdgeLess)
  {
    TextOrder();
    forall a, b | a != b ensures EdgeLess(a, b) || EdgeLess(b, a) {
      assert a.source != b.source || a.target != b.target || a.relation != b.relation;
    }
  }

  datatype Snapshot = Snapshot(generation: string, nodes: seq<NodeRecord>, edges: seq<EdgeRecord>) {

    function NodeIds(): seq<string> {
      seq(|nodes|, i requires 0 <= i < |nodes| => nodes[i].nodeId)
    }

    function EdgeKeys(): seq<EdgeKey> {
      seq(|edges|, i requires 0 <= i < |edges| => edges[i].key)
    }

    /** Canonically ordered with unique keys, no parent and no endpoint missing. */
    predicate Valid() {
      && IsText(generation)
      && (forall i :: 0 <= i < |nodes| ==> nodes[i].Valid())
      && (forall i :: 0 <= i < |edges| ==> edges[i].Valid())
      && Increasing(NodeIds(), TextLess)
      && Increasing(EdgeKeys(), EdgeLess)
      && (forall i :: 0 <= i < |nodes| ==> forall p :: p in nodes[i].parentIds ==> p in NodeIds())
      && (forall i :: 0 <= i < |edges| ==> edges[i].key.source in NodeIds() && edges[i].key.target in NodeIds())
    }
  }

  datatype SnapshotDigest = SnapshotDigest(of: Snapshot)

  datatype OperationKind = CreateNode | UpdateNode | RetireNode | CreateEdge | RetireEdge

  /** The payload fields the graph reads, after its text and truth conversions. */
  datatype Payload = Payload(
    kind: Option<string>,
    caption: Option<string>,
    content: Option<string>,
    active: Option<bool>,
    evidenceIds: Option<seq<string>>,
    parentIds: Option<seq<string>>,
    source: Option<string>,
    target: Option<string>,
    relation: Option<string>
  )

  function Get<T>(field: Option<T>, default: T): T {
    if field.Some? then field.value else default
  }

  datatype Operation = Operation(kind: OperationKind, targetId: string, payload: Payload)

  datatype OperationDigest = OperationDigest(of: Operation)

  datatype Transaction = Transaction(
    base: SnapshotDigest,
    snapshot: Snapshot,
    evidenceIds: seq<string>,
    rationale: string,
    operationDigests: seq<OperationDigest>
  ) {
    predicate Valid() {
      IsText(rationale) && AllText(evidenceIds)
    }
  }

  datatype LedgerEntry = LedgerEntry(
    base: SnapshotDigest,
    result: SnapshotDigest,
    generation: string,
    operationDigests: seq<OperationDigest>,
    evidenceIds: seq<string>,
    rationale: string
  )

  datatype GraphError =
    | EmptyEdit | TooManyOperations
    | NodeExists | NodeMissing | EndpointMissing | EdgeExists | EdgeMissing
    | BadGeneration | InvalidRecord
    | DanglingEdge | InactiveEndpoint | CyclicGraph
    | InvalidSnapshot | NoOp | InvalidTransaction
    | Conflict

  // ---- Generations ------------------------------------------------------

  function GenerationNumber(generation: string): Option<int> {
    if generation == [] || generation[0] != 'g' then None else ParseInt(generation[1..])
  }

  function GenerationName(n: int): string {
    "g" + FormatInt(n)
  }

  lemma {:induction false} GenerationRoundTrip(n: int)
    ensures GenerationNumber(GenerationName(n)) == Some(n)
    ensures IsText(GenerationName(n))
  {
    assert GenerationName(n)[1..] == FormatInt(n);
    assert !IsBlankChar(GenerationName(n)[0]);
    ParseInverts(n);
  }
}

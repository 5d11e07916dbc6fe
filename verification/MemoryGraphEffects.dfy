/**
 What a staged batch does, record by record: which operation each field of each record of the result
 comes from, and which error a batch that is refused gets.
 */
module MemoryGraphEffects {
  import opened Outcomes
  import opened MemoryGraphRecords
  import opened PlainText
  import opened Ordering
  import Decimal
  import opened GraphEdits
  import opened VersionedMemoryGraph
  import opened MemoryGraphRuns

  // ---- What an operation names and writes -------------------------------

  predicate OnNode(op: Operation, id: string) {
    op.kind in {CreateNode, UpdateNode, RetireNode} && op.targetId == id
  }

  predicate OnEdge(op: Operation, k: EdgeKey) {
    && op.kind in {CreateEdge, RetireEdge}
    && k.source == (if op.payload.source.Some? then op.payload.source.value else "")
    && k.target == (if op.payload.target.Some? then op.payload.target.value else "")
    && k.relation == (if op.payload.relation.Some? then op.payload.relation.value else "supports")
  }

  /** A creation gives every field a value, an update those its payload has, a retirement only one. */
  function WritesTo<V>(op: Operation, field: Option<V>, default: V): Option<V> {
    if op.kind.CreateNode? then Some(if field.Some? then field.value else default)
    else if op.kind.UpdateNode? then field
    else None
  }

  function WritesKind(op: Operation): Option<string> {
    WritesTo(op, op.payload.kind, "semantic")
  }

  function WritesCaption(op: Operation): Option<string> {
    WritesTo(op, op.payload.caption, op.targetId)
  }

  function WritesContent(op: Operation): Option<string> {
    WritesTo(op, op.payload.content, "")
  }

  function WritesActive(op: Operation): Option<bool> {
    if op.kind.RetireNode? then Some(false) else WritesTo(op, op.payload.active, true)
  }

  function WritesEvidence(op: Operation): Option<seq<string>> {
    WritesTo(op, op.payload.evidenceIds, [])
  }

  function WritesParents(op: Operation): Option<seq<string>> {
    WritesTo(op, op.payload.parentIds, [])
  }

  // ---- What a batch does to a node --------------------------------------

  ghost predicate Untouched(ops: seq<Operation>, id: string) {
    forall i :: 0 <= i < |ops| ==> !OnNode(ops[i], id)
  }

  ghost predicate CreatesNode(ops: seq<Operation>, id: string) {
    exists i :: 0 <= i < |ops| && ops[i].kind.CreateNode? && OnNode(ops[i], id)
  }

  /** No operation on this node from `i` on writes the field. */
  ghost predicate Unwritten<V(!new)>(ops: seq<Operation>, id: string, writes: Operation -> Option<V>, i: nat) {
    forall j :: i <= j < |ops| && OnNode(ops[j], id) ==> writes(ops[j]).None?
  }

  ghost predicate LastWrite<V(!new)>(ops: seq<Operation>, id: string, writes: Operation -> Option<V>, v: V, i: nat) {
    i < |ops| && OnNode(ops[i], id) && writes(ops[i]) == Some(v) && Unwritten(ops, id, writes, i + 1)
  }

  /** The field has the value the last operation that writes it gives it, or else its old value. */
  ghost predicate FieldFrom<V(!new)>(
    ops: seq<Operation>, id: string, writes: Operation -> Option<V>, prior: Option<V>, v: V)
  {
    || (exists i: nat :: LastWrite(ops, id, writes, v, i))
    || (prior == Some(v) && Unwritten(ops, id, writes, 0))
  }

  /** What the batch makes of the record of node `id`, if there is one before and after. */
  ghost predicate NodeEffect(
    next: string, ops: seq<Operation>, id: string, before: Option<NodeRecord>, after: Option<NodeRecord>)
  {
    && (after.Some? <==> before.Some? || CreatesNode(ops, id))
    && (Untouched(ops, id) ==> after == before)
    && (after.Some? && !Untouched(ops, id) ==> FieldsFrom(next, ops, id, before, after.value))
  }

  ghost predicate FieldsFrom(
    next: string, ops: seq<Operation>, id: string, before: Option<NodeRecord>, after: NodeRecord)
  {
    && after.nodeId == id && after.generation == next
    && FieldFrom(ops, id, WritesKind, if before.Some? then Some(before.value.kind) else None, after.kind)
    && FieldFrom(ops, id, WritesCaption, if before.Some? then Some(before.value.caption) else None, after.caption)
    && FieldFrom(ops, id, WritesContent, if before.Some? then Some(before.value.content) else None, after.content)
    && FieldFrom(ops, id, WritesActive, if before.Some? then Some(before.value.active) else None, after.active)
    && FieldFrom(ops, id, WritesEvidence, if before.Some? then Some(before.value.evidenceIds) else None,
                 after.evidenceIds)
    && FieldFrom(ops, id, WritesParents, if before.Some? then Some(before.value.parentIds) else None, after.parentIds)
  }

  // ---- What a batch does to an edge -------------------------------------

  ghost predicate NoneOnEdge(ops: seq<Operation>, k: EdgeKey, i: nat) {
    forall j :: i <= j < |ops| ==> !OnEdge(ops[j], k)
  }

  /** The last operation that names the edge. */
  ghost predicate LastOnEdge(ops: seq<Operation>, k: EdgeKey, i: nat) {
    i < |ops| && OnEdge(ops[i], k) && NoneOnEdge(ops, k, i + 1)
  }

  ghost predicate CreatesEdge(ops: seq<Operation>, k: EdgeKey) {
    exists i :: 0 <= i < |ops| && ops[i].kind.CreateEdge? && OnEdge(ops[i], k)
  }

  /** An edge is active exactly when the last operation that names it creates it, or none names it and it
      was active; it is there exactly when it was, or some operation creates it. */
  ghost predicate EdgeEffect(ops: seq<Operation>, k: EdgeKey, before: Option<bool>, after: Option<bool>) {
    && (after.Some? <==> before.Some? || CreatesEdge(ops, k))
    && (after == Some(true) <==>
          || (exists i: nat :: LastOnEdge(ops, k, i) && ops[i].kind.CreateEdge?)
          || (before == Some(true) && NoneOnEdge(ops, k, 0)))
  }

  // ---- A whole batch ----------------------------------------------------

  function At<K, V>(m: map<K, V>, k: K): Option<V> {
    if k in m then Some(m[k]) else None
  }

  ghost predicate Effects(next: string, ops: seq<Operation>, before: Working, after: Working) {
    && (forall id :: NodeEffect(next, ops, id, At(before.nodes, id), At(after.nodes, id)))
    && (forall k :: EdgeEffect(ops, k, At(before.edges, k), At(after.edges, k)))
  }

  // ---- One operation ----------------------------------------------------

  lemma {:induction false} WroteField<V(!new)>(
    op: Operation, id: string, writes: Operation -> Option<V>, prior: Option<V>, v: V)
    requires OnNode(op, id)
    requires Some(v) == if writes(op).Some? then writes(op) else prior
    ensures FieldFrom([op], id, writes, prior, v)
  {
    if writes(op).Some? { assert LastWrite([op], id, writes, v, 0); }
  }

  /** `after` is the record this operation writes over `before`. */
  ghost predicate Written(next: string, op: Operation, before: Option<NodeRecord>, after: NodeRecord) {
    && (before.None? ==> op.kind.CreateNode?)
    && after.nodeId == op.targetId && after.generation == next
    && Some(after.kind) == (if WritesKind(op).Some? then WritesKind(op) else Some(before.value.kind))
    && Some(after.caption) == (if WritesCaption(op).Some? then WritesCaption(op) else Some(before.value.caption))
    && Some(after.content) == (if WritesContent(op).Some? then WritesContent(op) else Some(before.value.content))
    && Some(after.active) == (if WritesActive(op).Some? then WritesActive(op) else Some(before.value.active))
    && Some(after.evidenceIds)
       == (if WritesEvidence(op).Some? then WritesEvidence(op) else Some(before.value.evidenceIds))
    && Some(after.parentIds) == (if WritesParents(op).Some? then WritesParents(op) else Some(before.value.parentIds))
  }

  lemma {:induction false} WrittenEffect(next: string, op: Operation, before: Option<NodeRecord>, after: NodeRecord)
    requires op.kind in {CreateNode, UpdateNode, RetireNode} && Written(next, op, before, after)
    ensures NodeEffect(next, [op], op.targetId, before, Some(after))
  {
    var id := op.targetId;
    var b := before;
    assert OnNode([op][0], id);
    WroteField(op, id, WritesKind, if b.Some? then Some(b.value.kind) else None, after.kind);
    WroteField(op, id, WritesCaption, if b.Some? then Some(b.value.caption) else None, after.caption);
    WroteField(op, id, WritesContent, if b.Some? then Some(b.value.content) else None, after.content);
    WroteField(op, id, WritesActive, if b.Some? then Some(b.value.active) else None, after.active);
    WroteField(op, id, WritesEvidence, if b.Some? then Some(b.value.evidenceIds) else None, after.evidenceIds);
    WroteField(op, id, WritesParents, if b.Some? then Some(b.value.parentIds) else None, after.parentIds);
  }

  lemma {:induction false} OtherNode(next: string, op: Operation, id: string, before: Option<NodeRecord>)
    requires !OnNode(op, id)
    ensures NodeEffect(next, [op], id, before, before)
  {
    assert Untouched([op], id);
  }

  lemma {:induction false} OtherEdge(op: Operation, k: EdgeKey, before: Option<bool>)
    requires !OnEdge(op, k)
    ensures EdgeEffect([op], k, before, before)
  {
    assert NoneOnEdge([op], k, 0);
  }

  lemma {:induction false} NamedOnEdge(op: Operation, k: EdgeKey)
    requires op.kind in {CreateEdge, RetireEdge}
    ensures OnEdge(op, k) <==> k == NamedEdge(op.payload)
  {
  }

  lemma {:induction false} EdgeWritten(op: Operation, k: EdgeKey, before: Option<bool>)
    requires OnEdge(op, k) && (before.None? ==> op.kind.CreateEdge?)
    ensures EdgeEffect([op], k, before, Some(op.kind.CreateEdge?))
  {
    assert OnEdge([op][0], k);
    assert LastOnEdge([op], k, 0);
  }

  /** The record an operation on a node writes, or would write if it is not valid. */
  function WouldWrite(next: string, w: Working, op: Operation): NodeRecord
    requires op.kind.CreateNode? || op.targetId in w.nodes
  {
    match op.kind
    case CreateNode =>
      var blank := NodeRecord(op.targetId, "semantic", op.targetId, "", next, true, [], []);
      WrittenNode(op.targetId, blank, op.payload, next)
    case UpdateNode => WrittenNode(w.nodes[op.targetId].nodeId, w.nodes[op.targetId], op.payload, next)
    case _ => w.nodes[op.targetId].(generation := next, active := false)
  }

  lemma {:induction false} WouldWriteWritten(next: string, w: Working, op: Operation)
    requires WellFormed(w) && op.kind in {CreateNode, UpdateNode, RetireNode}
    requires op.kind.CreateNode? <==> op.targetId !in w.nodes
    ensures Written(next, op, At(w.nodes, op.targetId), WouldWrite(next, w, op))
  {
  }

  lemma {:induction false} WritesOne(next: string, w: Working, op: Operation)
    requires WellFormed(w) && op.kind in {CreateNode, UpdateNode, RetireNode}
    ensures ApplyOperation(Some(next), w, op).Ok?
            <==> (op.kind.CreateNode? <==> op.targetId !in w.nodes) && WouldWrite(next, w, op).Valid()
    ensures ApplyOperation(Some(next), w, op).Ok? ==>
              ApplyOperation(Some(next), w, op).value
              == w.(nodes := w.nodes[op.targetId := WouldWrite(next, w, op)])
  {
  }

  lemma {:induction false} NodeOperation(next: string, w: Working, op: Operation)
    requires WellFormed(w) && op.kind in {CreateNode, UpdateNode, RetireNode}
    requires ApplyOperation(Some(next), w, op).Ok?
    ensures Effects(next, [op], w, ApplyOperation(Some(next), w, op).value)
  {
    var after := ApplyOperation(Some(next), w, op).value;
    WritesOne(next, w, op);
    WouldWriteWritten(next, w, op);
    WrittenEffect(next, op, At(w.nodes, op.targetId), WouldWrite(next, w, op));
    forall id ensures NodeEffect(next, [op], id, At(w.nodes, id), At(after.nodes, id)) {
      if id != op.targetId { OtherNode(next, op, id, At(w.nodes, id)); }
    }
    forall k ensures EdgeEffect([op], k, At(w.edges, k), At(after.edges, k)) {
      OtherEdge(op, k, At(w.edges, k));
    }
  }

  lemma {:induction false} EdgeOperation(next: Option<string>, name: string, w: Working, op: Operation)
    requires op.kind in {CreateEdge, RetireEdge} && ApplyOperation(next, w, op).Ok?
    ensures Effects(name, [op], w, ApplyOperation(next, w, op).value)
  {
    var after := ApplyOperation(next, w, op).value;
    var key := NamedEdge(op.payload);
    assert after.edges == w.edges[key := op.kind.CreateEdge?] && after.nodes == w.nodes;
    forall id ensures NodeEffect(name, [op], id, At(w.nodes, id), At(after.nodes, id)) {
      OtherNode(name, op, id, At(w.nodes, id));
    }
    forall k ensures EdgeEffect([op], k, At(w.edges, k), At(after.edges, k)) {
      NamedOnEdge(op, k);
      if k == key { EdgeWritten(op, k, At(w.edges, k)); } else { OtherEdge(op, k, At(w.edges, k)); }
    }
  }

  /** The name of the generation the edit makes; only operations on edges do without one. */
  function Named(next: Option<string>): string {
    if next.Some? then next.value else ""
  }

  lemma {:induction false} OneOperation(next: Option<string>, w: Working, op: Operation)
    requires WellFormed(w) && ApplyOperation(next, w, op).Ok?
    ensures Effects(Named(next), [op], w, ApplyOperation(next, w, op).value)
  {
    if op.kind in {CreateNode, UpdateNode, RetireNode} {
      NodeOperation(Named(next), w, op);
    } else {
      EdgeOperation(next, Named(next), w, op);
    }
  }

  // ---- One operation after another --------------------------------------

  lemma {:induction false} FieldThen<V(!new)>(
    ops: seq<Operation>, op: Operation, id: string, writes: Operation -> Option<V>,
    prior: Option<V>, mid: Option<V>, v: V)
    requires mid.Some? ==> FieldFrom(ops, id, writes, prior, mid.value)
    requires FieldFrom([op], id, writes, mid, v)
    ensures FieldFrom(ops + [op], id, writes, prior, v)
  {
    var all := ops + [op];
    if i: nat :| LastWrite([op], id, writes, v, i) {
      assert LastWrite(all, id, writes, v, |ops|);
    } else {
      assert [op][0] == op && mid == Some(v);
      if i: nat :| LastWrite(ops, id, writes, v, i) {
        assert LastWrite(all, id, writes, v, i);
      }
    }
  }

  lemma {:induction false} TouchedThen(ops: seq<Operation>, op: Operation, id: string)
    ensures Untouched(ops + [op], id) <==> Untouched(ops, id) && !OnNode(op, id)
    ensures CreatesNode(ops + [op], id) <==> CreatesNode(ops, id) || (op.kind.CreateNode? && OnNode(op, id))
    ensures Untouched([op], id) <==> !OnNode(op, id)
    ensures CreatesNode([op], id) <==> op.kind.CreateNode? && OnNode(op, id)
  {
    var all := ops + [op];
    assert all[|ops|] == op && [op][0] == op;
    assert forall i :: 0 <= i < |ops| ==> all[i] == ops[i];
  }

  lemma {:induction false} UnwrittenThen<V(!new)>(
    ops: seq<Operation>, op: Operation, id: string, writes: Operation -> Option<V>, prior: Option<V>, v: V)
    requires !OnNode(op, id) && FieldFrom(ops, id, writes, prior, v)
    ensures FieldFrom(ops + [op], id, writes, prior, v)
  {
    if i: nat :| LastWrite(ops, id, writes, v, i) {
      assert LastWrite(ops + [op], id, writes, v, i);
    }
  }

  /** A record no operation has touched yet has all its old fields. */
  lemma {:induction false} OldFields(ops: seq<Operation>, id: string, r: NodeRecord)
    requires Untouched(ops, id)
    ensures FieldFrom(ops, id, WritesKind, Some(r.kind), r.kind)
    ensures FieldFrom(ops, id, WritesCaption, Some(r.caption), r.caption)
    ensures FieldFrom(ops, id, WritesContent, Some(r.content), r.content)
    ensures FieldFrom(ops, id, WritesActive, Some(r.active), r.active)
    ensures FieldFrom(ops, id, WritesEvidence, Some(r.evidenceIds), r.evidenceIds)
    ensures FieldFrom(ops, id, WritesParents, Some(r.parentIds), r.parentIds)
  {
  }

  lemma {:induction false} FieldsThen(
    next: string, ops: seq<Operation>, op: Operation, id: string,
    before: Option<NodeRecord>, mid: Option<NodeRecord>, after: NodeRecord)
    requires NodeEffect(next, ops, id, before, mid) && FieldsFrom(next, [op], id, mid, after)
    ensures FieldsFrom(next, ops + [op], id, before, after)
  {
    var b, m := before, mid;
    if mid.Some? && Untouched(ops, id) { OldFields(ops, id, mid.value); }
    FieldThen(ops, op, id, WritesKind, if b.Some? then Some(b.value.kind) else None,
              if m.Some? then Some(m.value.kind) else None, after.kind);
    FieldThen(ops, op, id, WritesCaption, if b.Some? then Some(b.value.caption) else None,
              if m.Some? then Some(m.value.caption) else None, after.caption);
    FieldThen(ops, op, id, WritesContent, if b.Some? then Some(b.value.content) else None,
              if m.Some? then Some(m.value.content) else None, after.content);
    FieldThen(ops, op, id, WritesActive, if b.Some? then Some(b.value.active) else None,
              if m.Some? then Some(m.value.active) else None, after.active);
    FieldThen(ops, op, id, WritesEvidence, if b.Some? then Some(b.value.evidenceIds) else None,
              if m.Some? then Some(m.value.evidenceIds) else None, after.evidenceIds);
    FieldThen(ops, op, id, WritesParents, if b.Some? then Some(b.value.parentIds) else None,
              if m.Some? then Some(m.value.parentIds) else None, after.parentIds);
  }

  lemma {:induction false} FieldsStay(
    next: string, ops: seq<Operation>, op: Operation, id: string, before: Option<NodeRecord>, after: NodeRecord)
    requires !OnNode(op, id) && FieldsFrom(next, ops, id, before, after)
    ensures FieldsFrom(next, ops + [op], id, before, after)
  {
    var b := before;
    UnwrittenThen(ops, op, id, WritesKind, if b.Some? then Some(b.value.kind) else None, after.kind);
    UnwrittenThen(ops, op, id, WritesCaption, if b.Some? then Some(b.value.caption) else None, after.caption);
    UnwrittenThen(ops, op, id, WritesContent, if b.Some? then Some(b.value.content) else None, after.content);
    UnwrittenThen(ops, op, id, WritesActive, if b.Some? then Some(b.value.active) else None, after.active);
    UnwrittenThen(ops, op, id, WritesEvidence, if b.Some? then Some(b.value.evidenceIds) else None, after.evidenceIds);
    UnwrittenThen(ops, op, id, WritesParents, if b.Some? then Some(b.value.parentIds) else None, after.parentIds);
  }

  lemma {:induction false} NodeThen(
    next: string, ops: seq<Operation>, op: Operation, id: string,
    before: Option<NodeRecord>, mid: Option<NodeRecord>, after: Option<NodeRecord>)
    requires NodeEffect(next, ops, id, before, mid) && NodeEffect(next, [op], id, mid, after)
    ensures NodeEffect(next, ops + [op], id, before, after)
  {
    TouchedThen(ops, op, id);
    if after.Some? && OnNode(op, id) {
      FieldsThen(next, ops, op, id, before, mid, after.value);
    } else if after.Some? && !Untouched(ops, id) {
      FieldsStay(next, ops, op, id, before, after.value);
    }
  }

  lemma {:induction false} EdgeThen(
    ops: seq<Operation>, op: Operation, k: EdgeKey, before: Option<bool>, mid: Option<bool>, after: Option<bool>)
    requires EdgeEffect(ops, k, before, mid) && EdgeEffect([op], k, mid, after)
    ensures EdgeEffect(ops + [op], k, before, after)
  {
    var all := ops + [op];
    assert all[|ops|] == op && [op][0] == op;
    assert forall i :: 0 <= i < |ops| ==> all[i] == ops[i];
    if OnEdge(op, k) {
      assert LastOnEdge(all, k, |ops|) && LastOnEdge([op], k, 0);
      forall i: nat | LastOnEdge(all, k, i) ensures i == |ops| {}
    } else {
      assert NoneOnEdge([op], k, 0);
      forall i: nat ensures LastOnEdge(all, k, i) <==> LastOnEdge(ops, k, i) {}
    }
  }

  lemma {:induction false} EffectsThen(
    next: string, ops: seq<Operation>, op: Operation, before: Working, mid: Working, after: Working)
    requires Effects(next, ops, before, mid) && Effects(next, [op], mid, after)
    ensures Effects(next, ops + [op], before, after)
  {
    forall id ensures NodeEffect(next, ops + [op], id, At(before.nodes, id), At(after.nodes, id)) {
      NodeThen(next, ops, op, id, At(before.nodes, id), At(mid.nodes, id), At(after.nodes, id));
    }
    forall k ensures EdgeEffect(ops + [op], k, At(before.edges, k), At(after.edges, k)) {
      EdgeThen(ops, op, k, At(before.edges, k), At(mid.edges, k), At(after.edges, k));
    }
  }

  lemma {:induction false} NoEffects(next: string, w: Working)
    ensures Effects(next, [], w, w)
  {
  }

  lemma {:induction false} ApplyAllThen(next: Option<string>, w: Working, ops: seq<Operation>, op: Operation)
    ensures ApplyAll(next, w, ops + [op])
            == match ApplyAll(next, w, ops)
               case Err(error) => Err(error)
               case Ok(edited) => ApplyOperation(next, edited, op)
    decreases |ops|
  {
    if ops == [] {
      assert [op][1..] == [];
    } else if ApplyOperation(next, w, ops[0]).Ok? {
      ApplyAllThen(next, ApplyOperation(next, w, ops[0]).value, ops[1..], op);
      assert (ops + [op])[1..] == ops[1..] + [op];
    }
  }

  /** A batch that is applied has exactly these effects. */
  lemma {:induction false} BatchEffects(next: Option<string>, w: Working, ops: seq<Operation>)
    requires WellFormed(w) && ApplyAll(next, w, ops).Ok?
    ensures Effects(Named(next), ops, w, ApplyAll(next, w, ops).value)
    decreases |ops|
  {
    if ops == [] {
      NoEffects(Named(next), w);
    } else {
      var front, op := ops[..|ops| - 1], ops[|ops| - 1];
      assert ops == front + [op];
      ApplyAllThen(next, w, front, op);
      BatchEffects(next, w, front);
      var mid := ApplyAll(next, w, front).value;
      BatchKeepsWellFormed(next, w, front);
      OneOperation(next, mid, op);
      EffectsThen(Named(next), front, op, w, mid, ApplyAll(next, w, ops).value);
    }
  }

  // ---- The effects say everything ---------------------------------------

  lemma {:induction false} OneField<V(!new)>(
    ops: seq<Operation>, id: string, writes: Operation -> Option<V>, prior: Option<V>, v: V, u: V)
    requires FieldFrom(ops, id, writes, prior, v) && FieldFrom(ops, id, writes, prior, u)
    ensures v == u
  {
    if i: nat :| LastWrite(ops, id, writes, v, i) {
      if j: nat :| LastWrite(ops, id, writes, u, j) {
        assert i == j;
      }
    }
  }

  lemma {:induction false} OneNode(
    next: string, ops: seq<Operation>, id: string, before: Option<NodeRecord>,
    one: Option<NodeRecord>, two: Option<NodeRecord>)
    requires NodeEffect(next, ops, id, before, one) && NodeEffect(next, ops, id, before, two)
    ensures one == two
  {
    if one.Some? && !Untouched(ops, id) {
      var b, x, y := before, one.value, two.value;
      OneField(ops, id, WritesKind, if b.Some? then Some(b.value.kind) else None, x.kind, y.kind);
      OneField(ops, id, WritesCaption, if b.Some? then Some(b.value.caption) else None, x.caption, y.caption);
      OneField(ops, id, WritesContent, if b.Some? then Some(b.value.content) else None, x.content, y.content);
      OneField(ops, id, WritesActive, if b.Some? then Some(b.value.active) else None, x.active, y.active);
      OneField(ops, id, WritesEvidence, if b.Some? then Some(b.value.evidenceIds) else None,
               x.evidenceIds, y.evidenceIds);
      OneField(ops, id, WritesParents, if b.Some? then Some(b.value.parentIds) else None, x.parentIds, y.parentIds);
    }
  }

  lemma {:induction false} OneEdge(
    ops: seq<Operation>, k: EdgeKey, before: Option<bool>, one: Option<bool>, two: Option<bool>)
    requires EdgeEffect(ops, k, before, one) && EdgeEffect(ops, k, before, two)
    ensures one == two
  {
    if one.Some? && two.Some? { assert one.value <==> two.value; }
  }

  lemma {:induction false} SameAt<K, V>(a: map<K, V>, b: map<K, V>)
    requires forall k :: At(a, k) == At(b, k)
    ensures a == b
  {
    forall k ensures k in a <==> k in b {
      assert At(a, k) == At(b, k);
    }
    forall k | k in a ensures a[k] == b[k] {
      assert At(a, k) == At(b, k);
    }
  }

  /** The effects of a batch decide every field of every record. */
  lemma {:induction false} EffectsDecide(next: string, ops: seq<Operation>, before: Working, one: Working, two: Working)
    requires Effects(next, ops, before, one) && Effects(next, ops, before, two)
    ensures one == two
  {
    forall id ensures At(one.nodes, id) == At(two.nodes, id) {
      OneNode(next, ops, id, At(before.nodes, id), At(one.nodes, id), At(two.nodes, id));
    }
    forall k ensures At(one.edges, k) == At(two.edges, k) {
      OneEdge(ops, k, At(before.edges, k), At(one.edges, k), At(two.edges, k));
    }
    SameAt(one.nodes, two.nodes);
    SameAt(one.edges, two.edges);
  }

  // ---- Refused operations -----------------------------------------------

  /** Node `id` is there once `ops` have been applied. */
  ghost predicate NodeThere(w: Working, ops: seq<Operation>, id: string) {
    id in w.nodes || CreatesNode(ops, id)
  }

  ghost predicate EdgeThere(w: Working, ops: seq<Operation>, k: EdgeKey) {
    k in w.edges || CreatesEdge(ops, k)
  }

  /** A record with a field that must be text and is not. */
  ghost predicate NotText(r: NodeRecord) {
    || !IsText(r.nodeId) || !IsText(r.kind) || !IsText(r.caption) || !IsText(r.content) || !IsText(r.generation)
    || (exists i :: 0 <= i < |r.evidenceIds| && !IsText(r.evidenceIds[i]))
    || (exists i :: 0 <= i < |r.parentIds| && !IsText(r.parentIds[i]))
  }

  /** Once `before` have been applied to `w`, the operation `op` is refused with this error. */
  ghost predicate Refuses(next: Option<string>, w: Working, before: seq<Operation>, op: Operation, e: GraphError) {
    match op.kind
    case CreateNode | UpdateNode | RetireNode => RefusesNode(next, w, before, op, e)
    case CreateEdge => forall k :: OnEdge(op, k) ==>
      if !NodeThere(w, before, k.source) || !NodeThere(w, before, k.target) then e == EndpointMissing
      else if EdgeThere(w, before, k) then e == EdgeExists
      else e == InvalidRecord && !(IsText(k.source) && IsText(k.target) && IsText(k.relation) && k.source != k.target)
    case RetireEdge => e == EdgeMissing && forall k :: OnEdge(op, k) ==> !EdgeThere(w, before, k)
  }

  ghost predicate RefusesNode(next: Option<string>, w: Working, before: seq<Operation>, op: Operation, e: GraphError) {
    if op.kind.CreateNode? && NodeThere(w, before, op.targetId) then e == NodeExists
    else if !op.kind.CreateNode? && !NodeThere(w, before, op.targetId) then e == NodeMissing
    else if next.None? then e == BadGeneration
    else e == InvalidRecord && WritesNoText(next.value, w, before + [op], op.targetId)
  }

  /** The record these operations would leave of the node is not valid. */
  ghost predicate WritesNoText(next: string, w: Working, ops: seq<Operation>, id: string) {
    exists r :: NodeEffect(next, ops, id, At(w.nodes, id), Some(r)) && NotText(r)
  }

  /** The first operation that is refused, and its error. */
  ghost predicate FirstRefused(next: Option<string>, w: Working, ops: seq<Operation>, n: nat, e: GraphError) {
    && n < |ops| && Refuses(next, w, ops[..n], ops[n], e)
    && forall m, d :: 0 <= m < n ==> !Refuses(next, w, ops[..m], ops[m], d)
  }

  lemma {:induction false} ThereAfter(next: Option<string>, w: Working, ops: seq<Operation>, mid: Working)
    requires WellFormed(w) && ApplyAll(next, w, ops) == Ok(mid)
    ensures WellFormed(mid) && Effects(Named(next), ops, w, mid)
    ensures forall id :: id in mid.nodes <==> NodeThere(w, ops, id)
    ensures forall k :: k in mid.edges <==> EdgeThere(w, ops, k)
  {
    BatchKeepsWellFormed(next, w, ops);
    BatchEffects(next, w, ops);
    forall id ensures id in mid.nodes <==> NodeThere(w, ops, id) {
      assert NodeEffect(Named(next), ops, id, At(w.nodes, id), At(mid.nodes, id));
    }
    forall k ensures k in mid.edges <==> EdgeThere(w, ops, k) {
      assert EdgeEffect(ops, k, At(w.edges, k), At(mid.edges, k));
    }
  }

  lemma {:induction false} NodeThereAfter(
    next: Option<string>, w: Working, ops: seq<Operation>, mid: Working, id: string)
    requires WellFormed(w) && ApplyAll(next, w, ops) == Ok(mid)
    ensures id in mid.nodes <==> NodeThere(w, ops, id)
  {
    ThereAfter(next, w, ops, mid);
  }

  lemma {:induction false} EdgeThereAfter(
    next: Option<string>, w: Working, ops: seq<Operation>, mid: Working, k: EdgeKey)
    requires WellFormed(w) && ApplyAll(next, w, ops) == Ok(mid)
    ensures k in mid.edges <==> EdgeThere(w, ops, k)
  {
    ThereAfter(next, w, ops, mid);
  }

  lemma {:induction false} NotTextExactly(r: NodeRecord)
    ensures NotText(r) <==> !r.Valid()
  {
  }

  /** The record an operation would write is the only one its effects allow. */
  lemma {:induction false} WouldBe(next: string, w: Working, before: seq<Operation>, mid: Working, op: Operation)
    requires WellFormed(w) && ApplyAll(Some(next), w, before) == Ok(mid)
    requires op.kind in {CreateNode, UpdateNode, RetireNode} && (op.kind.CreateNode? <==> op.targetId !in mid.nodes)
    ensures WritesNoText(next, w, before + [op], op.targetId) <==> !WouldWrite(next, mid, op).Valid()
  {
    var id, r := op.targetId, WouldWrite(next, mid, op);
    ThereAfter(Some(next), w, before, mid);
    WouldWriteWritten(next, mid, op);
    WrittenEffect(next, op, At(mid.nodes, id), r);
    NodeThen(next, before, op, id, At(w.nodes, id), At(mid.nodes, id), Some(r));
    NotTextExactly(r);
    if WritesNoText(next, w, before + [op], id) {
      var other :| NodeEffect(next, before + [op], id, At(w.nodes, id), Some(other)) && NotText(other);
      OneNode(next, before + [op], id, At(w.nodes, id), Some(r), Some(other));
    }
  }

  ghost predicate NodeFails(next: Option<string>, w: Working, op: Operation, e: GraphError)
    requires op.kind in {CreateNode, UpdateNode, RetireNode}
  {
    if op.kind.CreateNode? && op.targetId in w.nodes then e == NodeExists
    else if !op.kind.CreateNode? && op.targetId !in w.nodes then e == NodeMissing
    else if next.None? then e == BadGeneration
    else e == InvalidRecord && !WouldWrite(next.value, w, op).Valid()
  }

  lemma {:induction false} NodeError(next: Option<string>, w: Working, op: Operation, e: GraphError)
    requires op.kind in {CreateNode, UpdateNode, RetireNode}
    ensures ApplyOperation(next, w, op) == Err(e) <==> NodeFails(next, w, op, e)
  {
  }

  lemma {:induction false} NodeRefused(
    next: Option<string>, w: Working, before: seq<Operation>, mid: Working, op: Operation, e: GraphError)
    requires WellFormed(w) && ApplyAll(next, w, before) == Ok(mid)
    requires op.kind in {CreateNode, UpdateNode, RetireNode}
    ensures RefusesNode(next, w, before, op, e) <==> NodeFails(next, mid, op, e)
  {
    NodeThereAfter(next, w, before, mid, op.targetId);
    if next.Some? && (op.kind.CreateNode? <==> op.targetId !in mid.nodes) {
      WouldBe(next.value, w, before, mid, op);
    }
  }

  lemma {:induction false} OnlyEdge(op: Operation, k: EdgeKey)
    requires op.kind in {CreateEdge, RetireEdge} && OnEdge(op, k)
    ensures k == NamedEdge(op.payload)
  {
  }

  lemma {:induction false} NewEdgeRefused(
    next: Option<string>, w: Working, before: seq<Operation>, mid: Working, op: Operation, e: GraphError)
    requires WellFormed(w) && ApplyAll(next, w, before) == Ok(mid) && op.kind.CreateEdge?
    ensures Refuses(next, w, before, op, e) <==> ApplyOperation(next, mid, op) == Err(e)
  {
    var key := NamedEdge(op.payload);
    assert OnEdge(op, key);
    EdgeThereAfter(next, w, before, mid, key);
    NodeThereAfter(next, w, before, mid, key.source);
    NodeThereAfter(next, w, before, mid, key.target);
    forall k | OnEdge(op, k) ensures k == key { OnlyEdge(op, k); }
  }

  lemma {:induction false} OldEdgeRefused(
    next: Option<string>, w: Working, before: seq<Operation>, mid: Working, op: Operation, e: GraphError)
    requires WellFormed(w) && ApplyAll(next, w, before) == Ok(mid) && op.kind.RetireEdge?
    ensures Refuses(next, w, before, op, e) <==> ApplyOperation(next, mid, op) == Err(e)
  {
    var key := NamedEdge(op.payload);
    assert OnEdge(op, key);
    EdgeThereAfter(next, w, before, mid, key);
    NodeThereAfter(next, w, before, mid, key.source);
    NodeThereAfter(next, w, before, mid, key.target);
    forall k | OnEdge(op, k) ensures k == key { OnlyEdge(op, k); }
  }

  lemma {:induction false} RefusedExactly(
    next: Option<string>, w: Working, before: seq<Operation>, mid: Working, op: Operation, e: GraphError)
    requires WellFormed(w) && ApplyAll(next, w, before) == Ok(mid)
    ensures Refuses(next, w, before, op, e) <==> ApplyOperation(next, mid, op) == Err(e)
  {
    match op.kind
    case CreateNode | UpdateNode | RetireNode =>
      NodeRefused(next, w, before, mid, op, e);
      NodeError(next, mid, op, e);
    case CreateEdge => NewEdgeRefused(next, w, before, mid, op, e);
    case RetireEdge => OldEdgeRefused(next, w, before, mid, op, e);
  }

  /** No operation of an applied batch is refused. */
  lemma {:induction false} NoneRefused(next: Option<string>, w: Working, ops: seq<Operation>, n: nat)
    requires WellFormed(w) && n < |ops| && ApplyAll(next, w, ops).Ok?
    ensures forall e :: !Refuses(next, w, ops[..n], ops[n], e)
    decreases |ops|
  {
    var front, op := ops[..|ops| - 1], ops[|ops| - 1];
    assert ops == front + [op];
    ApplyAllThen(next, w, front, op);
    if n < |front| {
      NoneRefused(next, w, front, n);
      assert front[..n] == ops[..n];
    } else {
      forall e ensures !Refuses(next, w, front, op, e) {
        RefusedExactly(next, w, front, ApplyAll(next, w, front).value, op, e);
      }
    }
  }

  /** A batch that is not applied has a first refused operation, whose error it gets. */
  lemma {:induction false} SomeRefused(next: Option<string>, w: Working, ops: seq<Operation>) returns (n: nat)
    requires WellFormed(w) && ApplyAll(next, w, ops).Err?
    ensures FirstRefused(next, w, ops, n, ApplyAll(next, w, ops).error)
    decreases |ops|
  {
    var front, op := ops[..|ops| - 1], ops[|ops| - 1];
    assert ops == front + [op];
    ApplyAllThen(next, w, front, op);
    if ApplyAll(next, w, front).Err? {
      n := SomeRefused(next, w, front);
      assert front[..n] == ops[..n];
      assert forall m :: 0 <= m < n ==> front[..m] == ops[..m];
    } else {
      n := |front|;
      RefusedExactly(next, w, front, ApplyAll(next, w, front).value, op, ApplyAll(next, w, ops).error);
      forall m, e | 0 <= m < n ensures !Refuses(next, w, ops[..m], ops[m], e) {
        NoneRefused(next, w, front, m);
        assert front[..m] == ops[..m];
      }
    }
  }

  // ---- What staging answers ---------------------------------------------

  /** `w` holds the snapshot's nodes by ID and whether its edges are active by key. */
  ghost predicate Reads(s: Snapshot, w: Working) {
    && (forall id, r :: At(w.nodes, id) == Some(r) <==> r in s.nodes && r.nodeId == id)
    && (forall k, active :: At(w.edges, k) == Some(active) <==> EdgeRecord(k, active) in s.edges)
  }

  lemma {:induction false} WorkingReads(s: Snapshot)
    requires s.Valid()
    ensures Reads(s, WorkingOf(s))
  {
    OneNodePerId(s);
    OneEdgePerKey(s);
    var w := WorkingOf(s);
    forall id, r ensures At(w.nodes, id) == Some(r) <==> r in s.nodes && r.nodeId == id {
    }
    forall k, active ensures At(w.edges, k) == Some(active) <==> EdgeRecord(k, active) in s.edges {
      if EdgeRecord(k, active) in s.edges { assert EdgeRecord(k, active).key == k; }
    }
  }

  ghost predicate ActiveNode(w: Working, id: string) {
    id in w.nodes && w.nodes[id].active
  }

  ghost predicate ActiveEdge(w: Working, k: EdgeKey) {
    k in w.edges && w.edges[k]
  }

  /** Some active edge has an end that is not an active node. */
  ghost predicate Unsupported(w: Working) {
    exists k :: ActiveEdge(w, k) && !(ActiveNode(w, k.source) && ActiveNode(w, k.target))
  }

  ghost predicate StepsTo(w: Working, a: string, b: string) {
    exists k :: ActiveEdge(w, k) && k.source == a && k.target == b
  }

  /** A walk along active edges that comes back to its start. */
  ghost predicate Returns(w: Working, path: seq<string>) {
    && |path| >= 2 && path[0] == path[|path| - 1]
    && forall i :: 0 < i < |path| ==> StepsTo(w, path[i - 1], path[i])
  }

  lemma {:induction false} DagExactly(w: Working)
    ensures JoinsActive(w.nodes, ActiveEdges(w)) <==> !Unsupported(w)
    ensures Acyclic(ActiveEdges(w)) <==> !exists path :: Returns(w, path)
  {
    forall k ensures k in ActiveEdges(w) <==> ActiveEdge(w, k) {}
    forall a, b ensures Linked(ActiveEdges(w), a, b) <==> StepsTo(w, a, b) {}
    forall path ensures Loop(ActiveEdges(w), path) <==> Returns(w, path) {}
  }

  /** The base's generation is `g` and a number, and the next one is written with the next number. */
  ghost predicate Follows(base: Snapshot, next: Option<string>) {
    match GenerationNumber(base.generation)
    case None => next.None?
    case Some(n) => next == Some("g" + Decimal.FormatInt(n + 1))
  }

  /** What staging answers for a batch that can be applied and leaves `w`. */
  ghost predicate AnswersFor(
    base: Snapshot, ops: seq<Operation>, evidence: seq<string>, rationale: string, next: Option<string>, w: Working,
    r: Result<Transaction, GraphError>)
  {
    if Unsupported(w) then r == Err(InactiveEndpoint)
    else if exists path :: Returns(w, path) then r == Err(CyclicGraph)
    else if next.None? then r == Err(BadGeneration)
    else if exists id, p :: id in w.nodes && p in w.nodes[id].parentIds && p !in w.nodes then r == Err(InvalidSnapshot)
    else if !IsText(rationale) || exists x :: x in evidence && !IsText(x) then r == Err(InvalidTransaction)
    else r.Ok? && Carries(base, ops, evidence, rationale, next.value, w, r.value)
  }

  /** The transaction: the edited graph in a new generation, over the base, with its provenance. */
  ghost predicate Carries(
    base: Snapshot, ops: seq<Operation>, evidence: seq<string>, rationale: string, next: string, w: Working,
    tx: Transaction)
  {
    && tx.snapshot.Valid() && Reads(tx.snapshot, w) && tx.snapshot.generation == next
    && tx.base == SnapshotDigest(base) && tx.rationale == rationale
    && (forall x :: x in tx.evidenceIds <==> x in evidence) && Increasing(tx.evidenceIds, TextLess)
    && |tx.operationDigests| == |ops|
    && forall i :: 0 <= i < |ops| ==> tx.operationDigests[i] == OperationDigest(ops[i])
  }

  /** What staging answers, from the base and the operations alone. */
  ghost predicate Answers(
    base: Snapshot, ops: seq<Operation>, evidence: seq<string>, rationale: string, r: Result<Transaction, GraphError>)
  {
    if ops == [] then r == Err(EmptyEdit)
    else if |ops| > 8 then r == Err(TooManyOperations)
    else exists next, before ::
           Follows(base, next) && Reads(base, before)
           && AnswersFrom(base, ops, evidence, rationale, next, before, r)
  }

  ghost predicate AnswersFrom(
    base: Snapshot, ops: seq<Operation>, evidence: seq<string>, rationale: string, next: Option<string>,
    before: Working, r: Result<Transaction, GraphError>)
  {
    if exists n, e :: FirstRefused(next, before, ops, n, e)
    then exists n, e :: FirstRefused(next, before, ops, n, e) && r == Err(e)
    else exists w :: Effects(Named(next), ops, before, w)
           && AnswersFor(base, ops, evidence, rationale, next, w, r)
  }

  lemma {:induction false} AppliedAnswers(
    base: Snapshot, ops: seq<Operation>, evidence: seq<string>, rationale: string, w: Working,
    r: Result<Transaction, GraphError>)
    requires base.Valid() && 0 < |ops| <= MAX_OPERATIONS
    requires ApplyAll(NextGeneration(base), WorkingOf(base), ops) == Ok(w)
    requires Stages(base, ops, evidence, rationale, r)
    ensures AnswersFor(base, ops, evidence, rationale, NextGeneration(base), w, r)
  {
    var next := NextGeneration(base);
    SnapshotIsWellFormed(base);
    BatchKeepsWellFormed(next, WorkingOf(base), ops);
    DagExactly(w);
    if IsDag(w) && next.Some? {
      var s, sorted :| Listed(base, evidence, w, s, sorted) && r == Checked(base, ops, rationale, s, sorted);
      ListedIsChecked(base, ops, evidence, rationale, w, s, sorted);
      ConcludedAnswers(base, ops, evidence, rationale, w, s, sorted);
    }
  }

  lemma {:induction false} ConcludedAnswers(
    base: Snapshot, ops: seq<Operation>, evidence: seq<string>, rationale: string, w: Working,
    s: Snapshot, sorted: seq<string>)
    requires WellFormed(w) && IsDag(w) && Listed(base, evidence, w, s, sorted)
    ensures AnswersFor(base, ops, evidence, rationale, NextGeneration(base), w,
                       Checked(base, ops, rationale, s, sorted))
  {
    var next := NextGeneration(base);
    DagExactly(w);
    GenerationAdvances(base);
    ListingIsValid(s, next.value, w);
    SortedKeepsText(evidence, sorted);
    assert AllText(evidence) <==> !exists x :: x in evidence && !IsText(x);
    CheckedExactly(base, ops, rationale, s, sorted);
    if s.Valid() {
      ListingInverts(s, next.value, w);
      WorkingReads(s);
      forall x ensures x in sorted <==> x in evidence {
        assert x in Elements(sorted) <==> x in Elements(evidence);
      }
    }
  }

  /** What staging answers follows from the base and the operations alone: the first refused operation
      with its error, or what is wrong with the edited graph, or a transaction that carries it.  Where
      each field of each record comes from is said by `Effects`. */
  lemma {:induction false} StageAnswers(
    base: Snapshot, ops: seq<Operation>, evidence: seq<string>, rationale: string, r: Result<Transaction, GraphError>)
    requires base.Valid() && Stages(base, ops, evidence, rationale, r)
    ensures Answers(base, ops, evidence, rationale, r)
  {
    if 0 < |ops| <= MAX_OPERATIONS {
      var next, before := NextGeneration(base), WorkingOf(base);
      SnapshotIsWellFormed(base);
      WorkingReads(base);
      if ApplyAll(next, before, ops).Err? {
        var n := SomeRefused(next, before, ops);
      } else {
        forall n: nat, e | n < |ops| ensures !Refuses(next, before, ops[..n], ops[n], e) {
          NoneRefused(next, before, ops, n);
        }
        BatchEffects(next, before, ops);
        AppliedAnswers(base, ops, evidence, rationale, ApplyAll(next, before, ops).value, r);
      }
      assert AnswersFrom(base, ops, evidence, rationale, next, before, r);
    }
  }
}

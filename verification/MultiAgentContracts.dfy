/**
 The records of the multi-agent system: topology, messages, receipts,
 checkpoints and run results, each with the validity rule its constructor checks.

 A message carries its ID as a field of its own.  The source computes the ID by
 hashing the other fields (all but `attempt`); leaving it free makes every
 theorem hold for whatever function computes it.
 */
module MultiAgentContracts {
  import opened Outcomes

  type MessageId = string

  /** All state the participating nodes keep between calls. */
  type World(0, !new)

  datatype Edge = Edge(sender: string, recipient: string, maxInFlight: nat, ordered: bool) {
    predicate Joins(from: string, to: string) {
      sender == from && recipient == to
    }
  }

  datatype Topology = Topology(nodes: seq<string>, edges: seq<Edge>) {

    predicate Valid() {
      && nodes != []
      && (forall i, j :: 0 <= i < j < |nodes| ==> nodes[i] != nodes[j])
      && (forall e :: e in edges ==>
            e.sender in nodes && e.recipient in nodes && e.sender != e.recipient && e.maxInFlight > 0)
      && (forall i, j :: 0 <= i < j < |edges| ==> edges[i] != edges[j])
    }

    predicate CanSend(from: string, to: string) {
      exists i :: 0 <= i < |edges| && edges[i].Joins(from, to)
    }

    /** The first declared edge from `from` to `to`. */
    function EdgeOf(from: string, to: string): (e: Edge)
      requires CanSend(from, to)
      ensures e in edges && e.Joins(from, to)
    {
      FirstEdge(edges, from, to)
    }

    static function FirstEdge(edges: seq<Edge>, from: string, to: string): (e: Edge)
      requires exists i :: 0 <= i < |edges| && edges[i].Joins(from, to)
      ensures exists i :: 0 <= i < |edges| && edges[i] == e && e.Joins(from, to)
                          && forall k :: 0 <= k < i ==> !edges[k].Joins(from, to)
    {
      if edges[0].Joins(from, to) then edges[0] else
        var rest := edges[1..];
        assert exists i :: 0 <= i < |rest| && rest[i].Joins(from, to) by {
          var i :| 0 <= i < |edges| && edges[i].Joins(from, to);
          assert rest[i - 1] == edges[i];
        }
        var e := FirstEdge(rest, from, to);
        assert exists i :: 0 <= i < |edges| && edges[i] == e
                           && forall k :: 0 <= k < i ==> !edges[k].Joins(from, to) by {
          var i :| 0 <= i < |rest| && rest[i] == e && forall k :: 0 <= k < i ==> !rest[k].Joins(from, to);
          assert edges[i + 1] == e;
          assert forall k :: 1 <= k < i + 1 ==> edges[k] == rest[k - 1];
        }
        e
    }
  }

  datatype Message = Message(
    id: MessageId,
    sender: string,
    recipient: string,
    content: string,
    turn: nat,
    conversation: string,
    parents: seq<MessageId>,
    attempt: nat
  )

  datatype DeliveryStatus = Delivered | Duplicate | Rejected | DeliveryFailed

  datatype RunStatus = Completed | MaxRounds | MaxMessages | Cancelled | Failed

  datatype Receipt = Receipt(
    messageId: MessageId,
    sender: string,
    recipient: string,
    status: DeliveryStatus,
    attempt: nat,
    round: nat,
    detail: string
  )

  /** The IDs of a sequence of messages, in order. */
  function Ids(messages: seq<Message>): (ids: seq<MessageId>)
    ensures |ids| == |messages|
    ensures forall i :: 0 <= i < |ids| ==> ids[i] == messages[i].id
  {
    seq(|messages|, i requires 0 <= i < |messages| => messages[i].id)
  }

  function IdSet(messages: seq<Message>): set<MessageId> {
    set m | m in messages :: m.id
  }

  predicate DistinctIds(messages: seq<Message>) {
    forall i, j :: 0 <= i < j < |messages| ==> messages[i].id != messages[j].id
  }

  predicate InConversation(messages: seq<Message>, conversation: string) {
    forall i :: 0 <= i < |messages| ==> messages[i].conversation == conversation
  }

  /** `topology` stands for the topology digest: equal exactly when the topologies are. */
  datatype Checkpoint = Checkpoint(
    topology: Topology,
    conversation: string,
    pending: seq<Message>,
    deliveredIds: seq<MessageId>,
    round: nat,
    delivered: seq<Message>
  ) {
    predicate Valid() {
      && InConversation(pending, conversation)
      && InConversation(delivered, conversation)
      && deliveredIds == Ids(delivered)
      && DistinctIds(delivered + pending)
    }
  }

  datatype RunResult = RunResult(
    topology: Topology,
    messages: seq<Message>,
    rounds: nat,
    terminated: bool,
    status: RunStatus,
    receipts: seq<Receipt>,
    checkpoint: Checkpoint,
    error: Option<string>
  ) {
    predicate Valid() {
      && (status == Completed ==> terminated)
      && (status == Failed ==> error.Some? && error.value != "")
    }
  }
}

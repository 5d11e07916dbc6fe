/**
 What one call of the coordinator computes, as functions on an explicit run
 state.  The class in module Coordinator is proved to compute exactly this; the
 properties of runs and of chains of resumes are proved about these functions.
 */
module CoordinatorModel {
  import opened Outcomes
  import opened MultiAgentContracts

  /** What a node's handler does: return messages, return something else, or raise. */
  datatype NodeOutcome = Outputs(messages: seq<Message>) | NotMessages | Raised(exception: string, text: string)

  /** The fixed surroundings of one call. */
  datatype Env = Env(
    topology: Topology,
    conversation: string,
    handle: (World, Message) -> (World, NodeOutcome)
  )

  datatype RunState = RunState(
    queue: seq<Message>,
    delivered: seq<Message>,
    receipts: seq<Receipt>,
    seen: set<MessageId>,
    scheduled: set<MessageId>,
    rounds: nat,
    status: RunStatus,
    error: Option<string>,
    world: World
  )

  const ALREADY_DELIVERED := "message ID already delivered"
  const ALREADY_SCHEDULED := "message ID already scheduled"
  const EDGE_LIMIT := "edge in-flight limit reached"

  function MakeReceipt(m: Message, status: DeliveryStatus, round: nat, detail: string): Receipt {
    Receipt(m.id, m.sender, m.recipient, status, m.attempt, round, detail)
  }

  // ---- Validation -------------------------------------------------------

  /** The error that stops `m` from being handed to its recipient, if any. */
  function DeliveryError(env: Env, m: Message): Option<string> {
    if m.conversation != env.conversation then
      Some("ValueError: message crosses conversation boundary")
    else if m.sender !in env.topology.nodes || m.recipient !in env.topology.nodes then
      Some("ValueError: message endpoints are not topology nodes")
    else if !env.topology.CanSend(m.sender, m.recipient) then
      Some("ValueError: message violates communication topology")
    else
      None
  }

  /** The error an output raises that its node must never emit, if any. */
  function OutputError(env: Env, parent: Message, output: Message): Option<string> {
    if output.sender != parent.recipient then
      Some("ValueError: node emitted a message with a foreign sender")
    else if output.conversation != env.conversation then
      Some("ValueError: node emitted a cross-conversation message")
    else if output.turn != parent.turn + 1 then
      Some("ValueError: node emitted a non-contiguous message turn")
    else if parent.id !in output.parents then
      Some("ValueError: node output must carry its causal parent message ID")
    else if !env.topology.CanSend(output.sender, output.recipient) then
      Some("ValueError: message violates communication topology")
    else
      None
  }

  /** How many queued messages travel from `from` to `to`. */
  function EdgeLoad(queue: seq<Message>, from: string, to: string): nat {
    if queue == [] then 0
    else EdgeLoad(queue[..|queue| - 1], from, to)
         + (if queue[|queue| - 1].sender == from && queue[|queue| - 1].recipient == to then 1 else 0)
  }

  /** The receipt that turns a well-formed output away, if it is turned away. */
  function Disposition(env: Env, parent: Message, output: Message, st: RunState): Option<Receipt>
    requires OutputError(env, parent, output).None?
  {
    if output.id in st.scheduled then
      Some(MakeReceipt(output, Duplicate, parent.turn + 1, ALREADY_SCHEDULED))
    else if EdgeLoad(st.queue, output.sender, output.recipient)
            >= env.topology.EdgeOf(output.sender, output.recipient).maxInFlight then
      Some(MakeReceipt(output, Rejected, parent.turn + 1, EDGE_LIMIT))
    else
      None
  }

  // ---- Steps ------------------------------------------------------------

  /** One well-formed output: queued, or turned away with a receipt. */
  function Offer(env: Env, parent: Message, output: Message, st: RunState): RunState
    requires OutputError(env, parent, output).None?
  {
    match Disposition(env, parent, output, st)
    case Some(receipt) => st.(receipts := st.receipts + [receipt])
    case None => st.(scheduled := st.scheduled + {output.id}, queue := st.queue + [output])
  }

  function Fail(st: RunState, m: Message, error: string): RunState {
    st.(status := Failed, error := Some(error),
        receipts := st.receipts + [MakeReceipt(m, DeliveryFailed, st.rounds, error)])
  }

  /** A node's outputs in order, up to the first one that raises. */
  function OfferAll(env: Env, parent: Message, outputs: seq<Message>, st: RunState): (r: RunState)
    ensures r.rounds == st.rounds
    decreases |outputs|
  {
    if outputs == [] then st else
      match OutputError(env, parent, outputs[0])
      case Some(error) => Fail(st, parent, error)
      case None => OfferAll(env, parent, outputs[1..], Offer(env, parent, outputs[0], st))
  }

  /** The state once `m` is recorded as delivered and its node has run. */
  function Handled(env: Env, m: Message, st: RunState): (RunState, NodeOutcome) {
    var (world, outcome) := env.handle(st.world, m);
    (st.(seen := st.seen + {m.id}, delivered := st.delivered + [m], world := world), outcome)
  }

  function Acknowledge(m: Message, st: RunState): RunState {
    st.(receipts := st.receipts + [MakeReceipt(m, Delivered, st.rounds, "")])
  }

  /** One message of the current round. */
  function Deliver(env: Env, m: Message, st: RunState): (r: RunState)
    ensures r.rounds == st.rounds
  {
    if m.id in st.seen then
      st.(receipts := st.receipts + [MakeReceipt(m, Duplicate, st.rounds, ALREADY_DELIVERED)])
    else
      match DeliveryError(env, m)
      case Some(error) => Fail(st, m, error)
      case None =>
        var (handled, outcome) := Handled(env, m, st);
        match outcome
        case Raised(exception, text) => Fail(handled, m, exception + ": " + text)
        case NotMessages =>
          Fail(handled, m, "TypeError: multi-agent node must return a tuple of messages")
        case Outputs(messages) => OfferAll(env, m, messages, Acknowledge(m, handled))
  }

  /** One round over the messages cut out of the queue.  `st.queue` collects the next round. */
  function RunRound(env: Env, st: RunState, current: seq<Message>, maxMessages: nat): (r: RunState)
    ensures r.rounds == st.rounds
    decreases |current|
  {
    if current == [] then st
    else if |st.delivered| >= maxMessages then st.(status := MaxMessages, queue := current + st.queue)
    else
      var next := Deliver(env, current[0], st);
      if next.status == Failed then next.(queue := current[1..] + next.queue)
      else RunRound(env, next, current[1..], maxMessages)
  }

  function OpenRound(st: RunState): RunState {
    st.(rounds := st.rounds + 1, queue := [])
  }

  /** Rounds until the queue is empty or something stops the run.  `cancelled(r)` is the answer
      of the cancellation port when it is asked after `r` rounds. */
  function RunRounds(env: Env, st: RunState, maxRounds: nat, maxMessages: nat, cancelled: nat -> bool): (r: RunState)
    ensures st.rounds <= r.rounds <= if maxRounds >= st.rounds then maxRounds else st.rounds
    decreases if maxRounds >= st.rounds then maxRounds - st.rounds else 0
  {
    if st.queue == [] || st.rounds >= maxRounds then st
    else if cancelled(st.rounds) then st.(status := Cancelled)
    else
      var next := RunRound(env, OpenRound(st), st.queue, maxMessages);
      if next.status != Completed then next
      else RunRounds(env, next, maxRounds, maxMessages, cancelled)
  }

  // ---- Calls ------------------------------------------------------------

  function Start(checkpoint: Checkpoint, world: World): RunState {
    var seen := set id | id in checkpoint.deliveredIds;
    RunState(checkpoint.pending, checkpoint.delivered, [], seen, seen + IdSet(checkpoint.pending),
             checkpoint.round, Completed, None, world)
  }

  /** The status a run reports: a run cut by the round limit is only recognised at the end. */
  function FinalStatus(st: RunState): RunStatus {
    if st.status == Completed && st.queue != [] then MaxRounds else st.status
  }

  function CheckpointOf(env: Env, st: RunState): Checkpoint {
    Checkpoint(env.topology, env.conversation, st.queue, Ids(st.delivered), st.rounds, st.delivered)
  }

  function ResultOf(env: Env, st: RunState): RunResult {
    RunResult(env.topology, st.delivered, st.rounds, st.queue == [], FinalStatus(st),
              st.receipts, CheckpointOf(env, st), st.error)
  }

  /** Building the checkpoint and the result; either constructor may refuse. */
  function Finish(env: Env, st: RunState): Result<RunResult, string> {
    if !CheckpointOf(env, st).Valid() then Err("multi-agent checkpoint is invalid")
    else if !ResultOf(env, st).Valid() then Err("multi-agent result is invalid")
    else Ok(ResultOf(env, st))
  }

  /** What a call asks for, and the world its nodes run in. */
  datatype Call = Call(
    handle: (World, Message) -> (World, NodeOutcome),
    world: World,
    maxRounds: nat,
    maxMessages: nat,
    cancelled: nat -> bool
  )

  function EnvOf(checkpoint: Checkpoint, call: Call): Env {
    Env(checkpoint.topology, checkpoint.conversation, call.handle)
  }

  /** The state in which a call's round loop ends. */
  function FinalState(checkpoint: Checkpoint, call: Call): RunState {
    RunRounds(EnvOf(checkpoint, call), Start(checkpoint, call.world), call.maxRounds, call.maxMessages, call.cancelled)
  }

  /** The whole of `_execute`, started from a checkpoint's fields. */
  function Execute(checkpoint: Checkpoint, call: Call): Result<RunResult, string> {
    if checkpoint.deliveredIds != Ids(checkpoint.delivered) then
      Err("multi-agent delivered transcript does not match IDs")
    else
      Finish(EnvOf(checkpoint, call), FinalState(checkpoint, call))
  }

  predicate LimitsValid(call: Call) {
    call.maxRounds > 0 && call.maxMessages > 0
  }

  /** The first limit that is not positive. */
  function LimitsError(call: Call): (error: Option<string>)
    ensures error.None? <==> LimitsValid(call)
  {
    if call.maxRounds == 0 then Some("multi-agent max_rounds must be positive")
    else if call.maxMessages == 0 then Some("multi-agent max_messages must be positive")
    else None
  }

  function Resume(topology: Topology, checkpoint: Checkpoint, call: Call): Result<RunResult, string> {
    if LimitsError(call).Some? then Err(LimitsError(call).value)
    else if checkpoint.topology != topology then Err("multi-agent checkpoint topology digest mismatch")
    else Execute(checkpoint, call)
  }

  /** A turn-zero message of this conversation along a permitted edge. */
  predicate IsRoot(topology: Topology, conversation: string, m: Message) {
    && m.conversation == conversation
    && m.turn == 0
    && m.parents == []
    && topology.CanSend(m.sender, m.recipient)
  }

  predicate AllRoots(topology: Topology, initials: seq<Message>) {
    forall i :: 0 <= i < |initials| ==> IsRoot(topology, initials[0].conversation, initials[i])
  }

  predicate ValidInitials(topology: Topology, initials: seq<Message>) {
    initials != [] && AllRoots(topology, initials) && DistinctIds(initials)
  }

  /** Why a set of initial messages is refused, if it is. */
  function InitialsError(topology: Topology, initials: seq<Message>): (error: Option<string>)
    ensures error.None? <==> ValidInitials(topology, initials)
  {
    if initials == [] then Some("multi-agent initials must be a non-empty tuple")
    else if !AllRoots(topology, initials) then
      Some("multi-agent initial messages must be topology-valid turn-zero messages")
    else if !DistinctIds(initials) then Some("multi-agent initial messages must have unique IDs")
    else None
  }

  /** The checkpoint a fresh run starts from: everything pending, nothing delivered. */
  function Fresh(topology: Topology, initials: seq<Message>): Checkpoint
    requires initials != []
  {
    Checkpoint(topology, initials[0].conversation, initials, [], 0, [])
  }

  function RunMany(topology: Topology, initials: seq<Message>, call: Call): Result<RunResult, string> {
    if LimitsError(call).Some? then Err(LimitsError(call).value)
    else if InitialsError(topology, initials).Some? then Err(InitialsError(topology, initials).value)
    else Execute(Fresh(topology, initials), call)
  }

  // ---- How a run fails --------------------------------------------------

  /** A step leaves the status alone, or fails the run with a non-empty error. */
  ghost predicate FailsProperly(before: RunState, after: RunState) {
    || (after.status == before.status && after.error == before.error)
    || (after.status == Failed && after.error.Some? && after.error.value != "")
  }

  lemma {:induction false} OfferAllFails(env: Env, parent: Message, outputs: seq<Message>, st: RunState)
    ensures FailsProperly(st, OfferAll(env, parent, outputs, st))
    ensures OfferAll(env, parent, outputs, st).world == st.world
    decreases |outputs|
  {
    if outputs != [] && OutputError(env, parent, outputs[0]).None? {
      OfferAllFails(env, parent, outputs[1..], Offer(env, parent, outputs[0], st));
    }
  }

  lemma DeliverFails(env: Env, m: Message, st: RunState)
    ensures FailsProperly(st, Deliver(env, m, st))
    ensures Deliver(env, m, st).world == st.world || Deliver(env, m, st).world == env.handle(st.world, m).0
  {
    if m.id !in st.seen && DeliveryError(env, m).None? {
      var (handled, outcome) := Handled(env, m, st);
      if outcome.Outputs? {
        OfferAllFails(env, m, outcome.messages, Acknowledge(m, handled));
      }
    }
  }
}

/**
 The rules of delivery, said without the functions that apply them: which outputs a node may emit, what
 becomes of each, what a delivery does, and exactly when a call fails.
 */
module CoordinatorRules {
  import opened Outcomes
  import opened MultiAgentContracts
  import opened Sequences
  import opened CoordinatorModel
  import opened CoordinatorSafety
  import opened CoordinatorConservation

  // ---- One output -------------------------------------------------------

  ghost predicate HasEdge(topology: Topology, from: string, to: string) {
    exists i :: 0 <= i < |topology.edges| && topology.edges[i].sender == from && topology.edges[i].recipient == to
  }

  /** The five rules for an output: sent by the node that got the parent, in this conversation, one turn
      later, naming the parent, along a declared edge. */
  ghost predicate MayEmit(env: Env, parent: Message, output: Message) {
    && output.sender == parent.recipient
    && output.conversation == env.conversation
    && output.turn == parent.turn + 1
    && (exists i :: 0 <= i < |output.parents| && output.parents[i] == parent.id)
    && HasEdge(env.topology, output.sender, output.recipient)
  }

  /** The first rule an output breaks, as the run reports it. */
  ghost predicate Breaks(env: Env, parent: Message, output: Message, error: string) {
    && !MayEmit(env, parent, output)
    && if output.sender != parent.recipient then error == "ValueError: node emitted a message with a foreign sender"
       else if output.conversation != env.conversation then
         error == "ValueError: node emitted a cross-conversation message"
       else if output.turn != parent.turn + 1 then
         error == "ValueError: node emitted a non-contiguous message turn"
       else if forall i :: 0 <= i < |output.parents| ==> output.parents[i] != parent.id then
         error == "ValueError: node output must carry its causal parent message ID"
       else error == "ValueError: message violates communication topology"
  }

  lemma {:induction false} RulesExactly(env: Env, parent: Message, output: Message)
    ensures OutputError(env, parent, output).None? <==> MayEmit(env, parent, output)
    ensures OutputError(env, parent, output).Some? ==>
              Breaks(env, parent, output, OutputError(env, parent, output).value)
  {
    assert env.topology.CanSend(output.sender, output.recipient)
           <==> HasEdge(env.topology, output.sender, output.recipient);
    assert parent.id in output.parents <==> exists i :: 0 <= i < |output.parents| && output.parents[i] == parent.id;
  }

  /** The positions of the queued messages that travel an edge. */
  function InFlight(queue: seq<Message>, from: string, to: string): set<int> {
    set i | 0 <= i < |queue| && queue[i].sender == from && queue[i].recipient == to
  }

  lemma {:induction false} LoadCounts(queue: seq<Message>, from: string, to: string)
    ensures EdgeLoad(queue, from, to) == |InFlight(queue, from, to)|
    decreases |queue|
  {
    if queue != [] {
      var n := |queue| - 1;
      LoadCounts(queue[..n], from, to);
      var before, now := InFlight(queue[..n], from, to), InFlight(queue, from, to);
      if queue[n].sender == from && queue[n].recipient == to {
        assert now == before + {n};
      } else {
        assert now == before;
      }
    }
  }

  /** The first declared edge the output can take already carries as many messages as it may. */
  ghost predicate EdgeFull(topology: Topology, queue: seq<Message>, output: Message) {
    exists i :: FirstJoins(topology.edges, output.sender, output.recipient, i)
      && |InFlight(queue, output.sender, output.recipient)| >= topology.edges[i].maxInFlight
  }

  ghost predicate FirstJoins(edges: seq<Edge>, from: string, to: string, i: int) {
    && 0 <= i < |edges| && edges[i].sender == from && edges[i].recipient == to
    && forall k :: 0 <= k < i ==> edges[k].sender != from || edges[k].recipient != to
  }

  lemma {:induction false} FullExactly(topology: Topology, queue: seq<Message>, output: Message)
    requires topology.CanSend(output.sender, output.recipient)
    ensures EdgeFull(topology, queue, output) <==>
              EdgeLoad(queue, output.sender, output.recipient)
              >= topology.EdgeOf(output.sender, output.recipient).maxInFlight
  {
    var from, to := output.sender, output.recipient;
    LoadCounts(queue, from, to);
    var e := Topology.FirstEdge(topology.edges, from, to);
    var i :| 0 <= i < |topology.edges| && topology.edges[i] == e && e.Joins(from, to)
      && forall k :: 0 <= k < i ==> !topology.edges[k].Joins(from, to);
    assert FirstJoins(topology.edges, from, to, i);
    forall k | FirstJoins(topology.edges, from, to, k) ensures k == i {
      assert topology.edges[k].Joins(from, to);
    }
  }

  /** What becomes of an output its node may emit: it is a duplicate if its ID was ever scheduled, else
      rejected if its edge is full, else queued. */
  ghost predicate Meets(env: Env, parent: Message, output: Message, st: RunState, next: RunState) {
    if output.id in st.scheduled then
      next == st.(receipts := st.receipts + [Receipt(output.id, output.sender, output.recipient, Duplicate,
                                                     output.attempt, parent.turn + 1, "message ID already scheduled")])
    else if EdgeFull(env.topology, st.queue, output) then
      next == st.(receipts := st.receipts + [Receipt(output.id, output.sender, output.recipient, Rejected,
                                                     output.attempt, parent.turn + 1, "edge in-flight limit reached")])
    else
      next == st.(scheduled := st.scheduled + {output.id}, queue := st.queue + [output])
  }

  lemma {:induction false} OfferMeets(env: Env, parent: Message, output: Message, st: RunState)
    requires OutputError(env, parent, output).None?
    ensures Meets(env, parent, output, st, Offer(env, parent, output, st))
  {
    FullExactly(env.topology, st.queue, output);
  }

  // ---- All outputs of a node --------------------------------------------

  /** The run as it fails on a message. */
  function FailedOn(st: RunState, m: Message, error: string): RunState {
    st.(status := Failed, error := Some(error),
        receipts := st.receipts + [Receipt(m.id, m.sender, m.recipient, DeliveryFailed, m.attempt, st.rounds, error)])
  }

  /** The states the outputs lead through, one by one, up to the first its node may not emit. */
  ghost predicate Judged(
    env: Env, parent: Message, outputs: seq<Message>, st: RunState, states: seq<RunState>)
  {
    && 0 < |states| <= |outputs| + 1 && states[0] == st
    && (forall i :: 0 <= i < |states| - 1 ==> MayEmit(env, parent, outputs[i]))
    && (forall i :: 0 <= i < |states| - 1 ==> Meets(env, parent, outputs[i], states[i], states[i + 1]))
  }

  /** Offering all outputs ends where the last of these states stands, or fails on the first bad output. */
  ghost predicate JudgedTo(env: Env, parent: Message, outputs: seq<Message>, st: RunState, r: RunState) {
    exists states :: Judged(env, parent, outputs, st, states) && EndsAs(env, parent, outputs, states, r)
  }

  ghost predicate EndsAs(env: Env, parent: Message, outputs: seq<Message>, states: seq<RunState>, r: RunState)
    requires 0 < |states| <= |outputs| + 1
  {
    var n := |states| - 1;
    if n == |outputs| then r == states[n]
    else exists error :: Breaks(env, parent, outputs[n], error) && r == FailedOn(states[n], parent, error)
  }

  lemma {:induction false} JudgedFirst(
    env: Env, parent: Message, outputs: seq<Message>, st: RunState, next: RunState, later: seq<RunState>, r: RunState)
    requires outputs != [] && MayEmit(env, parent, outputs[0]) && Meets(env, parent, outputs[0], st, next)
    requires Judged(env, parent, outputs[1..], next, later) && EndsAs(env, parent, outputs[1..], later, r)
    ensures Judged(env, parent, outputs, st, [st] + later) && EndsAs(env, parent, outputs, [st] + later, r)
  {
    var states := [st] + later;
    forall i | 0 <= i < |states| - 1
      ensures MayEmit(env, parent, outputs[i]) && Meets(env, parent, outputs[i], states[i], states[i + 1])
    {
      if i > 0 {
        assert outputs[i] == outputs[1..][i - 1];
        assert Meets(env, parent, outputs[1..][i - 1], later[i - 1], later[i]);
      }
    }
    if |states| - 1 < |outputs| { assert outputs[|states| - 1] == outputs[1..][|later| - 1]; }
  }

  /** Each output in turn meets its fate, and the first one its node may not emit fails the run. */
  lemma {:induction false} OutputsAreJudged(env: Env, parent: Message, outputs: seq<Message>, st: RunState)
    ensures JudgedTo(env, parent, outputs, st, OfferAll(env, parent, outputs, st))
    decreases |outputs|
  {
    var r := OfferAll(env, parent, outputs, st);
    if outputs == [] {
      assert Judged(env, parent, outputs, st, [st]);
    } else {
      RulesExactly(env, parent, outputs[0]);
      if OutputError(env, parent, outputs[0]).Some? {
        assert r == FailedOn([st][0], parent, OutputError(env, parent, outputs[0]).value);
        assert Judged(env, parent, outputs, st, [st]);
      } else {
        var next := Offer(env, parent, outputs[0], st);
        OfferMeets(env, parent, outputs[0], st);
        OutputsAreJudged(env, parent, outputs[1..], next);
        var later :| Judged(env, parent, outputs[1..], next, later) && EndsAs(env, parent, outputs[1..], later, r);
        JudgedFirst(env, parent, outputs, st, next, later, r);
      }
    }
  }

  ghost predicate AllMayBeEmitted(env: Env, parent: Message, outputs: seq<Message>) {
    forall i :: 0 <= i < |outputs| ==> MayEmit(env, parent, outputs[i])
  }

  lemma {:induction false} JudgedStatus(
    env: Env, parent: Message, outputs: seq<Message>, st: RunState, states: seq<RunState>, i: nat)
    requires Judged(env, parent, outputs, st, states) && i < |states|
    ensures states[i].status == st.status && states[i].error == st.error
    decreases i
  {
    if i > 0 {
      JudgedStatus(env, parent, outputs, st, states, i - 1);
      assert Meets(env, parent, outputs[i - 1], states[i - 1], states[i]);
    }
  }

  /** Offering fails exactly when some output breaks a rule, with the error of the first that does. */
  lemma {:induction false} OffersFailExactly(env: Env, parent: Message, outputs: seq<Message>, st: RunState)
    requires st.status == Completed
    ensures var r := OfferAll(env, parent, outputs, st);
            && (r.status == Failed <==> !AllMayBeEmitted(env, parent, outputs))
            && (r.status == Failed ==>
                  && r.error.Some?
                  && exists n :: 0 <= n < |outputs| && FirstBroken(env, parent, outputs, n, r.error.value))
            && (r.status != Failed ==> r.status == Completed && r.error == st.error)
  {
    var r := OfferAll(env, parent, outputs, st);
    OutputsAreJudged(env, parent, outputs, st);
    var states :| Judged(env, parent, outputs, st, states) && EndsAs(env, parent, outputs, states, r);
    var n := |states| - 1;
    JudgedStatus(env, parent, outputs, st, states, n);
    if n < |outputs| {
      assert FirstBroken(env, parent, outputs, n, r.error.value);
      assert !MayEmit(env, parent, outputs[n]);
    }
  }

  ghost predicate FirstBroken(env: Env, parent: Message, outputs: seq<Message>, n: int, error: string)
    requires 0 <= n < |outputs|
  {
    && (forall i :: 0 <= i < n ==> MayEmit(env, parent, outputs[i]))
    && Breaks(env, parent, outputs[n], error)
  }

  // ---- One delivery -----------------------------------------------------

  ghost predicate Deliverable(env: Env, m: Message) {
    && m.conversation == env.conversation
    && m.sender in env.topology.nodes && m.recipient in env.topology.nodes
    && HasEdge(env.topology, m.sender, m.recipient)
  }

  /** Why a message of a checkpoint cannot be delivered, as the run reports it. */
  ghost predicate Undeliverable(env: Env, m: Message, error: string) {
    if m.conversation != env.conversation then error == "ValueError: message crosses conversation boundary"
    else if m.sender !in env.topology.nodes || m.recipient !in env.topology.nodes then
      error == "ValueError: message endpoints are not topology nodes"
    else !HasEdge(env.topology, m.sender, m.recipient)
         && error == "ValueError: message violates communication topology"
  }

  /** What handing one message over does, duplicates, refusals and failures of its node included. */
  ghost predicate Delivers(env: Env, m: Message, st: RunState, next: RunState) {
    if m.id in st.seen then
      next == st.(receipts := st.receipts + [Receipt(m.id, m.sender, m.recipient, Duplicate, m.attempt, st.rounds,
                                                     "message ID already delivered")])
    else if !Deliverable(env, m) then
      exists error :: Undeliverable(env, m, error) && next == FailedOn(st, m, error)
    else
      var (world, outcome) := env.handle(st.world, m);
      Handles(env, m, outcome,
              st.(seen := st.seen + {m.id}, delivered := st.delivered + [m], world := world), next)
  }

  /** What a node's outcome makes of the state in which its message counts as delivered. */
  ghost predicate Handles(env: Env, m: Message, outcome: NodeOutcome, st: RunState, next: RunState) {
    match outcome
    case Raised(exception, text) => next == FailedOn(st, m, exception + ": " + text)
    case NotMessages => next == FailedOn(st, m, "TypeError: multi-agent node must return a tuple of messages")
    case Outputs(messages) =>
      var receipt := Receipt(m.id, m.sender, m.recipient, Delivered, m.attempt, st.rounds, "");
      JudgedTo(env, m, messages, st.(receipts := st.receipts + [receipt]), next)
  }

  lemma {:induction false} UndeliverableExactly(env: Env, m: Message)
    ensures DeliveryError(env, m).None? <==> Deliverable(env, m)
    ensures DeliveryError(env, m).Some? ==> Undeliverable(env, m, DeliveryError(env, m).value)
  {
    assert env.topology.CanSend(m.sender, m.recipient) <==> HasEdge(env.topology, m.sender, m.recipient);
  }

  /** A delivery does what is said here. */
  lemma {:induction false} DeliveryFollowsRules(env: Env, m: Message, st: RunState)
    ensures Delivers(env, m, st, Deliver(env, m, st))
  {
    UndeliverableExactly(env, m);
    if m.id !in st.seen && DeliveryError(env, m).None? {
      var (handled, outcome) := Handled(env, m, st);
      if outcome.Outputs? { OutputsAreJudged(env, m, outcome.messages, Acknowledge(m, handled)); }
      assert Handles(env, m, outcome, handled, Deliver(env, m, st));
    }
  }

  // ---- When a call fails ------------------------------------------------

  /** Handling `m` in `world` goes wrong, and the run reports it like this. */
  ghost predicate Blames(env: Env, world: World, m: Message, error: string) {
    match env.handle(world, m).1
    case Raised(exception, text) => error == exception + ": " + text
    case NotMessages => error == "TypeError: multi-agent node must return a tuple of messages"
    case Outputs(messages) => exists n :: 0 <= n < |messages| && FirstBroken(env, m, messages, n, error)
  }

  /** The node that handles `m` in `world` raises, returns something else than messages, or returns one it
      may not emit. */
  ghost predicate Misbehaves(env: Env, world: World, m: Message) {
    match env.handle(world, m).1
    case Raised(_, _) => true
    case NotMessages => true
    case Outputs(messages) => !AllMayBeEmitted(env, m, messages)
  }

  /** Some delivery among `sent` goes wrong, in the world the ones before it left. */
  ghost predicate SomeMisbehaves(env: Env, world: World, sent: seq<Message>) {
    exists k :: 0 <= k < |sent| && Misbehaves(env, WorldAfter(env, world, sent[..k]), sent[k])
  }

  /** The last delivery is the one that went wrong. */
  ghost predicate EndsBadly(env: Env, world: World, sent: seq<Message>, error: Option<string>) {
    && sent != [] && error.Some?
    && Blames(env, WorldAfter(env, world, sent[..|sent| - 1]), sent[|sent| - 1], error.value)
  }

  lemma {:induction false} DeliveryFailsExactly(env: Env, m: Message, st: RunState)
    requires st.status == Completed && m.id !in st.seen && DeliveryError(env, m).None?
    ensures var next := Deliver(env, m, st);
            && (next.status == Failed <==> Misbehaves(env, st.world, m))
            && (next.status == Failed ==> next.error.Some? && Blames(env, st.world, m, next.error.value))
            && (next.status != Failed ==> next.status == Completed && next.error == st.error)
  {
    var (handled, outcome) := Handled(env, m, st);
    if outcome.Outputs? { OffersFailExactly(env, m, outcome.messages, Acknowledge(m, handled)); }
  }

  lemma {:induction false} MisbehavesOne(env: Env, world: World, m: Message)
    ensures SomeMisbehaves(env, world, [m]) <==> Misbehaves(env, world, m)
    ensures WorldAfter(env, world, [m]) == env.handle(world, m).0
    ensures forall error :: EndsBadly(env, world, [m], error) <==>
              error.Some? && Blames(env, world, m, error.value)
  {
    assert [m][..0] == [] && [m][0] == m && [m][1..] == [];
  }

  lemma {:induction false} MisbehavesBoth(env: Env, world: World, a: seq<Message>, b: seq<Message>)
    ensures SomeMisbehaves(env, world, a + b)
            <==> SomeMisbehaves(env, world, a) || SomeMisbehaves(env, WorldAfter(env, world, a), b)
  {
    var all := a + b;
    forall k | 0 <= k < |all|
      ensures Misbehaves(env, WorldAfter(env, world, all[..k]), all[k])
              <==> if k < |a| then Misbehaves(env, WorldAfter(env, world, a[..k]), a[k])
                   else Misbehaves(env, WorldAfter(env, WorldAfter(env, world, a), b[..k - |a|]), b[k - |a|])
    {
      if k < |a| {
        assert all[..k] == a[..k];
      } else {
        assert all[..k] == a + b[..k - |a|];
        WorldAfterBoth(env, world, a, b[..k - |a|]);
      }
    }
    if SomeMisbehaves(env, WorldAfter(env, world, a), b) {
      var k :| 0 <= k < |b| && Misbehaves(env, WorldAfter(env, WorldAfter(env, world, a), b[..k]), b[k]);
      assert Misbehaves(env, WorldAfter(env, world, all[..|a| + k]), all[|a| + k]);
    }
    if SomeMisbehaves(env, world, a) {
      var k :| 0 <= k < |a| && Misbehaves(env, WorldAfter(env, world, a[..k]), a[k]);
      assert Misbehaves(env, WorldAfter(env, world, all[..k]), all[k]);
    }
  }

  lemma {:induction false} EndsBadlyLater(
    env: Env, world: World, a: seq<Message>, b: seq<Message>, error: Option<string>)
    requires EndsBadly(env, WorldAfter(env, world, a), b, error)
    ensures EndsBadly(env, world, a + b, error)
  {
    WorldAfterBoth(env, world, a, b[..|b| - 1]);
    assert (a + b)[..|a + b| - 1] == a + b[..|b| - 1];
  }

  /** `sent` are the deliveries between two states, and they tell whether the run has failed, and why. */
  ghost predicate FailsFor(env: Env, st: RunState, sent: seq<Message>, next: RunState) {
    && next.delivered == st.delivered + sent && next.world == WorldAfter(env, st.world, sent)
    && (next.status == Failed <==> SomeMisbehaves(env, st.world, sent))
    && (next.status == Failed ==> EndsBadly(env, st.world, sent, next.error))
    && (next.status != Failed ==> next.error == st.error)
  }

  lemma {:induction false} FailsForNothing(env: Env, st: RunState, next: RunState)
    requires next.delivered == st.delivered && next.world == st.world && next.error == st.error && next.status != Failed
    ensures FailsFor(env, st, [], next)
  {
    assert st.delivered + [] == st.delivered;
  }

  lemma {:induction false} FailsForBoth(
    env: Env, st: RunState, sent: seq<Message>, next: RunState, later: seq<Message>, last: RunState)
    requires FailsFor(env, st, sent, next) && next.status != Failed && FailsFor(env, next, later, last)
    ensures FailsFor(env, st, sent + later, last)
  {
    WorldAfterBoth(env, st.world, sent, later);
    MisbehavesBoth(env, st.world, sent, later);
    Regroup(st.delivered, sent, later);
    if last.status == Failed { EndsBadlyLater(env, st.world, sent, later, last.error); }
  }

  lemma {:induction false} NextFails(env: Env, st: RunState, current: seq<Message>)
    requires RoutedRound(env, st, current) && current != []
    ensures FailsFor(env, st, [current[0]], Deliver(env, current[0], st))
  {
    var m := current[0];
    RoutedIsDeliverable(env, st, current);
    DeliverTakes(env, m, st);
    DeliveryFailsExactly(env, m, st);
    MisbehavesOne(env, st.world, m);
  }

  lemma {:induction false} RoundFails(env: Env, st: RunState, current: seq<Message>, maxMessages: nat)
    returns (sent: seq<Message>)
    requires RoutedRound(env, st, current)
    ensures FailsFor(env, st, sent, RunRound(env, st, current, maxMessages))
    decreases |current|
  {
    if current == [] || |st.delivered| >= maxMessages {
      sent := [];
      FailsForNothing(env, st, RunRound(env, st, current, maxMessages));
    } else {
      var next := Deliver(env, current[0], st);
      NextFails(env, st, current);
      sent := [current[0]];
      if next.status != Failed {
        NextRouted(env, st, current);
        var later := RoundFails(env, next, current[1..], maxMessages);
        FailsForBoth(env, st, sent, next, later, RunRound(env, st, current, maxMessages));
        sent := sent + later;
      }
    }
  }

  lemma {:induction false} RunFails(env: Env, st: RunState, maxRounds: nat, maxMessages: nat, cancelled: nat -> bool)
    returns (sent: seq<Message>)
    requires st.status == Completed && Consistent(env, st, []) && NoRedelivery(st.receipts)
    requires Permitted(env.topology, st.queue)
    ensures FailsFor(env, st, sent, RunRounds(env, st, maxRounds, maxMessages, cancelled))
    decreases if maxRounds >= st.rounds then maxRounds - st.rounds else 0
  {
    if st.queue == [] || st.rounds >= maxRounds || cancelled(st.rounds) {
      sent := [];
      FailsForNothing(env, st, RunRounds(env, st, maxRounds, maxMessages, cancelled));
    } else {
      var open := OpenRound(st);
      assert Trace(st, []) == Trace(open, st.queue);
      assert st.queue + open.queue == st.queue;
      var next := RunRound(env, open, st.queue, maxMessages);
      RunRoundSettles(env, open, st.queue, maxMessages);
      RoundStaysRouted(env, open, st.queue, maxMessages);
      sent := RoundFails(env, open, st.queue, maxMessages);
      assert FailsFor(env, st, sent, next);
      if next.status == Completed {
        var later := RunFails(env, next, maxRounds, maxMessages, cancelled);
        FailsForBoth(env, st, sent, next, later, RunRounds(env, next, maxRounds, maxMessages, cancelled));
        sent := sent + later;
      }
    }
  }

  /** What this call delivered, after what its checkpoint had. */
  function Sent(checkpoint: Checkpoint, r: RunResult): seq<Message>
    requires checkpoint.delivered <= r.messages
  {
    r.messages[|checkpoint.delivered|..]
  }

  /** If every pending message has an edge, a call ends `Failed` if and only if the node of some message it
      delivered raised, returned no messages, or returned one it may not emit; that is then the last
      delivery, and the error says what was wrong.  Any other call reports no error. */
  lemma {:induction false} CallFailsExactly(checkpoint: Checkpoint, call: Call)
    requires checkpoint.Valid() && Permitted(checkpoint.topology, checkpoint.pending)
    ensures Execute(checkpoint, call).Ok? && checkpoint.delivered <= Execute(checkpoint, call).value.messages
    ensures var r, env := Execute(checkpoint, call).value, EnvOf(checkpoint, call);
            && (r.status == Failed <==> SomeMisbehaves(env, call.world, Sent(checkpoint, r)))
            && (r.status == Failed ==> EndsBadly(env, call.world, Sent(checkpoint, r), r.error))
            && (r.status != Failed ==> r.error == None)
  {
    var env, start := EnvOf(checkpoint, call), Start(checkpoint, call.world);
    ExecuteKeeps(checkpoint, call);
    StartConsistent(checkpoint, call);
    var sent := RunFails(env, start, call.maxRounds, call.maxMessages, call.cancelled);
    assert (checkpoint.delivered + sent)[|checkpoint.delivered|..] == sent;
  }

  /** Every node always returns messages it may emit. */
  ghost predicate WellBehaved(env: Env) {
    forall world, m :: !Misbehaves(env, world, m)
  }

  /** Well-behaved nodes never fail a run: not a fresh one, nor any lawful resume. */
  lemma {:induction false} WellBehavedNeverFail(checkpoint: Checkpoint, call: Call)
    requires checkpoint.Valid() && Permitted(checkpoint.topology, checkpoint.pending)
    requires WellBehaved(EnvOf(checkpoint, call))
    ensures Execute(checkpoint, call).Ok?
    ensures Execute(checkpoint, call).value.status != Failed && Execute(checkpoint, call).value.error == None
  {
    CallFailsExactly(checkpoint, call);
  }

  // ---- Starting and stopping --------------------------------------------

  /** Turn zero, no parents, the conversation of the first one, along a declared edge. */
  ghost predicate Opens(topology: Topology, initials: seq<Message>, m: Message)
    requires initials != []
  {
    && m.conversation == initials[0].conversation && m.turn == 0 && m.parents == []
    && HasEdge(topology, m.sender, m.recipient)
  }

  ghost predicate SomeDoesNotOpen(topology: Topology, initials: seq<Message>) {
    exists i :: 0 <= i < |initials| && !Opens(topology, initials, initials[i])
  }

  ghost predicate SomeIdTwice(initials: seq<Message>) {
    exists i, j :: 0 <= i < j < |initials| && initials[i].id == initials[j].id
  }

  /** A fresh run is refused for the first of these reasons that applies, and for no other. */
  lemma {:induction false} FreshRunsAreRefusedExactly(topology: Topology, initials: seq<Message>, call: Call)
    ensures var r := RunMany(topology, initials, call);
            if call.maxRounds == 0 then r == Err("multi-agent max_rounds must be positive")
            else if call.maxMessages == 0 then r == Err("multi-agent max_messages must be positive")
            else if initials == [] then r == Err("multi-agent initials must be a non-empty tuple")
            else if SomeDoesNotOpen(topology, initials) then
              r == Err("multi-agent initial messages must be topology-valid turn-zero messages")
            else if SomeIdTwice(initials) then
              r == Err("multi-agent initial messages must have unique IDs")
            else r.Ok?
  {
    if LimitsValid(call) && initials != [] {
      RootsOpen(topology, initials);
      if ValidInitials(topology, initials) {
        FreshIsValid(topology, initials);
        ExecuteKeeps(Fresh(topology, initials), call);
      }
    }
  }

  lemma {:induction false} RootsOpen(topology: Topology, initials: seq<Message>)
    requires initials != []
    ensures AllRoots(topology, initials) <==> !SomeDoesNotOpen(topology, initials)
    ensures DistinctIds(initials) <==> !SomeIdTwice(initials)
  {
    forall i | 0 <= i < |initials|
      ensures IsRoot(topology, initials[0].conversation, initials[i]) <==> Opens(topology, initials, initials[i])
    {
      assert topology.CanSend(initials[i].sender, initials[i].recipient)
             <==> HasEdge(topology, initials[i].sender, initials[i].recipient);
    }
  }

  lemma {:induction false} FreshIsValid(topology: Topology, initials: seq<Message>)
    requires ValidInitials(topology, initials)
    ensures Fresh(topology, initials).Valid()
  {
    assert [] + initials == initials;
  }

  /** A fresh run delivers its initial messages in their order and then what it accepted: transcript and
      pending messages together are the initial messages followed by the accepted outputs. */
  lemma {:induction false} FreshRunsStartInOrder(topology: Topology, initials: seq<Message>, call: Call)
    requires topology.Valid() && ValidInitials(topology, initials) && LimitsValid(call)
    ensures RunMany(topology, initials, call).Ok?
    ensures var r := RunMany(topology, initials, call).value;
            && r.messages + r.checkpoint.pending == initials + Taken(Fresh(topology, initials), call)
            && r.checkpoint.topology == topology && r.checkpoint.conversation == initials[0].conversation
            && r.checkpoint.round == r.rounds && r.checkpoint.delivered == r.messages
  {
    var first := Fresh(topology, initials);
    FreshIsLawful(topology, initials);
    CallConserves(first, call);
    assert [] + initials == initials;
  }

  lemma {:induction false} RoundsStopAtCancel(
    env: Env, st: RunState, maxRounds: nat, maxMessages: nat, cancelled: nat -> bool, c: nat)
    requires st.rounds <= c && cancelled(c)
    ensures RunRounds(env, st, maxRounds, maxMessages, cancelled).rounds <= c
    decreases if maxRounds >= st.rounds then maxRounds - st.rounds else 0
  {
    if st.queue == [] || st.rounds >= maxRounds || cancelled(st.rounds) {
    } else {
      var next := RunRound(env, OpenRound(st), st.queue, maxMessages);
      if next.status == Completed { RoundsStopAtCancel(env, next, maxRounds, maxMessages, cancelled, c); }
    }
  }

  /** No round starts once the cancellation port says so, and one that says so before the first round
      reaches no node. */
  lemma {:induction false} CancellationIsObeyed(checkpoint: Checkpoint, call: Call, c: nat)
    requires checkpoint.Valid() && checkpoint.round <= c && call.cancelled(c)
    ensures Execute(checkpoint, call).Ok? && Execute(checkpoint, call).value.rounds <= c
    ensures c == checkpoint.round ==>
              && Execute(checkpoint, call).value.messages == checkpoint.delivered
              && Execute(checkpoint, call).value.checkpoint.pending == checkpoint.pending
              && FinalState(checkpoint, call).world == call.world
  {
    ExecuteKeeps(checkpoint, call);
    RoundsStopAtCancel(EnvOf(checkpoint, call), Start(checkpoint, call.world), call.maxRounds, call.maxMessages,
                       call.cancelled, c);
  }
}

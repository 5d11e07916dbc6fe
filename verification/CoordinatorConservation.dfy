/**
 Where messages come from and where they go: a call leaves exactly what it found and the outputs it
 accepted, each of them emitted by a node to which this call delivered the output's parent.  The one
 exception is a pending message without an edge: it fails the run and is in no list afterwards.
 */
module CoordinatorConservation {
  import opened MultiAgentContracts
  import opened Sequences
  import opened CoordinatorModel
  import opened CoordinatorSafety

  // ---- The outputs that are accepted ------------------------------------

  /** What offering a node's outputs queues, in order. */
  function TakenFrom(env: Env, parent: Message, outputs: seq<Message>, st: RunState): seq<Message>
    decreases |outputs|
  {
    if outputs == [] || OutputError(env, parent, outputs[0]).Some? then []
    else
      (if Disposition(env, parent, outputs[0], st).None? then [outputs[0]] else [])
      + TakenFrom(env, parent, outputs[1..], Offer(env, parent, outputs[0], st))
  }

  /** The outputs accepted when `m` is delivered. */
  function TakenAt(env: Env, m: Message, st: RunState): seq<Message> {
    if m.id in st.seen || DeliveryError(env, m).Some? then []
    else
      var (handled, outcome) := Handled(env, m, st);
      if outcome.Outputs? then TakenFrom(env, m, outcome.messages, Acknowledge(m, handled)) else []
  }

  /** The outputs accepted in a round. */
  function TakenInRound(env: Env, st: RunState, current: seq<Message>, maxMessages: nat): seq<Message>
    decreases |current|
  {
    if current == [] || |st.delivered| >= maxMessages then []
    else
      var next := Deliver(env, current[0], st);
      TakenAt(env, current[0], st)
      + if next.status == Failed then [] else TakenInRound(env, next, current[1..], maxMessages)
  }

  /** The outputs accepted in all rounds of a call. */
  function TakenInRun(env: Env, st: RunState, maxRounds: nat, maxMessages: nat, cancelled: nat -> bool): seq<Message>
    decreases if maxRounds >= st.rounds then maxRounds - st.rounds else 0
  {
    if st.queue == [] || st.rounds >= maxRounds || cancelled(st.rounds) then []
    else
      var next := RunRound(env, OpenRound(st), st.queue, maxMessages);
      TakenInRound(env, OpenRound(st), st.queue, maxMessages)
      + if next.status != Completed then [] else TakenInRun(env, next, maxRounds, maxMessages, cancelled)
  }

  /** The outputs a call accepts. */
  function Taken(checkpoint: Checkpoint, call: Call): seq<Message> {
    TakenInRun(EnvOf(checkpoint, call), Start(checkpoint, call.world), call.maxRounds, call.maxMessages, call.cancelled)
  }

  // ---- Who emitted them -------------------------------------------------

  /** Handling `parent` in `world` returns `x`, and `x` is an output its node may emit. */
  ghost predicate EmittedBy(env: Env, world: World, parent: Message, x: Message) {
    var outcome := env.handle(world, parent).1;
    outcome.Outputs? && x in outcome.messages && OutputError(env, parent, x).None?
  }

  /** The world once the nodes have handled `sent`, in order. */
  function WorldAfter(env: Env, world: World, sent: seq<Message>): World
    decreases |sent|
  {
    if sent == [] then world else WorldAfter(env, env.handle(world, sent[0]).0, sent[1..])
  }

  /** One of the deliveries `sent`, in the world the deliveries before it left, returned `x`. */
  ghost predicate Emitted(env: Env, world: World, sent: seq<Message>, x: Message) {
    exists k :: 0 <= k < |sent| && EmittedBy(env, WorldAfter(env, world, sent[..k]), sent[k], x)
  }

  ghost predicate AllEmitted(env: Env, world: World, sent: seq<Message>, taken: seq<Message>) {
    forall x :: x in taken ==> Emitted(env, world, sent, x)
  }

  lemma {:induction false} WorldAfterBoth(env: Env, world: World, a: seq<Message>, b: seq<Message>)
    ensures WorldAfter(env, world, a + b) == WorldAfter(env, WorldAfter(env, world, a), b)
    decreases |a|
  {
    if a == [] {
      assert a + b == b;
    } else {
      assert (a + b)[1..] == a[1..] + b;
      WorldAfterBoth(env, env.handle(world, a[0]).0, a[1..], b);
    }
  }

  lemma {:induction false} EmittedEarlier(env: Env, world: World, a: seq<Message>, b: seq<Message>, x: Message)
    requires Emitted(env, world, a, x)
    ensures Emitted(env, world, a + b, x)
  {
    var k :| 0 <= k < |a| && EmittedBy(env, WorldAfter(env, world, a[..k]), a[k], x);
    assert (a + b)[..k] == a[..k] && (a + b)[k] == a[k];
  }

  lemma {:induction false} EmittedLater(env: Env, world: World, a: seq<Message>, b: seq<Message>, x: Message)
    requires Emitted(env, WorldAfter(env, world, a), b, x)
    ensures Emitted(env, world, a + b, x)
  {
    var middle := WorldAfter(env, world, a);
    var k :| 0 <= k < |b| && EmittedBy(env, WorldAfter(env, middle, b[..k]), b[k], x);
    WorldAfterBoth(env, world, a, b[..k]);
    assert (a + b)[..|a| + k] == a + b[..k] && (a + b)[|a| + k] == b[k];
  }

  // ---- Growth -----------------------------------------------------------

  /** From `st` to `next`, delivering `sent` turns the trace `before` into `after` by appending
      exactly `taken`, all of it emitted by these deliveries. */
  ghost predicate Grows(
    env: Env, st: RunState, before: seq<Message>, taken: seq<Message>, sent: seq<Message>,
    next: RunState, after: seq<Message>)
  {
    && next.delivered == st.delivered + sent
    && next.world == WorldAfter(env, st.world, sent)
    && after == before + taken
    && AllEmitted(env, st.world, sent, taken)
  }

  lemma {:induction false} GrowsTwice(
    env: Env, st: RunState, before: seq<Message>, taken: seq<Message>, sent: seq<Message>,
    next: RunState, middle: seq<Message>, more: seq<Message>, later: seq<Message>,
    last: RunState, after: seq<Message>)
    requires Grows(env, st, before, taken, sent, next, middle)
    requires Grows(env, next, middle, more, later, last, after)
    ensures Grows(env, st, before, taken + more, sent + later, last, after)
  {
    WorldAfterBoth(env, st.world, sent, later);
    Regroup(st.delivered, sent, later);
    Regroup(before, taken, more);
    forall x | x in taken + more ensures Emitted(env, st.world, sent + later, x) {
      if x in taken {
        EmittedEarlier(env, st.world, sent, later, x);
      } else {
        EmittedLater(env, st.world, sent, later, x);
      }
    }
  }

  lemma {:induction false} GrowsByNothing(env: Env, st: RunState, before: seq<Message>, next: RunState)
    requires next.delivered == st.delivered && next.world == st.world
    ensures Grows(env, st, before, [], [], next, before)
  {
    assert before + [] == before && st.delivered + [] == st.delivered;
  }

  lemma {:induction false} OfferAllTakes(env: Env, parent: Message, outputs: seq<Message>, st: RunState)
    ensures var r, taken := OfferAll(env, parent, outputs, st), TakenFrom(env, parent, outputs, st);
            && r.queue == st.queue + taken
            && r.delivered == st.delivered && r.world == st.world
            && forall x :: x in taken ==> x in outputs && OutputError(env, parent, x).None?
    decreases |outputs|
  {
    if outputs != [] && OutputError(env, parent, outputs[0]).None? {
      var next := Offer(env, parent, outputs[0], st);
      var first := if Disposition(env, parent, outputs[0], st).None? then [outputs[0]] else [];
      OfferAllTakes(env, parent, outputs[1..], next);
      Regroup(st.queue, first, TakenFrom(env, parent, outputs[1..], next));
    }
  }

  /** A delivery that is not refused moves its message into the transcript and appends what it accepts. */
  lemma {:induction false} DeliverTakes(env: Env, m: Message, st: RunState)
    requires m.id !in st.seen && DeliveryError(env, m).None?
    ensures var r, taken := Deliver(env, m, st), TakenAt(env, m, st);
            && r.delivered == st.delivered + [m]
            && r.queue == st.queue + taken
            && r.world == env.handle(st.world, m).0
            && forall x :: x in taken ==> EmittedBy(env, st.world, m, x)
  {
    var (handled, outcome) := Handled(env, m, st);
    if outcome.Outputs? {
      OfferAllTakes(env, m, outcome.messages, Acknowledge(m, handled));
    } else {
      assert st.queue + [] == st.queue;
    }
  }

  lemma {:induction false} OneDelivery(env: Env, world: World, m: Message, taken: seq<Message>)
    requires forall x :: x in taken ==> EmittedBy(env, world, m, x)
    ensures AllEmitted(env, world, [m], taken) && WorldAfter(env, world, [m]) == env.handle(world, m).0
  {
    forall x | x in taken ensures Emitted(env, world, [m], x) {
      assert [m][..0] == [] && [m][0] == m;
    }
    assert [m][1..] == [];
  }

  /** What the loop of a round needs to lose nothing: every message still to deliver has an edge. */
  ghost predicate RoutedRound(env: Env, st: RunState, current: seq<Message>) {
    && st.status == Completed && Consistent(env, st, current) && NoRedelivery(st.receipts)
    && Permitted(env.topology, current + st.queue)
  }

  lemma {:induction false} RoutedIsDeliverable(env: Env, st: RunState, current: seq<Message>)
    requires Consistent(env, st, current) && current != [] && Permitted(env.topology, current + st.queue)
    ensures current[0].id !in st.seen && DeliveryError(env, current[0]).None?
  {
    assert current == [current[0]] + current[1..];
    NotYetSeen(env, current[0], st, current[1..]);
    assert (current + st.queue)[0] == current[0];
  }

  lemma {:induction false} StillPermitted(
    topology: Topology, current: seq<Message>, queue: seq<Message>, taken: seq<Message>)
    requires current != [] && Permitted(topology, current + queue)
    requires forall x :: x in taken ==> topology.CanSend(x.sender, x.recipient)
    ensures Permitted(topology, current[1..] + (queue + taken))
  {
    var before, after := current + queue, current[1..] + (queue + taken);
    forall i | 0 <= i < |after| ensures topology.CanSend(after[i].sender, after[i].recipient) {
      if i + 1 < |before| {
        assert after[i] == before[i + 1];
      } else {
        assert after[i] in taken;
      }
    }
  }

  lemma {:induction false} NextRouted(env: Env, st: RunState, current: seq<Message>)
    requires RoutedRound(env, st, current) && current != []
    ensures var next := Deliver(env, current[0], st);
            && Permitted(env.topology, current[1..] + next.queue)
            && (next.status != Failed ==> RoutedRound(env, next, current[1..]))
  {
    var m, rest := current[0], current[1..];
    assert current == [m] + rest;
    RoutedIsDeliverable(env, st, current);
    DeliverTakes(env, m, st);
    StillPermitted(env.topology, current, st.queue, TakenAt(env, m, st));
    if Deliver(env, m, st).status != Failed { NextMessage(env, m, st, rest); }
  }

  lemma {:induction false} RoundStaysRouted(env: Env, st: RunState, current: seq<Message>, maxMessages: nat)
    requires RoutedRound(env, st, current)
    ensures Permitted(env.topology, RunRound(env, st, current, maxMessages).queue)
    decreases |current|
  {
    if current == [] {
      assert current + st.queue == st.queue;
    } else if |st.delivered| < maxMessages {
      NextRouted(env, st, current);
      var next := Deliver(env, current[0], st);
      if next.status != Failed { RoundStaysRouted(env, next, current[1..], maxMessages); }
    }
  }

  lemma {:induction false} NextGrows(env: Env, st: RunState, current: seq<Message>)
    requires RoutedRound(env, st, current) && current != []
    ensures var next := Deliver(env, current[0], st);
            Grows(env, st, Trace(st, current), TakenAt(env, current[0], st), [current[0]],
                  next, Trace(next, current[1..]))
  {
    var m, rest := current[0], current[1..];
    assert current == [m] + rest;
    RoutedIsDeliverable(env, st, current);
    DeliverTakes(env, m, st);
    OneDelivery(env, st.world, m, TakenAt(env, m, st));
    MoveBoundary(st.delivered, m, rest, st.queue, TakenAt(env, m, st));
  }

  lemma MoveBoundary(delivered: seq<Message>, m: Message, rest: seq<Message>, queue: seq<Message>, taken: seq<Message>)
    ensures delivered + [m] + rest + (queue + taken) == delivered + ([m] + rest) + queue + taken
  {
  }

  /** A round whose messages all have an edge appends exactly the outputs it accepts, wherever it stops. */
  lemma {:induction false} RoundGrows(env: Env, st: RunState, current: seq<Message>, maxMessages: nat)
    returns (sent: seq<Message>)
    requires RoutedRound(env, st, current)
    ensures var r := RunRound(env, st, current, maxMessages);
            Grows(env, st, Trace(st, current), TakenInRound(env, st, current, maxMessages), sent,
                  r, r.delivered + r.queue)
    decreases |current|
  {
    var before := Trace(st, current);
    if current == [] || |st.delivered| >= maxMessages {
      sent := [];
      PutBack(st.delivered, current, st.queue);
      assert current == [] ==> before == st.delivered + st.queue;
      GrowsByNothing(env, st, before, RunRound(env, st, current, maxMessages));
    } else {
      var next := Deliver(env, current[0], st);
      var taken := TakenAt(env, current[0], st);
      NextGrows(env, st, current);
      if next.status == Failed {
        sent := [current[0]];
        PutBack(next.delivered, current[1..], next.queue);
        assert TakenInRound(env, st, current, maxMessages) == taken + [] == taken;
      } else {
        NextRouted(env, st, current);
        var later := RoundGrows(env, next, current[1..], maxMessages);
        sent := [current[0]] + later;
        var r := RunRound(env, next, current[1..], maxMessages);
        GrowsTwice(env, st, before, taken, [current[0]], next, Trace(next, current[1..]),
                   TakenInRound(env, next, current[1..], maxMessages), later, r, r.delivered + r.queue);
      }
    }
  }

  lemma {:induction false} RunGrows(
    env: Env, st: RunState, maxRounds: nat, maxMessages: nat, cancelled: nat -> bool)
    returns (sent: seq<Message>)
    requires st.status == Completed && Consistent(env, st, []) && NoRedelivery(st.receipts)
    requires Permitted(env.topology, st.queue)
    ensures var r := RunRounds(env, st, maxRounds, maxMessages, cancelled);
            Grows(env, st, st.delivered + st.queue, TakenInRun(env, st, maxRounds, maxMessages, cancelled), sent,
                  r, r.delivered + r.queue)
    decreases if maxRounds >= st.rounds then maxRounds - st.rounds else 0
  {
    var before := st.delivered + st.queue;
    if st.queue == [] || st.rounds >= maxRounds || cancelled(st.rounds) {
      sent := [];
      GrowsByNothing(env, st, before, RunRounds(env, st, maxRounds, maxMessages, cancelled));
    } else {
      var open := OpenRound(st);
      assert Trace(st, []) == Trace(open, st.queue) == before;
      var next := RunRound(env, open, st.queue, maxMessages);
      var taken := TakenInRound(env, open, st.queue, maxMessages);
      RunRoundSettles(env, open, st.queue, maxMessages);
      assert st.queue + open.queue == st.queue;
      RoundStaysRouted(env, open, st.queue, maxMessages);
      sent := RoundGrows(env, open, st.queue, maxMessages);
      var middle := next.delivered + next.queue;
      assert Grows(env, st, before, taken, sent, next, middle);
      if next.status == Completed {
        var later := RunGrows(env, next, maxRounds, maxMessages, cancelled);
        var r := RunRounds(env, next, maxRounds, maxMessages, cancelled);
        GrowsTwice(env, st, before, taken, sent, next, middle,
                   TakenInRun(env, next, maxRounds, maxMessages, cancelled), later, r, r.delivered + r.queue);
        sent := sent + later;
      } else {
        assert taken + [] == taken;
      }
    }
  }

  // ---- Calls ------------------------------------------------------------

  /** The call leaves the checkpoint's messages, delivered then pending, in order and after them
      exactly the outputs it accepted. */
  ghost predicate Conserves(checkpoint: Checkpoint, call: Call) {
    var st := FinalState(checkpoint, call);
    st.delivered + st.queue == checkpoint.delivered + checkpoint.pending + Taken(checkpoint, call)
  }

  /** Every accepted output was returned by a node to which this call delivered the output's parent,
      in the world the deliveries before it had left. */
  ghost predicate Emits(checkpoint: Checkpoint, call: Call) {
    var env, st := EnvOf(checkpoint, call), FinalState(checkpoint, call);
    && checkpoint.delivered <= st.delivered
    && var sent := st.delivered[|checkpoint.delivered|..];
       AllEmitted(env, call.world, sent, Taken(checkpoint, call)) && st.world == WorldAfter(env, call.world, sent)
  }

  /** If every pending message has an edge, a call loses nothing and makes nothing up. */
  lemma {:induction false} CallConserves(checkpoint: Checkpoint, call: Call)
    requires checkpoint.Valid() && Permitted(checkpoint.topology, checkpoint.pending)
    ensures Execute(checkpoint, call).Ok?
    ensures Execute(checkpoint, call).value == ResultOf(EnvOf(checkpoint, call), FinalState(checkpoint, call))
    ensures Conserves(checkpoint, call) && Emits(checkpoint, call)
  {
    var env, start := EnvOf(checkpoint, call), Start(checkpoint, call.world);
    ExecuteKeeps(checkpoint, call);
    StartConsistent(checkpoint, call);
    var sent := RunGrows(env, start, call.maxRounds, call.maxMessages, call.cancelled);
    assert (checkpoint.delivered + sent)[|checkpoint.delivered|..] == sent;
  }

  // ---- The message that is lost -----------------------------------------

  /** No node answers anything. */
  function Quiet(): (World, Message) -> (World, NodeOutcome) {
    (world, m) => (world, Outputs([]))
  }

  /** Up to message `p`, which has no edge, a quiet round delivers; that message is dropped. */
  lemma {:induction false} QuietRound(env: Env, st: RunState, current: seq<Message>, p: nat, maxMessages: nat)
    requires env.handle == Quiet() && env.topology.Valid() && st.status == Completed
    requires Consistent(env, st, current) && NoRedelivery(st.receipts)
    requires FirstUnrouted(env.topology, current, p) && |st.delivered| + |current| <= maxMessages
    ensures var r := RunRound(env, st, current, maxMessages);
            && r.status == Failed && r.rounds == st.rounds
            && r.delivered == st.delivered + current[..p]
            && r.queue == current[p + 1..] + st.queue
    ensures TakenInRound(env, st, current, maxMessages) == []
    decreases p
  {
    var m, rest := current[0], current[1..];
    assert current == [m] + rest;
    NotYetSeen(env, m, st, rest);
    if p == 0 {
      assert DeliveryError(env, m).Some?;
      assert st.delivered + current[..0] == st.delivered;
    } else {
      QuietDelivery(env, m, st);
      var next := Deliver(env, m, st);
      NextMessage(env, m, st, rest);
      SkipFirst(st.delivered, current, p);
      RestUnrouted(env.topology, current, p);
      QuietRound(env, next, rest, p - 1, maxMessages);
    }
  }

  lemma {:induction false} SkipFirst(delivered: seq<Message>, current: seq<Message>, p: nat)
    requires 0 < p < |current|
    ensures delivered + [current[0]] + current[1..][..p - 1] == delivered + current[..p]
    ensures current[1..][p..] == current[p + 1..]
  {
    assert current[..p] == [current[0]] + current[1..][..p - 1];
  }

  /** Message `p` is the first without an edge. */
  ghost predicate FirstUnrouted(topology: Topology, messages: seq<Message>, p: nat) {
    && p < |messages|
    && (forall i :: 0 <= i < p ==> topology.CanSend(messages[i].sender, messages[i].recipient))
    && !topology.CanSend(messages[p].sender, messages[p].recipient)
  }

  lemma {:induction false} RestUnrouted(topology: Topology, messages: seq<Message>, p: nat)
    requires FirstUnrouted(topology, messages, p) && p > 0
    ensures FirstUnrouted(topology, messages[1..], p - 1)
    ensures topology.CanSend(messages[0].sender, messages[0].recipient)
  {
    forall i | 0 <= i < p - 1 ensures topology.CanSend(messages[1..][i].sender, messages[1..][i].recipient) {
      assert messages[1..][i] == messages[i + 1];
    }
  }

  lemma {:induction false} QuietDelivery(env: Env, m: Message, st: RunState)
    requires env.handle == Quiet() && env.topology.Valid() && st.status == Completed
    requires m.id !in st.seen && m.conversation == env.conversation
    requires env.topology.CanSend(m.sender, m.recipient)
    ensures DeliveryError(env, m).None?
    ensures var next := Deliver(env, m, st);
            next.status == Completed && next.delivered == st.delivered + [m] && next.queue == st.queue
    ensures TakenAt(env, m, st) == []
  {
  }

  /** A pending message without an edge is lost by a quiet call that reaches it: it is in neither the
      transcript nor the pending messages of the result, and nothing else is missing. */
  lemma {:induction false} UnroutedIsLost(checkpoint: Checkpoint, p: nat, world: World) returns (call: Call)
    requires checkpoint.Valid() && checkpoint.topology.Valid()
    requires FirstUnrouted(checkpoint.topology, checkpoint.pending, p)
    ensures LimitsValid(call) && Execute(checkpoint, call).Ok?
    ensures var r := Execute(checkpoint, call).value;
            && r.status == Failed
            && r.messages == checkpoint.delivered + checkpoint.pending[..p]
            && r.checkpoint.pending == checkpoint.pending[p + 1..]
    ensures !Conserves(checkpoint, call)
  {
    var max := |checkpoint.delivered| + |checkpoint.pending|;
    call := Call(Quiet(), world, checkpoint.round + 1, max, r => false);
    var env, start := EnvOf(checkpoint, call), Start(checkpoint, world);
    StartConsistent(checkpoint, call);
    var open := OpenRound(start);
    assert Trace(open, start.queue) == Trace(start, []);
    QuietRound(env, open, start.queue, p, max);
    var r := RunRound(env, open, start.queue, max);
    assert FinalState(checkpoint, call) == r;
    assert Taken(checkpoint, call) == [];
    assert checkpoint.pending[p + 1..] + [] == checkpoint.pending[p + 1..];
    ExecuteKeeps(checkpoint, call);
  }

  /** A valid checkpoint is conserved by every call if and only if all its pending messages have an
      edge; a refused message is put back nowhere. */
  lemma {:induction false} ConservedExactly(checkpoint: Checkpoint)
    requires checkpoint.Valid() && checkpoint.topology.Valid()
    ensures (forall call: Call :: LimitsValid(call) ==> Conserves(checkpoint, call))
            <==> Permitted(checkpoint.topology, checkpoint.pending)
  {
    if Permitted(checkpoint.topology, checkpoint.pending) {
      forall call: Call ensures Conserves(checkpoint, call) {
        CallConserves(checkpoint, call);
      }
    } else {
      var p := FindUnrouted(checkpoint.topology, checkpoint.pending);
      var world: World := *;
      var call := UnroutedIsLost(checkpoint, p, world);
    }
  }

  lemma {:induction false} FindUnrouted(topology: Topology, messages: seq<Message>) returns (p: nat)
    requires topology.Valid() && !Permitted(topology, messages)
    ensures FirstUnrouted(topology, messages, p)
    decreases |messages|
  {
    if !topology.CanSend(messages[0].sender, messages[0].recipient) {
      p := 0;
    } else {
      var later := FindUnrouted(topology, messages[1..]);
      p := later + 1;
    }
  }

  /** Such checkpoints exist: two nodes, no edge, and one message between them. */
  lemma {:induction false} LossHappens(world: World) returns (checkpoint: Checkpoint, call: Call)
    ensures checkpoint.Valid() && checkpoint.topology.Valid() && LimitsValid(call)
    ensures Resume(checkpoint.topology, checkpoint, call).Ok?
    ensures var r := Resume(checkpoint.topology, checkpoint, call).value;
            r.status == Failed && r.messages == [] && r.checkpoint.pending == [] && checkpoint.pending != []
  {
    var m := Message("1", "a", "b", "hello", 0, "c", [], 0);
    checkpoint := Checkpoint(Topology(["a", "b"], []), "c", [m], [], 0, []);
    assert checkpoint.delivered + checkpoint.pending == [m];
    call := UnroutedIsLost(checkpoint, 0, world);
  }
}

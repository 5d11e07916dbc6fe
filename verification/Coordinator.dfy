/** The coordinator itself: an object whose calls run the nodes and so change their world. */
module Coordinator {
  import opened Outcomes
  import opened MultiAgentContracts
  import opened CoordinatorModel

  class MultiAgentCoordinator {
    const topology: Topology
    const handle: (World, Message) -> (World, NodeOutcome)
    var world: World

    constructor (topology: Topology, handle: (World, Message) -> (World, NodeOutcome), world: World)
      ensures this.topology == topology && this.handle == handle && this.world == world
    {
      this.topology := topology;
      this.handle := handle;
      this.world := world;
    }

    /** Offers a node's outputs to the next round's queue, stopping at the first one that raises. */
    method OfferOutputs(env: Env, parent: Message, outputs: seq<Message>, start: RunState) returns (st: RunState)
      ensures st == OfferAll(env, parent, outputs, start)
    {
      st := start;
      ghost var left := outputs;
      for i := 0 to |outputs|
        invariant left == outputs[i..] && OfferAll(env, parent, outputs, start) == OfferAll(env, parent, left, st)
      {
        var error := OutputError(env, parent, outputs[i]);
        assert left[0] == outputs[i];
        if error.Some? {
          st := Fail(st, parent, error.value);
          return;
        }
        var disposition := Disposition(env, parent, outputs[i], st);
        if disposition.Some? {
          st := st.(receipts := st.receipts + [disposition.value]);
        } else {
          st := st.(scheduled := st.scheduled + {outputs[i].id}, queue := st.queue + [outputs[i]]);
        }
        left := left[1..];
      }
    }

    /** Hands one message to its node. */
    method DeliverMessage(env: Env, m: Message, start: RunState) returns (st: RunState)
      requires env.handle == handle && start.world == world
      modifies this`world
      ensures st == Deliver(env, m, start) && world == st.world
    {
      st := start;
      if m.id in st.seen {
        st := st.(receipts := st.receipts + [MakeReceipt(m, Duplicate, st.rounds, ALREADY_DELIVERED)]);
        return;
      }
      var error := DeliveryError(env, m);
      if error.Some? {
        st := Fail(st, m, error.value);
        return;
      }
      st := st.(seen := st.seen + {m.id}, delivered := st.delivered + [m]);
      var (after, outcome) := handle(world, m);
      world := after;
      st := st.(world := after);
      match outcome {
        case Raised(exception, text) => st := Fail(st, m, exception + ": " + text);
        case NotMessages =>
          st := Fail(st, m, "TypeError: multi-agent node must return a tuple of messages");
        case Outputs(messages) =>
          st := OfferOutputs(env, m, messages, Acknowledge(m, st));
      }
      if outcome.Outputs? {
        OfferAllFails(env, m, outcome.messages, Acknowledge(m, Handled(env, m, start).0));
      }
    }

    /** One round: the messages cut out of the queue, until a limit or a failure puts the rest back. */
    method DeliverRound(env: Env, current: seq<Message>, maxMessages: nat, start: RunState) returns (st: RunState)
      requires env.handle == handle && start.world == world && start.status == Completed
      modifies this`world
      ensures st == RunRound(env, start, current, maxMessages) && world == st.world
    {
      st := start;
      var position := 0;
      ghost var left := current;
      while position < |current|
        invariant 0 <= position <= |current| && left == current[position..]
        invariant st.world == world && st.status == Completed
        invariant RunRound(env, st, left, maxMessages) == RunRound(env, start, current, maxMessages)
      {
        if |st.delivered| >= maxMessages {
          st := st.(status := MaxMessages, queue := current[position..] + st.queue);
          return;
        }
        DeliverFails(env, current[position], st);
        st := DeliverMessage(env, current[position], st);
        left := left[1..];
        if st.status == Failed {
          st := st.(queue := current[position + 1..] + st.queue);
          return;
        }
        position := position + 1;
      }
    }

    /** The rounds of one call, from the checkpoint it starts at. */
    method ExecuteRounds(checkpoint: Checkpoint, maxRounds: nat, maxMessages: nat, cancelled: nat -> bool)
      returns (r: Result<RunResult, string>)
      modifies this`world
      ensures r == Execute(checkpoint, Call(handle, old(world), maxRounds, maxMessages, cancelled))
      ensures world == if checkpoint.deliveredIds == Ids(checkpoint.delivered)
                       then FinalState(checkpoint, Call(handle, old(world), maxRounds, maxMessages, cancelled)).world
                       else old(world)
    {
      if checkpoint.deliveredIds != Ids(checkpoint.delivered) {
        return Err("multi-agent delivered transcript does not match IDs");
      }
      ghost var call := Call(handle, world, maxRounds, maxMessages, cancelled);
      var env := Env(checkpoint.topology, checkpoint.conversation, handle);
      var st := Start(checkpoint, world);
      while st.queue != [] && st.rounds < maxRounds
        invariant st.world == world
        invariant st.status == Completed
        invariant RunRounds(env, st, maxRounds, maxMessages, cancelled) == FinalState(checkpoint, call)
        decreases maxRounds - st.rounds
      {
        if cancelled(st.rounds) {
          st := st.(status := Cancelled);
          break;
        }
        var current := st.queue;
        st := DeliverRound(env, current, maxMessages, OpenRound(st));
        if st.status != Completed {
          break;
        }
      }
      r := Finish(env, st);
    }

    /** Runs a set of turn-zero messages to completion or to a limit.  Refused arguments reach no node. */
    method RunManyMessages(initials: seq<Message>, maxRounds: nat, maxMessages: nat, cancelled: nat -> bool)
      returns (r: Result<RunResult, string>)
      modifies this`world
      ensures var call := Call(handle, old(world), maxRounds, maxMessages, cancelled);
              && r == RunMany(topology, initials, call)
              && world == if LimitsValid(call) && ValidInitials(topology, initials)
                          then FinalState(Fresh(topology, initials), call).world
                          else old(world)
    {
      if maxRounds == 0 {
        return Err("multi-agent max_rounds must be positive");
      }
      if maxMessages == 0 {
        return Err("multi-agent max_messages must be positive");
      }
      var error := InitialsError(topology, initials);
      if error.Some? {
        return Err(error.value);
      }
      var first := Fresh(topology, initials);
      assert first.deliveredIds == Ids(first.delivered);
      r := ExecuteRounds(first, maxRounds, maxMessages, cancelled);
    }

    /** Continues from a checkpoint of the same topology.  A refused checkpoint reaches no node. */
    method ResumeFrom(checkpoint: Checkpoint, maxRounds: nat, maxMessages: nat, cancelled: nat -> bool)
      returns (r: Result<RunResult, string>)
      modifies this`world
      ensures var call := Call(handle, old(world), maxRounds, maxMessages, cancelled);
              && r == Resume(topology, checkpoint, call)
              && world == if Resumable(topology, checkpoint, call)
                          then FinalState(checkpoint, call).world
                          else old(world)
    {
      if maxRounds == 0 {
        return Err("multi-agent max_rounds must be positive");
      }
      if maxMessages == 0 {
        return Err("multi-agent max_messages must be positive");
      }
      if checkpoint.topology != topology {
        return Err("multi-agent checkpoint topology digest mismatch");
      }
      r := ExecuteRounds(checkpoint, maxRounds, maxMessages, cancelled);
    }
  }

  /** A checkpoint of this topology whose IDs are those of its transcript, and positive limits. */
  predicate Resumable(topology: Topology, checkpoint: Checkpoint, call: Call) {
    && LimitsValid(call)
    && checkpoint.topology == topology
    && checkpoint.deliveredIds == Ids(checkpoint.delivered)
  }
}

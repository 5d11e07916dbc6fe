/**
 What every step of a run keeps, and so what holds over any chain of a run and
 its resumes: messages are unique, ordered by turn, and causally closed.

 The proofs look at one sequence, the trace: the transcript, then the rest of
 the round, then the next round's queue.  Delivering a message moves the
 boundary of the transcript along the trace; the only change to the trace
 itself is that accepted outputs are appended.
 */
module CoordinatorSafety {
  import opened Outcomes
  import opened MultiAgentContracts
  import opened CoordinatorModel

  ghost function Trace(st: RunState, current: seq<Message>): seq<Message> {
    st.delivered + current + st.queue
  }

  // ---- Invariants -------------------------------------------------------

  /** Every message of the trace is unique and of this conversation, and the two ID sets say
      exactly what has been delivered and what has ever been queued. */
  ghost predicate Consistent(env: Env, st: RunState, current: seq<Message>) {
    && DistinctIds(Trace(st, current))
    && InConversation(Trace(st, current), env.conversation)
    && st.seen == IdSet(st.delivered)
    && st.scheduled == IdSet(Trace(st, current))
  }

  /** Turns never decrease, and from position `from` on they span at most two adjacent turns. */
  ghost predicate BreadthFirst(trace: seq<Message>, from: nat) {
    && (forall i, j :: 0 <= i <= j < |trace| ==> trace[i].turn <= trace[j].turn)
    && (forall i, j :: from <= i < |trace| && from <= j < |trace| ==> trace[i].turn <= trace[j].turn + 1)
  }

  /** Message `i` answers the earlier message `j`: it names it, follows it by one turn, and was
      sent by the node that received it. */
  ghost predicate CausedBy(trace: seq<Message>, i: nat, j: nat)
    requires i < |trace|
  {
    && j < i
    && trace[j].id in trace[i].parents
    && trace[i].turn == trace[j].turn + 1
    && trace[i].sender == trace[j].recipient
  }

  ghost predicate HasCause(trace: seq<Message>, delivered: nat, i: nat)
    requires i < |trace|
  {
    exists j: nat :: j < delivered && CausedBy(trace, i, j)
  }

  /** Every message after turn zero was caused by one of the first `delivered` messages. */
  ghost predicate CausallyClosed(trace: seq<Message>, delivered: nat) {
    forall i {:trigger HasCause(trace, delivered, i)} ::
      0 <= i < |trace| && trace[i].turn > 0 ==> HasCause(trace, delivered, i)
  }

  ghost predicate Permitted(topology: Topology, trace: seq<Message>) {
    && topology.Valid()
    && forall i :: 0 <= i < |trace| ==> topology.CanSend(trace[i].sender, trace[i].recipient)
  }

  /** `from` is where the two-turn window starts, `delivered` where the transcript ends. */
  ghost predicate Lawful(topology: Topology, trace: seq<Message>, from: nat, delivered: nat) {
    BreadthFirst(trace, from) && CausallyClosed(trace, delivered) && Permitted(topology, trace)
  }

  /** Duplicates are only ever found when an output is offered, never at delivery. */
  ghost predicate NoRedelivery(receipts: seq<Receipt>) {
    forall i :: 0 <= i < |receipts| && receipts[i].status == Duplicate ==> receipts[i].detail == ALREADY_SCHEDULED
  }

  // ---- One output -------------------------------------------------------

  lemma {:induction false} IdSetAppend(messages: seq<Message>, m: Message)
    ensures IdSet(messages + [m]) == IdSet(messages) + {m.id}
  {
    var both := messages + [m];
    assert both[|messages|] == m;
    forall k | k in IdSet(messages) ensures k in IdSet(both) {
      var x :| x in messages && x.id == k;
      assert x in both;
    }
  }

  lemma {:induction false} AppendConsistent(env: Env, trace: seq<Message>, m: Message)
    requires DistinctIds(trace) && InConversation(trace, env.conversation)
    requires m.id !in IdSet(trace) && m.conversation == env.conversation
    ensures DistinctIds(trace + [m]) && InConversation(trace + [m], env.conversation)
  {
    forall i | 0 <= i < |trace| ensures trace[i].id != m.id {
      assert trace[i] in trace;
    }
  }

  lemma {:induction false} AppendOrdered(trace: seq<Message>, from: nat, m: Message)
    requires from < |trace| && BreadthFirst(trace, from) && m.turn == trace[from].turn + 1
    ensures BreadthFirst(trace + [m], from)
  {
    forall i | from <= i < |trace| ensures trace[from].turn <= trace[i].turn <= m.turn {}
  }

  lemma {:induction false} StillCaused(trace: seq<Message>, delivered: nat, m: Message, i: nat)
    requires i < |trace| && HasCause(trace, delivered, i)
    ensures HasCause(trace + [m], delivered, i)
  {
    var j: nat :| j < delivered && CausedBy(trace, i, j);
    assert CausedBy(trace + [m], i, j);
  }

  lemma {:induction false} AppendCaused(trace: seq<Message>, from: nat, m: Message)
    requires from < |trace| && CausallyClosed(trace, from + 1)
    requires m.turn == trace[from].turn + 1 && trace[from].id in m.parents && m.sender == trace[from].recipient
    ensures CausallyClosed(trace + [m], from + 1)
  {
    var longer := trace + [m];
    forall i | 0 <= i < |longer| && longer[i].turn > 0 ensures HasCause(longer, from + 1, i) {
      if i == |trace| {
        assert CausedBy(longer, i, from);
      } else {
        assert HasCause(trace, from + 1, i);
        StillCaused(trace, from + 1, m, i);
      }
    }
  }

  /** Appending an answer to the message at `from`, the last delivered one, keeps the laws. */
  lemma {:induction false} AppendLawful(topology: Topology, trace: seq<Message>, from: nat, m: Message)
    requires from < |trace| && Lawful(topology, trace, from, from + 1)
    requires m.turn == trace[from].turn + 1 && trace[from].id in m.parents && m.sender == trace[from].recipient
    requires topology.CanSend(m.sender, m.recipient)
    ensures Lawful(topology, trace + [m], from, from + 1)
  {
    AppendOrdered(trace, from, m);
    AppendCaused(trace, from, m);
  }

  function Accept(output: Message, st: RunState): RunState {
    st.(scheduled := st.scheduled + {output.id}, queue := st.queue + [output])
  }

  lemma {:induction false} AcceptKeeps(env: Env, parent: Message, output: Message, st: RunState, rest: seq<Message>)
    requires OutputError(env, parent, output).None? && output.id !in st.scheduled
    requires Consistent(env, st, rest)
    requires st.delivered != [] && parent == st.delivered[|st.delivered| - 1]
    ensures Consistent(env, Accept(output, st), rest)
    ensures Lawful(env.topology, Trace(st, rest), |st.delivered| - 1, |st.delivered|) ==>
              Lawful(env.topology, Trace(Accept(output, st), rest), |st.delivered| - 1, |st.delivered|)
  {
    var trace := Trace(st, rest);
    assert Trace(Accept(output, st), rest) == trace + [output];
    IdSetAppend(trace, output);
    AppendConsistent(env, trace, output);
    if Lawful(env.topology, trace, |st.delivered| - 1, |st.delivered|) {
      AppendLawful(env.topology, trace, |st.delivered| - 1, output);
    }
  }

  lemma {:induction false} OfferIsAccept(env: Env, parent: Message, output: Message, st: RunState)
    requires OutputError(env, parent, output).None?
    ensures var next := Offer(env, parent, output, st);
            || (output.id !in st.scheduled && next == Accept(output, st))
            || (next == st.(receipts := next.receipts)
                && (NoRedelivery(st.receipts) ==> NoRedelivery(next.receipts)))
  {
  }

  lemma {:induction false} OfferKeeps(env: Env, parent: Message, output: Message, st: RunState, rest: seq<Message>)
    requires OutputError(env, parent, output).None?
    requires Consistent(env, st, rest)
    requires st.delivered != [] && parent == st.delivered[|st.delivered| - 1]
    ensures Consistent(env, Offer(env, parent, output, st), rest)
    ensures Offer(env, parent, output, st).delivered == st.delivered
    ensures NoRedelivery(st.receipts) ==> NoRedelivery(Offer(env, parent, output, st).receipts)
    ensures Lawful(env.topology, Trace(st, rest), |st.delivered| - 1, |st.delivered|) ==>
              Lawful(env.topology, Trace(Offer(env, parent, output, st), rest), |st.delivered| - 1, |st.delivered|)
  {
    OfferIsAccept(env, parent, output, st);
    if output.id !in st.scheduled { AcceptKeeps(env, parent, output, st, rest); }
  }

  lemma {:induction false} OfferAllKeeps(
    env: Env, parent: Message, outputs: seq<Message>, st: RunState, rest: seq<Message>)
    requires Consistent(env, st, rest)
    requires st.delivered != [] && parent == st.delivered[|st.delivered| - 1]
    requires NoRedelivery(st.receipts)
    ensures Consistent(env, OfferAll(env, parent, outputs, st), rest)
    ensures OfferAll(env, parent, outputs, st).delivered == st.delivered
    ensures NoRedelivery(OfferAll(env, parent, outputs, st).receipts)
    ensures Lawful(env.topology, Trace(st, rest), |st.delivered| - 1, |st.delivered|) ==>
              Lawful(env.topology, Trace(OfferAll(env, parent, outputs, st), rest), |st.delivered| - 1, |st.delivered|)
    decreases |outputs|
  {
    if outputs != [] && OutputError(env, parent, outputs[0]).None? {
      OfferKeeps(env, parent, outputs[0], st, rest);
      OfferAllKeeps(env, parent, outputs[1..], Offer(env, parent, outputs[0], st), rest);
    }
  }

  // ---- One message ------------------------------------------------------

  lemma NotYetSeen(env: Env, m: Message, st: RunState, rest: seq<Message>)
    requires Consistent(env, st, [m] + rest)
    ensures m.id !in st.seen && m.conversation == env.conversation
  {
    var trace := Trace(st, [m] + rest);
    assert trace[|st.delivered|] == m;
    forall i | 0 <= i < |st.delivered| ensures st.delivered[i].id != m.id {
      assert trace[i] == st.delivered[i];
    }
  }

  /** Recording `m` as delivered moves the transcript's end past it and changes nothing else. */
  lemma MarkDelivered(env: Env, m: Message, st: RunState, rest: seq<Message>)
    requires Consistent(env, st, [m] + rest)
    ensures Consistent(env, Handled(env, m, st).0, rest)
    ensures Trace(Handled(env, m, st).0, rest) == Trace(st, [m] + rest)
  {
    assert Trace(Handled(env, m, st).0, rest) == Trace(st, [m] + rest);
    IdSetAppend(st.delivered, m);
  }

  /** The transcript may grow by one, and then the window may follow it. */
  lemma {:induction false} AdvanceLawful(topology: Topology, trace: seq<Message>, n: nat)
    requires BreadthFirst(trace, n) && CausallyClosed(trace, n)
    ensures CausallyClosed(trace, n + 1) && BreadthFirst(trace, n + 1)
  {
    forall i | 0 <= i < |trace| && trace[i].turn > 0 ensures HasCause(trace, n + 1, i) {
      assert HasCause(trace, n, i);
      var j: nat :| j < n && CausedBy(trace, i, j);
      assert j < n + 1;
    }
  }

  /** A lawful message is deliverable: the delivery-time check can only refuse foreign checkpoints. */
  lemma {:induction false} LawfulIsDeliverable(env: Env, m: Message, st: RunState, rest: seq<Message>)
    requires Consistent(env, st, [m] + rest)
    requires Permitted(env.topology, Trace(st, [m] + rest))
    ensures DeliveryError(env, m).None?
  {
    assert Trace(st, [m] + rest)[|st.delivered|] == m;
  }

  /** Receipts, the status and the error play no part in the trace or the ID sets. */
  lemma {:induction false} OnlyReceipts(env: Env, st: RunState, next: RunState, rest: seq<Message>)
    requires next == st.(receipts := next.receipts, status := next.status, error := next.error)
    requires Consistent(env, st, rest)
    ensures Trace(next, rest) == Trace(st, rest) && Consistent(env, next, rest)
  {
  }

  lemma {:induction false} DeliverConsistent(env: Env, m: Message, st: RunState, rest: seq<Message>)
    requires Consistent(env, st, [m] + rest) && NoRedelivery(st.receipts)
    requires DeliveryError(env, m).None?
    ensures Consistent(env, Deliver(env, m, st), rest)
    ensures Deliver(env, m, st).delivered == st.delivered + [m]
    ensures NoRedelivery(Deliver(env, m, st).receipts)
    ensures Lawful(env.topology, Trace(st, [m] + rest), |st.delivered|, |st.delivered| + 1) ==>
              Lawful(env.topology, Trace(Deliver(env, m, st), rest), |st.delivered|, |st.delivered| + 1)
  {
    NotYetSeen(env, m, st, rest);
    MarkDelivered(env, m, st, rest);
    var (handled, outcome) := Handled(env, m, st);
    if outcome.Outputs? {
      var next := Acknowledge(m, handled);
      OnlyReceipts(env, handled, next, rest);
      OfferAllKeeps(env, m, outcome.messages, next, rest);
    } else {
      OnlyReceipts(env, handled, Deliver(env, m, st), rest);
    }
  }

  lemma {:induction false} DeliverLawful(env: Env, m: Message, st: RunState, rest: seq<Message>)
    requires Consistent(env, st, [m] + rest) && NoRedelivery(st.receipts)
    requires Lawful(env.topology, Trace(st, [m] + rest), |st.delivered|, |st.delivered|)
    ensures DeliveryError(env, m).None?
    ensures Lawful(env.topology, Trace(Deliver(env, m, st), rest), |st.delivered| + 1, |st.delivered| + 1)
  {
    LawfulIsDeliverable(env, m, st, rest);
    AdvanceLawful(env.topology, Trace(st, [m] + rest), |st.delivered|);
    DeliverConsistent(env, m, st, rest);
  }

  // ---- Rounds -----------------------------------------------------------

  /** What a finished call guarantees whatever checkpoint it started from. */
  ghost predicate Settled(env: Env, st: RunState) {
    && DistinctIds(st.delivered + st.queue)
    && InConversation(st.delivered + st.queue, env.conversation)
    && NoRedelivery(st.receipts)
    && (st.status == Failed ==> st.error.Some? && st.error.value != "")
    && st.status != MaxRounds
  }

  ghost predicate LawfulState(env: Env, st: RunState) {
    Lawful(env.topology, st.delivered + st.queue, |st.delivered|, |st.delivered|)
  }

  lemma FailedRoundSettles(env: Env, m: Message, st: RunState, rest: seq<Message>)
    requires st.status == Completed && Consistent(env, st, [m] + rest) && NoRedelivery(st.receipts)
    requires Deliver(env, m, st).status == Failed
    ensures var next := Deliver(env, m, st);
            Settled(env, next.(queue := rest + next.queue)) && st.delivered <= next.delivered
  {
    var next := Deliver(env, m, st);
    DeliverFails(env, m, st);
    NotYetSeen(env, m, st, rest);
    assert next.delivered + rest + next.queue == next.delivered + (rest + next.queue);
    if DeliveryError(env, m).None? {
      DeliverConsistent(env, m, st, rest);
    } else {
      // The refused message is dropped: what is left is the trace without it.
      var n, trace := |st.delivered|, Trace(st, [m] + rest);
      var left := next.delivered + (rest + next.queue);
      assert forall i :: 0 <= i < |left| ==> left[i] == trace[if i < n then i else i + 1];
    }
  }

  lemma {:induction false} RunRoundSettles(env: Env, st: RunState, current: seq<Message>, maxMessages: nat)
    requires st.status == Completed && Consistent(env, st, current) && NoRedelivery(st.receipts)
    ensures Settled(env, RunRound(env, st, current, maxMessages))
    ensures RunRound(env, st, current, maxMessages).status == Completed ==>
              Consistent(env, RunRound(env, st, current, maxMessages), [])
    ensures RunRound(env, st, current, maxMessages).status != Cancelled
    ensures st.delivered <= RunRound(env, st, current, maxMessages).delivered
    decreases |current|
  {
    if current == [] {
      assert st.delivered + current + st.queue == st.delivered + st.queue;
    } else if |st.delivered| >= maxMessages {
      assert st.delivered + current + st.queue == st.delivered + (current + st.queue);
    } else {
      var m, rest := current[0], current[1..];
      assert current == [m] + rest;
      if Deliver(env, m, st).status == Failed {
        FailedRoundSettles(env, m, st, rest);
      } else {
        NextMessage(env, m, st, rest);
        RunRoundSettles(env, Deliver(env, m, st), rest, maxMessages);
      }
    }
  }

  /** A delivery that does not fail leaves a consistent state for the rest of the round. */
  lemma NextMessage(env: Env, m: Message, st: RunState, rest: seq<Message>)
    requires st.status == Completed && Consistent(env, st, [m] + rest) && NoRedelivery(st.receipts)
    requires Deliver(env, m, st).status != Failed
    ensures var next := Deliver(env, m, st);
            next.status == Completed && Consistent(env, next, rest) && NoRedelivery(next.receipts)
    ensures Deliver(env, m, st).delivered == st.delivered + [m]
  {
    DeliverFails(env, m, st);
    NotYetSeen(env, m, st, rest);
    DeliverConsistent(env, m, st, rest);
  }

  /** Putting the rest of a round back in front of the queue keeps the trace. */
  lemma PutBack(delivered: seq<Message>, rest: seq<Message>, queue: seq<Message>)
    ensures delivered + (rest + queue) == delivered + rest + queue
  {
  }

  /** What the loop of a round keeps between two messages. */
  ghost predicate LawfulRound(env: Env, st: RunState, current: seq<Message>) {
    && st.status == Completed && Consistent(env, st, current) && NoRedelivery(st.receipts)
    && Lawful(env.topology, Trace(st, current), |st.delivered|, |st.delivered|)
  }

  lemma {:induction false} NextLawful(env: Env, st: RunState, current: seq<Message>)
    requires LawfulRound(env, st, current) && current != []
    ensures var next := Deliver(env, current[0], st);
            && Lawful(env.topology, Trace(next, current[1..]), |next.delivered|, |next.delivered|)
            && (next.status != Failed ==> LawfulRound(env, next, current[1..]))
  {
    var m, rest := current[0], current[1..];
    assert current == [m] + rest;
    DeliverLawful(env, m, st, rest);
    DeliverConsistent(env, m, st, rest);
    if Deliver(env, m, st).status != Failed { NextMessage(env, m, st, rest); }
  }

  lemma {:induction false} RunRoundLawful(env: Env, st: RunState, current: seq<Message>, maxMessages: nat)
    requires LawfulRound(env, st, current)
    ensures LawfulState(env, RunRound(env, st, current, maxMessages))
    decreases |current|
  {
    if current == [] {
      assert Trace(st, current) == st.delivered + st.queue;
    } else if |st.delivered| >= maxMessages {
      PutBack(st.delivered, current, st.queue);
    } else {
      var next := Deliver(env, current[0], st);
      NextLawful(env, st, current);
      if next.status == Failed {
        PutBack(next.delivered, current[1..], next.queue);
      } else {
        RunRoundLawful(env, next, current[1..], maxMessages);
      }
    }
  }

  lemma {:induction false} RunRoundsSettle(
    env: Env, st: RunState, maxRounds: nat, maxMessages: nat, cancelled: nat -> bool)
    requires st.status == Completed && Consistent(env, st, []) && NoRedelivery(st.receipts)
    ensures Settled(env, RunRounds(env, st, maxRounds, maxMessages, cancelled))
    ensures RunRounds(env, st, maxRounds, maxMessages, cancelled).status in {Completed, Cancelled} ==>
              Consistent(env, RunRounds(env, st, maxRounds, maxMessages, cancelled), [])
    ensures st.delivered <= RunRounds(env, st, maxRounds, maxMessages, cancelled).delivered
    ensures LawfulState(env, st) ==> LawfulState(env, RunRounds(env, st, maxRounds, maxMessages, cancelled))
    decreases if maxRounds >= st.rounds then maxRounds - st.rounds else 0
  {
    assert Trace(st, []) == st.delivered + st.queue;
    if st.queue == [] || st.rounds >= maxRounds || cancelled(st.rounds) {
    } else {
      assert Trace(OpenRound(st), st.queue) == Trace(st, []);
      var next := RunRound(env, OpenRound(st), st.queue, maxMessages);
      RunRoundSettles(env, OpenRound(st), st.queue, maxMessages);
      if LawfulState(env, st) {
        RunRoundLawful(env, OpenRound(st), st.queue, maxMessages);
      }
      if next.status == Completed {
        RunRoundsSettle(env, next, maxRounds, maxMessages, cancelled);
      }
    }
  }

  // ---- Calls and chains of calls ----------------------------------------

  ghost predicate LawfulCheckpoint(checkpoint: Checkpoint) {
    && checkpoint.Valid()
    && Lawful(checkpoint.topology, checkpoint.delivered + checkpoint.pending,
              |checkpoint.delivered|, |checkpoint.delivered|)
  }

  lemma StartConsistent(checkpoint: Checkpoint, call: Call)
    requires checkpoint.Valid()
    ensures Consistent(EnvOf(checkpoint, call), Start(checkpoint, call.world), [])
  {
    var st := Start(checkpoint, call.world);
    assert Trace(st, []) == checkpoint.delivered + checkpoint.pending;
    assert st.seen == IdSet(checkpoint.delivered) by {
      forall id ensures id in st.seen <==> id in IdSet(checkpoint.delivered) {
        if id in st.seen {
          var i :| 0 <= i < |checkpoint.deliveredIds| && checkpoint.deliveredIds[i] == id;
          assert checkpoint.delivered[i] in checkpoint.delivered;
        }
        if id in IdSet(checkpoint.delivered) {
          var m :| m in checkpoint.delivered && m.id == id;
          var i :| 0 <= i < |checkpoint.delivered| && checkpoint.delivered[i] == m;
          assert checkpoint.deliveredIds[i] == id;
        }
      }
    }
  }

  lemma FinishSucceeds(env: Env, st: RunState)
    requires Settled(env, st)
    ensures Finish(env, st).Ok?
    ensures Finish(env, st).value.Valid() && CheckpointOf(env, st).Valid()
    ensures LawfulState(env, st) ==> LawfulCheckpoint(CheckpointOf(env, st))
  {
    var both := st.delivered + st.queue;
    assert forall i :: 0 <= i < |st.delivered| ==> both[i] == st.delivered[i];
    assert forall i :: 0 <= i < |st.queue| ==> both[|st.delivered| + i] == st.queue[i];
  }

  /** A call started from any valid checkpoint succeeds: neither constructor at its end can refuse.
      It only extends the transcript, never finds a duplicate at delivery, and keeps the laws. */
  lemma {:induction false} ExecuteKeeps(checkpoint: Checkpoint, call: Call)
    requires checkpoint.Valid()
    ensures Execute(checkpoint, call).Ok?
    ensures var r := Execute(checkpoint, call).value;
            && r.Valid() && r.checkpoint.Valid()
            && r.checkpoint.topology == checkpoint.topology
            && r.messages == r.checkpoint.delivered
            && checkpoint.delivered <= r.messages
            && NoRedelivery(r.receipts)
            && (r.terminated <==> r.checkpoint.pending == [])
    ensures Execute(checkpoint, call).value == ResultOf(EnvOf(checkpoint, call), FinalState(checkpoint, call))
    ensures LawfulCheckpoint(checkpoint) ==> LawfulCheckpoint(Execute(checkpoint, call).value.checkpoint)
  {
    var env, start := EnvOf(checkpoint, call), Start(checkpoint, call.world);
    StartConsistent(checkpoint, call);
    RunRoundsSettle(env, start, call.maxRounds, call.maxMessages, call.cancelled);
    FinishSucceeds(env, FinalState(checkpoint, call));
  }

  /** The checkpoint a run of `calls` ends in, each call resuming where the one before stopped. */
  function RunChain(topology: Topology, checkpoint: Checkpoint, calls: seq<Call>): Result<Checkpoint, string>
    decreases |calls|
  {
    if calls == [] then Ok(checkpoint) else
      match Resume(topology, checkpoint, calls[0])
      case Err(error) => Err(error)
      case Ok(r) => RunChain(topology, r.checkpoint, calls[1..])
  }

  lemma {:induction false} FreshIsLawful(topology: Topology, initials: seq<Message>)
    requires topology.Valid() && ValidInitials(topology, initials)
    ensures LawfulCheckpoint(Fresh(topology, initials))
  {
    assert [] + initials == initials;
  }

  lemma {:induction false} ChainKeeps(topology: Topology, checkpoint: Checkpoint, calls: seq<Call>)
    requires checkpoint.topology == topology && LawfulCheckpoint(checkpoint)
    requires forall i :: 0 <= i < |calls| ==> LimitsValid(calls[i])
    ensures RunChain(topology, checkpoint, calls).Ok?
    ensures LawfulCheckpoint(RunChain(topology, checkpoint, calls).value)
    ensures RunChain(topology, checkpoint, calls).value.topology == topology
    ensures checkpoint.delivered <= RunChain(topology, checkpoint, calls).value.delivered
    decreases |calls|
  {
    if calls != [] {
      ExecuteKeeps(checkpoint, calls[0]);
      ChainKeeps(topology, Execute(checkpoint, calls[0]).value.checkpoint, calls[1..]);
    }
  }

  /** A fresh run and any resumes after it, each with its own limits, cancellations and nodes,
      leave a valid checkpoint whose transcript and pending messages obey all the laws. */
  lemma {:induction false} RunsAreLawful(topology: Topology, initials: seq<Message>, first: Call, resumes: seq<Call>)
    requires topology.Valid() && ValidInitials(topology, initials) && LimitsValid(first)
    requires forall i :: 0 <= i < |resumes| ==> LimitsValid(resumes[i])
    ensures RunMany(topology, initials, first).Ok?
    ensures RunChain(topology, RunMany(topology, initials, first).value.checkpoint, resumes).Ok?
    ensures LawfulCheckpoint(RunChain(topology, RunMany(topology, initials, first).value.checkpoint, resumes).value)
  {
    FreshIsLawful(topology, initials);
    ExecuteKeeps(Fresh(topology, initials), first);
    ChainKeeps(topology, RunMany(topology, initials, first).value.checkpoint, resumes);
  }

  // ---- Causal chains ----------------------------------------------------

  /** Positions of messages, each caused by the one before, starting at a turn-zero message. */
  ghost predicate HopChain(trace: seq<Message>, path: seq<nat>) {
    && path != []
    && (forall k :: 0 <= k < |path| ==> path[k] < |trace|)
    && trace[path[0]].turn == 0
    && (forall k :: 0 < k < |path| ==> CausedBy(trace, path[k], path[k - 1]))
  }

  lemma {:induction false} ExtendChain(trace: seq<Message>, path: seq<nat>, i: nat)
    requires HopChain(trace, path) && i < |trace| && CausedBy(trace, i, path[|path| - 1])
    ensures HopChain(trace, path + [i])
  {
    var longer := path + [i];
    forall k | 0 < k < |longer| ensures CausedBy(trace, longer[k], longer[k - 1]) {
      if k < |path| { assert CausedBy(trace, path[k], path[k - 1]); }
    }
  }

  lemma {:induction false} ChainToRoot(trace: seq<Message>, delivered: nat, i: nat) returns (path: seq<nat>)
    requires CausallyClosed(trace, delivered) && i < |trace|
    ensures HopChain(trace, path) && |path| == trace[i].turn + 1 && path[|path| - 1] == i
    ensures forall k :: 0 <= k < |path| - 1 ==> path[k] < delivered
    decreases trace[i].turn
  {
    if trace[i].turn == 0 {
      path := [i];
    } else {
      assert HasCause(trace, delivered, i);
      var j: nat :| j < delivered && CausedBy(trace, i, j);
      var shorter := ChainToRoot(trace, delivered, j);
      ExtendChain(trace, shorter, i);
      path := shorter + [i];
    }
  }

  /** Every message of turn t is the end of a causal chain of exactly t hops, over permitted
      edges, all of whose earlier messages have been delivered. */
  lemma {:induction false} EveryMessageHasARoot(
    topology: Topology, trace: seq<Message>, from: nat, delivered: nat, i: nat)
    returns (path: seq<nat>)
    requires Lawful(topology, trace, from, delivered) && i < |trace|
    ensures HopChain(trace, path) && |path| == trace[i].turn + 1 && path[|path| - 1] == i
    ensures forall k :: 0 <= k < |path| - 1 ==> path[k] < delivered
    ensures forall k :: 0 <= k < |path| ==> topology.CanSend(trace[path[k]].sender, trace[path[k]].recipient)
  {
    path := ChainToRoot(trace, delivered, i);
  }
}

/** What becomes of every output, the limits a call respects, and why it stops. */
module CoordinatorAccounting {
  import opened Outcomes
  import opened MultiAgentContracts
  import opened CoordinatorModel
  import opened CoordinatorSafety
  import opened CoordinatorResume
  import opened CoordinatorConservation
  import opened Sequences

  // ---- The fate of each output ------------------------------------------

  datatype Fate = Accepted | TurnedAway(status: DeliveryStatus, detail: string)

  /** What an output with this fate adds to the queue. */
  function Queued(output: Message, fate: Fate): seq<Message> {
    if fate.Accepted? then [output] else []
  }

  /** What an output with this fate adds to the receipts. */
  function Refusal(parent: Message, output: Message, fate: Fate): seq<Receipt> {
    match fate
    case Accepted => []
    case TurnedAway(status, detail) => [MakeReceipt(output, status, parent.turn + 1, detail)]
  }

  /** The outputs whose fate is to be accepted, in order. */
  function AcceptedOnes(outputs: seq<Message>, fates: seq<Fate>): seq<Message>
    requires |fates| <= |outputs|
  {
    if fates == [] then [] else Queued(outputs[0], fates[0]) + AcceptedOnes(outputs[1..], fates[1..])
  }

  /** The receipts of the outputs that are turned away, in order. */
  function Refusals(parent: Message, outputs: seq<Message>, fates: seq<Fate>): seq<Receipt>
    requires |fates| <= |outputs|
  {
    if fates == [] then [] else Refusal(parent, outputs[0], fates[0]) + Refusals(parent, outputs[1..], fates[1..])
  }

  /** The IDs an output with this fate adds to the scheduled ones. */
  function Scheduled(output: Message, fate: Fate): set<MessageId> {
    if fate.Accepted? then {output.id} else {}
  }

  /** An output is a duplicate exactly when its ID was scheduled before its turn, and otherwise over
      the limit exactly when its edge is already full in the next round's queue. */
  ghost predicate RightFate(env: Env, output: Message, fate: Fate, scheduled: set<MessageId>, queue: seq<Message>) {
    && env.topology.CanSend(output.sender, output.recipient)
    && (fate == TurnedAway(Duplicate, ALREADY_SCHEDULED) <==> output.id in scheduled)
    && (fate == TurnedAway(Rejected, EDGE_LIMIT) <==>
          && output.id !in scheduled
          && EdgeLoad(queue, output.sender, output.recipient)
             >= env.topology.EdgeOf(output.sender, output.recipient).maxInFlight)
  }

  /** Every output meets the right fate, counting the outputs accepted before it. */
  ghost predicate RightFates(
    env: Env, outputs: seq<Message>, fates: seq<Fate>, scheduled: set<MessageId>, queue: seq<Message>)
    requires |fates| <= |outputs|
    decreases |fates|
  {
    fates != [] ==>
      && RightFate(env, outputs[0], fates[0], scheduled, queue)
      && RightFates(env, outputs[1..], fates[1..],
                    scheduled + Scheduled(outputs[0], fates[0]), queue + Queued(outputs[0], fates[0]))
  }

  lemma RightFirst(
    env: Env, outputs: seq<Message>, fate: Fate, later: seq<Fate>, scheduled: set<MessageId>, queue: seq<Message>)
    requires |later| < |outputs| && RightFate(env, outputs[0], fate, scheduled, queue)
    requires RightFates(env, outputs[1..], later,
                        scheduled + Scheduled(outputs[0], fate), queue + Queued(outputs[0], fate))
    ensures RightFates(env, outputs, [fate] + later, scheduled, queue)
  {
    var fates := [fate] + later;
    assert fates[0] == fate && fates[1..] == later;
  }

  predicate KnownFate(fate: Fate) {
    fate in {Accepted, TurnedAway(Duplicate, ALREADY_SCHEDULED), TurnedAway(Rejected, EDGE_LIMIT)}
  }

  ghost predicate KnownFates(fates: seq<Fate>) {
    forall i :: 0 <= i < |fates| ==> KnownFate(fates[i])
  }

  /** None of the first `n` outputs is one its node must never emit. */
  ghost predicate Emittable(env: Env, parent: Message, outputs: seq<Message>, n: nat)
    requires n <= |outputs|
  {
    forall i :: 0 <= i < n ==> OutputError(env, parent, outputs[i]).None?
  }

  /** The error of output `n`, if there is such an output and it is a bad one. */
  function ErrorAt(env: Env, parent: Message, outputs: seq<Message>, n: nat): Option<string> {
    if n < |outputs| then OutputError(env, parent, outputs[n]) else None
  }

  /** How offering ends: well, or failed with an error that gets the last receipt. */
  ghost predicate Ends(parent: Message, error: Option<string>, refusals: seq<Receipt>, st: RunState, r: RunState) {
    if error.None? then r.status == st.status && r.receipts == st.receipts + refusals
    else
      && r.status == Failed && r.error == error
      && r.receipts == st.receipts + refusals + [MakeReceipt(parent, DeliveryFailed, st.rounds, error.value)]
  }

  /** `r` is what offering `outputs` in state `st` leaves when the outputs meet these fates: all of
      them, or all those before the first bad one. */
  ghost predicate Accounts(
    env: Env, parent: Message, outputs: seq<Message>, fates: seq<Fate>, st: RunState, r: RunState)
    requires |fates| <= |outputs|
  {
    && KnownFates(fates) && Emittable(env, parent, outputs, |fates|)
    && (|fates| < |outputs| ==> ErrorAt(env, parent, outputs, |fates|).Some?)
    && r.queue == st.queue + AcceptedOnes(outputs, fates)
    && Ends(parent, ErrorAt(env, parent, outputs, |fates|), Refusals(parent, outputs, fates), st, r)
  }

  lemma {:induction false} EmittableFirst(env: Env, parent: Message, outputs: seq<Message>, n: nat)
    requires n < |outputs| && OutputError(env, parent, outputs[0]).None? && Emittable(env, parent, outputs[1..], n)
    ensures Emittable(env, parent, outputs, n + 1)
    ensures ErrorAt(env, parent, outputs, n + 1) == ErrorAt(env, parent, outputs[1..], n)
  {
    forall i | 0 <= i < n + 1 ensures OutputError(env, parent, outputs[i]).None? {
      if i > 0 { assert outputs[i] == outputs[1..][i - 1]; }
    }
  }

  /** Adding the fate of the first output in front of those of the later ones. */
  lemma {:induction false} FirstFate(parent: Message, outputs: seq<Message>, fate: Fate, later: seq<Fate>)
    requires |later| < |outputs|
    ensures AcceptedOnes(outputs, [fate] + later) == Queued(outputs[0], fate) + AcceptedOnes(outputs[1..], later)
    ensures Refusals(parent, outputs, [fate] + later)
            == Refusal(parent, outputs[0], fate) + Refusals(parent, outputs[1..], later)
  {
    var fates := [fate] + later;
    assert fates[0] == fate && fates[1..] == later;
  }

  /** `next` is `st` after an output that met this fate. */
  ghost predicate Meets(parent: Message, output: Message, fate: Fate, st: RunState, next: RunState) {
    && KnownFate(fate)
    && next.queue == st.queue + Queued(output, fate)
    && next.receipts == st.receipts + Refusal(parent, output, fate)
    && next.scheduled == st.scheduled + Scheduled(output, fate)
    && next.status == st.status && next.rounds == st.rounds
  }

  lemma OfferMeets(env: Env, parent: Message, output: Message, st: RunState) returns (fate: Fate)
    requires OutputError(env, parent, output).None?
    ensures Meets(parent, output, fate, st, Offer(env, parent, output, st))
    ensures RightFate(env, output, fate, st.scheduled, st.queue)
  {
    match Disposition(env, parent, output, st) {
      case None => fate := Accepted;
      case Some(receipt) => fate := TurnedAway(receipt.status, receipt.detail);
    }
  }

  lemma {:induction false} FateOfFirst(
    env: Env, parent: Message, outputs: seq<Message>, fate: Fate, later: seq<Fate>,
    st: RunState, next: RunState, r: RunState)
    requires outputs != [] && |later| < |outputs| && OutputError(env, parent, outputs[0]).None?
    requires Meets(parent, outputs[0], fate, st, next) && Accounts(env, parent, outputs[1..], later, next, r)
    ensures Accounts(env, parent, outputs, [fate] + later, st, r)
  {
    EmittableFirst(env, parent, outputs, |later|);
    FirstFate(parent, outputs, fate, later);
    Regroup(st.queue, Queued(outputs[0], fate), AcceptedOnes(outputs[1..], later));
    Regroup(st.receipts, Refusal(parent, outputs[0], fate), Refusals(parent, outputs[1..], later));
  }

  /** Every output up to the first bad one is queued, or turned away as a duplicate or over the
      edge limit with one receipt; the bad one fails the run, and those after it are never seen. */
  lemma {:induction false} EveryOutputHasOneFate(env: Env, parent: Message, outputs: seq<Message>, st: RunState)
    returns (fates: seq<Fate>)
    ensures |fates| <= |outputs|
    ensures Accounts(env, parent, outputs, fates, st, OfferAll(env, parent, outputs, st))
    ensures RightFates(env, outputs, fates, st.scheduled, st.queue)
    ensures AcceptedOnes(outputs, fates) == TakenFrom(env, parent, outputs, st)
    decreases |outputs|
  {
    if outputs == [] || OutputError(env, parent, outputs[0]).Some? {
      fates := [];
    } else {
      var next := Offer(env, parent, outputs[0], st);
      var later := EveryOutputHasOneFate(env, parent, outputs[1..], next);
      var fate := OfferMeets(env, parent, outputs[0], st);
      fates := [fate] + later;
      RightFirst(env, outputs, fate, later, st.scheduled, st.queue);
      FateOfFirst(env, parent, outputs, fate, later, st, next, OfferAll(env, parent, outputs[1..], next));
      OfferAllTakes(env, parent, outputs, st);
      SameRest(st.queue, AcceptedOnes(outputs, fates), TakenFrom(env, parent, outputs, st));
    }
  }

  // ---- Limits -----------------------------------------------------------

  function Max(a: nat, b: nat): nat { if a >= b then a else b }

  lemma {:induction false} RoundBound(env: Env, st: RunState, current: seq<Message>, maxMessages: nat)
    ensures |RunRound(env, st, current, maxMessages).delivered| <= Max(|st.delivered|, maxMessages)
    decreases |current|
  {
    if current != [] && |st.delivered| < maxMessages {
      var next := Deliver(env, current[0], st);
      assert |next.delivered| <= |st.delivered| + 1 by {
        if current[0].id !in st.seen && DeliveryError(env, current[0]).None? { DeliverTakes(env, current[0], st); }
      }
      if next.status != Failed { RoundBound(env, next, current[1..], maxMessages); }
    }
  }

  lemma {:induction false} RunBound(env: Env, st: RunState, maxRounds: nat, maxMessages: nat, cancelled: nat -> bool)
    ensures |RunRounds(env, st, maxRounds, maxMessages, cancelled).delivered| <= Max(|st.delivered|, maxMessages)
    decreases if maxRounds >= st.rounds then maxRounds - st.rounds else 0
  {
    if st.queue == [] || st.rounds >= maxRounds || cancelled(st.rounds) {
    } else {
      var next := RunRound(env, OpenRound(st), st.queue, maxMessages);
      RoundBound(env, OpenRound(st), st.queue, maxMessages);
      if next.status == Completed { RunBound(env, next, maxRounds, maxMessages, cancelled); }
    }
  }

  /** A call exceeds neither limit, except where its checkpoint already did. */
  lemma {:induction false} CallWithinBounds(checkpoint: Checkpoint, call: Call)
    requires checkpoint.Valid()
    ensures Execute(checkpoint, call).Ok?
    ensures var r := Execute(checkpoint, call).value;
            && |r.messages| <= Max(|checkpoint.delivered|, call.maxMessages)
            && checkpoint.round <= r.rounds <= Max(checkpoint.round, call.maxRounds)
  {
    ExecuteKeeps(checkpoint, call);
    RunBound(EnvOf(checkpoint, call), Start(checkpoint, call.world), call.maxRounds, call.maxMessages, call.cancelled);
  }

  // ---- The in-flight limit ----------------------------------------------

  /** No permitted edge carries more than its limit in `queue`. */
  ghost predicate WithinLimits(topology: Topology, queue: seq<Message>) {
    forall from, to :: topology.CanSend(from, to) ==>
      EdgeLoad(queue, from, to) <= topology.EdgeOf(from, to).maxInFlight
  }

  lemma {:induction false} EdgeLoadAppend(queue: seq<Message>, m: Message, from: string, to: string)
    ensures EdgeLoad(queue + [m], from, to)
            == EdgeLoad(queue, from, to) + if m.sender == from && m.recipient == to then 1 else 0
  {
    assert (queue + [m])[..|queue + [m]| - 1] == queue;
  }

  lemma {:induction false} OfferWithinLimits(env: Env, parent: Message, output: Message, st: RunState)
    requires OutputError(env, parent, output).None? && WithinLimits(env.topology, st.queue)
    ensures WithinLimits(env.topology, Offer(env, parent, output, st).queue)
  {
    if Disposition(env, parent, output, st).None? {
      forall from, to | env.topology.CanSend(from, to)
        ensures EdgeLoad(st.queue + [output], from, to) <= env.topology.EdgeOf(from, to).maxInFlight
      {
        EdgeLoadAppend(st.queue, output, from, to);
      }
    }
  }

  lemma {:induction false} OfferAllWithinLimits(env: Env, parent: Message, outputs: seq<Message>, st: RunState)
    requires WithinLimits(env.topology, st.queue)
    ensures WithinLimits(env.topology, OfferAll(env, parent, outputs, st).queue)
    decreases |outputs|
  {
    if outputs != [] && OutputError(env, parent, outputs[0]).None? {
      OfferWithinLimits(env, parent, outputs[0], st);
      OfferAllWithinLimits(env, parent, outputs[1..], Offer(env, parent, outputs[0], st));
    }
  }

  lemma DeliverWithinLimits(env: Env, m: Message, st: RunState)
    requires WithinLimits(env.topology, st.queue)
    ensures WithinLimits(env.topology, Deliver(env, m, st).queue)
  {
    if m.id !in st.seen && DeliveryError(env, m).None? {
      var (handled, outcome) := Handled(env, m, st);
      if outcome.Outputs? {
        OfferAllWithinLimits(env, m, outcome.messages, Acknowledge(m, handled));
      }
    }
  }

  /** What one round accepts never exceeds an edge's limit: the queue it leaves is the part of the
      round it did not reach, followed by the outputs it accepted, which are within limits. */
  lemma {:induction false} RoundWithinLimits(env: Env, st: RunState, current: seq<Message>, maxMessages: nat)
    returns (reached: nat)
    requires st.status == Completed && WithinLimits(env.topology, st.queue)
    ensures reached <= |current|
    ensures WithinLimits(env.topology, st.queue + TakenInRound(env, st, current, maxMessages))
    ensures RunRound(env, st, current, maxMessages).queue
            == current[reached..] + (st.queue + TakenInRound(env, st, current, maxMessages))
    ensures RunRound(env, st, current, maxMessages).status == Completed ==> reached == |current|
    decreases |current|
  {
    if current == [] || |st.delivered| >= maxMessages {
      reached := 0;
      assert st.queue + [] == st.queue;
    } else {
      var next, taken := Deliver(env, current[0], st), TakenAt(env, current[0], st);
      DeliverWithinLimits(env, current[0], st);
      DeliverFails(env, current[0], st);
      DeliverQueues(env, current[0], st);
      if next.status == Failed {
        reached := 1;
        assert taken + [] == taken;
      } else {
        var later := RoundWithinLimits(env, next, current[1..], maxMessages);
        reached := later + 1;
        DropMore(current, 1, later);
        Regroup(st.queue, taken, TakenInRound(env, next, current[1..], maxMessages));
      }
    }
  }

  /** Every delivery, refused or not, appends exactly what it accepts to the queue. */
  lemma {:induction false} DeliverQueues(env: Env, m: Message, st: RunState)
    ensures Deliver(env, m, st).queue == st.queue + TakenAt(env, m, st)
  {
    if m.id !in st.seen && DeliveryError(env, m).None? {
      DeliverTakes(env, m, st);
    } else {
      assert st.queue + [] == st.queue;
    }
  }

  // ---- Why a call stops --------------------------------------------------

  /** A failed run's last receipt is the failed delivery, with the reported error. */
  ghost predicate EndsInFailure(st: RunState) {
    && st.error.Some? && st.receipts != []
    && var last := st.receipts[|st.receipts| - 1];
       last.status == DeliveryFailed && last.round == st.rounds && last.detail == st.error.value
  }

  lemma {:induction false} OfferAllFailure(env: Env, parent: Message, outputs: seq<Message>, st: RunState)
    requires st.status == Completed
    ensures var r := OfferAll(env, parent, outputs, st);
            r.status == Completed || (r.status == Failed && EndsInFailure(r))
    decreases |outputs|
  {
    if outputs != [] && OutputError(env, parent, outputs[0]).None? {
      OfferAllFailure(env, parent, outputs[1..], Offer(env, parent, outputs[0], st));
    }
  }

  lemma {:induction false} DeliverFailure(env: Env, m: Message, st: RunState)
    requires st.status == Completed
    ensures var r := Deliver(env, m, st); r.status == Completed || (r.status == Failed && EndsInFailure(r))
  {
    if m.id !in st.seen && DeliveryError(env, m).None? {
      var (handled, outcome) := Handled(env, m, st);
      if outcome.Outputs? { OfferAllFailure(env, m, outcome.messages, Acknowledge(m, handled)); }
    }
  }

  lemma {:induction false} RoundStops(env: Env, st: RunState, current: seq<Message>, maxMessages: nat)
    requires st.status == Completed
    ensures var r := RunRound(env, st, current, maxMessages);
            && (r.status == Failed ==> EndsInFailure(r))
            && (r.status == MaxMessages ==> |r.delivered| >= maxMessages && r.queue != [])
    decreases |current|
  {
    if current != [] && |st.delivered| < maxMessages {
      var next := Deliver(env, current[0], st);
      DeliverFailure(env, current[0], st);
      if next.status != Failed { RoundStops(env, next, current[1..], maxMessages); }
    }
  }

  /** What each status of the round loop means; a run cut by the round limit still reads as completed. */
  ghost predicate StopsFor(st: RunState, maxRounds: nat, maxMessages: nat, cancelled: nat -> bool) {
    match st.status
    case Completed => st.queue == [] || st.rounds >= maxRounds
    case MaxMessages => st.queue != [] && |st.delivered| >= maxMessages
    case Cancelled => st.queue != [] && st.rounds < maxRounds && cancelled(st.rounds)
    case Failed => EndsInFailure(st)
    case MaxRounds => false
  }

  lemma {:induction false} RunStops(env: Env, st: RunState, maxRounds: nat, maxMessages: nat, cancelled: nat -> bool)
    requires st.status == Completed
    ensures StopsFor(RunRounds(env, st, maxRounds, maxMessages, cancelled), maxRounds, maxMessages, cancelled)
    decreases if maxRounds >= st.rounds then maxRounds - st.rounds else 0
  {
    if st.queue == [] || st.rounds >= maxRounds || cancelled(st.rounds) {
    } else {
      var next := RunRound(env, OpenRound(st), st.queue, maxMessages);
      RoundStops(env, OpenRound(st), st.queue, maxMessages);
      RoundEnds(env, OpenRound(st), st.queue, maxMessages);
      if next.status == Completed { RunStops(env, next, maxRounds, maxMessages, cancelled); }
    }
  }

  /** The reported status says why the call stopped, and work is only left over when it gives a reason. */
  lemma {:induction false} StatusTellsWhy(checkpoint: Checkpoint, call: Call)
    requires checkpoint.Valid()
    ensures Execute(checkpoint, call).Ok?
    ensures TellsWhy(Execute(checkpoint, call).value, call)
  {
    ExecuteKeeps(checkpoint, call);
    RunStops(EnvOf(checkpoint, call), Start(checkpoint, call.world), call.maxRounds, call.maxMessages, call.cancelled);
    StopIsTold(EnvOf(checkpoint, call), FinalState(checkpoint, call), call);
  }

  ghost predicate TellsWhy(r: RunResult, call: Call) {
    match r.status
    case Completed => r.checkpoint.pending == []
    case MaxRounds => r.checkpoint.pending != [] && r.rounds >= call.maxRounds
    case MaxMessages => r.checkpoint.pending != [] && |r.messages| >= call.maxMessages
    case Cancelled => r.checkpoint.pending != [] && r.rounds < call.maxRounds && call.cancelled(r.rounds)
    case Failed => r.receipts != [] && r.receipts[|r.receipts| - 1].status == DeliveryFailed
                   && r.error == Some(r.receipts[|r.receipts| - 1].detail)
  }

  lemma {:induction false} StopIsTold(env: Env, st: RunState, call: Call)
    requires StopsFor(st, call.maxRounds, call.maxMessages, call.cancelled)
    ensures TellsWhy(ResultOf(env, st), call)
  {
  }
}

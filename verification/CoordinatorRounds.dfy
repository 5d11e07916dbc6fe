/** Rounds and turns: a run delivers the messages of turn r - 1 in its round r, and no others. */
module CoordinatorRounds {
  import opened MultiAgentContracts
  import opened CoordinatorModel
  import opened CoordinatorResume

  ghost predicate AllTurn(messages: seq<Message>, turn: int) {
    forall i :: 0 <= i < |messages| ==> messages[i].turn == turn
  }

  /** `rc` acknowledges `m`, in the round after its turn. */
  ghost predicate Acknowledges(rc: Receipt, m: Message) {
    rc.messageId == m.id && rc.round == m.turn + 1
  }

  ghost predicate DeliveredOnTime(base: nat, delivered: seq<Message>, rc: Receipt) {
    exists k :: base <= k < |delivered| && Acknowledges(rc, delivered[k])
  }

  ghost predicate AnsweredOnTime(receipts: seq<Receipt>, m: Message) {
    exists rc :: rc in receipts && rc.status in {Delivered, DeliveryFailed} && Acknowledges(rc, m)
  }

  /** Since the transcript had `base` messages, every delivery receipt acknowledges one delivered
      message, and every delivered message has a receipt: of its delivery, or of its failure. */
  ghost predicate OnTime(base: nat, st: RunState) {
    && (forall rc :: rc in st.receipts && rc.status == Delivered ==> DeliveredOnTime(base, st.delivered, rc))
    && (forall k :: base <= k < |st.delivered| ==> AnsweredOnTime(st.receipts, st.delivered[k]))
  }

  lemma {:induction false} MoreReceipts(base: nat, st: RunState, rc: Receipt)
    requires OnTime(base, st) && rc.status != Delivered
    ensures OnTime(base, st.(receipts := st.receipts + [rc]))
  {
    forall k | base <= k < |st.delivered| ensures AnsweredOnTime(st.receipts + [rc], st.delivered[k]) {
      StillAnswered(st.receipts, rc, st.delivered[k]);
    }
  }

  lemma {:induction false} StillAnswered(receipts: seq<Receipt>, rc: Receipt, m: Message)
    requires AnsweredOnTime(receipts, m)
    ensures AnsweredOnTime(receipts + [rc], m)
  {
    var earlier :| earlier in receipts && earlier.status in {Delivered, DeliveryFailed} && Acknowledges(earlier, m);
    assert earlier in receipts + [rc];
  }

  lemma {:induction false} OfferAllOnTime(base: nat, env: Env, parent: Message, outputs: seq<Message>, st: RunState)
    requires OnTime(base, st) && AllTurn(st.queue, parent.turn + 1)
    ensures OnTime(base, OfferAll(env, parent, outputs, st))
    ensures AllTurn(OfferAll(env, parent, outputs, st).queue, parent.turn + 1)
    decreases |outputs|
  {
    if outputs != [] {
      match OutputError(env, parent, outputs[0])
      case Some(error) => MoreReceipts(base, st, MakeReceipt(parent, DeliveryFailed, st.rounds, error));
      case None =>
        var next := Offer(env, parent, outputs[0], st);
        var disposition := Disposition(env, parent, outputs[0], st);
        if disposition.Some? { MoreReceipts(base, st, disposition.value); }
        OfferAllOnTime(base, env, parent, outputs[1..], next);
    }
  }

  /** Recording a delivery together with the receipt that acknowledges it. */
  lemma RecordOnTime(base: nat, st: RunState, m: Message, world: World, rc: Receipt)
    requires OnTime(base, st) && base <= |st.delivered|
    requires Acknowledges(rc, m) && rc.status in {Delivered, DeliveryFailed}
    ensures OnTime(base, st.(seen := st.seen + {m.id}, delivered := st.delivered + [m], world := world,
                             receipts := st.receipts + [rc]))
  {
    var delivered, receipts := st.delivered + [m], st.receipts + [rc];
    assert delivered[|st.delivered|] == m && rc in receipts;
    forall ack | ack in receipts && ack.status == Delivered ensures DeliveredOnTime(base, delivered, ack) {
      if ack in st.receipts {
        assert DeliveredOnTime(base, st.delivered, ack);
        var k :| base <= k < |st.delivered| && Acknowledges(ack, st.delivered[k]);
        assert Acknowledges(ack, delivered[k]);
      } else {
        assert Acknowledges(ack, delivered[|st.delivered|]);
      }
    }
    forall k | base <= k < |delivered| ensures AnsweredOnTime(receipts, delivered[k]) {
      if k < |st.delivered| { StillAnswered(st.receipts, rc, st.delivered[k]); }
    }
  }

  lemma DeliverOnTime(base: nat, env: Env, m: Message, st: RunState)
    requires OnTime(base, st) && base <= |st.delivered|
    requires m.turn + 1 == st.rounds && AllTurn(st.queue, st.rounds)
    ensures OnTime(base, Deliver(env, m, st)) && base <= |Deliver(env, m, st).delivered|
    ensures AllTurn(Deliver(env, m, st).queue, st.rounds)
  {
    if m.id in st.seen {
      MoreReceipts(base, st, MakeReceipt(m, Duplicate, st.rounds, ALREADY_DELIVERED));
    } else if DeliveryError(env, m).Some? {
      MoreReceipts(base, st, MakeReceipt(m, DeliveryFailed, st.rounds, DeliveryError(env, m).value));
    } else {
      var (handled, outcome) := Handled(env, m, st);
      match outcome
      case Outputs(messages) =>
        RecordOnTime(base, st, m, handled.world, MakeReceipt(m, Delivered, st.rounds, ""));
        OfferAllOnTime(base, env, m, messages, Acknowledge(m, handled));
        OfferAllKeepsTranscript(env, m, messages, Acknowledge(m, handled));
      case Raised(exception, text) =>
        RecordOnTime(base, st, m, handled.world, MakeReceipt(m, DeliveryFailed, st.rounds, exception + ": " + text));
      case NotMessages =>
        var failed := Fail(handled, m, "TypeError: multi-agent node must return a tuple of messages");
        RecordOnTime(base, st, m, handled.world, failed.receipts[|st.receipts|]);
    }
  }

  lemma {:induction false} OfferAllKeepsTranscript(env: Env, parent: Message, outputs: seq<Message>, st: RunState)
    ensures OfferAll(env, parent, outputs, st).delivered == st.delivered
    decreases |outputs|
  {
    if outputs != [] && OutputError(env, parent, outputs[0]).None? {
      OfferAllKeepsTranscript(env, parent, outputs[1..], Offer(env, parent, outputs[0], st));
    }
  }

  lemma {:induction false} RoundOnTime(base: nat, env: Env, st: RunState, current: seq<Message>, maxMessages: nat)
    requires st.status == Completed && OnTime(base, st) && base <= |st.delivered|
    requires AllTurn(current, st.rounds - 1) && AllTurn(st.queue, st.rounds)
    ensures var r := RunRound(env, st, current, maxMessages);
            && OnTime(base, r) && base <= |r.delivered|
            && (r.status == Completed ==> AllTurn(r.queue, r.rounds))
    decreases |current|
  {
    if current != [] && |st.delivered| < maxMessages {
      var next := Deliver(env, current[0], st);
      DeliverOnTime(base, env, current[0], st);
      DeliverFails(env, current[0], st);
      if next.status != Failed {
        RoundOnTime(base, env, next, current[1..], maxMessages);
      }
    }
  }

  lemma {:induction false} RunOnTime(
    base: nat, env: Env, st: RunState, maxRounds: nat, maxMessages: nat, cancelled: nat -> bool)
    requires st.status == Completed && OnTime(base, st) && base <= |st.delivered|
    requires AllTurn(st.queue, st.rounds)
    ensures var r := RunRounds(env, st, maxRounds, maxMessages, cancelled);
            && OnTime(base, r)
            && (r.status in {Completed, Cancelled} ==> AllTurn(r.queue, r.rounds))
    decreases if maxRounds >= st.rounds then maxRounds - st.rounds else 0
  {
    if st.queue == [] || st.rounds >= maxRounds || cancelled(st.rounds) {
    } else {
      var next := RunRound(env, OpenRound(st), st.queue, maxMessages);
      RoundOnTime(base, env, OpenRound(st), st.queue, maxMessages);
      RoundEnds(env, OpenRound(st), st.queue, maxMessages);
      if next.status == Completed {
        RunOnTime(base, env, next, maxRounds, maxMessages, cancelled);
      }
    }
  }

  /** A fresh run, or a resume from a checkpoint cut between rounds, delivers in round r exactly
      messages of turn r - 1; and if it too stops between rounds, so does the next resume. */
  lemma {:induction false} RoundsFollowTurns(checkpoint: Checkpoint, call: Call)
    requires AllTurn(checkpoint.pending, checkpoint.round)
    ensures var r := FinalState(checkpoint, call);
            && OnTime(|checkpoint.delivered|, r)
            && (r.status in {Completed, Cancelled} ==> AllTurn(r.queue, r.rounds))
  {
    RunOnTime(|checkpoint.delivered|, EnvOf(checkpoint, call), Start(checkpoint, call.world),
              call.maxRounds, call.maxMessages, call.cancelled);
  }
}

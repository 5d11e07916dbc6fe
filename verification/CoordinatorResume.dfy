/**
 When stopping a run and resuming it is the same as never having stopped.

 The checkpoint keeps neither the set of scheduled IDs nor the receipts, and a
 cut in the middle of a round loses the boundary between two rounds.  Resuming
 is exact when the run stopped between rounds, and only then.
 */
module CoordinatorResume {
  import opened Outcomes
  import opened MultiAgentContracts
  import opened CoordinatorModel
  import opened CoordinatorSafety

  // ---- Receipts are only ever appended ----------------------------------

  function Prefixed(receipts: seq<Receipt>, st: RunState): RunState {
    st.(receipts := receipts + st.receipts)
  }

  lemma {:induction false} OfferAllPrefixed(
    env: Env, parent: Message, outputs: seq<Message>, receipts: seq<Receipt>, st: RunState)
    ensures OfferAll(env, parent, outputs, Prefixed(receipts, st))
            == Prefixed(receipts, OfferAll(env, parent, outputs, st))
    decreases |outputs|
  {
    if outputs != [] && OutputError(env, parent, outputs[0]).None? {
      var next := Offer(env, parent, outputs[0], st);
      assert Offer(env, parent, outputs[0], Prefixed(receipts, st)) == Prefixed(receipts, next);
      OfferAllPrefixed(env, parent, outputs[1..], receipts, next);
    }
  }

  lemma {:induction false} DeliverPrefixed(env: Env, m: Message, receipts: seq<Receipt>, st: RunState)
    ensures Deliver(env, m, Prefixed(receipts, st)) == Prefixed(receipts, Deliver(env, m, st))
  {
    if m.id !in st.seen && DeliveryError(env, m).None? {
      var (handled, outcome) := Handled(env, m, st);
      if outcome.Outputs? {
        assert Acknowledge(m, Prefixed(receipts, handled)) == Prefixed(receipts, Acknowledge(m, handled));
        OfferAllPrefixed(env, m, outcome.messages, receipts, Acknowledge(m, handled));
      }
    }
  }

  lemma {:induction false} RunRoundPrefixed(
    env: Env, st: RunState, current: seq<Message>, maxMessages: nat, receipts: seq<Receipt>)
    ensures RunRound(env, Prefixed(receipts, st), current, maxMessages)
            == Prefixed(receipts, RunRound(env, st, current, maxMessages))
    decreases |current|
  {
    if current != [] && |st.delivered| < maxMessages {
      var next := Deliver(env, current[0], st);
      DeliverPrefixed(env, current[0], receipts, st);
      if next.status != Failed {
        RunRoundPrefixed(env, next, current[1..], maxMessages, receipts);
      }
    }
  }

  lemma {:induction false} RunRoundsPrefixed(
    env: Env, st: RunState, maxRounds: nat, maxMessages: nat, cancelled: nat -> bool, receipts: seq<Receipt>)
    ensures RunRounds(env, Prefixed(receipts, st), maxRounds, maxMessages, cancelled)
            == Prefixed(receipts, RunRounds(env, st, maxRounds, maxMessages, cancelled))
    decreases if maxRounds >= st.rounds then maxRounds - st.rounds else 0
  {
    if st.queue == [] || st.rounds >= maxRounds || cancelled(st.rounds) {
    } else {
      var next := RunRound(env, OpenRound(st), st.queue, maxMessages);
      RunRoundPrefixed(env, OpenRound(st), st.queue, maxMessages, receipts);
      assert OpenRound(Prefixed(receipts, st)) == Prefixed(receipts, OpenRound(st));
      if next.status == Completed {
        RunRoundsPrefixed(env, next, maxRounds, maxMessages, cancelled, receipts);
      }
    }
  }

  // ---- How a round ends -------------------------------------------------

  lemma {:induction false} OfferAllReceipts(env: Env, parent: Message, outputs: seq<Message>, st: RunState)
    ensures |OfferAll(env, parent, outputs, st).receipts| >= |st.receipts|
    decreases |outputs|
  {
    if outputs != [] && OutputError(env, parent, outputs[0]).None? {
      OfferAllReceipts(env, parent, outputs[1..], Offer(env, parent, outputs[0], st));
    }
  }

  lemma DeliverReceipts(env: Env, m: Message, st: RunState)
    ensures |Deliver(env, m, st).receipts| > |st.receipts|
  {
    if m.id !in st.seen && DeliveryError(env, m).None? {
      var (handled, outcome) := Handled(env, m, st);
      if outcome.Outputs? {
        OfferAllReceipts(env, m, outcome.messages, Acknowledge(m, handled));
      }
    }
  }

  /** A round completes, hits the message limit or fails; only failing sets the error, and a
      failure always leaves a receipt. */
  lemma {:induction false} RoundEnds(env: Env, st: RunState, current: seq<Message>, maxMessages: nat)
    requires st.status == Completed
    ensures var r := RunRound(env, st, current, maxMessages);
            && r.status in {Completed, MaxMessages, Failed}
            && (r.status != Failed ==> r.error == st.error)
            && |r.receipts| >= |st.receipts|
            && (r.status == Failed ==> |r.receipts| > |st.receipts|)
    decreases |current|
  {
    if current != [] && |st.delivered| < maxMessages {
      var next := Deliver(env, current[0], st);
      DeliverFails(env, current[0], st);
      DeliverReceipts(env, current[0], st);
      if next.status != Failed {
        RoundEnds(env, next, current[1..], maxMessages);
      }
    }
  }

  lemma {:induction false} RunEnds(env: Env, st: RunState, maxRounds: nat, maxMessages: nat, cancelled: nat -> bool)
    requires st.status == Completed
    ensures var r := RunRounds(env, st, maxRounds, maxMessages, cancelled);
            && r.status != MaxRounds
            && (r.status != Failed ==> r.error == st.error)
            && |r.receipts| >= |st.receipts|
            && (r.status == Failed ==> |r.receipts| > |st.receipts|)
            && (r.status == MaxMessages ==> r.rounds > st.rounds)
    decreases if maxRounds >= st.rounds then maxRounds - st.rounds else 0
  {
    if st.queue == [] || st.rounds >= maxRounds || cancelled(st.rounds) {
    } else {
      var next := RunRound(env, OpenRound(st), st.queue, maxMessages);
      RoundEnds(env, OpenRound(st), st.queue, maxMessages);
      if next.status == Completed {
        RunEnds(env, next, maxRounds, maxMessages, cancelled);
      }
    }
  }

  // ---- Splitting a run --------------------------------------------------

  /** A longer run passes through the state a shorter one stopped in between rounds. */
  lemma {:induction false} RunSplits(
    env: Env, st: RunState, maxMessages: nat,
    shortRounds: nat, shortCancelled: nat -> bool, longRounds: nat, longCancelled: nat -> bool)
    requires st.status == Completed
    requires var stop := RunRounds(env, st, shortRounds, maxMessages, shortCancelled);
             && stop.status in {Completed, Cancelled}
             && longRounds >= stop.rounds
             && forall r: nat :: r < stop.rounds ==> !longCancelled(r)
    ensures var stop := RunRounds(env, st, shortRounds, maxMessages, shortCancelled);
            RunRounds(env, st, longRounds, maxMessages, longCancelled)
            == RunRounds(env, stop.(status := Completed), longRounds, maxMessages, longCancelled)
    decreases if shortRounds >= st.rounds then shortRounds - st.rounds else 0
  {
    if st.queue == [] || st.rounds >= shortRounds || shortCancelled(st.rounds) {
      assert RunRounds(env, st, shortRounds, maxMessages, shortCancelled).(status := Completed) == st;
    } else {
      var next := RunRound(env, OpenRound(st), st.queue, maxMessages);
      RoundEnds(env, OpenRound(st), st.queue, maxMessages);
      RunSplits(env, next, maxMessages, shortRounds, shortCancelled, longRounds, longCancelled);
    }
  }

  /** A run that stopped inside a round stops at the same place however many rounds it is given. */
  lemma {:induction false} CutStaysCut(
    env: Env, st: RunState, maxMessages: nat,
    shortRounds: nat, shortCancelled: nat -> bool, longRounds: nat, longCancelled: nat -> bool)
    requires st.status == Completed
    requires var stop := RunRounds(env, st, shortRounds, maxMessages, shortCancelled);
             && stop.status in {MaxMessages, Failed}
             && longRounds >= stop.rounds
             && forall r: nat :: r < stop.rounds ==> !longCancelled(r)
    ensures RunRounds(env, st, longRounds, maxMessages, longCancelled)
            == RunRounds(env, st, shortRounds, maxMessages, shortCancelled)
    decreases if shortRounds >= st.rounds then shortRounds - st.rounds else 0
  {
    var next := RunRound(env, OpenRound(st), st.queue, maxMessages);
    if next.status == Completed {
      CutStaysCut(env, next, maxMessages, shortRounds, shortCancelled, longRounds, longCancelled);
    }
  }

  /** From a given state on, only the cancellation answers of later rounds matter. */
  lemma {:induction false} LaterCancellations(
    env: Env, st: RunState, maxRounds: nat, maxMessages: nat, c: nat -> bool, d: nat -> bool)
    requires forall r: nat :: r >= st.rounds ==> c(r) == d(r)
    ensures RunRounds(env, st, maxRounds, maxMessages, c) == RunRounds(env, st, maxRounds, maxMessages, d)
    decreases if maxRounds >= st.rounds then maxRounds - st.rounds else 0
  {
    if st.queue == [] || st.rounds >= maxRounds || c(st.rounds) {
    } else {
      var next := RunRound(env, OpenRound(st), st.queue, maxMessages);
      if next.status == Completed {
        LaterCancellations(env, next, maxRounds, maxMessages, c, d);
      }
    }
  }

  // ---- Rebuilding the state from the checkpoint -------------------------

  /** Between rounds, the IDs a checkpoint holds are all that was ever scheduled, so the state
      rebuilt from it differs only in the receipts, which start afresh. */
  lemma {:induction false} CheckpointLosesNothing(env: Env, st: RunState)
    requires Consistent(env, st, []) && st.error == None
    ensures Start(CheckpointOf(env, st), st.world) == st.(receipts := [], status := Completed)
  {
    var call := Call(env.handle, st.world, 1, 1, r => false);
    assert Trace(st, []) == st.delivered + st.queue;
    FinishedIsValid(env, st);
    StartConsistent(CheckpointOf(env, st), call);
    assert Trace(Start(CheckpointOf(env, st), st.world), []) == Trace(st, []);
  }

  lemma FinishedIsValid(env: Env, st: RunState)
    requires Consistent(env, st, [])
    ensures CheckpointOf(env, st).Valid()
  {
    assert Trace(st, []) == st.delivered + st.queue;
    FinishSucceeds(env, st.(status := Completed, receipts := []));
  }

  // ---- The theorem ------------------------------------------------------

  /** `whole` is one call that does what `first`, then `second` on its checkpoint, ask for: the same
      nodes and message limit, the rounds and cancellations of `second`, and none before it. */
  ghost predicate Continues(first: Call, stop: RunState, second: Call, whole: Call) {
    && first.handle == second.handle == whole.handle
    && first.maxMessages == second.maxMessages == whole.maxMessages
    && first.world == whole.world && stop.world == second.world
    && second.maxRounds == whole.maxRounds >= stop.rounds
    && (forall r: nat :: r < stop.rounds ==> !whole.cancelled(r))
    && (forall r: nat :: r >= stop.rounds ==> whole.cancelled(r) == second.cancelled(r))
  }

  /** The result of the whole call: everything `second` reports, and the receipts of both. */
  ghost predicate Exact(first: RunResult, second: RunResult, whole: RunResult) {
    whole == second.(receipts := first.receipts + second.receipts)
  }

  lemma CleanStopIsExact(checkpoint: Checkpoint, first: Call, second: Call, whole: Call)
    requires checkpoint.Valid()
    requires var stop := FinalState(checkpoint, first);
             Continues(first, stop, second, whole) && stop.status in {Completed, Cancelled}
    ensures var stop := FinalState(checkpoint, first);
            var resumed := FinalState(CheckpointOf(EnvOf(checkpoint, first), stop), second);
            FinalState(checkpoint, whole) == Prefixed(stop.receipts, resumed)
  {
    var env, start := EnvOf(checkpoint, first), Start(checkpoint, first.world);
    var stop := FinalState(checkpoint, first);
    StartConsistent(checkpoint, first);
    RunRoundsSettle(env, start, first.maxRounds, first.maxMessages, first.cancelled);
    RunEnds(env, start, first.maxRounds, first.maxMessages, first.cancelled);
    RunSplits(env, start, first.maxMessages, first.maxRounds, first.cancelled, whole.maxRounds, whole.cancelled);
    CheckpointLosesNothing(env, stop);
    var rebuilt := stop.(receipts := [], status := Completed);
    assert Prefixed(stop.receipts, rebuilt) == stop.(status := Completed);
    RunRoundsPrefixed(env, rebuilt, whole.maxRounds, whole.maxMessages, whole.cancelled, stop.receipts);
    LaterCancellations(env, rebuilt, whole.maxRounds, whole.maxMessages, whole.cancelled, second.cancelled);
  }

  /** Resuming reproduces the uninterrupted run - same transcript, pending messages, rounds, status
      and error, and the receipts concatenate - exactly when the first call did not stop inside a
      round: not for the message limit, and not because it failed. */
  lemma {:induction false} ResumeIsExact(checkpoint: Checkpoint, first: Call, second: Call, whole: Call)
    requires checkpoint.Valid()
    requires Continues(first, FinalState(checkpoint, first), second, whole)
    ensures Execute(checkpoint, first).Ok?
    ensures var one := Execute(checkpoint, first).value;
            && Execute(one.checkpoint, second).Ok?
            && Execute(checkpoint, whole).Ok?
            && (Exact(one, Execute(one.checkpoint, second).value, Execute(checkpoint, whole).value)
                <==> one.status !in {MaxMessages, Failed})
  {
    var env, start := EnvOf(checkpoint, first), Start(checkpoint, first.world);
    var stop := FinalState(checkpoint, first);
    ExecuteKeeps(checkpoint, first);
    ExecuteKeeps(checkpoint, whole);
    var one := Execute(checkpoint, first).value;
    ExecuteKeeps(one.checkpoint, second);
    RunEnds(env, start, first.maxRounds, first.maxMessages, first.cancelled);
    if stop.status in {Completed, Cancelled} {
      CleanStopIsExact(checkpoint, first, second, whole);
    } else {
      CutStaysCut(env, start, first.maxMessages, first.maxRounds, first.cancelled, whole.maxRounds, whole.cancelled);
      RunEnds(EnvOf(one.checkpoint, second), Start(one.checkpoint, second.world),
              second.maxRounds, second.maxMessages, second.cancelled);
    }
  }

  /** After a clean stop the nodes' world is also the one the uninterrupted run would leave. */
  lemma {:induction false} ResumeKeepsTheWorld(checkpoint: Checkpoint, first: Call, second: Call, whole: Call)
    requires checkpoint.Valid()
    requires Continues(first, FinalState(checkpoint, first), second, whole)
    requires FinalState(checkpoint, first).status in {Completed, Cancelled}
    ensures FinalState(checkpoint, whole).world
            == FinalState(CheckpointOf(EnvOf(checkpoint, first), FinalState(checkpoint, first)), second).world
  {
    CleanStopIsExact(checkpoint, first, second, whole);
  }

  // ---- Cuts that happen -------------------------------------------------

  function TwoNodes(): Topology {
    Topology(["a", "b"], [Edge("a", "b", 1, false)])
  }

  function Greeting(id: MessageId): Message {
    Message(id, "a", "b", "hello", 0, "c", [], 0)
  }

  /** Node b answers nothing, or breaks the protocol. */
  function Reply(breaks: bool): (World, Message) -> (World, NodeOutcome) {
    (world, m) => (world, if breaks then NotMessages else Outputs([]))
  }

  function NeverCancelled(): nat -> bool {
    r => false
  }

  function Greetings(): seq<Message> {
    [Greeting("1"), Greeting("2")]
  }

  lemma {:induction false} GreetingsAreValid()
    ensures TwoNodes().Valid() && ValidInitials(TwoNodes(), Greetings())
    ensures Fresh(TwoNodes(), Greetings()).Valid()
  {
    assert TwoNodes().edges[0].Joins("a", "b");
    assert [] + Greetings() == Greetings();
  }

  /** A valid run, or a resume of the same topology, is what its checkpoint executes to. */
  lemma {:induction false} CallsExecute(topology: Topology, initials: seq<Message>, checkpoint: Checkpoint, call: Call)
    requires LimitsValid(call)
    ensures ValidInitials(topology, initials) ==>
              RunMany(topology, initials, call) == Execute(Fresh(topology, initials), call)
    ensures checkpoint.topology == topology ==> Resume(topology, checkpoint, call) == Execute(checkpoint, call)
  {
  }

  lemma {:induction false} CutIsInexact(checkpoint: Checkpoint, first: Call, second: Call)
    requires checkpoint.Valid() && Continues(first, FinalState(checkpoint, first), second, second)
    requires FinalState(checkpoint, first).status in {MaxMessages, Failed}
    ensures Execute(checkpoint, first).Ok? && Execute(checkpoint, second).Ok?
    ensures var one := Execute(checkpoint, first).value;
            && one.status == FinalState(checkpoint, first).status
            && one.checkpoint.topology == checkpoint.topology
            && Execute(one.checkpoint, second).Ok?
            && !Exact(one, Execute(one.checkpoint, second).value, Execute(checkpoint, second).value)
  {
    ResumeIsExact(checkpoint, first, second, second);
    ExecuteKeeps(checkpoint, first);
  }

  /** Two greetings with room for one, and node b breaking the protocol or not: the run ends `Failed`
      or `MaxMessages`, and resuming it for another round is not the two-round run. */
  lemma {:induction false} CutsHappen(world: World, breaks: bool)
    returns (first: Call, second: Call)
    ensures TwoNodes().Valid() && ValidInitials(TwoNodes(), Greetings()) && LimitsValid(first)
    ensures Continues(first, FinalState(Fresh(TwoNodes(), Greetings()), first), second, second)
    ensures RunMany(TwoNodes(), Greetings(), first).Ok? && RunMany(TwoNodes(), Greetings(), second).Ok?
    ensures var one := RunMany(TwoNodes(), Greetings(), first).value;
            && one.status == (if breaks then Failed else MaxMessages)
            && Resume(TwoNodes(), one.checkpoint, second).Ok?
            && !Exact(one, Resume(TwoNodes(), one.checkpoint, second).value,
                      RunMany(TwoNodes(), Greetings(), second).value)
  {
    first := Call(Reply(breaks), world, 1, 1, NeverCancelled());
    second := Call(Reply(breaks), world, 2, 1, NeverCancelled());
    var checkpoint := Fresh(TwoNodes(), Greetings());
    GreetingsAreValid();
    FirstGreeting(Greetings(), first, breaks);
    CutIsInexact(checkpoint, first, second);
    var one := Execute(checkpoint, first).value;
    CallsExecute(TwoNodes(), Greetings(), one.checkpoint, first);
    CallsExecute(TwoNodes(), Greetings(), one.checkpoint, second);
  }

  lemma {:induction false} FirstGreeting(initials: seq<Message>, call: Call, breaks: bool)
    requires initials == [Greeting("1"), Greeting("2")]
    requires call.handle == Reply(breaks) && call.maxRounds == 1 && call.maxMessages == 1
    requires call.cancelled == NeverCancelled()
    ensures FinalState(Fresh(TwoNodes(), initials), call).status == if breaks then Failed else MaxMessages
    ensures FinalState(Fresh(TwoNodes(), initials), call).world == call.world
    ensures FinalState(Fresh(TwoNodes(), initials), call).rounds == 1
  {
    var env := EnvOf(Fresh(TwoNodes(), initials), call);
    var st := Start(Fresh(TwoNodes(), initials), call.world);
    var open := OpenRound(st);
    assert TwoNodes().edges[0].Joins("a", "b");
    assert DeliveryError(env, initials[0]).None?;
    var next := Deliver(env, initials[0], open);
    assert next.status == (if breaks then Failed else Completed) && next.world == call.world;
    assert !breaks ==> |next.delivered| == 1;
    var rest := initials[1..];
    assert rest != [];
    if !breaks {
      assert RunRound(env, next, rest, 1) == next.(status := MaxMessages, queue := rest + next.queue);
    }
    var r := RunRound(env, open, initials, 1);
    assert r.status == (if breaks then Failed else MaxMessages) && r.world == call.world;
    assert FinalState(Fresh(TwoNodes(), initials), call) == r;
  }
}

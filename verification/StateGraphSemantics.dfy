/**
 What a step of the state graph does, said without running it: where a stream starts, which node runs on
 which values, how updates are merged, and where the graph goes next.
 */
module StateGraphSemantics {
  import opened Outcomes
  import opened PlainText
  import opened StateGraph

  // ---- Merging ----------------------------------------------------------

  /** Every key of the update has its reducer's answer for its earlier value, or the new value if it has
      no reducer; every other key keeps its value. */
  ghost predicate Merged(g: Graph, before: State, update: State, after: State) {
    && after.Keys == before.Keys + update.Keys
    && (forall k :: k in before && k !in update ==> after[k] == before[k])
    && (forall k :: k in update && k !in g.reducers ==> after[k] == update[k])
    && (forall k :: k in update && k in g.reducers ==>
          after[k] == g.reducers[k](if k in before then Some(before[k]) else None, update[k]))
  }

  /** The updates of the sends merged one after the other. */
  ghost predicate MergedInOrder(g: Graph, before: State, sends: seq<Send>, after: State) {
    exists states :: MergedThrough(g, before, sends, states) && states[|sends|] == after
  }

  ghost predicate MergedThrough(g: Graph, before: State, sends: seq<Send>, states: seq<State>) {
    && |states| == |sends| + 1 && states[0] == before
    && forall i :: 0 <= i < |sends| ==> Merged(g, states[i], sends[i].update, states[i + 1])
  }

  lemma {:induction false} MergeMerges(g: Graph, before: State, update: State)
    ensures Merged(g, before, update, Merge(g, before, update))
  {
  }

  lemma {:induction false} OneMerge(g: Graph, before: State, update: State, a: State, b: State)
    requires Merged(g, before, update, a) && Merged(g, before, update, b)
    ensures a == b
  {
    forall k | k in a ensures a[k] == b[k] {
      if k in update && k in g.reducers {
        assert a[k] == g.reducers[k](if k in before then Some(before[k]) else None, update[k]);
      }
    }
  }

  lemma {:induction false} MergeSendsMerges(g: Graph, before: State, sends: seq<Send>)
    ensures MergedInOrder(g, before, sends, MergeSends(g, before, sends))
    decreases |sends|
  {
    if sends == [] {
      assert MergedThrough(g, before, sends, [before]);
    } else {
      var next := Merge(g, before, sends[0].update);
      MergeMerges(g, before, sends[0].update);
      MergeSendsMerges(g, next, sends[1..]);
      var later :| MergedThrough(g, next, sends[1..], later)
        && later[|sends| - 1] == MergeSends(g, next, sends[1..]);
      MergeFirst(g, before, sends, later);
    }
  }

  lemma {:induction false} MergeFirst(g: Graph, before: State, sends: seq<Send>, later: seq<State>)
    requires sends != [] && later != [] && Merged(g, before, sends[0].update, later[0])
    requires MergedThrough(g, later[0], sends[1..], later)
    ensures MergedThrough(g, before, sends, [before] + later)
  {
    var states := [before] + later;
    forall i | 0 <= i < |sends| ensures Merged(g, states[i], sends[i].update, states[i + 1]) {
      if i > 0 { assert Merged(g, later[i - 1], sends[1..][i - 1].update, later[i]); }
    }
  }

  lemma {:induction false} OneMergeThrough(
    g: Graph, before: State, sends: seq<Send>, a: seq<State>, b: seq<State>, i: nat)
    requires MergedThrough(g, before, sends, a) && MergedThrough(g, before, sends, b) && i <= |sends|
    ensures a[i] == b[i]
    decreases i
  {
    if i > 0 {
      OneMergeThrough(g, before, sends, a, b, i - 1);
      OneMerge(g, a[i - 1], sends[i - 1].update, a[i], b[i]);
    }
  }

  lemma {:induction false} OneMergeInOrder(g: Graph, before: State, sends: seq<Send>, a: State, b: State)
    requires MergedInOrder(g, before, sends, a) && MergedInOrder(g, before, sends, b)
    ensures a == b
  {
    var x :| MergedThrough(g, before, sends, x) && x[|sends|] == a;
    var y :| MergedThrough(g, before, sends, y) && y[|sends|] == b;
    OneMergeThrough(g, before, sends, x, y, |sends|);
  }

  // ---- One step ---------------------------------------------------------

  /** The update a node's answer carries. */
  ghost predicate Gives(returned: Returned, update: State) {
    match returned
    case Command(u, _, _) => update == u
    case Mapping(u) => update == u
    case _ => update == map[]
  }

  /** Where `answer` leads from `node`, and what it leaves of the state. */
  ghost predicate Leads(g: Graph, node: string, answer: Returned, state: State, next: seq<string>, after: State)
    requires node in g.edges
  {
    match answer
    case Name(target) => next == [target] && after == state
    case Command(_, Some(target), _) => next == [target] && after == state
    case Command(_, None, _) => next == g.edges[node] && after == state
    case Mapping(_) => next == g.edges[node] && after == state
    case One(send) => next == [send.target] && Merged(g, state, send.update, after)
    case Many(sends) =>
      if sends == [] then next == g.edges[node] && after == state
      else |next| == |sends| && (forall i :: 0 <= i < |sends| ==> next[i] == sends[i].target)
           && MergedInOrder(g, state, sends, after)
    case Other => false
    case Raised => false
  }

  /** The node's own answer if it is a command that says where to go, else the router's if the node has
      one, else the node's answer. */
  function Decides(g: Graph, node: string, returned: Returned, state: State): Returned {
    if returned.Command? && returned.goto.Some? then returned
    else if node in g.routers then g.routers[node](state)
    else returned
  }

  ghost predicate AllUsable(next: seq<string>) {
    && (forall i :: 0 <= i < |next| ==> IsText(next[i]))
    && forall i, j :: 0 <= i < j < |next| ==> next[i] != next[j]
  }

  /** The step once the node has answered and its update is merged. */
  ghost predicate GoesOn(
    g: Graph, thread: string, c: Cursor, node: string, returned: Returned, update: State, state: State, step: Step)
    requires node in g.edges
  {
    var n, ran := c.step + 1, NodeRan(c.step + 1, node, update);
    if returned.Command? && returned.interrupt.Some? then
      var payload := returned.interrupt.value;
      step == Suspended(Snapshot(thread, n, state, [node], Some(c.parent), [payload]), [ran, Paused(n, node, payload)])
    else if node in g.routers && g.routers[node](state).Raised? then step == Broken(NodeRaised, [ran])
    else if Decides(g, node, returned, state).Other? then step == Broken(BadRoute, [ran])
    else GoesTo(g, thread, c, node, Decides(g, node, returned, state), ran, state, step)
  }

  ghost predicate GoesTo(
    g: Graph, thread: string, c: Cursor, node: string, answer: Returned, ran: Event, state: State, step: Step)
    requires node in g.edges
  {
    exists next, after ::
      Leads(g, node, answer, state, next, after) && Arrives(thread, c, node, ran, next, after, step)
  }

  ghost predicate Arrives(
    thread: string, c: Cursor, node: string, ran: Event, next: seq<string>, after: State, step: Step)
  {
    var n, snapshot := c.step + 1, Snapshot(thread, c.step + 1, after, next, Some(c.parent), []);
    if !AllUsable(next) then step == Broken(BadSnapshot, [ran])
    else step == Advanced(Cursor(after, next, CheckpointId(snapshot), n), snapshot, [ran, Checkpointed(n, node, after)])
  }

  /** What running the first of the next nodes comes to. */
  ghost predicate Takes(g: Graph, thread: string, c: Cursor, step: Step) {
    if c.next == [] || c.next[0] !in g.nodes || c.next[0] !in g.edges then step == Broken(UnknownNode, [])
    else
      var node := c.next[0];
      var returned := g.nodes[node](c.state);
      if returned.Raised? then step == Broken(NodeRaised, [])
      else exists update, state ::
             Gives(returned, update) && Merged(g, c.state, update, state)
             && GoesOn(g, thread, c, node, returned, update, state, step)
  }

  lemma {:induction false} RouteLeads(g: Graph, node: string, answer: Returned, state: State)
    requires node in g.edges && !answer.Other? && !answer.Raised?
    ensures !TargetsOf(g, node, answer).NoRoute?
    ensures var targets := TargetsOf(g, node, answer);
            if targets.Names? then Leads(g, node, answer, state, targets.names, state)
            else Leads(g, node, answer, state,
                       seq(|targets.targets|, i requires 0 <= i < |targets.targets| => targets.targets[i].target),
                       MergeSends(g, state, targets.targets))
  {
    match answer
    case One(send) =>
      MergeMerges(g, state, send.update);
      assert MergeSends(g, state, [send]) == MergeSends(g, Merge(g, state, send.update), [send][1..]);
      assert seq(|[send]|, i requires 0 <= i < |[send]| => [send][i].target) == [send.target];
    case Many(sends) => MergeSendsMerges(g, state, sends);
    case _ =>
  }

  lemma {:induction false} RouteGoesOn(
    g: Graph, thread: string, c: Cursor, node: string, returned: Returned, state: State)
    requires node in g.edges && !returned.Raised?
    ensures GoesOn(g, thread, c, node, returned, UpdateOf(returned), state, Route(g, thread, c, node, returned, state))
  {
    var answer := Decides(g, node, returned, state);
    if (returned.Command? && returned.interrupt.Some?)
       || (node in g.routers && g.routers[node](state).Raised?) || answer.Other?
    {
    } else {
      RouteLeads(g, node, answer, state);
      var targets := TargetsOf(g, node, answer);
      var next := if targets.Names? then targets.names
                  else seq(|targets.targets|, i requires 0 <= i < |targets.targets| => targets.targets[i].target);
      var after := if targets.Names? then state else MergeSends(g, state, targets.targets);
      assert AllUsable(next) <==> Snapshot(thread, c.step + 1, after, next, Some(c.parent), []).Valid();
      assert Arrives(thread, c, node, NodeRan(c.step + 1, node, UpdateOf(returned)), next, after,
                     Route(g, thread, c, node, returned, state));
    }
  }

  /** Running the graph does what is said here. */
  lemma {:induction false} RunTakes(g: Graph, thread: string, c: Cursor)
    ensures Takes(g, thread, c, Runner(g, thread)(c))
  {
    assert Runner(g, thread)(c) == RunNode(g, thread, c);
    if c.next != [] && c.next[0] in g.nodes && c.next[0] in g.edges {
      var returned := g.nodes[c.next[0]](c.state);
      if !returned.Raised? {
        var state := Merge(g, c.state, UpdateOf(returned));
        MergeMerges(g, c.state, UpdateOf(returned));
        RouteGoesOn(g, thread, c, c.next[0], returned, state);
        assert Gives(returned, UpdateOf(returned));
      }
    }
  }

  lemma {:induction false} OneLead(
    g: Graph, node: string, answer: Returned, state: State,
    next: seq<string>, after: State, next': seq<string>, after': State)
    requires node in g.edges
    requires Leads(g, node, answer, state, next, after) && Leads(g, node, answer, state, next', after')
    ensures next == next' && after == after'
  {
    match answer
    case One(send) => OneMerge(g, state, send.update, after, after');
    case Many(sends) => if sends != [] { OneMergeInOrder(g, state, sends, after, after'); }
    case _ =>
  }

  lemma {:induction false} OneGoal(
    g: Graph, thread: string, c: Cursor, node: string, answer: Returned, ran: Event, state: State, a: Step, b: Step)
    requires node in g.edges
    requires GoesTo(g, thread, c, node, answer, ran, state, a) && GoesTo(g, thread, c, node, answer, ran, state, b)
    ensures a == b
  {
    var n, x :| Leads(g, node, answer, state, n, x) && Arrives(thread, c, node, ran, n, x, a);
    var m, y :| Leads(g, node, answer, state, m, y) && Arrives(thread, c, node, ran, m, y, b);
    OneLead(g, node, answer, state, n, x, m, y);
  }

  lemma {:induction false} OneGoing(
    g: Graph, thread: string, c: Cursor, node: string, returned: Returned, update: State, state: State,
    a: Step, b: Step)
    requires node in g.edges
    requires GoesOn(g, thread, c, node, returned, update, state, a)
    requires GoesOn(g, thread, c, node, returned, update, state, b)
    ensures a == b
  {
    var answer := Decides(g, node, returned, state);
    if (returned.Command? && returned.interrupt.Some?)
       || (node in g.routers && g.routers[node](state).Raised?) || answer.Other?
    {
    } else {
      OneGoal(g, thread, c, node, answer, NodeRan(c.step + 1, node, update), state, a, b);
    }
  }

  /** And nothing else: a step is decided by what is said here. */
  lemma {:induction false} OneStep(g: Graph, thread: string, c: Cursor, a: Step, b: Step)
    requires Takes(g, thread, c, a) && Takes(g, thread, c, b)
    ensures a == b
  {
    if c.next != [] && c.next[0] in g.nodes && c.next[0] in g.edges {
      var node := c.next[0];
      var returned := g.nodes[node](c.state);
      if !returned.Raised? {
        var u, s :| Gives(returned, u) && Merged(g, c.state, u, s) && GoesOn(g, thread, c, node, returned, u, s, a);
        var v, t :| Gives(returned, v) && Merged(g, c.state, v, t) && GoesOn(g, thread, c, node, returned, v, t, b);
        assert u == v;
        OneMerge(g, c.state, u, s, t);
        OneGoing(g, thread, c, node, returned, u, s, a, b);
      }
    }
  }

  // ---- A stream ---------------------------------------------------------

  /** `values` with the resume value, if there is one, under its key. */
  ghost predicate Resumed(values: State, resume: Option<Json>, state: State) {
    && state.Keys == values.Keys + (if resume.Some? then {"__resume__"} else {})
    && forall k :: k in state ==>
         state[k] == if resume.Some? && k == "__resume__" then resume.value else values[k]
  }

  /** Where a request starts, and the history then: at the entry of the graph with a new state, or at the
      latest checkpoint, which is refused if it is interrupted and nothing is passed to resume it. */
  ghost predicate StartsAt(
    g: Graph, thread: string, history: seq<Snapshot>, request: Request, c: Cursor, started: seq<Snapshot>)
  {
    match request.initial
    case Some(state) =>
      var first := Snapshot(thread, 0, state, [g.entry], None, []);
      && c == Cursor(state, [g.entry], CheckpointId(first), 0)
      && started == if history != [] && history[|history| - 1] == first then history else history + [first]
    case None =>
      && history != [] && started == history
      && var latest := history[|history| - 1];
         && (latest.interrupts == [] || request.resume.Some?)
         && Resumed(latest.values, request.resume, c.state)
         && c.next == latest.next && c.parent == CheckpointId(latest) && c.step == latest.step
  }

  /** What a stream of `n` steps does from here: it is done if no node is next; otherwise its first step
      ends it, or it goes on as a stream of n - 1 steps from its own latest checkpoint. */
  ghost predicate Streams(g: Graph, thread: string, c: Cursor, history: seq<Snapshot>, n: nat, s: Streamed)
    requires n > 0
  {
    if c.next == [] then s == Streamed([Done(c.step, c.state)], history, Completed, c)
    else exists step :: Takes(g, thread, c, step) && Continues(g, thread, c, history, n, step, s)
  }

  ghost predicate Continues(
    g: Graph, thread: string, c: Cursor, history: seq<Snapshot>, n: nat, step: Step, s: Streamed)
    requires n > 0
  {
    match step
    case Broken(failure, events) => s == Streamed(events, history, Failed(failure), c)
    case Suspended(snapshot, events) =>
      s.events == events && s.ending == Interrupted(snapshot) && Recorded(history, snapshot, s.history)
    case Advanced(cursor, snapshot, events) =>
      exists saved :: Recorded(history, snapshot, saved)
        && if n == 1 then s == Streamed(events, saved, Exceeded, cursor)
           else s == Then(events, Stream(g, thread, saved, Request(None, None), n - 1))
  }

  /** The snapshot is appended unless it is the latest already. */
  ghost predicate Recorded(history: seq<Snapshot>, snapshot: Snapshot, after: seq<Snapshot>) {
    after == if history != [] && history[|history| - 1] == snapshot then history else history + [snapshot]
  }

  lemma {:induction false} SaveRecords(history: seq<Snapshot>, snapshot: Snapshot)
    ensures Recorded(history, snapshot, Save(history, snapshot))
  {
    assert history != [] ==>
        (CheckpointId(history[|history| - 1]) == CheckpointId(snapshot) <==> history[|history| - 1] == snapshot);
  }

  lemma {:induction false} StepsStream(g: Graph, thread: string, c: Cursor, history: seq<Snapshot>, n: nat)
    requires IsText(thread) && n > 0
    ensures Streams(g, thread, c, history, n, Steps(Runner(g, thread), c, history, n))
  {
    var run := Runner(g, thread);
    if c.next != [] {
      var step := run(c);
      RunTakes(g, thread, c);
      if !step.Broken? { SaveRecords(history, step.snapshot); }
      if step.Advanced? { AdvancedStreams(g, thread, c, history, n); }
      assert Continues(g, thread, c, history, n, step, Steps(run, c, history, n));
    }
  }

  lemma {:induction false} AdvancedStreams(g: Graph, thread: string, c: Cursor, history: seq<Snapshot>, n: nat)
    requires IsText(thread) && n > 0 && c.next != [] && Runner(g, thread)(c).Advanced?
    ensures var step := Runner(g, thread)(c);
            Steps(Runner(g, thread), c, history, n)
            == if n == 1 then Streamed(step.events, Save(history, step.snapshot), Exceeded, step.cursor)
               else Then(step.events, Stream(g, thread, Save(history, step.snapshot), Request(None, None), n - 1))
  {
    var run := Runner(g, thread);
    var step := run(c);
    StepsFirst(run, c, history, n);
    if n == 1 {
      assert step.events + [] == step.events;
    } else {
      var saved := Save(history, step.snapshot);
      RunnerCheckpoints(g, thread);
      assert SavesChild(step, thread, c);
      AdvancedStands(step, thread, c, history);
      StreamIsSteps(g, thread, saved, Request(None, None), n - 1);
    }
  }

  /** A request whose arguments are usable starts where it should and streams as it should. */
  lemma {:induction false} StreamFollowsGraph(
    g: Graph, thread: string, history: seq<Snapshot>, request: Request, n: int)
    ensures var s := Stream(g, thread, history, request, n);
            if !IsText(thread) || n <= 0 then
              s.events == [] && s.history == history && s.ending == Failed(InvalidArguments)
            else if request.initial.None? && history == [] then
              s.events == [] && s.history == history && s.ending == Failed(NoInitialState)
            else if request.initial.None? && history[|history| - 1].interrupts != [] && request.resume.None? then
              s.events == [] && s.history == history && s.ending == Interrupted(history[|history| - 1])
            else exists c, started ::
                   StartsAt(g, thread, history, request, c, started) && Streams(g, thread, c, started, n, s)
  {
    if !IsText(thread) || n <= 0 {
    } else if request.initial.Some? {
      var state := request.initial.value;
      var first := InitialSnapshot(g, thread, state);
      var c, started := Cursor(state, [g.entry], CheckpointId(first), 0), Save(history, first);
      SaveRecords(history, first);
      StreamIsSteps(g, thread, history, request, n);
      StepsStream(g, thread, c, started, n);
      assert StartsAt(g, thread, history, request, c, started);
    } else if history != [] && (history[|history| - 1].interrupts == [] || request.resume.Some?) {
      var c := CursorAt(history[|history| - 1], request.resume);
      StreamIsSteps(g, thread, history, request, n);
      StepsStream(g, thread, c, history, n);
      assert Resumed(history[|history| - 1].values, request.resume, c.state);
      assert StartsAt(g, thread, history, request, c, history);
    }
  }

  // ---- Interrupts -------------------------------------------------------

  /** Interrupted snapshots wait for exactly one node of the graph. */
  ghost predicate Pausable(g: Graph, history: seq<Snapshot>) {
    forall i :: 0 <= i < |history| && history[i].interrupts != [] ==> Waits(g, history[i])
  }

  ghost predicate Waits(g: Graph, s: Snapshot) {
    |s.next| == 1 && s.next[0] in g.nodes && s.next[0] in g.edges
  }

  lemma {:induction false} StepPauses(g: Graph, thread: string, c: Cursor, step: Step)
    requires Takes(g, thread, c, step) && !step.Broken?
    ensures step.snapshot.interrupts != [] ==> Waits(g, step.snapshot)
    ensures step.Suspended? ==> step.snapshot.interrupts != []
  {
    var node := c.next[0];
    var returned := g.nodes[node](c.state);
    var update, state :| Gives(returned, update) && Merged(g, c.state, update, state)
      && GoesOn(g, thread, c, node, returned, update, state, step);
  }

  lemma {:induction false} SavePauses(g: Graph, history: seq<Snapshot>, snapshot: Snapshot)
    requires Pausable(g, history) && (snapshot.interrupts != [] ==> Waits(g, snapshot))
    ensures Pausable(g, Save(history, snapshot))
  {
  }

  /** A stream that ends interrupted has just saved the snapshot it reports. */
  ghost predicate EndsPaused(s: Streamed) {
    s.ending.Interrupted? ==>
      s.history != [] && s.ending.at == s.history[|s.history| - 1] && s.ending.at.interrupts != []
  }

  lemma {:induction false} StepsPausable(g: Graph, thread: string, c: Cursor, history: seq<Snapshot>, n: nat)
    requires Pausable(g, history)
    ensures Pausable(g, Steps(Runner(g, thread), c, history, n).history)
    decreases n
  {
    var run := Runner(g, thread);
    if n > 0 && c.next != [] && !run(c).Broken? {
      RunTakes(g, thread, c);
      StepPauses(g, thread, c, run(c));
      SavePauses(g, history, run(c).snapshot);
      if run(c).Advanced? { StepsPausable(g, thread, run(c).cursor, Save(history, run(c).snapshot), n - 1); }
    }
  }

  lemma {:induction false} StepsEndPaused(g: Graph, thread: string, c: Cursor, history: seq<Snapshot>, n: nat)
    ensures EndsPaused(Steps(Runner(g, thread), c, history, n))
    decreases n
  {
    var run := Runner(g, thread);
    if n > 0 && c.next != [] && !run(c).Broken? {
      RunTakes(g, thread, c);
      StepPauses(g, thread, c, run(c));
      if run(c).Advanced? { StepsEndPaused(g, thread, run(c).cursor, Save(history, run(c).snapshot), n - 1); }
    }
  }

  lemma {:induction false} StepsPause(g: Graph, thread: string, c: Cursor, history: seq<Snapshot>, n: nat)
    requires Pausable(g, history)
    ensures var s := Steps(Runner(g, thread), c, history, n); Pausable(g, s.history) && EndsPaused(s)
  {
    StepsPausable(g, thread, c, history, n);
    StepsEndPaused(g, thread, c, history, n);
  }

  lemma {:induction false} StreamPauses(g: Graph, thread: string, history: seq<Snapshot>, request: Request, n: int)
    requires Pausable(g, history)
    ensures var s := Stream(g, thread, history, request, n);
            Pausable(g, s.history) && EndsPaused(s)
  {
    if IsText(thread) && n > 0 {
      if request.initial.Some? {
        var first := InitialSnapshot(g, thread, request.initial.value);
        SavePauses(g, history, first);
        var c := Cursor(request.initial.value, [g.entry], CheckpointId(first), 0);
        StepsPause(g, thread, c, Save(history, first), n);
      } else if history != [] && (history[|history| - 1].interrupts == [] || request.resume.Some?) {
        StepsPause(g, thread, CursorAt(history[|history| - 1], request.resume), history, n);
      }
    }
  }

  /** What resuming an interrupted snapshot first does: it runs the interrupted node on the saved values
      with the resume value in them. */
  ghost predicate RunsAgain(g: Graph, at: Snapshot, v: Json, s: Streamed) {
    Waits(g, at) && RunsFirst(g, at.next[0], at.values["__resume__" := v], at.step + 1, s)
  }

  /** The stream first runs this node on this state, as step `n`. */
  ghost predicate RunsFirst(g: Graph, node: string, state: State, n: nat, s: Streamed)
    requires node in g.nodes
  {
    var returned := g.nodes[node](state);
    if returned.Raised? then s.events == [] && s.ending == Failed(NodeRaised)
    else exists update :: Gives(returned, update) && s.events != [] && s.events[0] == NodeRan(n, node, update)
  }

  lemma {:induction false} FirstRuns(g: Graph, thread: string, c: Cursor, step: Step)
    requires c.next != [] && c.next[0] in g.nodes && c.next[0] in g.edges && Takes(g, thread, c, step)
    ensures var returned := g.nodes[c.next[0]](c.state);
            if returned.Raised? then step == Broken(NodeRaised, [])
            else exists update :: Gives(returned, update)
                   && step.events != [] && step.events[0] == NodeRan(c.step + 1, c.next[0], update)
  {
  }

  lemma {:induction false} ResumeRuns(g: Graph, thread: string, history: seq<Snapshot>, v: Json, m: int)
    requires IsText(thread) && m > 0 && history != [] && history[|history| - 1].interrupts != []
    requires Waits(g, history[|history| - 1])
    ensures RunsAgain(g, history[|history| - 1], v, Stream(g, thread, history, Request(None, Some(v)), m))
  {
    var at, request := history[|history| - 1], Request(None, Some(v));
    var s := Stream(g, thread, history, request, m);
    StreamFollowsGraph(g, thread, history, request, m);
    var c, started :| StartsAt(g, thread, history, request, c, started) && Streams(g, thread, c, started, m, s);
    StartsWaiting(g, thread, history, v, c, started);
    StreamRunsFirst(g, thread, c, started, m, s);
  }

  lemma {:induction false} StartsWaiting(
    g: Graph, thread: string, history: seq<Snapshot>, v: Json, c: Cursor, started: seq<Snapshot>)
    requires history != [] && StartsAt(g, thread, history, Request(None, Some(v)), c, started)
    ensures var at := history[|history| - 1];
            c.state == at.values["__resume__" := v] && c.next == at.next && c.step == at.step
  {
  }

  lemma {:induction false} StreamRunsFirst(
    g: Graph, thread: string, c: Cursor, history: seq<Snapshot>, n: nat, s: Streamed)
    requires n > 0 && Streams(g, thread, c, history, n, s)
    requires c.next != [] && c.next[0] in g.nodes && c.next[0] in g.edges
    ensures RunsFirst(g, c.next[0], c.state, c.step + 1, s)
  {
    var step :| Takes(g, thread, c, step) && Continues(g, thread, c, history, n, step, s);
    FirstRuns(g, thread, c, step);
    FirstEvents(g, thread, c, history, n, step, s);
  }

  lemma {:induction false} FirstEvents(
    g: Graph, thread: string, c: Cursor, history: seq<Snapshot>, n: nat, step: Step, s: Streamed)
    requires n > 0 && Continues(g, thread, c, history, n, step, s)
    ensures step.events <= s.events
    ensures step.Broken? ==> s.events == step.events && s.ending == Failed(step.failure)
  {
  }

  lemma {:induction false} InterruptedText(g: Graph, thread: string, history: seq<Snapshot>, request: Request, n: int)
    requires Stream(g, thread, history, request, n).ending.Interrupted?
    ensures IsText(thread)
  {
  }

  /** A stream that ends interrupted leaves a checkpoint from which streaming on stops at once, with the
      same interrupt, until a value is passed; then the interrupted node runs again and sees that value. */
  lemma {:induction false} ResumeRunsTheNode(
    g: Graph, thread: string, history: seq<Snapshot>, request: Request, n: int, v: Json, m: int)
    requires Pausable(g, history) && m > 0 && Stream(g, thread, history, request, n).ending.Interrupted?
    ensures var first := Stream(g, thread, history, request, n);
            && Pausable(g, first.history)
            && Stream(g, thread, first.history, Request(None, None), m).events == []
            && Stream(g, thread, first.history, Request(None, None), m).ending == first.ending
            && RunsAgain(g, first.ending.at, v, Stream(g, thread, first.history, Request(None, Some(v)), m))
  {
    var first := Stream(g, thread, history, request, n);
    InterruptedText(g, thread, history, request, n);
    StreamPauses(g, thread, history, request, n);
    StreamFollowsGraph(g, thread, first.history, Request(None, None), m);
    ResumeRuns(g, thread, first.history, v, m);
  }
}

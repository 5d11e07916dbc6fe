/**
 The checkpointed state graph: a step machine that runs one node at a time and
 saves a snapshot after each.
 */
module StateGraph {
  import opened Outcomes
  import opened PlainText

  type Json(==, 0, !new)

  type State = map<string, Json>

  const RESUME_KEY := "__resume__"

  datatype Send = Send(target: string, update: State)

  /** What a node or a router returns. */
  datatype Returned =
    | Command(commandUpdate: State, goto: Option<string>, interrupt: Option<Json>)
    | Mapping(mapping: State)
    | Name(name: string)
    | One(send: Send)
    | Many(sends: seq<Send>)
    | Other
    | Raised

  datatype Graph = Graph(
    nodes: map<string, State -> Returned>,
    edges: map<string, seq<string>>,
    routers: map<string, State -> Returned>,
    reducers: map<string, (Option<Json>, Json) -> Json>,
    entry: string
  ) {
    /** What the builder checks before it compiles a graph. */
    ghost predicate Valid() {
      entry in nodes && (forall n :: n in nodes ==> IsText(n)) && edges.Keys == nodes.Keys
    }
  }

  /** `CheckpointId` stands for the digest of a snapshot: equal exactly when the snapshots are. */
  datatype CheckpointId = CheckpointId(of: Snapshot)

  datatype Snapshot = Snapshot(
    thread: string,
    step: nat,
    values: State,
    next: seq<string>,
    parent: Option<CheckpointId>,
    interrupts: seq<Json>
  ) {
    predicate Valid() {
      && (forall i :: 0 <= i < |next| ==> IsText(next[i]))
      && (forall i, j :: 0 <= i < j < |next| ==> next[i] != next[j])
    }
  }

  datatype Event =
    | NodeRan(step: nat, node: string, update: State)
    | Checkpointed(step: nat, node: string, values: State)
    | Paused(step: nat, node: string, payload: Json)
    | Done(step: nat, values: State)

  datatype Failure =
    | InvalidArguments | NoInitialState | UnknownNode | NodeRaised | BadRoute | BadSnapshot

  /** How a stream ends.  `Exceeded` is the run that used up its steps. */
  datatype Ending = Completed | Exceeded | Interrupted(at: Snapshot) | Failed(failure: Failure)

  // ---- Merging ----------------------------------------------------------

  function Lookup(state: State, key: string): Option<Json> {
    if key in state then Some(state[key]) else None
  }

  /** The value an update gives a key: reduced with the old one if the key has a reducer. */
  function Reduced(g: Graph, state: State, key: string, value: Json): Json {
    if key in g.reducers then g.reducers[key](Lookup(state, key), value) else value
  }

  function Merge(g: Graph, state: State, update: State): State {
    state + map k | k in update :: Reduced(g, state, k, update[k])
  }

  function MergeSends(g: Graph, state: State, sends: seq<Send>): State
    decreases |sends|
  {
    if sends == [] then state else MergeSends(g, Merge(g, state, sends[0].update), sends[1..])
  }

  // ---- One step ---------------------------------------------------------

  /** Where a thread stands between two steps. */
  datatype Cursor = Cursor(state: State, next: seq<string>, parent: CheckpointId, step: nat)

  datatype Targets = Names(names: seq<string>) | ToSends(targets: seq<Send>) | NoRoute

  /** What a route leads to; a route that names nothing falls back to the node's edges. */
  function TargetsOf(g: Graph, node: string, route: Returned): Targets
    requires node in g.edges
  {
    match route
    case Mapping(_) => Names(g.edges[node])
    case Command(_, None, _) => Names(g.edges[node])
    case Command(_, Some(target), _) => Names([target])
    case Name(name) => Names([name])
    case One(send) => ToSends([send])
    case Many(sends) => if sends == [] then Names(g.edges[node]) else ToSends(sends)
    case Other => NoRoute
    case Raised => NoRoute
  }

  datatype Step =
    | Advanced(cursor: Cursor, snapshot: Snapshot, events: seq<Event>)
    | Suspended(snapshot: Snapshot, events: seq<Event>)
    | Broken(failure: Failure, events: seq<Event>)

  function UpdateOf(returned: Returned): State {
    match returned
    case Command(update, _, _) => update
    case Mapping(update) => update
    case _ => map[]
  }

  /** The step after the node has returned and its update is merged into `state`. */
  function Route(g: Graph, thread: string, c: Cursor, node: string, returned: Returned, state: State): Step
    requires node in g.edges
  {
    var ran := NodeRan(c.step + 1, node, UpdateOf(returned));
    if returned.Command? && returned.interrupt.Some? then
      var snapshot := Snapshot(thread, c.step + 1, state, [node], Some(c.parent), [returned.interrupt.value]);
      Suspended(snapshot, [ran, Paused(c.step + 1, node, returned.interrupt.value)])
    else
      var routed := if node in g.routers then g.routers[node](state) else returned;
      if routed.Raised? then Broken(NodeRaised, [ran]) else
        var route := if returned.Command? && returned.goto.Some? then returned else routed;
        var targets := TargetsOf(g, node, route);
        if targets.NoRoute? then Broken(BadRoute, [ran]) else
          var next := if targets.Names? then targets.names
                      else seq(|targets.targets|, i requires 0 <= i < |targets.targets| => targets.targets[i].target);
          var after := if targets.Names? then state else MergeSends(g, state, targets.targets);
          var snapshot := Snapshot(thread, c.step + 1, after, next, Some(c.parent), []);
          if !snapshot.Valid() then Broken(BadSnapshot, [ran])
          else Advanced(Cursor(after, next, CheckpointId(snapshot), c.step + 1), snapshot,
                        [ran, Checkpointed(c.step + 1, node, after)])
  }

  /** Runs the first of the next nodes; the others wait to be named again. */
  function RunNode(g: Graph, thread: string, c: Cursor): Step {
    if c.next == [] || c.next[0] !in g.nodes || c.next[0] !in g.edges then Broken(UnknownNode, []) else
      var node := c.next[0];
      var returned := g.nodes[node](c.state);
      if returned.Raised? then Broken(NodeRaised, [])
      else Route(g, thread, c, node, returned, Merge(g, c.state, UpdateOf(returned)))
  }

  // ---- Checkpoints ------------------------------------------------------

  /** A thread's history with one more snapshot, unless it is already the latest. */
  function Save(history: seq<Snapshot>, snapshot: Snapshot): (r: seq<Snapshot>)
    ensures r != [] && r[|r| - 1] == snapshot && history <= r
  {
    if history != [] && CheckpointId(history[|history| - 1]) == CheckpointId(snapshot) then history
    else history + [snapshot]
  }

  // ---- A stream ---------------------------------------------------------

  /** What a stream leaves: its events, the thread's history, how it ended and where. */
  datatype Streamed = Streamed(events: seq<Event>, history: seq<Snapshot>, ending: Ending, cursor: Cursor)

  /** Up to `maxSteps` steps of `run`, saving a snapshot after each. */
  function Steps(run: Cursor -> Step, c: Cursor, history: seq<Snapshot>, maxSteps: nat): Streamed
    decreases maxSteps
  {
    if maxSteps == 0 then Streamed([], history, Exceeded, c)
    else if c.next == [] then Streamed([Done(c.step, c.state)], history, Completed, c)
    else
      match run(c)
      case Broken(failure, events) => Streamed(events, history, Failed(failure), c)
      case Suspended(snapshot, events) => Streamed(events, Save(history, snapshot), Interrupted(snapshot), c)
      case Advanced(cursor, snapshot, events) =>
        var rest := Steps(run, cursor, Save(history, snapshot), maxSteps - 1);
        rest.(events := events + rest.events)
  }

  function Runner(g: Graph, thread: string): Cursor -> Step {
    (c: Cursor) => RunNode(g, thread, c)
  }

  ghost predicate Runs(run: Cursor -> Step, g: Graph, thread: string) {
    forall c {:trigger RunNode(g, thread, c)} :: run(c) == RunNode(g, thread, c)
  }

  /** What the caller passes: the state to start from, or none to continue from the latest
      checkpoint, with a value for an interrupted node. */
  datatype Request = Request(initial: Option<State>, resume: Option<Json>)

  function InitialSnapshot(g: Graph, thread: string, state: State): Snapshot {
    Snapshot(thread, 0, state, [g.entry], None, [])
  }

  function CursorAt(snapshot: Snapshot, resume: Option<Json>): Cursor {
    Cursor(if resume.Some? then snapshot.values[RESUME_KEY := resume.value] else snapshot.values,
           snapshot.next, CheckpointId(snapshot), snapshot.step)
  }

  function Stream(g: Graph, thread: string, history: seq<Snapshot>, request: Request, maxSteps: int): Streamed
  {
    var nowhere := Cursor(map[], [], CheckpointId(InitialSnapshot(g, thread, map[])), 0);
    if !IsText(thread) || maxSteps <= 0 then Streamed([], history, Failed(InvalidArguments), nowhere)
    else
      match request.initial
      case Some(state) =>
        var snapshot := InitialSnapshot(g, thread, state);
        Steps(Runner(g, thread), Cursor(state, [g.entry], CheckpointId(snapshot), 0), Save(history, snapshot), maxSteps)
      case None =>
        if history == [] then Streamed([], history, Failed(NoInitialState), nowhere)
        else
          var latest := history[|history| - 1];
          if latest.interrupts != [] && request.resume.None? then Streamed([], history, Interrupted(latest), nowhere)
          else Steps(Runner(g, thread), CursorAt(latest, request.resume), history, maxSteps)
  }

  // ---- The object -------------------------------------------------------

  /** A compiled graph with an in-memory checkpointer. */
  class CompiledStateGraph {
    const graph: Graph
    var snapshots: map<string, seq<Snapshot>>

    constructor (graph: Graph)
      ensures this.graph == graph && snapshots == map[]
    {
      this.graph := graph;
      snapshots := map[];
    }

    function History(thread: string): seq<Snapshot>
      reads this
    {
      if thread in snapshots then snapshots[thread] else []
    }

    method SaveSnapshot(thread: string, snapshot: Snapshot)
      modifies this`snapshots
      ensures History(thread) == Save(old(History(thread)), snapshot)
      ensures forall t :: t != thread ==> History(t) == old(History(t))
    {
      snapshots := snapshots[thread := Save(History(thread), snapshot)];
    }

    /** Merges an update key by key, in any order. */
    method MergeInto(state: State, update: State) returns (r: State)
      ensures r == Merge(graph, state, update)
    {
      r := state;
      var todo := update.Keys;
      while todo != {}
        invariant todo <= update.Keys
        invariant r.Keys == state.Keys + (update.Keys - todo)
        invariant forall k :: k in r ==>
                    r[k] == if k in update && k !in todo then Reduced(graph, state, k, update[k]) else state[k]
      {
        var k :| k in todo;
        assert Lookup(r, k) == Lookup(state, k);
        var value := if k in graph.reducers then graph.reducers[k](Lookup(r, k), update[k]) else update[k];
        r := r[k := value];
        todo := todo - {k};
      }
      assert r == Merge(graph, state, update);
    }

    /** The body of the loop: one node, its update, its route and its checkpoint. */
    method StepOnce(thread: string, c: Cursor, ghost run: Cursor -> Step) returns (step: Step)
      requires graph.Valid() && c.next != [] && Runs(run, graph, thread)
      modifies this`snapshots
      ensures step == run(c)
      ensures History(thread)
              == if step.Broken? then old(History(thread)) else Save(old(History(thread)), step.snapshot)
      ensures forall t :: t != thread ==> History(t) == old(History(t))
    {
      var node := c.next[0];
      assert run(c) == RunNode(graph, thread, c);
      if node !in graph.nodes {
        return Broken(UnknownNode, []);
      }
      var returned := graph.nodes[node](c.state);
      if returned.Raised? {
        return Broken(NodeRaised, []);
      }
      var state := MergeInto(c.state, UpdateOf(returned));
      step := Route(graph, thread, c, node, returned, state);
      if !step.Broken? {
        SaveSnapshot(thread, step.snapshot);
      }
    }

    /** Streams a thread: from a new initial state, or on from its latest checkpoint. */
    method StreamThread(thread: string, request: Request, maxSteps: int) returns (events: seq<Event>, ending: Ending)
      requires graph.Valid()
      modifies this`snapshots
      ensures var s := Stream(graph, thread, old(History(thread)), request, maxSteps);
              events == s.events && ending == s.ending && History(thread) == s.history
      ensures forall t :: t != thread ==> History(t) == old(History(t))
    {
      events := [];
      if !IsText(thread) || maxSteps <= 0 {
        return [], Failed(InvalidArguments);
      }
      var c: Cursor;
      if request.initial.Some? {
        var snapshot := InitialSnapshot(graph, thread, request.initial.value);
        c := Cursor(request.initial.value, [graph.entry], CheckpointId(snapshot), 0);
        SaveSnapshot(thread, snapshot);
      } else {
        var history := History(thread);
        if history == [] {
          return [], Failed(NoInitialState);
        }
        var latest := history[|history| - 1];
        if latest.interrupts != [] && request.resume.None? {
          return [], Interrupted(latest);
        }
        c := CursorAt(latest, request.resume);
      }
      ghost var run := Runner(graph, thread);
      ghost var whole := Steps(run, c, History(thread), maxSteps);
      LeadsFromStart(whole, run, c, History(thread), maxSteps);
      events, ending := Loop(thread, c, maxSteps, run, whole);
    }

    /** One turn of the loop: the events so far, and where to go on or how the stream ends. */
    method Turn(
      thread: string, c: Cursor, before: seq<Event>,
      ghost run: Cursor -> Step, ghost whole: Streamed, ghost n: nat)
      returns (events: seq<Event>, next: Cursor, ended: Option<Ending>)
      requires graph.Valid() && Runs(run, graph, thread)
      requires n > 0 && Leads(whole, before, run, c, History(thread), n)
      modifies this`snapshots
      ensures ended.Some? ==> Leaves(whole, events, History(thread), ended.value)
      ensures ended.None? ==> Leads(whole, events, run, next, History(thread), n - 1)
      ensures forall t :: t != thread ==> History(t) == old(History(t))
    {
      next := c;
      if c.next == [] {
        LeadsToDone(whole, before, run, c, History(thread), n);
        return before + [Done(c.step, c.state)], next, Some(Completed);
      }
      LeadsOn(whole, before, run, c, History(thread), n);
      var step := StepOnce(thread, c, run);
      events := before + step.events;
      if step.Broken? {
        return events, next, Some(Failed(step.failure));
      }
      if step.Suspended? {
        return events, next, Some(Interrupted(step.snapshot));
      }
      next, ended := step.cursor, None;
    }

    /** At most `maxSteps` turns of the loop. */
    method Loop(thread: string, start: Cursor, maxSteps: nat, ghost run: Cursor -> Step, ghost whole: Streamed)
      returns (events: seq<Event>, ending: Ending)
      requires graph.Valid() && Runs(run, graph, thread) && Leads(whole, [], run, start, History(thread), maxSteps)
      modifies this`snapshots
      ensures Leaves(whole, events, History(thread), ending)
      ensures forall t :: t != thread ==> History(t) == old(History(t))
    {
      events := [];
      var c, ended := start, None;
      ghost var left := maxSteps;
      for n := 0 to maxSteps
        invariant left == maxSteps - n && Leads(whole, events, run, c, History(thread), left)
        invariant forall t :: t != thread ==> History(t) == old(History(t))
      {
        events, c, ended := Turn(thread, c, events, run, whole, left);
        left := left - 1;
        if ended.Some? {
          return events, ended.value;
        }
      }
      LeadsToEnd(whole, events, run, c, History(thread));
      ending := Exceeded;
    }
  }

  /** A stream left these events and this history, and ended this way. */
  ghost predicate Leaves(s: Streamed, events: seq<Event>, history: seq<Snapshot>, ending: Ending) {
    events == s.events && ending == s.ending && history == s.history
  }

  /** Puts earlier events in front of what a stream leaves. */
  function Then(events: seq<Event>, later: Streamed): Streamed {
    later.(events := events + later.events)
  }

  /** After these events, `n` more steps from here leave what the whole stream leaves. */
  ghost predicate Leads(
    whole: Streamed, events: seq<Event>, run: Cursor -> Step, c: Cursor, history: seq<Snapshot>, n: nat)
  {
    whole == Then(events, Steps(run, c, history, n))
  }

  lemma {:induction false} LeadsFromStart(
    whole: Streamed, run: Cursor -> Step, c: Cursor, history: seq<Snapshot>, n: nat)
    requires whole == Steps(run, c, history, n)
    ensures Leads(whole, [], run, c, history, n)
  {
    assert [] + whole.events == whole.events;
  }

  lemma {:induction false} LeadsToEnd(
    whole: Streamed, events: seq<Event>, run: Cursor -> Step, c: Cursor, history: seq<Snapshot>)
    requires Leads(whole, events, run, c, history, 0)
    ensures whole == Streamed(events, history, Exceeded, c)
  {
    assert events + [] == events;
  }

  lemma LeadsToDone(
    whole: Streamed, events: seq<Event>, run: Cursor -> Step, c: Cursor, history: seq<Snapshot>, n: nat)
    requires n > 0 && c.next == [] && Leads(whole, events, run, c, history, n)
    ensures whole == Streamed(events + [Done(c.step, c.state)], history, Completed, c)
  {
  }

  lemma {:induction false} LeadsOn(
    whole: Streamed, events: seq<Event>, run: Cursor -> Step, c: Cursor, history: seq<Snapshot>, n: nat)
    requires n > 0 && c.next != [] && Leads(whole, events, run, c, history, n)
    ensures var step := run(c);
            && (step.Broken? ==> whole == Streamed(events + step.events, history, Failed(step.failure), c))
            && (step.Suspended? ==>
                  whole == Streamed(events + step.events, Save(history, step.snapshot), Interrupted(step.snapshot), c))
            && (step.Advanced? ==>
                  Leads(whole, events + step.events, run, step.cursor, Save(history, step.snapshot), n - 1))
  {
    if run(c).Advanced? {
      var later := Steps(run, run(c).cursor, Save(history, run(c).snapshot), n - 1).events;
      assert events + (run(c).events + later) == events + run(c).events + later;
    }
  }

  // ---- Stopping and continuing ------------------------------------------

  /** What every node run guarantees: the snapshot it saves is the next step of the thread, a child of
      the checkpoint before, and an advancing run stands exactly where its snapshot says. */
  ghost predicate Checkpoints(run: Cursor -> Step, thread: string) {
    forall c :: SavesChild(run(c), thread, c)
  }

  ghost predicate SavesChild(step: Step, thread: string, c: Cursor) {
    && (!step.Broken? ==> IsChild(step.snapshot, thread, c))
    && (step.Advanced? ==> step.snapshot.interrupts == [] && CursorAt(step.snapshot, None) == step.cursor)
  }

  ghost predicate IsChild(snapshot: Snapshot, thread: string, c: Cursor) {
    snapshot.thread == thread && snapshot.step == c.step + 1 && snapshot.parent == Some(c.parent)
  }

  lemma {:induction false} RunnerCheckpoints(g: Graph, thread: string)
    ensures Checkpoints(Runner(g, thread), thread)
  {
    forall c ensures SavesChild(Runner(g, thread)(c), thread, c) {
      assert Runner(g, thread)(c) == RunNode(g, thread, c);
    }
  }

  lemma {:induction false} ThenThen(a: seq<Event>, b: seq<Event>, later: Streamed)
    ensures Then(a, Then(b, later)) == Then(a + b, later)
  {
    assert a + (b + later.events) == a + b + later.events;
  }

  lemma StepsFirst(run: Cursor -> Step, c: Cursor, history: seq<Snapshot>, n: nat)
    requires n > 0 && c.next != [] && run(c).Advanced?
    ensures Steps(run, c, history, n)
            == Then(run(c).events, Steps(run, run(c).cursor, Save(history, run(c).snapshot), n - 1))
  {
  }

  lemma ExceededAdvanced(run: Cursor -> Step, c: Cursor, history: seq<Snapshot>, n: nat)
    requires n > 0 && Steps(run, c, history, n).ending == Exceeded
    ensures c.next != [] && run(c).Advanced?
  {
  }

  lemma {:induction false} StepsSplit(run: Cursor -> Step, c: Cursor, history: seq<Snapshot>, k: nat, m: nat)
    requires Steps(run, c, history, k).ending == Exceeded
    ensures var first := Steps(run, c, history, k);
            Steps(run, c, history, k + m) == Then(first.events, Steps(run, first.cursor, first.history, m))
    decreases k
  {
    if k == 0 {
      assert [] + Steps(run, c, history, m).events == Steps(run, c, history, m).events;
    } else {
      ExceededAdvanced(run, c, history, k);
      StepsFirst(run, c, history, k);
      StepsFirst(run, c, history, k + m);
      var cursor, saved := run(c).cursor, Save(history, run(c).snapshot);
      StepsSplit(run, cursor, saved, k - 1, m);
      var first := Steps(run, cursor, saved, k - 1);
      ThenThen(run(c).events, first.events, Steps(run, first.cursor, first.history, m));
    }
  }

  /** The cursor is where continuing from the latest checkpoint would start. */
  ghost predicate StandsAt(history: seq<Snapshot>, c: Cursor) {
    && history != []
    && CursorAt(history[|history| - 1], None) == c
    && history[|history| - 1].interrupts == []
  }

  /** A stream that ran at least one node stands exactly where its latest checkpoint says. */
  lemma {:induction false} StopsAtCheckpoint(
    run: Cursor -> Step, thread: string, c: Cursor, history: seq<Snapshot>, k: nat)
    requires Checkpoints(run, thread) && Steps(run, c, history, k).ending == Exceeded
    requires k == 0 ==> StandsAt(history, c)
    ensures StandsAt(Steps(run, c, history, k).history, Steps(run, c, history, k).cursor)
    decreases k
  {
    if k > 0 {
      ExceededAdvanced(run, c, history, k);
      StepsFirst(run, c, history, k);
      AdvancedStands(run(c), thread, c, history);
      StopsAtCheckpoint(run, thread, run(c).cursor, Save(history, run(c).snapshot), k - 1);
    }
  }

  lemma AdvancedStands(step: Step, thread: string, c: Cursor, history: seq<Snapshot>)
    requires step.Advanced? && SavesChild(step, thread, c)
    ensures StandsAt(Save(history, step.snapshot), step.cursor)
  {
  }

  /** What a stream runs from: a new state's snapshot, or the thread's latest one. */
  lemma {:induction false} StreamIsSteps(
    g: Graph, thread: string, history: seq<Snapshot>, request: Request, n: int)
    requires IsText(thread) && n > 0
    ensures request.initial.Some? ==>
              var snapshot := InitialSnapshot(g, thread, request.initial.value);
              Stream(g, thread, history, request, n)
              == Steps(Runner(g, thread), Cursor(request.initial.value, [g.entry], CheckpointId(snapshot), 0),
                       Save(history, snapshot), n)
    ensures request.initial.None? && history != []
            && (history[|history| - 1].interrupts == [] || request.resume.Some?) ==>
              Stream(g, thread, history, request, n)
              == Steps(Runner(g, thread), CursorAt(history[|history| - 1], request.resume), history, n)
  {
  }

  /** Running out of k steps from a cursor, then running m more from the latest checkpoint. */
  lemma {:induction false} StepsContinue(
    g: Graph, thread: string, c: Cursor, history: seq<Snapshot>, k: nat, m: nat)
    requires IsText(thread) && k > 0 && m > 0
    requires Steps(Runner(g, thread), c, history, k).ending == Exceeded
    ensures var first := Steps(Runner(g, thread), c, history, k);
            Steps(Runner(g, thread), c, history, k + m)
            == Then(first.events, Stream(g, thread, first.history, Request(None, None), m))
  {
    var run := Runner(g, thread);
    var first := Steps(run, c, history, k);
    RunnerCheckpoints(g, thread);
    StepsSplit(run, c, history, k, m);
    StopsAtCheckpoint(run, thread, c, history, k);
    StreamIsSteps(g, thread, first.history, Request(None, None), m);
  }

  lemma {:induction false} ExceededStarted(g: Graph, thread: string, history: seq<Snapshot>, request: Request, k: int)
    requires Stream(g, thread, history, request, k).ending == Exceeded
    ensures IsText(thread) && k > 0
    ensures request.initial.None? ==>
              history != [] && (history[|history| - 1].interrupts == [] || request.resume.Some?)
  {
  }

  /** Running out of k steps and streaming on from the latest checkpoint for m more is the same as
      streaming for k + m steps at once: same events, history, ending and position. */
  lemma {:induction false} ContinuingIsExact(
    g: Graph, thread: string, history: seq<Snapshot>, request: Request, k: int, m: int)
    requires m > 0 && Stream(g, thread, history, request, k).ending == Exceeded
    ensures var first := Stream(g, thread, history, request, k);
            Stream(g, thread, history, request, k + m)
            == Then(first.events, Stream(g, thread, first.history, Request(None, None), m))
  {
    ExceededStarted(g, thread, history, request, k);
    StreamIsSteps(g, thread, history, request, k);
    StreamIsSteps(g, thread, history, request, k + m);
    if request.initial.Some? {
      var snapshot := InitialSnapshot(g, thread, request.initial.value);
      StepsContinue(g, thread, Cursor(request.initial.value, [g.entry], CheckpointId(snapshot), 0),
                    Save(history, snapshot), k, m);
    } else {
      StepsContinue(g, thread, CursorAt(history[|history| - 1], request.resume), history, k, m);
    }
  }

  // ---- The shape of a history -------------------------------------------

  ghost function ParentOf(history: seq<Snapshot>, i: nat): Option<CheckpointId>
    requires i <= |history|
  {
    if i == 0 then None else Some(CheckpointId(history[i - 1]))
  }

  /** Entry i is step i, and names entry i - 1 as its parent. */
  ghost predicate Linear(thread: string, history: seq<Snapshot>) {
    forall i {:trigger ParentOf(history, i)} :: 0 <= i < |history| ==>
      history[i].thread == thread && history[i].step == i && history[i].parent == ParentOf(history, i)
  }

  lemma LinearAppend(thread: string, history: seq<Snapshot>, snapshot: Snapshot)
    requires Linear(thread, history) && snapshot.thread == thread && snapshot.step == |history|
    requires snapshot.parent == ParentOf(history, |history|)
    ensures Linear(thread, history + [snapshot])
  {
    var longer := history + [snapshot];
    forall i | 0 <= i < |longer|
      ensures longer[i].thread == thread && longer[i].step == i && longer[i].parent == ParentOf(longer, i)
    {
      assert ParentOf(longer, i) == ParentOf(history, i);
    }
  }

  /** The cursor continues the latest entry. */
  ghost predicate Follows(c: Cursor, history: seq<Snapshot>) {
    history != [] && c.step == |history| - 1 && c.parent == CheckpointId(history[|history| - 1])
  }

  lemma {:induction false} StepsAreLinear(
    run: Cursor -> Step, thread: string, c: Cursor, history: seq<Snapshot>, n: nat)
    requires Checkpoints(run, thread) && Linear(thread, history) && Follows(c, history)
    ensures Linear(thread, Steps(run, c, history, n).history)
    ensures history <= Steps(run, c, history, n).history
    decreases n
  {
    if n > 0 && c.next != [] && !run(c).Broken? {
      var snapshot := run(c).snapshot;
      assert SavesChild(run(c), thread, c);
      assert ParentOf(history, |history| - 1) == history[|history| - 1].parent;
      assert Save(history, snapshot) == history + [snapshot];
      LinearAppend(thread, history, snapshot);
      if run(c).Advanced? {
        StepsAreLinear(run, thread, run(c).cursor, history + [snapshot], n - 1);
      }
    }
  }

  /** A thread's history after a list of requests, each with its own step limit. */
  function Histories(g: Graph, thread: string, history: seq<Snapshot>, calls: seq<(Request, int)>): seq<Snapshot>
    decreases |calls|
  {
    if calls == [] then history
    else Histories(g, thread, Stream(g, thread, history, calls[0].0, calls[0].1).history, calls[1..])
  }

  lemma {:induction false} ResumesAreLinear(
    g: Graph, thread: string, history: seq<Snapshot>, calls: seq<(Request, int)>)
    requires Linear(thread, history)
    requires forall i :: 0 <= i < |calls| ==> calls[i].0.initial == None
    ensures Linear(thread, Histories(g, thread, history, calls))
    ensures history <= Histories(g, thread, history, calls)
    decreases |calls|
  {
    if calls != [] {
      var (request, n) := calls[0];
      RunnerCheckpoints(g, thread);
      if IsText(thread) && n > 0 && history != [] {
        assert ParentOf(history, |history| - 1) == history[|history| - 1].parent;
        StepsAreLinear(Runner(g, thread), thread, CursorAt(history[|history| - 1], request.resume), history, n);
      }
      ResumesAreLinear(g, thread, Stream(g, thread, history, request, n).history, calls[1..]);
    }
  }

  lemma StartIsLinear(g: Graph, thread: string, state: State, n: nat)
    requires IsText(thread) && n > 0
    ensures Linear(thread, Stream(g, thread, [], Request(Some(state), None), n).history)
  {
    var snapshot := InitialSnapshot(g, thread, state);
    RunnerCheckpoints(g, thread);
    assert Save([], snapshot) == [snapshot];
    StepsAreLinear(Runner(g, thread), thread, Cursor(state, [g.entry], CheckpointId(snapshot), 0), [snapshot], n);
  }

  /** A thread that is started once and then only ever continued from its latest checkpoint, however
      often it stops, fails or is interrupted, has one snapshot per step, each the parent of the next. */
  lemma {:induction false} ThreadHistoryIsLinear(
    g: Graph, thread: string, state: State, n: int, calls: seq<(Request, int)>)
    requires forall i :: 0 <= i < |calls| ==> calls[i].0.initial == None
    ensures Linear(thread, Histories(g, thread, Stream(g, thread, [], Request(Some(state), None), n).history, calls))
  {
    if IsText(thread) && n > 0 { StartIsLinear(g, thread, state, n); }
    ResumesAreLinear(g, thread, Stream(g, thread, [], Request(Some(state), None), n).history, calls);
  }
}

/** The plain and the session-backed executor, both proved against the walk. */
module WorkflowExecutor {
  import opened Common
  import opened StringOrder
  import opened WorkflowModel
  import opened WorkflowProofs

  // ----- Lookups ---------------------------------------------------------

  function Roots(def: Def): set<string> {
    set k | k in def.nodes && forall e | e in def.edges :: e.to != k
  }

  /** The root if it is declared, else the least node without incoming edge, else the least node. */
  ghost predicate IsStartNode(def: Def, node: Option<Node>) {
    if def.root != "" && def.root in def.nodes then node == Some(def.nodes[def.root])
    else if def.nodes == map[] then node == None
    else exists k :: IsLeast(k, if Roots(def) != {} then Roots(def) else def.nodes.Keys) && node == Some(def.nodes[k])
  }

  lemma StartNodeIsUnique(def: Def, a: Option<Node>, b: Option<Node>)
    requires IsStartNode(def, a) && IsStartNode(def, b)
    ensures a == b
  {
    if !(def.root != "" && def.root in def.nodes) && def.nodes != map[] {
      var keys := if Roots(def) != {} then Roots(def) else def.nodes.Keys;
      var j :| IsLeast(j, keys) && a == Some(def.nodes[j]);
      var k :| IsLeast(k, keys) && b == Some(def.nodes[k]);
      LeastIsUnique(j, k, keys);
    }
  }

  /** Visits the keys in any order and keeps the node whose id compares least. */
  method PickLeast(def: Def, keys: set<string>) returns (best: Option<Node>)
    requires keys <= def.nodes.Keys
    ensures best.None? <==> keys == {}
    ensures best.Some? ==> best.value.id in Ids(def)
    ensures best.Some? && Keyed(def) ==> IsLeast(best.value.id, keys) && best.value == def.nodes[best.value.id]
  {
    best := None;
    var todo := keys;
    while todo != {}
      invariant todo <= keys
      invariant best.None? <==> todo == keys
      invariant best.Some? ==> best.value.id in Ids(def)
      invariant best.Some? && Keyed(def) ==>
                  IsLeast(best.value.id, keys - todo) && best.value == def.nodes[best.value.id]
      decreases todo
    {
      var id :| id in todo;
      ghost var seen := keys - todo;
      todo := todo - {id};
      assert keys - todo == seen + {id};
      if best.None? {
        assert seen == {};
        best := Some(def.nodes[id]);
      } else {
        LessIsTotal(id, best.value.id);
        if Less(id, best.value.id) {
          forall j | j in seen && Less(best.value.id, j) ensures Less(id, j) {
            LessIsTransitive(id, best.value.id, j);
          }
          best := Some(def.nodes[id]);
        }
      }
    }
    assert keys - todo == keys;
  }

  method FindStartNode(def: Def) returns (node: Option<Node>)
    ensures node.Some? ==> node.value.id in Ids(def)
    ensures Keyed(def) ==> IsStartNode(def, node)
  {
    if def.root != "" && def.root in def.nodes {
      return Some(def.nodes[def.root]);
    }
    var hasIncoming: set<string> := {};
    for i := 0 to |def.edges|
      invariant hasIncoming == set e | e in def.edges[..i] :: e.to
    {
      hasIncoming := hasIncoming + {def.edges[i].to};
    }
    assert def.edges[..|def.edges|] == def.edges;
    var roots := set k | k in def.nodes && k !in hasIncoming;
    assert roots == Roots(def);
    node := PickLeast(def, roots);
    if node.None? {
      node := PickLeast(def, def.nodes.Keys);
    }
  }

  // ----- One node and its successor --------------------------------------

  method RunNode(env: Env, max: int, node: Node, input: Value, log: seq<Call>) returns (nr: NodeResult, log': seq<Call>)
    requires 0 <= max
    ensures (nr, log') == ExecuteNode(env, max, node, input, log)
  {
    log' := log + [FindAgent(node.role)];
    var found := log';
    if env.needsAgent && env.agent(found).None? {
      return NodeResult(node.id, "", input, "", Some(NoAgent(node.role)), 0), log';
    }
    var agent := GetOr(env.agent(found), "");
    var attempt := 0;
    while true
      invariant 0 <= attempt <= max
      invariant Attempts(env, max, node, input, agent, attempt, log') ==
                  Attempts(env, max, node, input, agent, 0, found)
      decreases max - attempt
    {
      log' := log' + [Exec(node, input, agent)];
      match env.exec(log')
      case Output(v) => return NodeResult(node.id, agent, input, v, None, attempt), log';
      case ExecFailed(msg) =>
        if attempt == max {
          return NodeResult(node.id, agent, input, "", Some(ExecError(msg)), attempt), log';
        }
        if env.interrupted(log') {
          return NodeResult(node.id, agent, input, "", Some(ContextDone), attempt), log';
        }
        attempt := attempt + 1;
    }
  }

  method OutgoingOf(edges: seq<Edge>, id: string) returns (out: seq<Edge>)
    ensures out == Outgoing(edges, id)
  {
    out := [];
    for i := 0 to |edges|
      invariant out + Outgoing(edges[i..], id) == Outgoing(edges, id)
    {
      assert edges[i..][1..] == edges[i + 1..];
      if edges[i].from == id {
        out := out + [edges[i]];
      }
    }
  }

  method FindNextNode(def: Def, env: Env, id: string, output: Value, previous: map<string, Value>, log: seq<Call>)
    returns (next: Next, log': seq<Call>)
    ensures (next, log') == FindNext(def, env, id, output, previous, log)
  {
    var edges := OutgoingOf(def.edges, id);
    var facts := ConditionFacts(output, previous);
    log' := log;
    for i := 0 to |edges|
      invariant ChooseNext(def, env, edges[i..], facts, log') == FindNext(def, env, id, output, previous, log)
    {
      var e := edges[i];
      assert edges[i..][0] == e && edges[i..][1..] == edges[i + 1..];
      if e.condition == "" {
        return Goto(GetNode(def, e.to)), log';
      }
      if env.hasConditions {
        log' := log' + [Cond(e.condition, facts)];
        match env.cond(log')
        case CondFailed(msg) => return NextFailed(msg), log';
        case Approved => return Goto(GetNode(def, e.to)), log';
        case Rejected =>
      }
    }
    next := Goto(None);
  }

  method FindErrorEdge(edges: seq<Edge>, id: string) returns (edge: Option<Edge>)
    ensures edge == ErrorEdge(edges, id)
  {
    for i := 0 to |edges|
      invariant ErrorEdge(edges[i..], id) == ErrorEdge(edges, id)
    {
      assert edges[i..][0] == edges[i] && edges[i..][1..] == edges[i + 1..];
      if IsErrorEdge(edges[i], id) {
        return Some(edges[i]);
      }
    }
    edge := None;
  }

  // ----- The plain executor ----------------------------------------------

  lemma VisitedNode(env: Env, max: int, node: Node, input: Value, log: seq<Call>, trace: seq<NodeResult>)
    requires 0 <= max
    ensures var nr := ExecuteNode(env, max, node, input, log).0;
            nr.node == node.id && nr.input == input && NodesOf(trace + [nr]) == NodesOf(trace) + [node.id]
  {
    NodeIsExplained(env, max, node, input, log);
  }

  /** One round of the loop, with the visit counts the loop keeps. */
  method VisitOnce(def: Def, env: Env, max: int, st: State, visited: multiset<string>)
    returns (p: Progress, visited': multiset<string>)
    requires visited == multiset(NodesOf(st.trace))
    ensures p == Step(def, env, max, st)
    ensures p.More? ==> visited' == multiset(NodesOf(p.state.trace))
  {
    visited' := visited;
    if st.node.None? {
      return Stop(Run(Concluded(st), st.log, st.trace)), visited';
    }
    if env.done(st.log) {
      return Stop(Run(Result(Cancelled, None, Some(ContextDone), st.results), st.log, st.trace)), visited';
    }
    var node := st.node.value;
    visited' := visited' + multiset{node.id};
    if visited'[node.id] > max {
      return Stop(Run(Result(Failed, None, Some(MaxVisits(node.id)), st.results), st.log, st.trace)), visited';
    }
    var nr, log := RunNode(env, max, node, st.input, st.log);
    VisitedNode(env, max, node, st.input, st.log, st.trace);
    var results, trace := st.results[node.id := nr], st.trace + [nr];
    if nr.error.Some? {
      var edge := FindErrorEdge(def.edges, node.id);
      if edge.None? {
        return Stop(Run(Result(Failed, None, None, results), log, trace)), visited';
      }
      return More(State(GetNode(def, edge.value.to), st.input, st.previous, results, nr.error, log, trace)), visited';
    }
    var previous := st.previous[node.id := nr.output];
    var next, log' := FindNextNode(def, env, node.id, nr.output, previous, log);
    if next.NextFailed? {
      return Stop(Run(Result(Failed, None, None, results), log', trace)), visited';
    }
    var st' := State(next.node, nr.output, previous, results, st.lastError, log', trace);
    p := if next.node.None? then Stop(Run(Concluded(st'), log', trace)) else More(st');
  }

  /** Runs the workflow as the walk does, from the start node it finds. */
  method Execute(def: Def, env: Env, max: int, input: Value) returns (run: Run, start: Option<Node>)
    ensures start.Some? ==> start.value.id in Ids(def)
    ensures Keyed(def) ==> IsStartNode(def, start)
    ensures run == RunFrom(def, env, max, start, input)
  {
    start := FindStartNode(def);
    if start.None? {
      return Run(Result(Failed, None, Some(NoStart), map[]), [], []), start;
    }
    var st, visited := Initially(start.value, input), multiset{};
    while true
      invariant visited == multiset(NodesOf(st.trace))
      invariant Sane(def, max, st)
      invariant Walk(def, env, max, st) == RunFrom(def, env, max, start, input)
      decreases Positive(max) * |Ids(def)| - |st.trace|
    {
      TraceIsBounded(def, max, st);
      var p;
      p, visited := VisitOnce(def, env, max, st, visited);
      if p.Stop? {
        return p.run, start;
      }
      StepStaysSane(def, env, max, st);
      TraceIsBounded(def, max, p.state);
      st := p.state;
    }
  }

  // ----- The session-backed executor -------------------------------------

  datatype InstanceStatus = Running | Paused | InstanceCompleted | InstanceFailed

  function FailedIn(trace: seq<NodeResult>): seq<string> {
    if trace == [] then []
    else FailedIn(trace[..|trace| - 1]) +
         (var nr := trace[|trace| - 1]; if nr.error.Some? then [nr.node] else [])
  }

  /** The session's own record of a run. */
  class WorkflowInstance {
    var currentNodeID: string
    var variables: map<string, Value>
    var completed: seq<string>
    var failed: seq<string>
    var status: InstanceStatus

    constructor ()
      ensures currentNodeID == "" && variables == map[] && completed == [] && failed == [] && status == Running
    {
      currentNodeID, variables, completed, failed, status := "", map[], [], [], Running;
    }

    /** Moves on, counting the node left behind as completed. */
    method SetCurrentNode(id: string)
      modifies this`currentNodeID, this`completed
      ensures currentNodeID == id
      ensures completed == if old(currentNodeID) != "" && old(currentNodeID) !in old(completed)
                           then old(completed) + [old(currentNodeID)] else old(completed)
    {
      if currentNodeID != "" && currentNodeID !in completed {
        completed := completed + [currentNodeID];
      }
      currentNodeID := id;
    }

    method MarkNodeCompleted(id: string)
      modifies this`completed
      ensures completed == if id in old(completed) then old(completed) else old(completed) + [id]
    {
      if id !in completed {
        completed := completed + [id];
      }
    }

    method MarkNodeFailed(id: string)
      modifies this`failed
      ensures failed == old(failed) + [id]
    {
      failed := failed + [id];
    }

    method SetVariable(key: string, value: Value)
      modifies this`variables
      ensures variables == old(variables)[key := value]
    {
      variables := variables[key := value];
    }
  }

  /** Nodes are listed under their own ids, which are not empty. */
  predicate WellFormed(def: Def) {
    Keyed(def) && "" !in def.nodes
  }

  predicate ErrorTargetsDeclared(def: Def) {
    forall e | e in def.edges && "error" <= e.condition :: e.to in def.nodes
  }

  /**
    Where the session-backed loop does what the plain one does: node ids are
    their keys, and either no error edge leaves the graph or the context is
    never done (the session polls the context before it notices that there is
    no node left).
  */
  ghost predicate Comparable(def: Def, env: Env) {
    WellFormed(def) && (ErrorTargetsDeclared(def) || forall log :: !env.done(log))
  }

  lemma {:induction false} ErrorEdgeIsOne(edges: seq<Edge>, id: string)
    ensures var e := ErrorEdge(edges, id); e.Some? ==> e.value in edges && IsErrorEdge(e.value, id)
  {
    if edges != [] {
      ErrorEdgeIsOne(edges[1..], id);
    }
  }

  predicate Agrees(inst: InstanceStatus, status: Status) {
    match status
    case Completed => inst == InstanceCompleted
    case Failed => inst == InstanceFailed
    case Cancelled => inst == Paused
  }

  /** Some visit of the node succeeded, or the node failed and was left along its error edge. */
  predicate CompletedIn(def: Def, trace: seq<NodeResult>, id: string) {
    exists nr | nr in trace :: nr.node == id && (nr.error.None? || ErrorEdge(def.edges, id).Some?)
  }

  predicate NoRepeats(ids: seq<string>) {
    forall i, j | 0 <= i < j < |ids| :: ids[i] != ids[j]
  }

  predicate Holds(variables: map<string, Value>, name: string, value: Value) {
    name in variables && variables[name] == value
  }

  function OutputName(id: string): string {
    id + "_output"
  }

  lemma OutputNamesDiffer(a: string, b: string)
    ensures OutputName(a) == OutputName(b) ==> a == b
    ensures OutputName(a) != "current_input"
  {
    var name := OutputName(a);
    assert name[..|a|] == a && OutputName(b)[..|b|] == b;
    assert name[|name| - 6] == 'o';
  }

  /** The variable is the last input, or the last output of a node. */
  predicate IsNamed(v: string, outputs: map<string, Value>) {
    v == "current_input" || exists id | id in outputs :: v == OutputName(id)
  }

  /** The variables hold the input of the last visit, the last output of every node, and nothing else. */
  predicate Remembered(variables: map<string, Value>, trace: seq<NodeResult>) {
    && (trace != [] ==> Holds(variables, "current_input", trace[|trace| - 1].input))
    && (forall id | id in Outputs(trace) :: Holds(variables, OutputName(id), Outputs(trace)[id]))
    && (forall v | v in variables :: IsNamed(v, Outputs(trace)))
  }

  lemma RememberOne(variables: map<string, Value>, trace: seq<NodeResult>, nr: NodeResult)
    requires Remembered(variables, trace)
    ensures var next := variables["current_input" := nr.input];
            Remembered(if nr.error.None? then next[OutputName(nr.node) := nr.output] else next, trace + [nr])
  {
    OneMoreResult(trace, nr);
    var next := variables["current_input" := nr.input];
    var after := if nr.error.None? then next[OutputName(nr.node) := nr.output] else next;
    var outputs, outputs' := Outputs(trace), Outputs(trace + [nr]);
    OutputNamesDiffer(nr.node, nr.node);
    forall id | id in outputs' ensures Holds(after, OutputName(id), outputs'[id]) {
      OutputNamesDiffer(id, nr.node);
      assert id in outputs ==> Holds(variables, OutputName(id), outputs[id]);
    }
    forall v | v in after ensures IsNamed(v, outputs') {
      if v in variables && v != "current_input" {
        assert IsNamed(v, outputs);
        var id :| id in outputs && v == OutputName(id);
        assert id in outputs';
      }
    }
  }

  /**
    The session lists the failed visits in order, and exactly the completed
    nodes, once each; its variables hold the last input and all outputs.
  */
  ghost predicate Recorded(inst: WorkflowInstance, def: Def, trace: seq<NodeResult>)
    reads inst
  {
    && Remembered(inst.variables, trace)
    && inst.failed == FailedIn(trace)
    && NoRepeats(inst.completed)
    && (WellFormed(def) ==> forall id :: id in inst.completed <==> CompletedIn(def, trace, id))
  }

  lemma {:induction false} FailedInHasFailed(trace: seq<NodeResult>, nr: NodeResult)
    requires nr in trace && nr.error.Some?
    ensures nr.node in FailedIn(trace)
  {
    var n := |trace| - 1;
    if nr != trace[n] {
      FailedInHasFailed(trace[..n], nr);
    }
  }

  /** A node that failed and has an error edge is listed both as failed and as completed. */
  lemma FailedIsAlsoCompleted(inst: WorkflowInstance, def: Def, trace: seq<NodeResult>, nr: NodeResult)
    requires WellFormed(def) && Recorded(inst, def, trace)
    requires nr in trace && nr.error.Some? && ErrorEdge(def.edges, nr.node).Some?
    ensures nr.node in inst.failed && nr.node in inst.completed
  {
    FailedInHasFailed(trace, nr);
    assert CompletedIn(def, trace, nr.node);
  }

  predicate WithinVisits(def: Def, max: int, visited: multiset<string>) {
    forall id | id in visited :: id in def.nodes && visited[id] <= max
  }

  /** The loop variables are those of the plain loop at the node the session points to. */
  ghost predicate InStep(def: Def, env: Env, inst: WorkflowInstance, st: State, visited: multiset<string>)
    reads inst
  {
    && Comparable(def, env)
    && st.node == GetNode(def, inst.currentNodeID)
    && visited == multiset(NodesOf(st.trace))
    && (st.node.Some? || forall log :: !env.done(log))
  }

  lemma RecordOne(inst: WorkflowInstance, def: Def, trace: seq<NodeResult>, before: seq<string>, nr: NodeResult)
    requires inst.failed == FailedIn(trace) + if nr.error.Some? then [nr.node] else []
    requires NoRepeats(inst.completed) && Remembered(inst.variables, trace + [nr])
    requires WellFormed(def) ==> forall id :: id in before <==> CompletedIn(def, trace, id)
    requires WellFormed(def) ==> forall id :: id in inst.completed <==>
               id in before || (id == nr.node && (nr.error.None? || ErrorEdge(def.edges, id).Some?))
    ensures Recorded(inst, def, trace + [nr])
  {
    assert (trace + [nr])[..|trace|] == trace;
    if WellFormed(def) {
      forall id ensures id in inst.completed <==> CompletedIn(def, trace + [nr], id) {
        if CompletedIn(def, trace, id) {
          var r :| r in trace && r.node == id && (r.error.None? || ErrorEdge(def.edges, id).Some?);
          assert r in trace + [nr];
        }
        assert nr in trace + [nr];
      }
    }
  }

  /** The round after a visit that failed; `st` holds the visit already. */
  method SessionFailure(inst: WorkflowInstance, def: Def, st: State, id: string) returns (p: Progress)
    requires NoRepeats(inst.completed)
    modifies inst
    ensures p == AfterFailure(def, st, id)
    ensures inst.variables == old(inst.variables)
    ensures inst.failed == old(inst.failed) + [id] && NoRepeats(inst.completed)
    ensures forall n :: n in inst.completed <==>
              n in old(inst.completed) || (n == old(inst.currentNodeID) && n != "" && ErrorEdge(def.edges, id).Some?)
    ensures p.Stop? ==> Agrees(inst.status, p.run.result.status)
    ensures p.More? ==> p.state.node == GetNode(def, inst.currentNodeID)
  {
    inst.MarkNodeFailed(id);
    var edge := FindErrorEdge(def.edges, id);
    if edge.None? {
      inst.status := InstanceFailed;
      return Stop(Run(Result(Failed, None, None, st.results), st.log, st.trace));
    }
    inst.SetCurrentNode(edge.value.to);
    p := More(st.(node := GetNode(def, inst.currentNodeID)));
  }

  /** The round after a visit that succeeded; `st` holds the visit already. */
  method SessionSuccess(inst: WorkflowInstance, def: Def, env: Env, st: State, id: string) returns (p: Progress)
    requires NoRepeats(inst.completed)
    modifies inst
    ensures WellFormed(def) ==> p == AfterSuccess(def, env, st, id)
    ensures inst.variables == old(inst.variables)[OutputName(id) := st.input]
    ensures inst.failed == old(inst.failed) && NoRepeats(inst.completed)
    ensures forall n :: n in inst.completed <==>
              n in old(inst.completed) || n == id || (n == old(inst.currentNodeID) && n != "" && p.More?)
    ensures p.Stop? ==> Agrees(inst.status, p.run.result.status)
    ensures p.More? ==> p.state.node == GetNode(def, inst.currentNodeID) && (WellFormed(def) ==> p.state.node.Some?)
    ensures TraceOf(p) == st.trace
  {
    inst.SetVariable(id + "_output", st.input);
    inst.MarkNodeCompleted(id);
    var next, log := FindNextNode(def, env, id, st.input, st.previous, st.log);
    if next.NextFailed? {
      inst.status := InstanceFailed;
      return Stop(Run(Result(Failed, None, None, st.results), log, st.trace));
    }
    if next.node.None? {
      inst.status := if st.lastError.Some? then InstanceFailed else InstanceCompleted;
      return Stop(Run(Concluded(st), log, st.trace));
    }
    NextComesFromKey(def, env, id, st.input, st.previous, st.log);
    inst.SetCurrentNode(next.node.value.id);
    p := More(st.(node := GetNode(def, inst.currentNodeID), log := log));
  }

  /** Executes the node and moves the session along. */
  method SessionExecute(inst: WorkflowInstance, def: Def, env: Env, max: int, st: State, node: Node)
    returns (p: Progress)
    requires 0 <= max && Recorded(inst, def, st.trace) && GetNode(def, inst.currentNodeID) == Some(node)
    modifies inst
    ensures WellFormed(def) ==> p == Executed(def, env, max, st, node)
    ensures NodesOf(TraceOf(p)) == NodesOf(st.trace) + [node.id] && Recorded(inst, def, TraceOf(p))
    ensures p.Stop? ==> Agrees(inst.status, p.run.result.status)
    ensures p.More? ==> p.state.node == GetNode(def, inst.currentNodeID)
    ensures p.More? && WellFormed(def) && ErrorTargetsDeclared(def) ==> p.state.node.Some?
  {
    ghost var before, variables := inst.completed, inst.variables;
    inst.SetVariable("current_input", st.input);
    var nr, log := RunNode(env, max, node, st.input, st.log);
    VisitedNode(env, max, node, st.input, st.log, st.trace);
    var st' := st.(results := st.results[node.id := nr], log := log, trace := st.trace + [nr]);
    if nr.error.Some? {
      ErrorEdgeIsOne(def.edges, node.id);
      p := SessionFailure(inst, def, st'.(lastError := nr.error), node.id);
    } else {
      var previous := st.previous[node.id := nr.output];
      p := SessionSuccess(inst, def, env, st'.(previous := previous, input := nr.output), node.id);
    }
    RememberOne(variables, st.trace, nr);
    RecordOne(inst, def, st.trace, before, nr);
  }

  /** One round of the session-backed loop. */
  method SessionVisit(inst: WorkflowInstance, def: Def, env: Env, max: int, st: State, visited: multiset<string>)
    returns (p: Progress, visited': multiset<string>)
    requires WithinVisits(def, max, visited) && Recorded(inst, def, st.trace)
    modifies inst
    ensures p.More? ==> WithinVisits(def, max, visited') && |visited'| == |visited| + 1
    ensures Recorded(inst, def, TraceOf(p))
    ensures p.Stop? ==> Agrees(inst.status, p.run.result.status)
    ensures old(InStep(def, env, inst, st, visited)) ==>
              p == Step(def, env, max, st) && (p.More? ==> InStep(def, env, inst, p.state, visited'))
  {
    visited' := visited;
    if env.done(st.log) {
      inst.status := Paused;
      return Stop(Run(Result(Cancelled, None, Some(ContextDone), st.results), st.log, st.trace)), visited';
    }
    var id := inst.currentNodeID;
    if id == "" || id !in def.nodes {
      inst.status := if st.lastError.Some? then InstanceFailed else InstanceCompleted;
      return Stop(Run(Concluded(st), st.log, st.trace)), visited';
    }
    visited' := visited' + multiset{id};
    if visited'[id] > max {
      inst.status := InstanceFailed;
      return Stop(Run(Result(Failed, None, Some(MaxVisits(id)), st.results), st.log, st.trace)), visited';
    }
    p := SessionExecute(inst, def, env, max, st, def.nodes[id]);
  }

  lemma {:induction false} ChoiceComesFromKey(def: Def, env: Env, edges: seq<Edge>, facts: map<string, Value>,
                                              log: seq<Call>)
    requires WellFormed(def)
    ensures var next := ChooseNext(def, env, edges, facts, log).0;
            next.Goto? && next.node.Some? ==> next.node == GetNode(def, next.node.value.id)
  {
    if edges != [] && edges[0].condition != "" {
      ChoiceComesFromKey(def, env, edges[1..], facts, log);
      ChoiceComesFromKey(def, env, edges[1..], facts, log + [Cond(edges[0].condition, facts)]);
    }
  }

  lemma NextComesFromKey(def: Def, env: Env, id: string, output: Value, previous: map<string, Value>, log: seq<Call>)
    ensures var next := FindNext(def, env, id, output, previous, log).0;
            WellFormed(def) && next.Goto? && next.node.Some? ==> next.node == GetNode(def, next.node.value.id)
  {
    if WellFormed(def) {
      ChoiceComesFromKey(def, env, Outgoing(def.edges, id), ConditionFacts(output, previous), log);
    }
  }

  /**
    From a fresh session the run is the plain executor's: same status, output,
    error, node results and calls. The session ends completed, failed or paused
    as the run does, lists its failed visits and its completed nodes, and
    remembers the last input and the last output of every node.
  */
  method ExecuteWithSession(def: Def, env: Env, max: int, input: Value)
    returns (run: Run, start: Option<Node>, inst: WorkflowInstance)
    ensures start.Some? ==> start.value.id in Ids(def)
    ensures WellFormed(def) ==> IsStartNode(def, start)
    ensures Comparable(def, env) ==> run == RunFrom(def, env, max, start, input)
    ensures start.Some? ==> Agrees(inst.status, run.result.status) && Recorded(inst, def, run.trace)
  {
    inst := new WorkflowInstance();
    start := FindStartNode(def);
    if start.None? {
      return Run(Result(Failed, None, Some(NoStart), map[]), [], []), start, inst;
    }
    inst.SetCurrentNode(start.value.id);
    var st, visited := Initially(start.value, input), multiset{};
    st := st.(node := GetNode(def, inst.currentNodeID));
    ghost var comparable := Comparable(def, env);
    if comparable {
      StartIsKeyed(def, start);
    }
    while true
      invariant WithinVisits(def, max, visited) && Recorded(inst, def, st.trace)
      invariant comparable ==>
                  && InStep(def, env, inst, st, visited) && Sane(def, max, st)
                  && Walk(def, env, max, st) == RunFrom(def, env, max, start, input)
      decreases Positive(max) * |def.nodes| - |visited|
    {
      BoundedMultiset(visited, def.nodes.Keys, max);
      var p;
      p, visited := SessionVisit(inst, def, env, max, st, visited);
      if p.Stop? {
        return p.run, start, inst;
      }
      BoundedMultiset(visited, def.nodes.Keys, max);
      if comparable {
        StepStaysSane(def, env, max, st);
      }
      st := p.state;
    }
  }

  lemma StartIsKeyed(def: Def, start: Option<Node>)
    requires WellFormed(def) && IsStartNode(def, start) && start.Some?
    ensures start == GetNode(def, start.value.id)
  {
  }
}

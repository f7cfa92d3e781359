/**
  The workflow walk: a graph of nodes and edges, executed one node at a time
  with retries, visit limits and error edges.

  The agent finder, the node executor, the condition evaluator and the context
  are one environment that may answer each call according to everything called
  before it. A walk is a function of the definition and the environment; the
  plain executor, the session-backed executor and the executor of an agent
  system's workflows are all proved against it.
*/
module WorkflowModel {
  import opened Common

  datatype Node = Node(id: string, role: string)

  datatype Edge = Edge(from: string, to: string, condition: string)

  datatype Def = Def(root: string, nodes: map<string, Node>, edges: seq<Edge>)

  type Value = string

  datatype Error = ExecError(msg: string) | NoAgent(role: string) | ContextDone | MaxVisits(node: string) | NoStart

  /** One call out of the executor. */
  datatype Call =
    | FindAgent(role: string)
    | Exec(node: Node, input: Value, agent: string)
    | Cond(condition: string, facts: map<string, Value>)

  datatype ExecAnswer = Output(value: Value) | ExecFailed(msg: string)

  datatype CondAnswer = Approved | Rejected | CondFailed(msg: string)

  /**
    What each call answers, given all calls so far with itself last; whether
    the context is done at a poll or during a back-off; whether there is a
    condition evaluator at all; and whether a node fails when no agent is found.
  */
  datatype Env = Env(
    agent: seq<Call> -> Option<string>,
    exec: seq<Call> -> ExecAnswer,
    cond: seq<Call> -> CondAnswer,
    done: seq<Call> -> bool,
    interrupted: seq<Call> -> bool,
    hasConditions: bool,
    needsAgent: bool)

  datatype NodeResult = NodeResult(
    node: string, agent: string, input: Value, output: Value, error: Option<Error>, retries: nat)

  datatype Status = Completed | Failed | Cancelled

  datatype Result = Result(
    status: Status, output: Option<Value>, error: Option<Error>, results: map<string, NodeResult>)

  // ----- Lookups ---------------------------------------------------------

  function GetNode(def: Def, id: string): Option<Node> {
    if id in def.nodes then Some(def.nodes[id]) else None
  }

  function Outgoing(edges: seq<Edge>, id: string): seq<Edge> {
    if edges == [] then []
    else (if edges[0].from == id then [edges[0]] else []) + Outgoing(edges[1..], id)
  }

  predicate IsErrorEdge(e: Edge, id: string) {
    e.from == id && "error" <= e.condition
  }

  /** The first edge out of the node whose condition starts with "error". */
  function ErrorEdge(edges: seq<Edge>, id: string): Option<Edge> {
    if edges == [] then None
    else if IsErrorEdge(edges[0], id) then Some(edges[0])
    else ErrorEdge(edges[1..], id)
  }

  // ----- One node --------------------------------------------------------

  /** Executor calls for one node, from the given attempt on. */
  function Attempts(env: Env, max: int, node: Node, input: Value, agent: string, attempt: nat, log: seq<Call>)
    : (NodeResult, seq<Call>)
    requires attempt <= max
    decreases max - attempt
  {
    var log' := log + [Exec(node, input, agent)];
    match env.exec(log')
    case Output(v) => (NodeResult(node.id, agent, input, v, None, attempt), log')
    case ExecFailed(msg) =>
      if attempt == max then (NodeResult(node.id, agent, input, "", Some(ExecError(msg)), attempt), log')
      else if env.interrupted(log') then (NodeResult(node.id, agent, input, "", Some(ContextDone), attempt), log')
      else Attempts(env, max, node, input, agent, attempt + 1, log')
  }

  function ExecuteNode(env: Env, max: int, node: Node, input: Value, log: seq<Call>): (NodeResult, seq<Call>)
    requires 0 <= max
  {
    var log' := log + [FindAgent(node.role)];
    if env.needsAgent && env.agent(log').None? then
      (NodeResult(node.id, "", input, "", Some(NoAgent(node.role)), 0), log')
    else Attempts(env, max, node, input, GetOr(env.agent(log'), ""), 0, log')
  }

  // ----- The next node ---------------------------------------------------

  datatype Next = Goto(node: Option<Node>) | NextFailed(msg: string)

  function ConditionFacts(output: Value, previous: map<string, Value>): map<string, Value> {
    map["current_output" := output] + previous
  }

  function ChooseNext(def: Def, env: Env, edges: seq<Edge>, facts: map<string, Value>, log: seq<Call>)
    : (Next, seq<Call>)
  {
    if edges == [] then (Goto(None), log)
    else
      var e := edges[0];
      if e.condition == "" then (Goto(GetNode(def, e.to)), log)
      else if !env.hasConditions then ChooseNext(def, env, edges[1..], facts, log)
      else
        var log' := log + [Cond(e.condition, facts)];
        match env.cond(log')
        case CondFailed(msg) => (NextFailed(msg), log')
        case Approved => (Goto(GetNode(def, e.to)), log')
        case Rejected => ChooseNext(def, env, edges[1..], facts, log')
  }

  function FindNext(def: Def, env: Env, id: string, output: Value, previous: map<string, Value>, log: seq<Call>)
    : (Next, seq<Call>)
  {
    ChooseNext(def, env, Outgoing(def.edges, id), ConditionFacts(output, previous), log)
  }

  // ----- The walk --------------------------------------------------------

  /** The visits executed so far are `trace`; the others are the loop's variables. */
  datatype State = State(
    node: Option<Node>,
    input: Value,
    previous: map<string, Value>,
    results: map<string, NodeResult>,
    lastError: Option<Error>,
    log: seq<Call>,
    trace: seq<NodeResult>)

  datatype Run = Run(result: Result, log: seq<Call>, trace: seq<NodeResult>)

  datatype Progress = Stop(run: Run) | More(state: State)

  function Initially(start: Node, input: Value): State {
    State(Some(start), input, map[], map[], None, [], [])
  }

  function NodesOf(trace: seq<NodeResult>): seq<string> {
    seq(|trace|, i requires 0 <= i < |trace| => trace[i].node)
  }

  function Visits(trace: seq<NodeResult>, id: string): nat {
    multiset(NodesOf(trace))[id]
  }

  /** How a walk ends that ran out of nodes. */
  function Concluded(st: State): Result {
    if st.lastError.Some? then Result(Failed, None, st.lastError, st.results)
    else Result(Completed, Some(st.input), None, st.results)
  }

  function Step(def: Def, env: Env, max: int, st: State): Progress {
    if st.node.None? then Stop(Run(Concluded(st), st.log, st.trace))
    else if env.done(st.log) then
      Stop(Run(Result(Cancelled, None, Some(ContextDone), st.results), st.log, st.trace))
    else if Visits(st.trace, st.node.value.id) >= max then
      Stop(Run(Result(Failed, None, Some(MaxVisits(st.node.value.id)), st.results), st.log, st.trace))
    else Executed(def, env, max, st, st.node.value)
  }

  /** The node is executed and the walk moves along an edge or ends. */
  function Executed(def: Def, env: Env, max: int, st: State, node: Node): Progress
    requires 0 <= max
  {
    var (nr, log) := ExecuteNode(env, max, node, st.input, st.log);
    var st' := st.(results := st.results[node.id := nr], log := log, trace := st.trace + [nr]);
    if nr.error.Some? then AfterFailure(def, st'.(lastError := nr.error), node.id)
    else AfterSuccess(def, env, st'.(previous := st.previous[node.id := nr.output], input := nr.output), node.id)
  }

  function AfterFailure(def: Def, st: State, id: string): Progress {
    match ErrorEdge(def.edges, id)
    case None => Stop(Run(Result(Failed, None, None, st.results), st.log, st.trace))
    case Some(e) => More(st.(node := GetNode(def, e.to)))
  }

  function AfterSuccess(def: Def, env: Env, st: State, id: string): Progress {
    var (next, log) := FindNext(def, env, id, st.input, st.previous, st.log);
    match next
    case NextFailed(_) => Stop(Run(Result(Failed, None, None, st.results), log, st.trace))
    case Goto(None) => Stop(Run(Concluded(st), log, st.trace))
    case Goto(Some(n)) => More(st.(node := Some(n), log := log))
  }

  function Ids(def: Def): set<string> {
    set k | k in def.nodes :: def.nodes[k].id
  }

  /** The current node is one of the definition's and no node was visited too often. */
  ghost predicate Sane(def: Def, max: int, st: State) {
    && (st.node.Some? ==> st.node.value.id in Ids(def))
    && (forall id | id in NodesOf(st.trace) :: id in Ids(def) && Visits(st.trace, id) <= max)
  }

  function Positive(n: int): nat {
    if n < 0 then 0 else n
  }

  lemma {:induction false} BoundedMultiset(m: multiset<string>, ids: set<string>, max: int)
    requires forall x | x in m :: x in ids && m[x] <= max
    ensures |m| <= Positive(max) * |ids|
  {
    if ids == {} {
      assert m == multiset{};
    } else {
      var x :| x in ids;
      BoundedMultiset(m[x := 0], ids - {x}, max);
      SplitCount(m, x);
      OneMoreTime(Positive(max), |ids - {x}|);
      assert |ids| == |ids - {x}| + 1;
    }
  }

  lemma SplitCount(m: multiset<string>, x: string)
    ensures |m| == m[x] + |m[x := 0]|
  {
    assert m == m[x := 0] + multiset{}[x := m[x]];
  }

  lemma OneMoreTime(k: nat, n: nat)
    ensures k * (n + 1) == k * n + k
  {
  }

  lemma TraceIsBounded(def: Def, max: int, st: State)
    requires Sane(def, max, st)
    ensures |st.trace| <= Positive(max) * |Ids(def)|
  {
    BoundedMultiset(multiset(NodesOf(st.trace)), Ids(def), max);
    assert |multiset(NodesOf(st.trace))| == |NodesOf(st.trace)|;
  }

  lemma AttemptsNode(env: Env, max: int, node: Node, input: Value, agent: string, attempt: nat, log: seq<Call>)
    requires attempt <= max
    ensures Attempts(env, max, node, input, agent, attempt, log).0.node == node.id
    decreases max - attempt
  {
  }

  /** Each further step executes one more visit and stays within the limits. */
  lemma StepStaysSane(def: Def, env: Env, max: int, st: State)
    requires Sane(def, max, st) && Step(def, env, max, st).More?
    ensures Sane(def, max, Step(def, env, max, st).state)
    ensures |Step(def, env, max, st).state.trace| == |st.trace| + 1
  {
    var node := st.node.value;
    var st' := Step(def, env, max, st).state;
    var log' := st.log + [FindAgent(node.role)];
    AttemptsNode(env, max, node, st.input, GetOr(env.agent(log'), ""), 0, log');
    var nr := ExecuteNode(env, max, node, st.input, st.log).0;
    assert st'.trace == st.trace + [nr];
    assert NodesOf(st'.trace) == NodesOf(st.trace) + [node.id];
    NextIsDeclared(def, env, max, st);
  }

  lemma {:induction false} ChoiceIsDeclared(def: Def, env: Env, edges: seq<Edge>, facts: map<string, Value>,
                                            log: seq<Call>)
    ensures var next := ChooseNext(def, env, edges, facts, log).0;
            next.Goto? && next.node.Some? ==> next.node.value.id in Ids(def)
  {
    if edges != [] {
      var e := edges[0];
      if e.condition != "" {
        ChoiceIsDeclared(def, env, edges[1..], facts, log);
        ChoiceIsDeclared(def, env, edges[1..], facts, log + [Cond(e.condition, facts)]);
      }
    }
  }

  lemma NextIsDeclared(def: Def, env: Env, max: int, st: State)
    requires Step(def, env, max, st).More?
    ensures var st' := Step(def, env, max, st).state; st'.node.Some? ==> st'.node.value.id in Ids(def)
  {
    var node := st.node.value;
    var (nr, log) := ExecuteNode(env, max, node, st.input, st.log);
    if nr.error.None? {
      var previous := st.previous[node.id := nr.output];
      ChoiceIsDeclared(def, env, Outgoing(def.edges, node.id), ConditionFacts(nr.output, previous), log);
    }
  }

  /** The walk terminates on every graph: each round uses up one of finitely many visits. */
  function Walk(def: Def, env: Env, max: int, st: State): Run
    requires Sane(def, max, st)
    decreases Positive(max) * |Ids(def)| - |st.trace|
  {
    TraceIsBounded(def, max, st);
    match Step(def, env, max, st)
    case Stop(run) => run
    case More(st') =>
      StepStaysSane(def, env, max, st);
      TraceIsBounded(def, max, st');
      Walk(def, env, max, st')
  }

  /** A whole run from a start node, or the failure when there is none. */
  function RunFrom(def: Def, env: Env, max: int, start: Option<Node>, input: Value): Run
    requires start.Some? ==> start.value.id in Ids(def)
  {
    if start.None? then Run(Result(Failed, None, Some(NoStart), map[]), [], [])
    else Walk(def, env, max, Initially(start.value, input))
  }
}

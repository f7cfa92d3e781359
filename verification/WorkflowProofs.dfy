/** What every walk keeps to, and what a completed one means. */
module WorkflowProofs {
  import opened Common
  import opened WorkflowModel

  // ----- How much a walk can cost ----------------------------------------

  function ExecCalls(log: seq<Call>): nat {
    if log == [] then 0
    else ExecCalls(log[..|log| - 1]) + if log[|log| - 1].Exec? then 1 else 0
  }

  lemma OneMoreCall(log: seq<Call>, c: Call)
    ensures ExecCalls(log + [c]) == ExecCalls(log) + if c.Exec? then 1 else 0
  {
    assert (log + [c])[..|log|] == log;
  }

  lemma {:induction false} AttemptsAreBounded(env: Env, max: int, node: Node, input: Value, agent: string,
                                              attempt: nat, log: seq<Call>)
    requires attempt <= max
    ensures ExecCalls(Attempts(env, max, node, input, agent, attempt, log).1) <= ExecCalls(log) + max + 1 - attempt
    decreases max - attempt
  {
    var log' := log + [Exec(node, input, agent)];
    OneMoreCall(log, Exec(node, input, agent));
    if env.exec(log').ExecFailed? && attempt < max && !env.interrupted(log') {
      AttemptsAreBounded(env, max, node, input, agent, attempt + 1, log');
    }
  }

  lemma {:induction false} ChoosingExecutesNothing(def: Def, env: Env, edges: seq<Edge>, facts: map<string, Value>,
                                                   log: seq<Call>)
    ensures ExecCalls(ChooseNext(def, env, edges, facts, log).1) == ExecCalls(log)
  {
    if edges != [] && edges[0].condition != "" {
      if !env.hasConditions {
        ChoosingExecutesNothing(def, env, edges[1..], facts, log);
      } else {
        var c := Cond(edges[0].condition, facts);
        OneMoreCall(log, c);
        if env.cond(log + [c]).Rejected? {
          ChoosingExecutesNothing(def, env, edges[1..], facts, log + [c]);
        }
      }
    }
  }

  /** Visits and executor calls of a trace stay within the retry limit. */
  ghost predicate WithinLimits(def: Def, max: int, log: seq<Call>, trace: seq<NodeResult>) {
    && (forall id | id in NodesOf(trace) :: id in Ids(def) && Visits(trace, id) <= max)
    && ExecCalls(log) <= Positive(max + 1) * |trace|
  }

  function TraceOf(p: Progress): seq<NodeResult> {
    if p.Stop? then p.run.trace else p.state.trace
  }

  function LogOf(p: Progress): seq<Call> {
    if p.Stop? then p.run.log else p.state.log
  }

  lemma NodeCostIsBounded(env: Env, max: int, node: Node, input: Value, log: seq<Call>)
    requires 0 <= max
    ensures var (nr, log') := ExecuteNode(env, max, node, input, log);
            nr.node == node.id && ExecCalls(log') <= ExecCalls(log) + max + 1
  {
    var found := log + [FindAgent(node.role)];
    OneMoreCall(log, FindAgent(node.role));
    AttemptsNode(env, max, node, input, GetOr(env.agent(found), ""), 0, found);
    AttemptsAreBounded(env, max, node, input, GetOr(env.agent(found), ""), 0, found);
  }

  lemma SuccessExecutesNothing(def: Def, env: Env, st: State, id: string)
    ensures var p := AfterSuccess(def, env, st, id);
            TraceOf(p) == st.trace && ExecCalls(LogOf(p)) == ExecCalls(st.log)
  {
    ChoosingExecutesNothing(def, env, Outgoing(def.edges, id), ConditionFacts(st.input, st.previous), st.log);
  }

  lemma OneMoreVisit(def: Def, max: int, log: seq<Call>, trace: seq<NodeResult>, log': seq<Call>, nr: NodeResult)
    requires WithinLimits(def, max, log, trace)
    requires nr.node in Ids(def) && Visits(trace, nr.node) < max && ExecCalls(log') <= ExecCalls(log) + max + 1
    ensures WithinLimits(def, max, log', trace + [nr])
  {
    assert NodesOf(trace + [nr]) == NodesOf(trace) + [nr.node];
    OneMoreTime(Positive(max + 1), |trace|);
  }

  lemma StepStaysWithinLimits(def: Def, env: Env, max: int, st: State)
    requires Sane(def, max, st) && WithinLimits(def, max, st.log, st.trace)
    ensures var p := Step(def, env, max, st); WithinLimits(def, max, LogOf(p), TraceOf(p))
  {
    if st.node.Some? && !env.done(st.log) && Visits(st.trace, st.node.value.id) < max {
      var node := st.node.value;
      NodeCostIsBounded(env, max, node, st.input, st.log);
      var (nr, log) := ExecuteNode(env, max, node, st.input, st.log);
      var st' := st.(results := st.results[node.id := nr], log := log, trace := st.trace + [nr]);
      if nr.error.None? {
        var previous := st.previous[node.id := nr.output];
        SuccessExecutesNothing(def, env, st'.(previous := previous, input := nr.output), node.id);
      }
      OneMoreVisit(def, max, st.log, st.trace, LogOf(Step(def, env, max, st)), nr);
    }
  }

  lemma {:induction false} WalkStaysWithinLimits(def: Def, env: Env, max: int, st: State)
    requires Sane(def, max, st) && WithinLimits(def, max, st.log, st.trace)
    ensures var run := Walk(def, env, max, st); WithinLimits(def, max, run.log, run.trace)
    decreases Positive(max) * |Ids(def)| - |st.trace|
  {
    StepStaysWithinLimits(def, env, max, st);
    var p := Step(def, env, max, st);
    if p.More? {
      TraceIsBounded(def, max, st);
      StepStaysSane(def, env, max, st);
      TraceIsBounded(def, max, p.state);
      WalkStaysWithinLimits(def, env, max, p.state);
    }
  }

  lemma {:induction false} ImageIsNoLarger(keys: set<string>, nodes: map<string, Node>)
    requires keys <= nodes.Keys
    ensures |set k | k in keys :: nodes[k].id| <= |keys|
  {
    if keys != {} {
      var k :| k in keys;
      ImageIsNoLarger(keys - {k}, nodes);
      var less := set j | j in keys - {k} :: nodes[j].id;
      assert (set j | j in keys :: nodes[j].id) == less + {nodes[k].id};
    }
  }

  /**
    On any graph, cyclic or not, every run executes each node at most `max`
    times and calls the executor at most max * (max + 1) times per node of the
    definition.
  */
  lemma RunIsBounded(def: Def, env: Env, max: int, start: Option<Node>, input: Value)
    requires start.Some? ==> start.value.id in Ids(def)
    ensures var run := RunFrom(def, env, max, start, input);
            && (forall id :: Visits(run.trace, id) <= Positive(max))
            && |run.trace| <= Positive(max) * |def.nodes|
            && ExecCalls(run.log) <= Positive(max) * Positive(max + 1) * |def.nodes|
  {
    var run := RunFrom(def, env, max, start, input);
    if start.Some? {
      WalkStaysWithinLimits(def, env, max, Initially(start.value, input));
    }
    LimitsInNodes(def, max, run);
  }

  lemma LimitsInNodes(def: Def, max: int, run: Run)
    requires WithinLimits(def, max, run.log, run.trace)
    ensures forall id :: Visits(run.trace, id) <= Positive(max)
    ensures |run.trace| <= Positive(max) * |def.nodes|
    ensures ExecCalls(run.log) <= Positive(max) * Positive(max + 1) * |def.nodes|
  {
    BoundedMultiset(multiset(NodesOf(run.trace)), Ids(def), max);
    assert |multiset(NodesOf(run.trace))| == |run.trace|;
    ImageIsNoLarger(def.nodes.Keys, def.nodes);
    assert Ids(def) == set k | k in def.nodes.Keys :: def.nodes[k].id;
    Compose(ExecCalls(run.log), |run.trace|, |Ids(def)|, |def.nodes|, Positive(max + 1), Positive(max));
  }

  lemma Compose(calls: nat, visits: nat, ids: nat, nodes: nat, k: nat, m: nat)
    requires calls <= k * visits && visits <= m * ids && ids <= nodes
    ensures visits <= m * nodes && calls <= m * k * nodes
  {
    Scale(ids, nodes, m);
    Scale(visits, m * nodes, k);
    assert k * (m * nodes) == m * k * nodes;
  }

  lemma Scale(a: nat, b: nat, k: nat)
    requires a <= b
    ensures k * a <= k * b
  {
  }

  /** Every node is listed under its own id. */
  predicate Keyed(def: Def) {
    forall k | k in def.nodes :: def.nodes[k].id == k
  }

  // ----- The calls of one visit ------------------------------------------

  /** The log after `n` more calls of the same kind. */
  function Calling(log: seq<Call>, c: Call, n: nat): seq<Call> {
    log + seq(n, _ => c)
  }

  /** The attempt that ends this log failed, and the back-off after it was not cut short. */
  predicate TriedAgain(env: Env, log: seq<Call>) {
    env.exec(log).ExecFailed? && !env.interrupted(log)
  }

  /** The attempt that ends this log is the last: it succeeded, or no retry was left, or the back-off was cut short. */
  predicate LastAttempt(env: Env, max: int, nr: NodeResult, log: seq<Call>) {
    match env.exec(log)
    case Output(v) => nr.output == v && nr.error.None?
    case ExecFailed(msg) =>
      && nr.output == ""
      && if nr.retries == max then nr.error == Some(ExecError(msg))
         else env.interrupted(log) && nr.error == Some(ContextDone)
  }

  /**
    From `log` to `log'` the node was executed once: its agent was looked up,
    and then the executor was called until it succeeded, at most `max` times
    more. Where an agent is needed and none is found, the node fails at once.
  */
  predicate Ran(env: Env, max: int, node: Node, input: Value, nr: NodeResult, log: seq<Call>, log': seq<Call>) {
    var found := log + [FindAgent(node.role)];
    && nr.node == node.id && nr.input == input
    && if env.needsAgent && env.agent(found).None? then
         log' == found && nr == NodeResult(node.id, "", input, "", Some(NoAgent(node.role)), 0)
       else
         && nr.agent == GetOr(env.agent(found), "")
         && Attempted(env, max, Exec(node, input, nr.agent), 0, nr, found, log')
  }

  /** The call was made for attempts `attempt` to `nr.retries`, each but the last failing. */
  predicate Attempted(env: Env, max: int, call: Call, attempt: nat, nr: NodeResult, log: seq<Call>, log': seq<Call>) {
    && attempt <= nr.retries <= max
    && log' == Calling(log, call, nr.retries - attempt + 1)
    && (forall n: nat | 1 <= n <= nr.retries - attempt :: TriedAgain(env, Calling(log, call, n)))
    && LastAttempt(env, max, nr, log')
  }

  lemma {:induction false} AttemptsAreExplained(env: Env, max: int, node: Node, input: Value, agent: string,
                                                attempt: nat, log: seq<Call>)
    requires attempt <= max
    ensures var (nr, log') := Attempts(env, max, node, input, agent, attempt, log);
            && nr.node == node.id && nr.input == input && nr.agent == agent
            && Attempted(env, max, Exec(node, input, agent), attempt, nr, log, log')
    decreases max - attempt
  {
    var call := Exec(node, input, agent);
    var once := log + [call];
    var nr := Attempts(env, max, node, input, agent, attempt, log).0;
    assert Calling(log, call, 1) == once;
    if TriedAgain(env, once) && attempt < max {
      AttemptsAreExplained(env, max, node, input, agent, attempt + 1, once);
      forall n: nat | n <= nr.retries - attempt ensures Calling(once, call, n) == Calling(log, call, n + 1) {}
      forall n: nat | 1 <= n <= nr.retries - attempt ensures TriedAgain(env, Calling(log, call, n)) {
        if n > 1 {
          assert TriedAgain(env, Calling(once, call, n - 1));
        }
      }
    }
  }

  /** Executing a node makes exactly these calls and has exactly this result. */
  lemma NodeIsExplained(env: Env, max: int, node: Node, input: Value, log: seq<Call>)
    requires 0 <= max
    ensures var (nr, log') := ExecuteNode(env, max, node, input, log); Ran(env, max, node, input, nr, log, log')
  {
    var found := log + [FindAgent(node.role)];
    AttemptsAreExplained(env, max, node, input, GetOr(env.agent(found), ""), 0, found);
  }

  // ----- How a visit is left ---------------------------------------------

  /** Along the edge at an index, or along none, or not at all because the condition of an edge failed. */
  datatype Leave = Along(k: nat) | Nowhere | Undecided(k: nat)

  /** The conditions of the edges out of the node, as questions in list order. */
  function Asked(env: Env, edges: seq<Edge>, id: string, facts: map<string, Value>): seq<Call> {
    if edges == [] then []
    else
      var e := edges[|edges| - 1];
      Asked(env, edges[..|edges| - 1], id, facts) +
      if e.from == id && e.condition != "" && env.hasConditions then [Cond(e.condition, facts)] else []
  }

  /** The call at this place was answered with a rejection. */
  predicate RejectedAt(env: Env, log: seq<Call>, i: nat)
    requires i < |log|
  {
    env.cond(log[..i + 1]) == Rejected
  }

  /** So was every call after the first `n`. */
  predicate AllRejected(env: Env, log: seq<Call>, n: nat) {
    forall i | n <= i < |log| :: RejectedAt(env, log, i)
  }

  /**
    None of these edges was taken: all those out of the node have a condition,
    and, unless there is no evaluator, all of these were asked and rejected.
  */
  predicate PassedOver(env: Env, edges: seq<Edge>, id: string, facts: map<string, Value>, log: seq<Call>,
                       log': seq<Call>)
  {
    && (forall e | e in edges :: e.from == id ==> e.condition != "")
    && log' == log + Asked(env, edges, id, facts)
    && AllRejected(env, log', |log|)
  }

  /** The condition of the edge was asked about last. */
  predicate AskedLast(env: Env, e: Edge, facts: map<string, Value>, log: seq<Call>, log': seq<Call>) {
    e.condition != "" && env.hasConditions && log' == log + [Cond(e.condition, facts)]
  }

  /** The first edge out of the node that is unconditional or approved decides. */
  predicate LeftAfterSuccess(env: Env, edges: seq<Edge>, id: string, facts: map<string, Value>, log: seq<Call>,
                             log': seq<Call>, leave: Leave)
  {
    match leave
    case Nowhere => PassedOver(env, edges, id, facts, log, log')
    case _ =>
      && leave.k < |edges| && edges[leave.k].from == id
      && var e, before := edges[leave.k], log + Asked(env, edges[..leave.k], id, facts);
         && PassedOver(env, edges[..leave.k], id, facts, log, before)
         && if leave.Undecided? then AskedLast(env, e, facts, before, log') && env.cond(log').CondFailed?
            else
              || (e.condition == "" && log' == before)
              || (AskedLast(env, e, facts, before, log') && env.cond(log') == Approved)
  }

  predicate HandlesError(e: Edge, id: string) {
    e.from == id && |e.condition| >= 5 && e.condition[..5] == "error"
  }

  /** The first edge out of the node whose condition begins with "error" decides, and nothing is asked. */
  predicate LeftAfterFailure(edges: seq<Edge>, id: string, leave: Leave) {
    match leave
    case Along(k) =>
      && k < |edges| && HandlesError(edges[k], id)
      && forall j | 0 <= j < k :: !HandlesError(edges[j], id)
    case Nowhere => forall e | e in edges :: !HandlesError(e, id)
    case Undecided(_) => false
  }

  predicate Left(def: Def, env: Env, nr: NodeResult, facts: map<string, Value>, log: seq<Call>, log': seq<Call>,
                 leave: Leave)
  {
    if nr.error.None? then LeftAfterSuccess(env, def.edges, nr.node, facts, log, log', leave)
    else log' == log && LeftAfterFailure(def.edges, nr.node, leave)
  }

  /** Where the walk goes that is left this way. */
  function Target(def: Def, leave: Leave): Option<Node> {
    if leave.Along? && leave.k < |def.edges| && def.edges[leave.k].to in def.nodes
    then Some(def.nodes[def.edges[leave.k].to]) else None
  }

  lemma PassOne(env: Env, edges: seq<Edge>, k: nat, id: string, facts: map<string, Value>, log: seq<Call>)
    requires k < |edges| && (edges[k].from == id ==> edges[k].condition != "")
    requires PassedOver(env, edges[..k], id, facts, log, log + Asked(env, edges[..k], id, facts))
    requires edges[k].from == id && env.hasConditions ==>
               env.cond(log + Asked(env, edges[..k], id, facts) + [Cond(edges[k].condition, facts)]) == Rejected
    ensures PassedOver(env, edges[..k + 1], id, facts, log, log + Asked(env, edges[..k + 1], id, facts))
    ensures log + Asked(env, edges[..k + 1], id, facts) ==
              log + Asked(env, edges[..k], id, facts) +
              if edges[k].from == id && env.hasConditions then [Cond(edges[k].condition, facts)] else []
  {
    var before, after := log + Asked(env, edges[..k], id, facts), log + Asked(env, edges[..k + 1], id, facts);
    assert edges[..k + 1][..k] == edges[..k];
    if edges[k].from == id && env.hasConditions {
      assert after == before + [Cond(edges[k].condition, facts)];
      forall i | |log| <= i < |after| ensures RejectedAt(env, after, i) {
        if i < |before| {
          assert after[..i + 1] == before[..i + 1] && RejectedAt(env, before, i);
        } else {
          assert after[..i + 1] == after;
        }
      }
    } else {
      assert after == before;
    }
  }

  /**
    The choice of the next node takes the first edge, in list order, that is
    unconditional or whose condition is approved. Every condition before it was
    rejected, if there is an evaluator, and none is asked after it.
  */
  lemma {:induction false} ChoiceIsFirstApproved(def: Def, env: Env, id: string, facts: map<string, Value>,
                                                 log: seq<Call>, i: nat) returns (leave: Leave)
    requires i <= |def.edges|
    requires PassedOver(env, def.edges[..i], id, facts, log, log + Asked(env, def.edges[..i], id, facts))
    ensures var before := log + Asked(env, def.edges[..i], id, facts);
            var (next, log') := ChooseNext(def, env, Outgoing(def.edges[i..], id), facts, before);
            && LeftAfterSuccess(env, def.edges, id, facts, log, log', leave)
            && next.NextFailed? == leave.Undecided?
            && (next.Goto? ==> next.node == Target(def, leave))
    decreases |def.edges| - i
  {
    var before := log + Asked(env, def.edges[..i], id, facts);
    if i == |def.edges| {
      assert def.edges[..i] == def.edges && def.edges[i..] == [];
      return Nowhere;
    }
    var e := def.edges[i];
    var asked := before + [Cond(e.condition, facts)];
    if e.from == id && (e.condition == "" || (env.hasConditions && env.cond(asked) == Approved)) {
      OutgoingFrom(def.edges, i, id);
      leave := Along(i);
    } else if e.from == id && env.hasConditions && env.cond(asked).CondFailed? {
      OutgoingFrom(def.edges, i, id);
      leave := Undecided(i);
    } else {
      PassOne(env, def.edges, i, id, facts, log);
      ChoosePast(def, env, i, id, facts, before);
      leave := ChoiceIsFirstApproved(def, env, id, facts, log, i + 1);
    }
  }

  /** An edge that is not taken leaves the choice to the later ones. */
  lemma ChoosePast(def: Def, env: Env, i: nat, id: string, facts: map<string, Value>, log: seq<Call>)
    requires i < |def.edges|
    requires var e := def.edges[i];
             e.from == id ==> e.condition != "" && (env.hasConditions ==>
               env.cond(log + [Cond(e.condition, facts)]) == Rejected)
    ensures var e := def.edges[i];
            ChooseNext(def, env, Outgoing(def.edges[i..], id), facts, log) ==
            ChooseNext(def, env, Outgoing(def.edges[i + 1..], id), facts,
                       log + if e.from == id && env.hasConditions then [Cond(e.condition, facts)] else [])
  {
    OutgoingFrom(def.edges, i, id);
    assert log + [] == log;
  }

  lemma OutgoingFrom(edges: seq<Edge>, i: nat, id: string)
    requires i < |edges|
    ensures var all, rest := Outgoing(edges[i..], id), Outgoing(edges[i + 1..], id);
            if edges[i].from == id then all != [] && all[0] == edges[i] && all[1..] == rest else all == rest
  {
    assert edges[i..][1..] == edges[i + 1..];
  }

  /** The error edge is the first one whose condition begins with "error". */
  lemma {:induction false} ErrorEdgeIsFirst(edges: seq<Edge>, id: string) returns (leave: Leave)
    ensures LeftAfterFailure(edges, id, leave)
    ensures ErrorEdge(edges, id) == if leave.Along? then Some(edges[leave.k]) else None
  {
    leave := Nowhere;
    if edges != [] {
      if HandlesError(edges[0], id) {
        leave := Along(0);
      } else {
        var later := ErrorEdgeIsFirst(edges[1..], id);
        leave := if later.Along? then Along(later.k + 1) else Nowhere;
      }
    }
  }

  // ----- Whole runs ------------------------------------------------------

  /** The output of the last successful visit of each node. */
  function Outputs(trace: seq<NodeResult>): map<string, Value> {
    if trace == [] then map[]
    else
      var nr := trace[|trace| - 1];
      Outputs(trace[..|trace| - 1]) + if nr.error.None? then map[nr.node := nr.output] else map[]
  }

  /** The last visit of each node. */
  function Results(trace: seq<NodeResult>): map<string, NodeResult> {
    if trace == [] then map[]
    else
      var nr := trace[|trace| - 1];
      Results(trace[..|trace| - 1]) + map[nr.node := nr]
  }

  /** The error of the last visit that failed. */
  function LastError(trace: seq<NodeResult>): Option<Error> {
    if trace == [] then None
    else
      var nr := trace[|trace| - 1];
      if nr.error.Some? then nr.error else LastError(trace[..|trace| - 1])
  }

  /** What conditions may use: the outputs so far, and the current one unless a node has that name. */
  function FactsAfter(trace: seq<NodeResult>): map<string, Value>
    requires trace != []
  {
    map["current_output" := trace[|trace| - 1].output] + Outputs(trace)
  }

  /** What a visit hands on: its output, or its own input if it failed. */
  function HandedOn(nr: NodeResult): Value {
    if nr.error.None? then nr.output else nr.input
  }

  /** How long the log was after the node ran and after the next one was chosen, and how the visit was left. */
  datatype Move = Move(ran: nat, left: nat, leave: Leave)

  /** The node that is next after the first `i` visits, with its input and the log up to there. */
  function NodeAt(def: Def, start: Node, moves: seq<Move>, i: nat): Option<Node>
    requires i <= |moves|
  {
    if i == 0 then Some(start) else Target(def, moves[i - 1].leave)
  }

  function InputAt(input: Value, trace: seq<NodeResult>, i: nat): Value
    requires i <= |trace|
  {
    if i == 0 then input else HandedOn(trace[i - 1])
  }

  function LogAt(moves: seq<Move>, i: nat): nat
    requires i <= |moves|
  {
    if i == 0 then 0 else moves[i - 1].left
  }

  /** One visit in its place: the walk was not done, the node not used up, and its calls are in the log. */
  predicate Visited(def: Def, env: Env, max: int, node: Option<Node>, input: Value, trace: seq<NodeResult>,
                    log: seq<Call>, from: nat, move: Move)
    requires trace != []
  {
    var n := |trace| - 1;
    && from <= move.ran <= move.left <= |log|
    && node.Some?
    && !env.done(log[..from]) && Visits(trace[..n], node.value.id) < max
    && Ran(env, max, node.value, input, trace[n], log[..from], log[..move.ran])
    && Left(def, env, trace[n], FactsAfter(trace), log[..move.ran], log[..move.left], move.leave)
  }

  predicate VisitedAt(def: Def, env: Env, max: int, start: Node, input: Value, trace: seq<NodeResult>, log: seq<Call>,
                      moves: seq<Move>, i: nat)
    requires i < |trace| == |moves|
  {
    Visited(def, env, max, NodeAt(def, start, moves, i), InputAt(input, trace, i), trace[..i + 1], log,
            LogAt(moves, i), moves[i])
  }

  /** The visits of the trace account for the whole log, one after the other. */
  predicate Retraced(def: Def, env: Env, max: int, start: Node, input: Value, trace: seq<NodeResult>, log: seq<Call>,
                     moves: seq<Move>)
  {
    && |moves| == |trace| && |log| == LogAt(moves, |moves|)
    && forall i | 0 <= i < |trace| :: VisitedAt(def, env, max, start, input, trace, log, moves, i)
  }

  /**
    How a run ends. With a node still to visit, the context was done or the
    node was used up. Without one it fails if the last visit failed and has no
    error edge, or if a condition failed, or if any visit failed; and otherwise
    it is completed with the last output.
  */
  predicate Concludes(def: Def, env: Env, max: int, start: Node, run: Run, moves: seq<Move>)
    requires |moves| == |run.trace|
  {
    var n := |run.trace|;
    var next, results := NodeAt(def, start, moves, n), Results(run.trace);
    run.result ==
      if next.Some? && env.done(run.log) then Result(Cancelled, None, Some(ContextDone), results)
      else if next.Some? then Result(Failed, None, Some(MaxVisits(next.value.id)), results)
      else if moves[n - 1].leave.Undecided? || (run.trace[n - 1].error.Some? && moves[n - 1].leave.Nowhere?)
      then Result(Failed, None, None, results)
      else if LastError(run.trace).Some? then Result(Failed, None, LastError(run.trace), results)
      else Result(Completed, Some(run.trace[n - 1].output), None, results)
  }

  ghost predicate Explained(def: Def, env: Env, max: int, start: Node, input: Value, run: Run) {
    exists moves :: ExplainedBy(def, env, max, start, input, run, moves)
  }

  predicate ExplainedBy(def: Def, env: Env, max: int, start: Node, input: Value, run: Run, moves: seq<Move>) {
    && Retraced(def, env, max, start, input, run.trace, run.log, moves)
    && Concludes(def, env, max, start, run, moves)
    && var next := NodeAt(def, start, moves, |moves|);
       next.Some? && !env.done(run.log) ==> Visits(run.trace, next.value.id) >= max
  }

  /** What holds between two rounds of the walk. */
  predicate OnTrack(def: Def, env: Env, max: int, start: Node, input: Value, st: State, moves: seq<Move>) {
    && Retraced(def, env, max, start, input, st.trace, st.log, moves)
    && st.node == NodeAt(def, start, moves, |moves|)
    && st.input == InputAt(input, st.trace, |st.trace|)
    && st.previous == Outputs(st.trace) && st.results == Results(st.trace) && st.lastError == LastError(st.trace)
    && (st.trace != [] && st.node.None? ==> moves[|moves| - 1].leave.Along?)
  }

  /** What was visited before stays visited when the trace grows. */
  lemma StillVisited(def: Def, env: Env, max: int, start: Node, input: Value, trace: seq<NodeResult>, log: seq<Call>,
                     moves: seq<Move>, nr: NodeResult, log': seq<Call>, move: Move, i: nat)
    requires Retraced(def, env, max, start, input, trace, log, moves) && i < |trace| && log <= log'
    ensures VisitedAt(def, env, max, start, input, trace + [nr], log', moves + [move], i)
  {
    assert VisitedAt(def, env, max, start, input, trace, log, moves, i);
    assert (trace + [nr])[..i + 1] == trace[..i + 1];
    assert moves[i].left <= |log|;
    assert log'[..LogAt(moves, i)] == log[..LogAt(moves, i)];
    assert log'[..moves[i].ran] == log[..moves[i].ran] && log'[..moves[i].left] == log[..moves[i].left];
  }

  lemma RetraceOne(def: Def, env: Env, max: int, start: Node, input: Value, trace: seq<NodeResult>, log: seq<Call>,
                   moves: seq<Move>, nr: NodeResult, log': seq<Call>, move: Move)
    requires Retraced(def, env, max, start, input, trace, log, moves) && log <= log' && move.left == |log'|
    requires VisitedAt(def, env, max, start, input, trace + [nr], log', moves + [move], |trace|)
    ensures Retraced(def, env, max, start, input, trace + [nr], log', moves + [move])
  {
    var trace', moves' := trace + [nr], moves + [move];
    forall i | 0 <= i < |trace'| ensures VisitedAt(def, env, max, start, input, trace', log', moves', i) {
      if i < |trace| {
        StillVisited(def, env, max, start, input, trace, log, moves, nr, log', move, i);
      }
    }
  }

  lemma LastVisited(def: Def, env: Env, max: int, start: Node, input: Value, trace: seq<NodeResult>, log: seq<Call>,
                    moves: seq<Move>, nr: NodeResult, ran: seq<Call>, log': seq<Call>, leave: Leave)
    requires |moves| == |trace| && |log| == LogAt(moves, |moves|) && log <= ran <= log'
    requires var node := NodeAt(def, start, moves, |moves|);
             && node.Some? && !env.done(log) && Visits(trace, node.value.id) < max
             && Ran(env, max, node.value, InputAt(input, trace, |trace|), nr, log, ran)
    requires Left(def, env, nr, FactsAfter(trace + [nr]), ran, log', leave)
    ensures VisitedAt(def, env, max, start, input, trace + [nr], log', moves + [Move(|ran|, |log'|, leave)], |trace|)
  {
    var trace', moves' := trace + [nr], moves + [Move(|ran|, |log'|, leave)];
    var n := |trace|;
    var node := NodeAt(def, start, moves, n).value;
    VisitFits(def, env, max, node, InputAt(input, trace, n), trace, nr, log, ran, log', leave);
    assert trace'[..n + 1] == trace';
    assert NodeAt(def, start, moves', n) == NodeAt(def, start, moves, n);
    assert InputAt(input, trace', n) == InputAt(input, trace, n) && LogAt(moves', n) == LogAt(moves, n);
  }

  lemma VisitFits(def: Def, env: Env, max: int, node: Node, input: Value, trace: seq<NodeResult>, nr: NodeResult,
                  log: seq<Call>, ran: seq<Call>, log': seq<Call>, leave: Leave)
    requires log <= ran <= log' && !env.done(log) && Visits(trace, node.id) < max
    requires Ran(env, max, node, input, nr, log, ran)
    requires Left(def, env, nr, FactsAfter(trace + [nr]), ran, log', leave)
    ensures Visited(def, env, max, Some(node), input, trace + [nr], log', |log|, Move(|ran|, |log'|, leave))
  {
    assert (trace + [nr])[..|trace|] == trace;
    assert log'[..|log|] == log && log'[..|ran|] == ran && log'[..|log'|] == log';
  }

  lemma OneMoreResult(trace: seq<NodeResult>, nr: NodeResult)
    ensures Outputs(trace + [nr]) == if nr.error.None? then Outputs(trace)[nr.node := nr.output] else Outputs(trace)
    ensures Results(trace + [nr]) == Results(trace)[nr.node := nr]
    ensures LastError(trace + [nr]) == if nr.error.Some? then nr.error else LastError(trace)
  {
    assert (trace + [nr])[..|trace|] == trace;
  }

  lemma FactsAreKnown(trace: seq<NodeResult>, nr: NodeResult)
    requires nr.error.None?
    ensures ConditionFacts(nr.output, Outputs(trace)[nr.node := nr.output]) == FactsAfter(trace + [nr])
  {
    OneMoreResult(trace, nr);
  }

  lemma RanExtends(env: Env, max: int, node: Node, input: Value, nr: NodeResult, log: seq<Call>, log': seq<Call>)
    requires Ran(env, max, node, input, nr, log, log')
    ensures log <= log'
  {
  }

  /** The round after a visit that failed; `st` is the state before it. */
  lemma FailureIsExplained(def: Def, env: Env, max: int, start: Node, input: Value, st: State, moves: seq<Move>,
                           nr: NodeResult, ran: seq<Call>) returns (moves': seq<Move>)
    requires OnTrack(def, env, max, start, input, st, moves) && st.node.Some? && nr.error.Some?
    requires !env.done(st.log) && Visits(st.trace, st.node.value.id) < max
    requires Ran(env, max, st.node.value, st.input, nr, st.log, ran)
    ensures var st' := st.(results := st.results[nr.node := nr], log := ran, trace := st.trace + [nr],
                           lastError := nr.error);
            match AfterFailure(def, st', nr.node)
            case Stop(run) => ExplainedBy(def, env, max, start, input, run, moves')
            case More(st'') => OnTrack(def, env, max, start, input, st'', moves')
  {
    var leave;
    leave, moves' := FailureIsRetraced(def, env, max, start, input, st, moves, nr, ran);
    OneMoreResult(st.trace, nr);
  }

  lemma FailureIsRetraced(def: Def, env: Env, max: int, start: Node, input: Value, st: State, moves: seq<Move>,
                          nr: NodeResult, ran: seq<Call>) returns (leave: Leave, moves': seq<Move>)
    requires OnTrack(def, env, max, start, input, st, moves) && st.node.Some? && nr.error.Some?
    requires !env.done(st.log) && Visits(st.trace, st.node.value.id) < max
    requires Ran(env, max, st.node.value, st.input, nr, st.log, ran)
    ensures moves' == moves + [Move(|ran|, |ran|, leave)]
    ensures Retraced(def, env, max, start, input, st.trace + [nr], ran, moves')
    ensures LeftAfterFailure(def.edges, nr.node, leave)
    ensures ErrorEdge(def.edges, nr.node) == if leave.Along? then Some(def.edges[leave.k]) else None
    ensures nr.input == st.input
  {
    RanExtends(env, max, st.node.value, st.input, nr, st.log, ran);
    leave := ErrorEdgeIsFirst(def.edges, nr.node);
    LastVisited(def, env, max, start, input, st.trace, st.log, moves, nr, ran, ran, leave);
    RetraceOne(def, env, max, start, input, st.trace, st.log, moves, nr, ran, Move(|ran|, |ran|, leave));
    moves' := moves + [Move(|ran|, |ran|, leave)];
  }

  /** The round after a visit that succeeded. */
  lemma SuccessIsExplained(def: Def, env: Env, max: int, start: Node, input: Value, st: State, moves: seq<Move>,
                           nr: NodeResult, ran: seq<Call>) returns (moves': seq<Move>)
    requires OnTrack(def, env, max, start, input, st, moves) && st.node.Some? && nr.error.None?
    requires !env.done(st.log) && Visits(st.trace, st.node.value.id) < max
    requires Ran(env, max, st.node.value, st.input, nr, st.log, ran)
    ensures var st' := st.(results := st.results[nr.node := nr], log := ran, trace := st.trace + [nr],
                           previous := st.previous[nr.node := nr.output], input := nr.output);
            match AfterSuccess(def, env, st', nr.node)
            case Stop(run) => ExplainedBy(def, env, max, start, input, run, moves')
            case More(st'') => OnTrack(def, env, max, start, input, st'', moves')
  {
    var leave, log;
    leave, log, moves' := SuccessIsRetraced(def, env, max, start, input, st, moves, nr, ran);
    var st' := st.(results := st.results[nr.node := nr], log := ran, trace := st.trace + [nr],
                   previous := st.previous[nr.node := nr.output], input := nr.output);
    OneMoreResult(st.trace, nr);
    SuccessEnds(def, env, max, start, input, st', nr, leave, log, moves');
  }

  lemma SuccessIsRetraced(def: Def, env: Env, max: int, start: Node, input: Value, st: State, moves: seq<Move>,
                          nr: NodeResult, ran: seq<Call>) returns (leave: Leave, log: seq<Call>, moves': seq<Move>)
    requires OnTrack(def, env, max, start, input, st, moves) && st.node.Some? && nr.error.None?
    requires !env.done(st.log) && Visits(st.trace, st.node.value.id) < max
    requires Ran(env, max, st.node.value, st.input, nr, st.log, ran)
    ensures moves' == moves + [Move(|ran|, |log|, leave)]
    ensures Retraced(def, env, max, start, input, st.trace + [nr], log, moves')
    ensures var (next, log') := FindNext(def, env, nr.node, nr.output, st.previous[nr.node := nr.output], ran);
            && log' == log && next.NextFailed? == leave.Undecided?
            && (next.Goto? ==> next.node == Target(def, leave))
  {
    RanExtends(env, max, st.node.value, st.input, nr, st.log, ran);
    FactsAreKnown(st.trace, nr);
    leave, log := NextIsExplained(def, env, nr.node, FactsAfter(st.trace + [nr]), ran);
    LastVisited(def, env, max, start, input, st.trace, st.log, moves, nr, ran, log, leave);
    RetraceOne(def, env, max, start, input, st.trace, st.log, moves, nr, log, Move(|ran|, |log|, leave));
    moves' := moves + [Move(|ran|, |log|, leave)];
  }

  /** What follows once the choice is known; `st` holds the visit already. */
  lemma SuccessEnds(def: Def, env: Env, max: int, start: Node, input: Value, st: State, nr: NodeResult, leave: Leave,
                    log: seq<Call>, moves: seq<Move>)
    requires Retraced(def, env, max, start, input, st.trace, log, moves)
    requires st.trace != [] && st.trace[|st.trace| - 1] == nr && moves[|moves| - 1].leave == leave
    requires nr.error.None? && st.input == nr.output
    requires st.previous == Outputs(st.trace) && st.results == Results(st.trace) && st.lastError == LastError(st.trace)
    requires var (next, log') := FindNext(def, env, nr.node, st.input, st.previous, st.log);
             && log' == log && next.NextFailed? == leave.Undecided?
             && (next.Goto? ==> next.node == Target(def, leave))
    ensures match AfterSuccess(def, env, st, nr.node)
            case Stop(run) => ExplainedBy(def, env, max, start, input, run, moves)
            case More(st') => OnTrack(def, env, max, start, input, st', moves)
  {
    var next := FindNext(def, env, nr.node, st.input, st.previous, st.log).0;
    if next.Goto? && next.node.Some? {
      var st' := st.(node := next.node, log := log);
      assert OnTrack(def, env, max, start, input, st', moves);
    }
  }

  lemma NextIsExplained(def: Def, env: Env, id: string, facts: map<string, Value>, log: seq<Call>)
    returns (leave: Leave, log': seq<Call>)
    ensures var chosen := ChooseNext(def, env, Outgoing(def.edges, id), facts, log);
            && log' == chosen.1 && log <= log'
            && LeftAfterSuccess(env, def.edges, id, facts, log, log', leave)
            && chosen.0.NextFailed? == leave.Undecided?
            && (chosen.0.Goto? ==> chosen.0.node == Target(def, leave))
  {
    assert def.edges[..0] == [] && def.edges[0..] == def.edges && log + Asked(env, [], id, facts) == log;
    leave := ChoiceIsFirstApproved(def, env, id, facts, log, 0);
    log' := ChooseNext(def, env, Outgoing(def.edges, id), facts, log).1;
  }

  lemma ExecutedIsExplained(def: Def, env: Env, max: int, start: Node, input: Value, st: State, moves: seq<Move>)
    returns (moves': seq<Move>)
    requires OnTrack(def, env, max, start, input, st, moves)
    requires st.node.Some? && !env.done(st.log) && Visits(st.trace, st.node.value.id) < max
    ensures match Step(def, env, max, st)
            case Stop(run) => ExplainedBy(def, env, max, start, input, run, moves')
            case More(st') => OnTrack(def, env, max, start, input, st', moves')
  {
    var (nr, ran) := ExecuteNode(env, max, st.node.value, st.input, st.log);
    NodeIsExplained(env, max, st.node.value, st.input, st.log);
    if nr.error.Some? {
      moves' := FailureIsExplained(def, env, max, start, input, st, moves, nr, ran);
    } else {
      moves' := SuccessIsExplained(def, env, max, start, input, st, moves, nr, ran);
    }
  }

  lemma {:induction false} WalkIsExplained(def: Def, env: Env, max: int, start: Node, input: Value, st: State,
                                           moves: seq<Move>)
    requires Sane(def, max, st) && OnTrack(def, env, max, start, input, st, moves)
    ensures Explained(def, env, max, start, input, Walk(def, env, max, st))
    decreases Positive(max) * |Ids(def)| - |st.trace|
  {
    var p := Step(def, env, max, st);
    if st.node.Some? && !env.done(st.log) && Visits(st.trace, st.node.value.id) < max {
      var moves' := ExecutedIsExplained(def, env, max, start, input, st, moves);
      if p.More? {
        TraceIsBounded(def, max, st);
        StepStaysSane(def, env, max, st);
        TraceIsBounded(def, max, p.state);
        WalkIsExplained(def, env, max, start, input, p.state, moves');
      } else {
        assert ExplainedBy(def, env, max, start, input, p.run, moves');
      }
    } else {
      assert ExplainedBy(def, env, max, start, input, p.run, moves);
    }
  }

  /**
    Every run is accounted for call by call. Its visits start at the start
    node; each ran its node with the retries the executor's answers ask for,
    and was left along the first edge that is unconditional or was approved, or
    after a failure along the first error edge; the next visit is of that
    edge's target, with the output, or after a failure the same input, handed
    on. How the run ends is fixed by where its visits end.
  */
  lemma RunIsExplained(def: Def, env: Env, max: int, start: Node, input: Value)
    requires start.id in Ids(def)
    ensures Explained(def, env, max, start, input, RunFrom(def, env, max, Some(start), input))
  {
    WalkIsExplained(def, env, max, start, input, Initially(start, input), []);
  }

  predicate NoneFailed(trace: seq<NodeResult>) {
    forall k | 0 <= k < |trace| :: trace[k].error.None?
  }

  lemma {:induction false} LastErrorIsSome(trace: seq<NodeResult>)
    ensures LastError(trace).None? <==> NoneFailed(trace)
  {
    if trace != [] {
      LastErrorIsSome(trace[..|trace| - 1]);
    }
  }

  /** Every condition evaluated so far was answered. */
  predicate ConditionsAnswered(env: Env, log: seq<Call>) {
    forall k: nat | k < |log| && log[k].Cond? :: AnsweredAt(env, log, k)
  }

  predicate AnsweredAt(env: Env, log: seq<Call>, k: nat)
    requires k < |log|
  {
    !env.cond(log[..k + 1]).CondFailed?
  }

  /** What was answered stays answered; only the later calls have to be looked at. */
  lemma AnswersExtend(env: Env, log: seq<Call>, log': seq<Call>)
    requires ConditionsAnswered(env, log) && log <= log'
    requires forall k: nat | |log| <= k < |log'| && log'[k].Cond? :: AnsweredAt(env, log', k)
    ensures ConditionsAnswered(env, log')
  {
    forall k: nat | k < |log'| && log'[k].Cond? ensures AnsweredAt(env, log', k) {
      if k < |log| {
        assert log'[k] == log[k] && AnsweredAt(env, log, k) && log'[..k + 1] == log[..k + 1];
      }
    }
  }

  lemma RunningAsksNothing(env: Env, max: int, node: Node, input: Value, nr: NodeResult, log: seq<Call>,
                           log': seq<Call>)
    requires Ran(env, max, node, input, nr, log, log') && ConditionsAnswered(env, log)
    ensures ConditionsAnswered(env, log')
  {
    assert forall k: nat | |log| <= k < |log'| :: !log'[k].Cond?;
    AnswersExtend(env, log, log');
  }

  lemma LeavingIsAnswered(def: Def, env: Env, nr: NodeResult, facts: map<string, Value>, log: seq<Call>,
                          log': seq<Call>, leave: Leave)
    requires Left(def, env, nr, facts, log, log', leave) && !leave.Undecided? && ConditionsAnswered(env, log)
    ensures ConditionsAnswered(env, log')
  {
    if nr.error.None? {
      var before := if leave.Nowhere? then log' else log + Asked(env, def.edges[..leave.k], nr.node, facts);
      assert forall k: nat | |log| <= k < |before| :: RejectedAt(env, before, k) ==> AnsweredAt(env, before, k);
      AnswersExtend(env, log, before);
      if log' != before {
        assert log'[..|before| + 1] == log';
        AnswersExtend(env, before, log');
      }
    }
  }

  lemma {:induction false} DecidedVisitsAreAnswered(def: Def, env: Env, max: int, start: Node, input: Value,
                                                    trace: seq<NodeResult>, log: seq<Call>, moves: seq<Move>, i: nat)
    requires Retraced(def, env, max, start, input, trace, log, moves) && i <= |moves|
    requires forall j | 0 <= j < i :: !moves[j].leave.Undecided?
    ensures LogAt(moves, i) <= |log| && ConditionsAnswered(env, log[..LogAt(moves, i)])
  {
    if i > 0 {
      var from, move, done := LogAt(moves, i - 1), moves[i - 1], trace[..i];
      DecidedVisitsAreAnswered(def, env, max, start, input, trace, log, moves, i - 1);
      assert VisitedAt(def, env, max, start, input, trace, log, moves, i - 1);
      var node := NodeAt(def, start, moves, i - 1);
      RunningAsksNothing(env, max, node.value, InputAt(input, trace, i - 1), done[i - 1], log[..from], log[..move.ran]);
      LeavingIsAnswered(def, env, done[i - 1], FactsAfter(done), log[..move.ran], log[..move.left], move.leave);
    }
  }

  /** A visit that another one follows was left along an edge. */
  lemma FollowedVisitIsDecided(def: Def, env: Env, max: int, start: Node, input: Value, trace: seq<NodeResult>,
                               log: seq<Call>, moves: seq<Move>, j: nat)
    requires Retraced(def, env, max, start, input, trace, log, moves) && j + 1 < |moves|
    ensures moves[j].leave.Along?
  {
    assert VisitedAt(def, env, max, start, input, trace, log, moves, j + 1);
  }

  /**
    So a run is completed only if it visited a node, no visit and no condition
    failed, and the last visit's output is the result.
  */
  lemma CompletedRunIsClean(def: Def, env: Env, max: int, start: Node, input: Value)
    requires start.id in Ids(def)
    ensures var run := RunFrom(def, env, max, Some(start), input);
            run.result.status.Completed? ==>
              && run.trace != [] && NoneFailed(run.trace) && ConditionsAnswered(env, run.log)
              && run.result.output == Some(run.trace[|run.trace| - 1].output) && run.result.error.None?
  {
    RunIsExplained(def, env, max, start, input);
    var run := RunFrom(def, env, max, Some(start), input);
    LastErrorIsSome(run.trace);
    if run.result.status.Completed? {
      var moves: seq<Move> :| ExplainedBy(def, env, max, start, input, run, moves);
      forall j | 0 <= j < |moves| ensures !moves[j].leave.Undecided? {
        if j + 1 < |moves| {
          FollowedVisitIsDecided(def, env, max, start, input, run.trace, run.log, moves, j);
        }
      }
      DecidedVisitsAreAnswered(def, env, max, start, input, run.trace, run.log, moves, |moves|);
      assert run.log[..|run.log|] == run.log;
    }
  }
}

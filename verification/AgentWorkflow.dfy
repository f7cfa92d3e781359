/** The executor of an agent system's workflows, whose nodes and edges are lists. */
module AgentWorkflow {
  import opened Common
  import opened WorkflowModel
  import opened WorkflowProofs
  import opened WorkflowExecutor

  datatype Workflow = Workflow(nodes: seq<Node>, edges: seq<Edge>)

  /** The first node with the id. */
  function FirstNode(nodes: seq<Node>, id: string): Option<Node> {
    if nodes == [] then None else if nodes[0].id == id then Some(nodes[0]) else FirstNode(nodes[1..], id)
  }

  function DefOf(w: Workflow): Def {
    Def("", map n | n in w.nodes && FirstNode(w.nodes, n.id).Some? :: n.id := FirstNode(w.nodes, n.id).value, w.edges)
  }

  lemma {:induction false} FirstNodeIs(nodes: seq<Node>, id: string)
    ensures FirstNode(nodes, id).Some? <==> exists n | n in nodes :: n.id == id
    ensures FirstNode(nodes, id).Some? ==>
              exists k | 0 <= k < |nodes| :: FirstNode(nodes, id).value == nodes[k] && IsFirst(nodes, k, id)
  {
    if nodes != [] && nodes[0].id != id {
      FirstNodeIs(nodes[1..], id);
      if FirstNode(nodes, id).Some? {
        var k :| 0 <= k < |nodes| - 1 && FirstNode(nodes, id).value == nodes[1..][k] && IsFirst(nodes[1..], k, id);
        assert forall j | 0 < j <= k + 1 :: nodes[j] == nodes[1..][j - 1];
        assert IsFirst(nodes, k + 1, id);
      }
    } else if nodes != [] {
      assert IsFirst(nodes, 0, id);
    }
  }

  /** No node before this one has its id. */
  predicate IsFirst(nodes: seq<Node>, k: nat, id: string)
    requires k < |nodes|
  {
    nodes[k].id == id && forall j | 0 <= j < k :: nodes[j].id != id
  }

  lemma DefIsKeyed(w: Workflow)
    ensures Keyed(DefOf(w)) && forall n | n in w.nodes :: n.id in DefOf(w).nodes
  {
    forall k | k in DefOf(w).nodes ensures DefOf(w).nodes[k].id == k { FirstNodeIs(w.nodes, k); }
    forall n | n in w.nodes ensures n.id in DefOf(w).nodes { FirstNodeIs(w.nodes, n.id); }
  }

  method FindNodeByID(w: Workflow, id: string) returns (node: Option<Node>)
    ensures node == GetNode(DefOf(w), id)
    ensures node.None? <==> forall n | n in w.nodes :: n.id != id
    ensures node.Some? ==> exists k | 0 <= k < |w.nodes| :: node.value == w.nodes[k] && IsFirst(w.nodes, k, id)
  {
    FirstNodeIs(w.nodes, id);
    for i := 0 to |w.nodes|
      invariant FirstNode(w.nodes[i..], id) == FirstNode(w.nodes, id)
    {
      assert w.nodes[i..][1..] == w.nodes[i + 1..];
      if w.nodes[i].id == id {
        return Some(w.nodes[i]);
      }
    }
    node := None;
  }

  predicate IsStart(w: Workflow, n: Node) {
    forall e | e in w.edges :: e.to == n.id ==> e.condition != ""
  }

  /** The first node without unconditional edge into it, or the first node at all. */
  predicate IsFirstStart(w: Workflow, start: Option<Node>) {
    if w.nodes == [] then start == None
    else if exists n | n in w.nodes :: IsStart(w, n) then
      exists k | 0 <= k < |w.nodes| ::
        start == Some(w.nodes[k]) && IsStart(w, w.nodes[k]) && forall j | 0 <= j < k :: !IsStart(w, w.nodes[j])
    else start == Some(w.nodes[0])
  }

  method IsStartNode(w: Workflow, n: Node) returns (yes: bool)
    ensures yes == IsStart(w, n)
  {
    for i := 0 to |w.edges|
      invariant forall j | 0 <= j < i :: w.edges[j].to == n.id ==> w.edges[j].condition != ""
    {
      if w.edges[i].to == n.id && w.edges[i].condition == "" {
        return false;
      }
    }
    return true;
  }

  method FindStartNode(w: Workflow) returns (start: Option<Node>)
    ensures IsFirstStart(w, start)
  {
    for i := 0 to |w.nodes|
      invariant forall j | 0 <= j < i :: !IsStart(w, w.nodes[j])
    {
      var yes := IsStartNode(w, w.nodes[i]);
      if yes {
        return Some(w.nodes[i]);
      }
    }
    return if w.nodes == [] then None else Some(w.nodes[0]);
  }

  /** Conditions are always evaluated, and a node without agent fails. */
  function Strict(env: Env): Env {
    env.(hasConditions := true, needsAgent := true)
  }

  /** The same walk as the plain executor's, over the listed nodes and in the stricter environment. */
  method ExecuteWorkflow(w: Workflow, env: Env, max: int, input: Value) returns (run: Run, start: Option<Node>)
    ensures IsFirstStart(w, start) && (start.Some? ==> start.value.id in Ids(DefOf(w)))
    ensures run == RunFrom(DefOf(w), Strict(env), max, start, input)
  {
    start := FindStartNode(w);
    if start.None? {
      return Run(Result(Failed, None, Some(NoStart), map[]), [], []), start;
    }
    var def := DefOf(w);
    DefIsKeyed(w);
    assert start.value in w.nodes;
    var st, visited := Initially(start.value, input), multiset{};
    while true
      invariant visited == multiset(NodesOf(st.trace))
      invariant Sane(def, max, st)
      invariant Walk(def, Strict(env), max, st) == RunFrom(def, Strict(env), max, start, input)
      decreases Positive(max) * |Ids(def)| - |st.trace|
    {
      TraceIsBounded(def, max, st);
      var p;
      p, visited := VisitOnce(def, Strict(env), max, st, visited);
      if p.Stop? {
        return p.run, start;
      }
      StepStaysSane(def, Strict(env), max, st);
      TraceIsBounded(def, max, p.state);
      st := p.state;
    }
  }

  lemma {:induction false} NoMoreIdsThanNodes(nodes: seq<Node>, ids: set<string>)
    requires forall id | id in ids :: exists n | n in nodes :: n.id == id
    ensures |ids| <= |nodes|
  {
    if nodes == [] {
      assert ids == {};
    } else {
      var less := ids - {nodes[0].id};
      forall id | id in less ensures exists n | n in nodes[1..] :: n.id == id {
        var n :| n in nodes && n.id == id;
        assert n in nodes[1..];
      }
      NoMoreIdsThanNodes(nodes[1..], less);
      assert |less| >= |ids| - 1;
    }
  }

  /** Its runs keep the same limits on visits and executor calls. */
  lemma ListedRunIsBounded(w: Workflow, env: Env, max: int, start: Option<Node>, input: Value)
    requires start.Some? ==> start.value.id in Ids(DefOf(w))
    ensures var run := RunFrom(DefOf(w), Strict(env), max, start, input);
            && (forall id :: Visits(run.trace, id) <= Positive(max))
            && ExecCalls(run.log) <= Positive(max) * Positive(max + 1) * |w.nodes|
  {
    RunIsBounded(DefOf(w), Strict(env), max, start, input);
    NoMoreKeysThanNodes(w);
    Wider(ExecCalls(RunFrom(DefOf(w), Strict(env), max, start, input).log), Positive(max) * Positive(max + 1),
          |DefOf(w).nodes|, |w.nodes|);
  }

  lemma NoMoreKeysThanNodes(w: Workflow)
    ensures |DefOf(w).nodes| <= |w.nodes|
  {
    NoMoreIdsThanNodes(w.nodes, DefOf(w).nodes.Keys);
  }

  lemma Wider(calls: nat, k: nat, keys: nat, nodes: nat)
    requires calls <= k * keys && keys <= nodes
    ensures calls <= k * nodes
  {
    Scale(keys, nodes, k);
  }

  /** They are accounted for in the same way, with every condition asked and an agent needed for every node. */
  lemma ListedRunIsExplained(w: Workflow, env: Env, max: int, start: Node, input: Value)
    requires start.id in Ids(DefOf(w))
    ensures var strict := env.(hasConditions := true, needsAgent := true);
            Explained(DefOf(w), strict, max, start, input, RunFrom(DefOf(w), Strict(env), max, Some(start), input))
  {
    RunIsExplained(DefOf(w), Strict(env), max, start, input);
  }
}

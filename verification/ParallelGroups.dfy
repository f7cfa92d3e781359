/**
  Parallel groups of a workflow: repeatedly take the nodes without pending
  unconditional predecessors. The reference is the length of the longest
  unconditional path into a node.
*/
module ParallelGroups {
  import opened Common
  import opened WorkflowModel

  datatype Graph = Graph(nodes: seq<string>, edges: seq<Edge>)

  function Elements(s: seq<string>): set<string> {
    set x | x in s
  }

  function Targets(edges: seq<Edge>): set<string> {
    set e | e in edges && e.condition == "" :: e.to
  }

  /** Declared nodes, and whatever an unconditional edge points to. */
  function Keys(g: Graph): set<string> {
    Elements(g.nodes) + Targets(g.edges)
  }

  // ----- Longest incoming walks ------------------------------------------

  /** An unconditional walk of length `n` ends in `x`. */
  predicate HasWalk(g: Graph, n: nat, x: string)
    decreases n, 1
  {
    n == 0 || exists e :: e in g.edges && LastStep(g, n, e, x)
  }

  /**
    The edge is the last of an unconditional walk of length `n` into `x`. A
    source that is no key is never taken, so it counts as if walks of every
    length reached it.
  */
  predicate LastStep(g: Graph, n: nat, e: Edge, x: string)
    decreases n, 0
  {
    n > 0 && e.condition == "" && e.to == x && (e.from !in Keys(g) || HasWalk(g, n - 1, e.from))
  }

  /** The nodes whose longest incoming walk has length `r`. */
  function Layer(g: Graph, r: nat): set<string> {
    set x | x in Keys(g) && HasWalk(g, r, x) && !HasWalk(g, r + 1, x)
  }

  lemma {:induction false} ShorterWalk(g: Graph, n: nat, x: string)
    requires HasWalk(g, n + 1, x)
    ensures HasWalk(g, n, x)
  {
    if n > 0 {
      var e :| e in g.edges && LastStep(g, n + 1, e, x);
      if e.from in Keys(g) {
        ShorterWalk(g, n - 1, e.from);
      }
      assert LastStep(g, n, e, x);
    }
  }

  /** Once a layer is empty so are all later ones. */
  lemma {:induction false} NoMoreLayers(g: Graph, r: nat, k: nat)
    requires Layer(g, r) == {} && r <= k
    ensures Layer(g, k) == {}
  {
    if r < k {
      NoMoreLayers(g, r, k - 1);
      forall x | x in Keys(g) && HasWalk(g, k, x) ensures HasWalk(g, k + 1, x) {
        var e :| e in g.edges && LastStep(g, k, e, x);
        assert e.from !in Layer(g, k - 1);
        assert LastStep(g, k + 1, e, x);
      }
    }
  }

  predicate NoEmptyLayerBelow(g: Graph, n: nat) {
    forall r: nat | r < n :: Layer(g, r) != {}
  }

  /** The layers of size two or more, in order. */
  function BigLayers(g: Graph, n: nat): seq<set<string>> {
    if n == 0 then []
    else BigLayers(g, n - 1) + if |Layer(g, n - 1)| > 1 then [Layer(g, n - 1)] else []
  }

  // ----- Pending predecessors --------------------------------------------

  /** Unconditional edges into `x` from nodes that are not done. */
  function Pending(edges: seq<Edge>, x: string, done: set<string>): nat {
    if edges == [] then 0
    else Pending(edges[..|edges| - 1], x, done) +
         (var e := edges[|edges| - 1]; if e.condition == "" && e.to == x && e.from !in done then 1 else 0)
  }

  /** Unconditional edges from `n` to `x`. */
  function Between(edges: seq<Edge>, n: string, x: string): nat {
    if edges == [] then 0
    else Between(edges[..|edges| - 1], n, x) +
         (var e := edges[|edges| - 1]; if e.condition == "" && e.to == x && e.from == n then 1 else 0)
  }

  lemma {:induction false} PendingIsSome(edges: seq<Edge>, x: string, done: set<string>)
    ensures Pending(edges, x, done) > 0 <==> exists e | e in edges :: e.condition == "" && e.to == x && e.from !in done
  {
    if edges != [] {
      PendingIsSome(edges[..|edges| - 1], x, done);
      assert edges == edges[..|edges| - 1] + [edges[|edges| - 1]];
    }
  }

  lemma {:induction false} OneMoreDone(edges: seq<Edge>, x: string, done: set<string>, n: string)
    requires n !in done
    ensures Pending(edges, x, done) == Pending(edges, x, done + {n}) + Between(edges, n, x)
  {
    if edges != [] {
      OneMoreDone(edges[..|edges| - 1], x, done, n);
    }
  }

  /** The nodes whose longest incoming walk is shorter than `r`. */
  function Placed(g: Graph, r: nat): set<string> {
    set x | x in Keys(g) && !HasWalk(g, r, x)
  }

  /** What is done after `r` rounds. */
  predicate DoneAfter(g: Graph, r: nat, done: set<string>) {
    done == Placed(g, r)
  }

  /** The keys left without pending predecessor form the next layer. */
  lemma ReadyIsLayer(g: Graph, r: nat, done: set<string>, x: string)
    requires DoneAfter(g, r, done) && x in Keys(g)
    ensures x !in done && Pending(g.edges, x, done) == 0 <==> x in Layer(g, r)
    ensures x in done ==> Pending(g.edges, x, done) == 0
  {
    PendingIsSome(g.edges, x, done);
    assert HasWalk(g, r + 1, x) <==> Pending(g.edges, x, done) > 0 by {
      forall e | e in g.edges
        ensures LastStep(g, r + 1, e, x) <==> e.condition == "" && e.to == x && e.from !in done
      {
      }
    }
    if x in done && HasWalk(g, r + 1, x) {
      ShorterWalk(g, r, x);
    }
  }

  // ----- The algorithm ---------------------------------------------------

  predicate Distinct(s: seq<string>) {
    forall i, j | 0 <= i < j < |s| :: s[i] != s[j]
  }

  predicate CountsPending(g: Graph, done: set<string>, inDegree: map<string, int>) {
    && inDegree.Keys == Keys(g) - done
    && forall x | x in inDegree :: inDegree[x] == Pending(g.edges, x, done)
  }

  function Degree(inDegree: map<string, int>, x: string): int {
    if x in inDegree then inDegree[x] else 0
  }

  method ZeroDegrees(nodes: seq<string>) returns (inDegree: map<string, int>)
    ensures inDegree.Keys == Elements(nodes)
    ensures forall x | x in inDegree :: inDegree[x] == 0
  {
    inDegree := map[];
    for i := 0 to |nodes|
      invariant inDegree.Keys == Elements(nodes[..i])
      invariant forall x | x in inDegree :: inDegree[x] == 0
    {
      inDegree := inDegree[nodes[i] := 0];
    }
    assert nodes[..|nodes|] == nodes;
  }

  method InitialDegrees(g: Graph) returns (inDegree: map<string, int>)
    ensures CountsPending(g, {}, inDegree)
  {
    inDegree := ZeroDegrees(g.nodes);
    for i := 0 to |g.edges|
      invariant inDegree.Keys == Elements(g.nodes) + Targets(g.edges[..i])
      invariant forall x :: Degree(inDegree, x) == Pending(g.edges[..i], x, {})
    {
      var e := g.edges[i];
      ghost var before := inDegree;
      NextEdge(g.edges, i);
      if e.condition == "" {
        inDegree := inDegree[e.to := Degree(inDegree, e.to) + 1];
      }
      forall x ensures Degree(inDegree, x) == Pending(g.edges[..i + 1], x, {}) {
        assert Degree(before, x) == Pending(g.edges[..i], x, {});
      }
    }
    assert g.edges[..|g.edges|] == g.edges;
    assert Keys(g) - {} == Keys(g);
    forall x | x in inDegree ensures inDegree[x] == Pending(g.edges, x, {}) {
      assert Degree(inDegree, x) == inDegree[x];
    }
  }

  lemma NextEdge(edges: seq<Edge>, i: nat)
    requires i < |edges|
    ensures Targets(edges[..i + 1]) == Targets(edges[..i]) + if edges[i].condition == "" then {edges[i].to} else {}
    ensures forall x :: Pending(edges[..i + 1], x, {}) ==
                        Pending(edges[..i], x, {}) + if edges[i].condition == "" && edges[i].to == x then 1 else 0
  {
    assert edges[..i + 1] == edges[..i] + [edges[i]];
    assert edges[..i + 1][..i] == edges[..i];
  }

  /** The nodes of degree zero, in any order. */
  method ReadyNodes(inDegree: map<string, int>) returns (current: seq<string>)
    ensures Distinct(current)
    ensures forall x :: x in current <==> x in inDegree && inDegree[x] == 0
  {
    current := [];
    var todo := inDegree.Keys;
    while todo != {}
      invariant todo <= inDegree.Keys
      invariant Distinct(current)
      invariant forall x :: x in current <==> x in inDegree && x !in todo && inDegree[x] == 0
      decreases todo
    {
      var x :| x in todo;
      todo := todo - {x};
      if inDegree[x] == 0 {
        current := current + [x];
      }
    }
  }

  /** Takes one ready node out: its successors have one predecessor less to wait for. */
  method Release(g: Graph, node: string, inDegree: map<string, int>, ghost done: set<string>)
    returns (out: map<string, int>)
    requires CountsPending(g, done, inDegree) && node in inDegree
    requires forall x | x in done :: Pending(g.edges, x, done) == 0
    ensures CountsPending(g, done + {node}, out)
  {
    out := inDegree;
    for i := 0 to |g.edges|
      invariant out.Keys == inDegree.Keys
      invariant forall x | x in out :: out[x] == inDegree[x] - Between(g.edges[..i], node, x)
    {
      var e := g.edges[i];
      assert g.edges[..i + 1][..i] == g.edges[..i];
      if e.from == node && e.condition == "" {
        PendingIsSome(g.edges, e.to, done);
        out := out[e.to := out[e.to] - 1];
      }
    }
    assert g.edges[..|g.edges|] == g.edges;
    ReleasedCounts(g, done, inDegree, out, node);
    out := out - {node};
  }

  lemma ReleasedCounts(g: Graph, done: set<string>, inDegree: map<string, int>, out: map<string, int>, node: string)
    requires CountsPending(g, done, inDegree) && node in inDegree && out.Keys == inDegree.Keys
    requires forall x | x in out :: out[x] == inDegree[x] - Between(g.edges, node, x)
    ensures CountsPending(g, done + {node}, out - {node})
  {
    forall x | x in out { OneMoreDone(g.edges, x, done, node); }
  }

  /** Takes a whole layer out. */
  method ReleaseAll(g: Graph, current: seq<string>, inDegree: map<string, int>, ghost done: set<string>)
    returns (out: map<string, int>)
    requires CountsPending(g, done, inDegree) && Distinct(current)
    requires forall x | x in current :: x in inDegree && inDegree[x] == 0
    requires forall x | x in done :: Pending(g.edges, x, done) == 0
    ensures CountsPending(g, done + Elements(current), out)
  {
    out := inDegree;
    ghost var all, doneK := done + Elements(current), done;
    for k := 0 to |current|
      invariant doneK == done + Elements(current[..k]) && CountsPending(g, doneK, out)
      invariant forall x | x in all :: Pending(g.edges, x, doneK) == 0
    {
      assert current[k] !in doneK && current[k] in current;
      out := Release(g, current[k], out, doneK);
      forall x | x in all ensures Pending(g.edges, x, doneK + {current[k]}) == 0 {
        OneMoreDone(g.edges, x, doneK, current[k]);
      }
      doneK := doneK + {current[k]};
    }
    assert current[..|current|] == current;
  }

  /** The groups are, in order, the big layers; a group lists its layer without repetition. */
  predicate GroupsAre(groups: seq<seq<string>>, layers: seq<set<string>>) {
    && |groups| == |layers|
    && forall k | 0 <= k < |groups| :: Distinct(groups[k]) && layers[k] == Elements(groups[k])
  }

  lemma {:induction false} DistinctCount(s: seq<string>)
    requires Distinct(s)
    ensures |Elements(s)| == |s|
  {
    if s != [] {
      var rest := s[..|s| - 1];
      DistinctCount(rest);
      assert Elements(s) == Elements(rest) + {s[|s| - 1]};
    }
  }

  /** One round: the ready nodes are the next layer, and what they held up is released. */
  method TakeLayer(g: Graph, inDegree: map<string, int>, ghost r: nat, ghost done: set<string>)
    returns (current: seq<string>, out: map<string, int>)
    requires DoneAfter(g, r, done) && CountsPending(g, done, inDegree)
    ensures Distinct(current) && Elements(current) == Layer(g, r)
    ensures DoneAfter(g, r + 1, done + Layer(g, r)) && CountsPending(g, done + Layer(g, r), out)
    ensures current != [] ==> out.Keys < inDegree.Keys
  {
    current := ReadyNodes(inDegree);
    RoundIsLayer(g, r, done, inDegree, current);
    out := ReleaseAll(g, current, inDegree, done);
    if current != [] {
      assert current[0] in current;
    }
  }

  /** Terminates on every graph; the groups are exactly the layers of size two or more, in order. */
  method IdentifyParallelGroups(g: Graph) returns (groups: seq<seq<string>>)
    ensures GroupsAre(groups, BigLayers(g, |Keys(g)|))
  {
    var inDegree := InitialDegrees(g);
    groups := [];
    ghost var done: set<string>, r := {}, 0;
    while true
      invariant DoneAfter(g, r, done) && CountsPending(g, done, inDegree)
      invariant GroupsAre(groups, BigLayers(g, r))
      invariant NoEmptyLayerBelow(g, r)
      decreases inDegree.Keys
    {
      var current, next := TakeLayer(g, inDegree, r, done);
      if current == [] {
        LayersRunOut(g);
        BigLayersStop(g, r, |Keys(g)|);
        return;
      }
      NextGroup(g, r, groups, current);
      OneMoreLayer(g, r, current);
      if |current| > 1 {
        groups := groups + [current];
      }
      inDegree, done, r := next, done + Layer(g, r), r + 1;
    }
  }

  lemma {:induction false} BigLayersStop(g: Graph, n: nat, m: nat)
    requires n <= m && Layer(g, n) == {}
    ensures BigLayers(g, m) == BigLayers(g, n)
  {
    if n < m {
      BigLayersStop(g, n, m - 1);
      NoMoreLayers(g, n, m - 1);
    }
  }

  lemma {:induction false} LayersTakeRoom(g: Graph, r: nat)
    requires NoEmptyLayerBelow(g, r)
    ensures |Placed(g, r)| >= r
  {
    if r > 0 {
      LayersTakeRoom(g, r - 1);
      var fewer, more := Placed(g, r - 1), Placed(g, r);
      forall x | x in fewer ensures x in more {
        if HasWalk(g, r, x) { ShorterWalk(g, r - 1, x); }
      }
      assert Layer(g, r - 1) != {};
      var y :| y in Layer(g, r - 1);
      assert fewer + {y} <= more && y !in fewer;
      SubsetIsSmaller(fewer + {y}, more);
    }
  }

  /** There are no more layers than nodes. */
  lemma LayersRunOut(g: Graph)
    ensures Layer(g, |Keys(g)|) == {}
    ensures forall r: nat | NoEmptyLayerBelow(g, r) :: r <= |Keys(g)|
  {
    forall r: nat | NoEmptyLayerBelow(g, r) ensures r <= |Keys(g)| {
      LayersTakeRoom(g, r);
      SubsetIsSmaller(Placed(g, r), Keys(g));
    }
    if Layer(g, |Keys(g)|) != {} {
      forall k: nat | k <= |Keys(g)| ensures Layer(g, k) != {} {
        if Layer(g, k) == {} { NoMoreLayers(g, k, |Keys(g)|); }
      }
      assert NoEmptyLayerBelow(g, |Keys(g)| + 1);
    }
  }

  lemma NextGroup(g: Graph, r: nat, groups: seq<seq<string>>, current: seq<string>)
    requires GroupsAre(groups, BigLayers(g, r)) && Distinct(current) && Elements(current) == Layer(g, r)
    ensures GroupsAre(if |current| > 1 then groups + [current] else groups, BigLayers(g, r + 1))
  {
    DistinctCount(current);
  }

  lemma OneMoreLayer(g: Graph, r: nat, current: seq<string>)
    requires NoEmptyLayerBelow(g, r) && Elements(current) == Layer(g, r) && current != []
    ensures NoEmptyLayerBelow(g, r + 1)
  {
    assert current[0] in Elements(current);
  }

  lemma RoundIsLayer(g: Graph, r: nat, done: set<string>, inDegree: map<string, int>, current: seq<string>)
    requires DoneAfter(g, r, done) && CountsPending(g, done, inDegree)
    requires forall x :: x in current <==> x in inDegree && inDegree[x] == 0
    ensures Elements(current) == Layer(g, r)
    ensures DoneAfter(g, r + 1, done + Elements(current))
    ensures forall x | x in done :: Pending(g.edges, x, done) == 0
  {
    forall x | x in Keys(g)
      ensures x in current <==> x in Layer(g, r)
      ensures x in done ==> Pending(g.edges, x, done) == 0
    {
      ReadyIsLayer(g, r, done, x);
    }
    forall x | x in Keys(g) && HasWalk(g, r + 1, x) ensures HasWalk(g, r, x) { ShorterWalk(g, r, x); }
  }

  // ----- Layers and paths ------------------------------------------------

  predicate Joined(g: Graph, a: string, b: string) {
    exists e :: e in g.edges && e.condition == "" && e.from == a && e.to == b
  }

  predicate IsPath(g: Graph, p: seq<string>) {
    |p| > 0 && forall i | 0 < i < |p| :: Joined(g, p[i - 1], p[i])
  }

  predicate SourcesKnown(g: Graph) {
    forall e | e in g.edges && e.condition == "" :: e.from in Keys(g)
  }

  /** A walk continues along a path. */
  lemma {:induction false} WalkContinues(g: Graph, r: nat, p: seq<string>)
    requires IsPath(g, p) && HasWalk(g, r, p[0])
    ensures HasWalk(g, r + |p| - 1, p[|p| - 1])
  {
    if |p| > 1 {
      var front := p[..|p| - 1];
      WalkContinues(g, r, front);
      var a, b := front[|front| - 1], p[|p| - 1];
      assert Joined(g, p[|p| - 2], p[|p| - 1]);
      var e :| e in g.edges && e.condition == "" && e.from == a && e.to == b;
      assert LastStep(g, r + |p| - 1, e, b);
    }
  }

  lemma {:induction false} ShorterWalks(g: Graph, n: nat, m: nat, x: string)
    requires n <= m && HasWalk(g, m, x)
    ensures HasWalk(g, n, x)
    decreases m - n
  {
    if n < m {
      assert HasWalk(g, (m - 1) + 1, x);
      ShorterWalk(g, m - 1, x);
      ShorterWalks(g, n, m - 1, x);
    }
  }

  /** No unconditional path joins two members of a layer, hence of a group. */
  lemma NoPathWithinLayer(g: Graph, r: nat, p: seq<string>)
    requires IsPath(g, p) && p[0] in Layer(g, r) && p[|p| - 1] in Layer(g, r)
    ensures |p| == 1
  {
    if |p| > 1 {
      WalkContinues(g, r, p);
      ShorterWalks(g, r + 1, r + |p| - 1, p[|p| - 1]);
    }
  }

  predicate EndsIn(g: Graph, p: seq<string>, x: string) {
    IsPath(g, p) && p[|p| - 1] == x
  }

  /** A walk is a path of its length, or a path from a source that is no key stands in for it. */
  lemma {:induction false} WalkHasPath(g: Graph, n: nat, x: string) returns (p: seq<string>)
    requires HasWalk(g, n, x)
    ensures EndsIn(g, p, x) && (|p| == n + 1 || (|p| > 1 && p[0] !in Keys(g)))
  {
    if n == 0 {
      p := [x];
    } else {
      var e :| e in g.edges && LastStep(g, n, e, x);
      var front := [e.from];
      if e.from in Keys(g) {
        front := WalkHasPath(g, n - 1, e.from);
      }
      assert Joined(g, front[|front| - 1], x);
      p := front + [x];
    }
  }

  /** Where such a path ends, walks of every length end. */
  lemma ForeignPathIsEveryWalk(g: Graph, p: seq<string>, n: nat)
    requires IsPath(g, p) && |p| > 1 && p[0] !in Keys(g)
    ensures HasWalk(g, n, p[|p| - 1])
  {
    assert Joined(g, p[0], p[1]);
    var e :| e in g.edges && e.condition == "" && e.from == p[0] && e.to == p[1];
    assert n > 0 ==> LastStep(g, n, e, p[1]);
    var rest := p[1..];
    forall i | 0 < i < |rest| ensures Joined(g, rest[i - 1], rest[i]) {
      assert Joined(g, p[i], p[i + 1]);
    }
    WalkContinues(g, n, rest);
    ShorterWalks(g, n, n + |rest| - 1, p[|p| - 1]);
  }

  /**
    A node is in layer `r` exactly when all paths into it start at keys and the
    longest of them has `r` edges.
  */
  lemma LayerIsLongestPath(g: Graph, r: nat, x: string)
    requires x in Keys(g)
    ensures x in Layer(g, r) <==>
              && (exists p :: EndsIn(g, p, x) && |p| == r + 1)
              && (forall p | EndsIn(g, p, x) :: p[0] in Keys(g) && |p| <= r + 1)
  {
    if x in Layer(g, r) {
      forall p | EndsIn(g, p, x) ensures p[0] in Keys(g) && |p| <= r + 1 {
        LayerBoundsPath(g, r, p);
      }
      var p := WalkHasPath(g, r, x);
    }
    if p :| EndsIn(g, p, x) && |p| == r + 1 {
      WalkContinues(g, 0, p);
    }
    if HasWalk(g, r + 1, x) {
      var p := WalkHasPath(g, r + 1, x);
    }
  }

  lemma LayerBoundsPath(g: Graph, r: nat, p: seq<string>)
    requires IsPath(g, p) && p[|p| - 1] in Layer(g, r)
    ensures p[0] in Keys(g) && |p| <= r + 1
  {
    if p[0] !in Keys(g) {
      ForeignPathIsEveryWalk(g, p, r + 1);
    } else if |p| > r + 1 {
      WalkContinues(g, 0, p);
      ShorterWalks(g, r + 1, |p| - 1, p[|p| - 1]);
    }
  }

  predicate IsCycle(g: Graph, p: seq<string>) {
    IsPath(g, p) && |p| > 1 && p[0] == p[|p| - 1]
  }

  lemma {:induction false} CycleIsNeverTaken(g: Graph, p: seq<string>, n: nat)
    requires IsCycle(g, p)
    ensures HasWalk(g, n, p[0])
  {
    if n > 0 {
      CycleIsNeverTaken(g, p, n - 1);
      WalkContinues(g, n - 1, p);
      ShorterWalks(g, n, n - 1 + |p| - 1, p[0]);
    }
  }

  lemma Repeats(p: seq<string>, keys: set<string>) returns (i: nat, j: nat)
    requires forall x | x in p :: x in keys
    requires |p| > |keys|
    ensures i < j < |p| && p[i] == p[j]
  {
    if Distinct(p) {
      DistinctCount(p);
      SubsetIsSmaller(Elements(p), keys);
      assert false;
    }
    i, j :| 0 <= i < j < |p| && p[i] == p[j];
  }

  /** A walk longer than the graph runs into a cycle. */
  lemma LongWalkHasCycle(g: Graph, x: string) returns (cycle: seq<string>)
    requires SourcesKnown(g) && x in Keys(g) && HasWalk(g, |Keys(g)|, x)
    ensures IsCycle(g, cycle)
  {
    var p := WalkHasPath(g, |Keys(g)|, x);
    forall y | y in p ensures y in Keys(g) {
      var i :| 0 <= i < |p| && p[i] == y;
      if i + 1 < |p| {
        assert Joined(g, p[i], p[i + 1]);
      }
    }
    assert p[0] in p;
    var i, j := Repeats(p, Keys(g));
    cycle := p[i..j + 1];
    forall k | 0 < k < |cycle| ensures Joined(g, cycle[k - 1], cycle[k]) {
      assert Joined(g, p[i + k - 1], p[i + k]);
    }
  }

  lemma {:induction false} SomeLayer(g: Graph, n: nat, x: string) returns (r: nat)
    requires x in Keys(g) && !HasWalk(g, n, x)
    ensures r < n && x in Layer(g, r)
  {
    if HasWalk(g, n - 1, x) {
      r := n - 1;
    } else {
      r := SomeLayer(g, n - 1, x);
    }
  }

  /** An unconditional edge from a node that is no key keeps its target out of every layer. */
  lemma UnknownSourceIsNeverDone(g: Graph, e: Edge, r: nat)
    requires e in g.edges && e.condition == "" && e.from !in Keys(g)
    ensures e.to in Keys(g) && e.to !in Layer(g, r)
  {
    assert LastStep(g, r + 1, e, e.to);
  }

  /** The node is taken in some round. */
  ghost predicate IsPlaced(g: Graph, x: string) {
    exists r: nat :: x in Layer(g, r)
  }

  /**
    Every node gets a layer exactly when all unconditional edges come from
    known nodes and form no cycle.
  */
  lemma AllPlacedExactlyWhenAcyclic(g: Graph)
    ensures (forall x | x in Keys(g) :: IsPlaced(g, x)) <==> SourcesKnown(g) && !exists p :: IsCycle(g, p)
  {
    if !SourcesKnown(g) {
      var e :| e in g.edges && e.condition == "" && e.from !in Keys(g);
      forall r: nat ensures e.to in Keys(g) && e.to !in Layer(g, r) { UnknownSourceIsNeverDone(g, e, r); }
      UnknownSourceIsNeverDone(g, e, 0);
      assert !IsPlaced(g, e.to);
    } else if p :| IsCycle(g, p) {
      assert Joined(g, p[|p| - 2], p[|p| - 1]);
      assert p[0] in Keys(g);
      forall r: nat ensures p[0] !in Layer(g, r) { CycleIsNeverTaken(g, p, r + 1); }
      assert !IsPlaced(g, p[0]);
    } else {
      forall x | x in Keys(g) ensures IsPlaced(g, x) {
        if HasWalk(g, |Keys(g)|, x) {
          var cycle := LongWalkHasCycle(g, x);
        }
        var r := SomeLayer(g, |Keys(g)|, x);
      }
    }
  }
}

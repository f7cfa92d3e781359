/**
  Flattening of JSON-like values into graph facts. Nested containers get ids of
  their own; the facts, as an unordered set, determine the value up to nulls,
  which are dropped, and arrays, which become maps keyed by index.
*/
module Flatten {
  import opened Common
  import opened Quoting

  /** An object lists its fields in the order the map is walked. */
  datatype Json =
    | Null
    | Bool(b: bool)
    | Num(n: int)
    | Str(s: string)
    | Arr(items: seq<Json>)
    | Obj(fields: seq<Field>)

  datatype Field = Field(key: string, value: Json)

  datatype Fact =
    | Link(node: string, key: string, child: string)
    | StrFact(node: string, key: string, text: string)
    | BoolFact(node: string, key: string, b: bool)
    | NumFact(node: string, key: string, n: int)

  predicate IsContainer(v: Json) {
    v.Arr? || v.Obj?
  }

  function Size(v: Json): nat {
    match v
    case Arr(items) => |items|
    case Obj(fields) => |fields|
    case _ => 0
  }

  function KeyAt(v: Json, i: nat): string
    requires i < Size(v)
  {
    if v.Arr? then Decimal(i) else v.fields[i].key
  }

  function ValueAt(v: Json, i: nat): (w: Json)
    requires i < Size(v)
    ensures w < v
  {
    if v.Arr? then v.items[i] else v.fields[i].value
  }

  function NodeId(k: nat): string {
    "node_" + Decimal(k)
  }

  lemma NodeIdIsInjective(k: nat, m: nat)
    requires NodeId(k) == NodeId(m)
    ensures k == m
  {
    assert NodeId(k)[5..] == Decimal(k) && NodeId(m)[5..] == Decimal(m);
    DecimalIsInjective(k, m);
  }

  // ----- The facts of a value --------------------------------------------

  /** Facts for the entries of a container from index `i` on; `n` ids are in use before. */
  function EmitFrom(id: string, v: Json, i: nat, n: nat): (seq<Fact>, nat)
    requires i <= Size(v)
    decreases v, Size(v) - i
  {
    if i == Size(v) then ([], n)
    else
      var (first, n1) := EmitOne(id, KeyAt(v, i), ValueAt(v, i), n);
      var (rest, n2) := EmitFrom(id, v, i + 1, n1);
      (first + rest, n2)
  }

  /** Facts for one entry. */
  function EmitOne(id: string, key: string, v: Json, n: nat): (seq<Fact>, nat)
    decreases v, Size(v) + 1
  {
    match v
    case Null => ([], n)
    case Bool(b) => ([BoolFact(id, key, b)], n)
    case Num(x) => ([NumFact(id, key, x)], n)
    case Str(s) => ([StrFact(id, key, s)], n)
    case _ =>
      var (facts, n') := EmitFrom(NodeId(n + 1), v, 0, n + 1);
      ([Link(id, key, NodeId(n + 1))] + facts, n')
  }

  function FlatFacts(root: string, v: Json): seq<Fact> {
    EmitFrom(root, v, 0, 0).0
  }

  // ----- The flattener ---------------------------------------------------

  /** Appends to one shared list of facts and bumps one shared counter. */
  class Flattener {
    var facts: seq<Fact>
    var counter: nat

    constructor ()
      ensures facts == [] && counter == 0
    {
      facts, counter := [], 0;
    }

    method FlattenRecursive(id: string, v: Json)
      modifies this
      ensures facts == old(facts) + EmitFrom(id, v, 0, old(counter)).0
      ensures counter == EmitFrom(id, v, 0, old(counter)).1
      decreases v, 1
    {
      for i := 0 to Size(v)
        invariant facts + EmitFrom(id, v, i, counter).0 == old(facts) + EmitFrom(id, v, 0, old(counter)).0
        invariant EmitFrom(id, v, i, counter).1 == EmitFrom(id, v, 0, old(counter)).1
      {
        ghost var before, n := facts, counter;
        AddEntry(id, KeyAt(v, i), ValueAt(v, i));
        EmitNext(id, v, i, n);
        assert before + EmitFrom(id, v, i, n).0 == facts + EmitFrom(id, v, i + 1, counter).0;
      }
    }

    /** One entry: a link and a recursive visit, a primitive fact, or nothing. */
    method AddEntry(id: string, key: string, v: Json)
      modifies this
      ensures facts == old(facts) + EmitOne(id, key, v, old(counter)).0
      ensures counter == EmitOne(id, key, v, old(counter)).1
      decreases v, 2
    {
      match v
      case Null =>
      case Bool(b) => facts := facts + [BoolFact(id, key, b)];
      case Num(x) => facts := facts + [NumFact(id, key, x)];
      case Str(s) => facts := facts + [StrFact(id, key, s)];
      case _ =>
        counter := counter + 1;
        var child := NodeId(counter);
        facts := facts + [Link(id, key, child)];
        FlattenRecursive(child, v);
    }
  }

  lemma EmitNext(id: string, v: Json, i: nat, n: nat)
    requires i < Size(v)
    ensures var (first, n1) := EmitOne(id, KeyAt(v, i), ValueAt(v, i), n);
            && EmitFrom(id, v, i, n).0 == first + EmitFrom(id, v, i + 1, n1).0
            && EmitFrom(id, v, i, n).1 == EmitFrom(id, v, i + 1, n1).1
  {
  }

  /** Flattens a value; nothing comes of a null or of a bare primitive. */
  method FlattenValue(root: string, v: Json) returns (facts: seq<Fact>)
    ensures facts == FlatFacts(root, v)
  {
    if v.Null? {
      return [];
    }
    var flattener := new Flattener();
    flattener.FlattenRecursive(root, v);
    facts := flattener.facts;
  }

  // ----- Ids are fresh and linked once -----------------------------------

  function Containers(v: Json, i: nat): nat
    requires i <= Size(v)
    decreases v, Size(v) - i
  {
    if i == Size(v) then 0
    else (if IsContainer(ValueAt(v, i)) then 1 + Containers(ValueAt(v, i), 0) else 0) + Containers(v, i + 1)
  }

  /** The children of the links, in the order the facts were emitted. */
  function Linked(facts: seq<Fact>): seq<string> {
    if facts == [] then []
    else (if facts[0].Link? then [facts[0].child] else []) + Linked(facts[1..])
  }

  lemma {:induction false} LinkedConcat(a: seq<Fact>, b: seq<Fact>)
    ensures Linked(a + b) == Linked(a) + Linked(b)
  {
    if a == [] {
      assert a + b == b;
    } else {
      LinkedConcat(a[1..], b);
      assert (a + b)[1..] == a[1..] + b;
    }
  }

  /** Ids `lo + 1` to `hi`, in order. */
  function IdRange(lo: nat, hi: nat): seq<string>
    requires lo <= hi
  {
    seq(hi - lo, i requires 0 <= i < hi - lo => NodeId(lo + 1 + i))
  }

  lemma {:induction false} LinksAreFresh(id: string, v: Json, i: nat, n: nat)
    requires i <= Size(v)
    ensures var (facts, n') := EmitFrom(id, v, i, n);
            n' == n + Containers(v, i) && Linked(facts) == IdRange(n, n')
    decreases v, Size(v) - i
  {
    if i < Size(v) {
      var w := ValueAt(v, i);
      OneLinkIsFresh(id, KeyAt(v, i), w, n);
      var (first, n1) := EmitOne(id, KeyAt(v, i), w, n);
      LinksAreFresh(id, v, i + 1, n1);
      var (rest, n2) := EmitFrom(id, v, i + 1, n1);
      EmitNext(id, v, i, n);
      LinkedConcat(first, rest);
      RangesJoin(n, n1, n2);
    }
  }

  lemma RangesJoin(lo: nat, mid: nat, hi: nat)
    requires lo <= mid <= hi
    ensures IdRange(lo, mid) + IdRange(mid, hi) == IdRange(lo, hi)
  {
  }

  lemma {:induction false} OneLinkIsFresh(id: string, key: string, w: Json, n: nat)
    ensures var (facts, n') := EmitOne(id, key, w, n);
            && n' == n + (if IsContainer(w) then 1 + Containers(w, 0) else 0)
            && Linked(facts) == IdRange(n, n')
    decreases w, Size(w) + 1
  {
    var (facts, n') := EmitOne(id, key, w, n);
    if IsContainer(w) {
      LinksAreFresh(NodeId(n + 1), w, 0, n + 1);
      assert facts[1..] == EmitFrom(NodeId(n + 1), w, 0, n + 1).0;
      assert IdRange(n, n') == [NodeId(n + 1)] + IdRange(n + 1, n');
    }
  }

  /**
    Each nested container has exactly one incoming link, and the links carry
    the ids node_1, node_2, and so on, one per container, all different.
  */
  lemma EveryContainerIsLinkedOnce(root: string, v: Json)
    ensures Linked(FlatFacts(root, v)) == IdRange(0, Containers(v, 0))
    ensures forall i, j | 0 <= i < j < Containers(v, 0) ::
              Linked(FlatFacts(root, v))[i] != Linked(FlatFacts(root, v))[j]
  {
    LinksAreFresh(root, v, 0, 0);
    var ids := IdRange(0, Containers(v, 0));
    forall i, j | 0 <= i < j < Containers(v, 0) ensures ids[i] != ids[j] {
      if ids[i] == ids[j] { NodeIdIsInjective(i + 1, j + 1); }
    }
  }
}

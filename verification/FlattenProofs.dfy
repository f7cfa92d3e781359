/** What the facts of a value say, and that they say it without ambiguity. */
module FlattenProofs {
  import opened Quoting
  import opened Flatten

  // ----- Who owns which fact ---------------------------------------------

  /** The text is one of the ids `lo + 1` to `hi`. */
  predicate InRange(text: string, lo: nat, hi: nat) {
    exists m | lo < m <= hi :: text == NodeId(m)
  }

  /** The text is no id after `n`, up to `hi`. */
  predicate NotAnId(id: string, n: nat, hi: nat) {
    forall m | n < m <= hi :: id != NodeId(m)
  }

  lemma RangesAreDisjoint(text: string, lo: nat, mid: nat, hi: nat)
    requires lo <= mid <= hi && InRange(text, lo, mid)
    ensures !InRange(text, mid, hi) && InRange(text, lo, hi)
  {
    var k :| lo < k <= mid && text == NodeId(k);
    forall m | mid < m <= hi ensures text != NodeId(m) {
      if text == NodeId(m) { NodeIdIsInjective(k, m); }
    }
  }

  lemma ChildIsNotLater(n: nat, hi: nat)
    ensures NotAnId(NodeId(n), n, hi)
  {
    forall m | n < m <= hi ensures NodeId(n) != NodeId(m) {
      if NodeId(n) == NodeId(m) { NodeIdIsInjective(n, m); }
    }
  }

  predicate OwnedWithin(facts: seq<Fact>, id: string, lo: nat, hi: nat) {
    forall f | f in facts :: f.node == id || InRange(f.node, lo, hi)
  }

  lemma WidenOwned(facts: seq<Fact>, id: string, lo: nat, hi: nat, lo': nat, hi': nat)
    requires OwnedWithin(facts, id, lo, hi) && lo' <= lo && hi <= hi'
    ensures OwnedWithin(facts, id, lo', hi')
  {
    forall f | f in facts && InRange(f.node, lo, hi) ensures InRange(f.node, lo', hi') {
      var m :| lo < m <= hi && f.node == NodeId(m);
    }
  }

  lemma {:induction false} EmitIsOwned(id: string, v: Json, i: nat, n: nat)
    requires i <= Size(v)
    ensures var (facts, n') := EmitFrom(id, v, i, n); n <= n' && OwnedWithin(facts, id, n, n')
    decreases v, Size(v) - i
  {
    if i < Size(v) {
      OneIsOwned(id, KeyAt(v, i), ValueAt(v, i), n);
      var (first, n1) := EmitOne(id, KeyAt(v, i), ValueAt(v, i), n);
      EmitIsOwned(id, v, i + 1, n1);
      var (rest, n2) := EmitFrom(id, v, i + 1, n1);
      EmitNext(id, v, i, n);
      WidenOwned(first, id, n, n1, n, n2);
      WidenOwned(rest, id, n1, n2, n, n2);
    }
  }

  lemma {:induction false} OneIsOwned(id: string, key: string, w: Json, n: nat)
    ensures var (facts, n') := EmitOne(id, key, w, n); n <= n' && OwnedWithin(facts, id, n, n')
    decreases w, Size(w) + 1
  {
    if IsContainer(w) {
      EmitIsOwned(NodeId(n + 1), w, 0, n + 1);
      var (inner, n') := EmitFrom(NodeId(n + 1), w, 0, n + 1);
      forall f | f in inner ensures InRange(f.node, n, n') {
        if f.node != NodeId(n + 1) {
          var m :| n + 1 < m <= n' && f.node == NodeId(m);
        }
      }
    }
  }

  // ----- One fact per node and key ---------------------------------------

  /** Object keys are distinct, here and below; a map guarantees it. */
  predicate WellKeyed(v: Json) {
    && (v.Obj? ==> forall i, j | 0 <= i < j < |v.fields| :: v.fields[i].key != v.fields[j].key)
    && forall i | 0 <= i < Size(v) :: WellKeyed(ValueAt(v, i))
  }

  lemma KeysDiffer(v: Json, i: nat, j: nat)
    requires WellKeyed(v) && i < j < Size(v)
    ensures KeyAt(v, i) != KeyAt(v, j)
  {
    if v.Arr? && Decimal(i) == Decimal(j) {
      DecimalIsInjective(i, j);
    }
  }

  /** The facts a container owns itself are those of its entries. */
  predicate OwnKeys(facts: seq<Fact>, id: string, v: Json, i: nat)
    requires i <= Size(v)
  {
    forall f | f in facts && f.node == id ::
      exists j | i <= j < Size(v) :: f.key == KeyAt(v, j) && !ValueAt(v, j).Null?
  }

  lemma NotOwnedByOuter(facts: seq<Fact>, id: string, inner: string, lo: nat, hi: nat, n: nat)
    requires OwnedWithin(facts, inner, lo, hi) && NotAnId(id, n, hi) && n <= lo && inner != id
    ensures forall f | f in facts :: f.node != id
  {
  }

  lemma {:induction false} OwnKeysOnly(id: string, v: Json, i: nat, n: nat)
    requires i <= Size(v) && NotAnId(id, n, EmitFrom(id, v, i, n).1)
    ensures OwnKeys(EmitFrom(id, v, i, n).0, id, v, i)
    decreases Size(v) - i
  {
    if i < Size(v) {
      EntryIdsAreWithin(id, v, i, n);
      OneOwnKey(id, KeyAt(v, i), ValueAt(v, i), n);
      var (first, n1) := EmitOne(id, KeyAt(v, i), ValueAt(v, i), n);
      OwnKeysOnly(id, v, i + 1, n1);
      EmitNext(id, v, i, n);
    }
  }

  /** What is no id of a container's contents is no id of one entry's contents, nor of the later entries'. */
  lemma EntryIdsAreWithin(id: string, v: Json, i: nat, n: nat)
    requires i < Size(v) && NotAnId(id, n, EmitFrom(id, v, i, n).1)
    ensures var n1 := EmitOne(id, KeyAt(v, i), ValueAt(v, i), n).1;
            NotAnId(id, n, n1) && NotAnId(id, n1, EmitFrom(id, v, i + 1, n1).1)
  {
    var n1 := EmitOne(id, KeyAt(v, i), ValueAt(v, i), n).1;
    EmitNext(id, v, i, n);
    OneIsOwned(id, KeyAt(v, i), ValueAt(v, i), n);
    EmitIsOwned(id, v, i + 1, n1);
  }

  lemma OneOwnKey(id: string, key: string, w: Json, n: nat)
    requires NotAnId(id, n, EmitOne(id, key, w, n).1)
    ensures forall f | f in EmitOne(id, key, w, n).0 && f.node == id :: f.key == key && !w.Null?
    ensures var facts := EmitOne(id, key, w, n).0;
            forall f, g | f in facts && g in facts && f.node == g.node == id :: f == g
  {
    if IsContainer(w) {
      EmitIsOwned(NodeId(n + 1), w, 0, n + 1);
      var (inner, n') := EmitFrom(NodeId(n + 1), w, 0, n + 1);
      NotOwnedByOuter(inner, id, NodeId(n + 1), n + 1, n', n);
    }
  }

  predicate Functional(facts: seq<Fact>) {
    forall f, g | f in facts && g in facts && f.node == g.node && f.key == g.key :: f == g
  }

  lemma {:induction false} EmitIsFunctional(id: string, v: Json, i: nat, n: nat)
    requires i <= Size(v) && WellKeyed(v) && NotAnId(id, n, EmitFrom(id, v, i, n).1)
    ensures Functional(EmitFrom(id, v, i, n).0)
    decreases v, Size(v) - i
  {
    if i < Size(v) {
      var n1 := EmitOne(id, KeyAt(v, i), ValueAt(v, i), n).1;
      EntryIdsAreWithin(id, v, i, n);
      OneIsFunctional(id, KeyAt(v, i), ValueAt(v, i), n);
      EmitIsFunctional(id, v, i + 1, n1);
      FunctionalNext(id, v, i, n);
    }
  }

  lemma FunctionalNext(id: string, v: Json, i: nat, n: nat)
    requires i < Size(v) && WellKeyed(v) && NotAnId(id, n, EmitFrom(id, v, i, n).1)
    requires var (first, n1) := EmitOne(id, KeyAt(v, i), ValueAt(v, i), n);
             Functional(first) && Functional(EmitFrom(id, v, i + 1, n1).0)
    ensures Functional(EmitFrom(id, v, i, n).0)
  {
    var (first, n1) := EmitOne(id, KeyAt(v, i), ValueAt(v, i), n);
    LaterEntriesDoNotClash(id, v, i, n);
    FunctionalConcat(first, EmitFrom(id, v, i + 1, n1).0);
    EmitNext(id, v, i, n);
  }

  lemma LaterEntriesDoNotClash(id: string, v: Json, i: nat, n: nat)
    requires i < Size(v) && WellKeyed(v) && NotAnId(id, n, EmitFrom(id, v, i, n).1)
    ensures var (first, n1) := EmitOne(id, KeyAt(v, i), ValueAt(v, i), n);
            forall f, g | f in first && g in EmitFrom(id, v, i + 1, n1).0 && f.node == g.node :: f.key != g.key
  {
    EntryIdsAreWithin(id, v, i, n);
    var key, w := KeyAt(v, i), ValueAt(v, i);
    var (first, n1) := EmitOne(id, key, w, n);
    var (rest, n2) := EmitFrom(id, v, i + 1, n1);
    OneOwnKey(id, key, w, n);
    OneIsOwned(id, key, w, n);
    OwnKeysOnly(id, v, i + 1, n1);
    EmitIsOwned(id, v, i + 1, n1);
    EntriesDoNotClash(first, rest, id, v, i, n, n1, n2);
  }

  /** The facts of entry `i` and of the later entries are about different nodes or keys. */
  lemma EntriesDoNotClash(first: seq<Fact>, rest: seq<Fact>, id: string, v: Json, i: nat, n: nat, n1: nat, n2: nat)
    requires i < Size(v) && WellKeyed(v) && NotAnId(id, n, n2) && n <= n1 <= n2
    requires OwnedWithin(first, id, n, n1) && OwnedWithin(rest, id, n1, n2)
    requires forall f | f in first && f.node == id :: f.key == KeyAt(v, i)
    requires OwnKeys(rest, id, v, i + 1)
    ensures forall f, g | f in first && g in rest && f.node == g.node :: f.key != g.key
  {
    forall f, g | f in first && g in rest && f.node == g.node ensures f.key != g.key {
      if f.node == id {
        var j :| i + 1 <= j < Size(v) && g.key == KeyAt(v, j);
        KeysDiffer(v, i, j);
      } else {
        RangesAreDisjoint(f.node, n, n1, n2);
      }
    }
  }

  lemma FunctionalConcat(first: seq<Fact>, rest: seq<Fact>)
    requires Functional(first) && Functional(rest)
    requires forall f, g | f in first && g in rest && f.node == g.node :: f.key != g.key
    ensures Functional(first + rest)
  {
  }

  lemma {:induction false} OneIsFunctional(id: string, key: string, w: Json, n: nat)
    requires WellKeyed(w) && NotAnId(id, n, EmitOne(id, key, w, n).1)
    ensures Functional(EmitOne(id, key, w, n).0)
    decreases w, Size(w) + 1
  {
    if IsContainer(w) {
      ChildIsNotLater(n + 1, EmitOne(id, key, w, n).1);
      EmitIsFunctional(NodeId(n + 1), w, 0, n + 1);
      OneOwnKey(id, key, w, n);
    }
  }

  // ----- The facts determine the value -----------------------------------

  /** A value without its nulls, arrays keyed by index. */
  datatype Tree = LeafStr(s: string) | LeafBool(b: bool) | LeafNum(n: int) | Node(children: map<string, Tree>)

  function TreeOf(v: Json): Tree
    requires !v.Null?
    decreases v, Size(v) + 1
  {
    if v.Str? then LeafStr(v.s)
    else if v.Bool? then LeafBool(v.b)
    else if v.Num? then LeafNum(v.n)
    else Node(Children(v, 0))
  }

  function Children(v: Json, i: nat): map<string, Tree>
    requires i <= Size(v)
    decreases v, Size(v) - i
  {
    if i == Size(v) then map[]
    else if ValueAt(v, i).Null? then Children(v, i + 1)
    else Children(v, i + 1)[KeyAt(v, i) := TreeOf(ValueAt(v, i))]
  }

  /** Entry `j`, if it is not null, is the child under its key. */
  lemma {:induction false} EntryIsChild(v: Json, i: nat, j: nat)
    requires i <= j < Size(v) && WellKeyed(v) && !ValueAt(v, j).Null?
    ensures KeyAt(v, j) in Children(v, i) && Children(v, i)[KeyAt(v, j)] == TreeOf(ValueAt(v, j))
    decreases j - i
  {
    if i < j {
      EntryIsChild(v, i + 1, j);
      KeysDiffer(v, i, j);
      LaterChildStays(v, i, KeyAt(v, j));
    }
  }

  lemma LaterChildStays(v: Json, i: nat, key: string)
    requires i < Size(v) && key in Children(v, i + 1) && key != KeyAt(v, i)
    ensures key in Children(v, i) && Children(v, i)[key] == Children(v, i + 1)[key]
  {
  }

  lemma {:induction false} ChildIsEntry(v: Json, i: nat, k: string) returns (j: nat)
    requires i <= Size(v) && k in Children(v, i)
    ensures i <= j < Size(v) && KeyAt(v, j) == k && !ValueAt(v, j).Null?
    decreases Size(v) - i
  {
    if !ValueAt(v, i).Null? && KeyAt(v, i) == k {
      j := i;
    } else {
      j := ChildIsEntry(v, i + 1, k);
    }
  }

  /** The tree of an array has the items that are not null, each under its index in decimal. */
  lemma TreeOfArray(items: seq<Json>)
    requires WellKeyed(Arr(items))
    ensures var t := TreeOf(Arr(items));
            && t.Node?
            && (forall k :: k in t.children <==> exists i | 0 <= i < |items| :: !items[i].Null? && k == Decimal(i))
            && (forall i | 0 <= i < |items| && !items[i].Null? ::
                  Decimal(i) in t.children && t.children[Decimal(i)] == TreeOf(items[i]))
  {
    var v := Arr(items);
    forall i | 0 <= i < |items| && !items[i].Null?
      ensures Decimal(i) in Children(v, 0) && Children(v, 0)[Decimal(i)] == TreeOf(items[i])
    {
      EntryIsChild(v, 0, i);
    }
    forall k | k in Children(v, 0) ensures exists i | 0 <= i < |items| :: !items[i].Null? && k == Decimal(i) {
      var j := ChildIsEntry(v, 0, k);
    }
  }

  /** The tree of an object has the fields that are not null, each under its key. */
  lemma TreeOfObject(fields: seq<Field>)
    requires WellKeyed(Obj(fields))
    ensures var t := TreeOf(Obj(fields));
            && t.Node?
            && (forall k :: k in t.children <==> exists f | f in fields :: !f.value.Null? && k == f.key)
            && (forall f | f in fields && !f.value.Null? ::
                  f.key in t.children && t.children[f.key] == TreeOf(f.value))
  {
    var v := Obj(fields);
    forall f | f in fields && !f.value.Null?
      ensures f.key in Children(v, 0) && Children(v, 0)[f.key] == TreeOf(f.value)
    {
      var i :| 0 <= i < |fields| && fields[i] == f;
      EntryIsChild(v, 0, i);
    }
    forall k | k in Children(v, 0) ensures exists f | f in fields :: !f.value.Null? && k == f.key {
      var j := ChildIsEntry(v, 0, k);
      assert fields[j] in fields;
    }
  }

  /** The facts of node `id` say exactly the tree `t`. */
  ghost predicate Represents(facts: set<Fact>, id: string, t: Tree)
    decreases t, 0
  {
    && t.Node?
    && (forall k | k in t.children :: Shows(facts, id, k, t.children[k]))
    && (forall f | f in facts && f.node == id :: f.key in t.children)
  }

  ghost predicate Shows(facts: set<Fact>, id: string, key: string, t: Tree)
    decreases t, 1
  {
    match t
    case LeafStr(s) => StrFact(id, key, s) in facts
    case LeafBool(b) => BoolFact(id, key, b) in facts
    case LeafNum(n) => NumFact(id, key, n) in facts
    case Node(_) => exists child :: Link(id, key, child) in facts && Represents(facts, child, t)
  }

  // ----- Grafting a tree at the root's own id ----------------------------

  /** Ids in use after an entry. */
  function After(w: Json, n: nat): nat {
    if IsContainer(w) then n + 1 + Containers(w, 0) else n
  }

  /** The tree of an entry, with `t` in place of a container that got the id of the root. */
  function Grafted(root: string, t: Tree, w: Json, n: nat): Tree
    requires !w.Null?
    decreases w, Size(w) + 1
  {
    if !IsContainer(w) then TreeOf(w)
    else if NodeId(n + 1) == root then t
    else Node(GraftedFrom(root, t, w, 0, n + 1))
  }

  function GraftedFrom(root: string, t: Tree, v: Json, i: nat, n: nat): map<string, Tree>
    requires i <= Size(v)
    decreases v, Size(v) - i
  {
    if i == Size(v) then map[]
    else
      var rest := GraftedFrom(root, t, v, i + 1, After(ValueAt(v, i), n));
      if ValueAt(v, i).Null? then rest else rest[KeyAt(v, i) := Grafted(root, t, ValueAt(v, i), n)]
  }

  lemma {:induction false} GraftedKeys(root: string, t: Tree, v: Json, i: nat, n: nat)
    requires i <= Size(v)
    ensures GraftedFrom(root, t, v, i, n).Keys == Children(v, i).Keys
    decreases Size(v) - i
  {
    if i < Size(v) {
      GraftedKeys(root, t, v, i + 1, After(ValueAt(v, i), n));
    }
  }

  lemma WidenRange(text: string, lo: nat, hi: nat, lo': nat, hi': nat)
    requires InRange(text, lo, hi) && lo' <= lo && hi <= hi'
    ensures InRange(text, lo', hi')
  {
  }

  lemma NotInNarrower(text: string, lo: nat, hi: nat, lo': nat, hi': nat)
    requires !InRange(text, lo, hi) && lo <= lo' && hi' <= hi
    ensures !InRange(text, lo', hi')
  {
  }

  lemma EntryCounts(v: Json, i: nat, n: nat)
    requires i < Size(v)
    ensures n + Containers(v, i) == After(ValueAt(v, i), n) + Containers(v, i + 1)
    ensures n <= After(ValueAt(v, i), n)
  {
  }

  /** Where no container got the id of the root, nothing is grafted. */
  lemma {:induction false} NothingGrafted(root: string, t: Tree, v: Json, i: nat, n: nat)
    requires i <= Size(v) && !InRange(root, n, n + Containers(v, i))
    ensures GraftedFrom(root, t, v, i, n) == Children(v, i)
    decreases v, Size(v) - i
  {
    if i < Size(v) {
      var w, hi := ValueAt(v, i), n + Containers(v, i);
      var n1 := After(w, n);
      EntryCounts(v, i, n);
      NotInNarrower(root, n, hi, n1, hi);
      NotInNarrower(root, n, hi, n, n1);
      NothingGrafted(root, t, v, i + 1, n1);
      if !w.Null? {
        NothingGraftedInEntry(root, t, w, n);
      }
    }
  }

  lemma {:induction false} NothingGraftedInEntry(root: string, t: Tree, w: Json, n: nat)
    requires !w.Null? && !InRange(root, n, After(w, n))
    ensures Grafted(root, t, w, n) == TreeOf(w)
    decreases w, Size(w) + 1
  {
    if IsContainer(w) {
      assert NodeId(n + 1) != root;
      NotInNarrower(root, n, After(w, n), n + 1, After(w, n));
      NothingGrafted(root, t, w, 0, n + 1);
    }
  }

  /** Some child is the tree or has it inside. */
  ghost predicate Contains(children: map<string, Tree>, t: Tree) {
    exists k | k in children :: children[k] == t || t < children[k]
  }

  /** Where a container did get that id, the grafted tree is inside. */
  lemma {:induction false} GraftIsInside(root: string, t: Tree, v: Json, i: nat, n: nat)
    requires i <= Size(v) && WellKeyed(v) && InRange(root, n, n + Containers(v, i))
    ensures Contains(GraftedFrom(root, t, v, i, n), t)
    decreases v, Size(v) - i
  {
    var n1 := After(ValueAt(v, i), n);
    var m :| n < m <= n + Containers(v, i) && root == NodeId(m);
    EntryCounts(v, i, n);
    if m > n1 {
      GraftIsInside(root, t, v, i + 1, n1);
      LaterGraftStays(root, t, v, i, n);
    } else {
      GraftIsInsideEntry(root, t, ValueAt(v, i), n);
      assert KeyAt(v, i) in GraftedFrom(root, t, v, i, n);
    }
  }

  lemma LaterGraftStays(root: string, t: Tree, v: Json, i: nat, n: nat)
    requires i < Size(v) && WellKeyed(v) && Contains(GraftedFrom(root, t, v, i + 1, After(ValueAt(v, i), n)), t)
    ensures Contains(GraftedFrom(root, t, v, i, n), t)
  {
    var w, n1 := ValueAt(v, i), After(ValueAt(v, i), n);
    if !w.Null? {
      GraftedKeys(root, t, v, i + 1, n1);
      KeyIsNotLater(v, i);
      ContainsStays(GraftedFrom(root, t, v, i + 1, n1), KeyAt(v, i), Grafted(root, t, w, n), t);
    }
  }

  lemma KeyIsNotLater(v: Json, i: nat)
    requires i < Size(v) && WellKeyed(v)
    ensures KeyAt(v, i) !in Children(v, i + 1)
  {
    if KeyAt(v, i) in Children(v, i + 1) {
      var j := ChildIsEntry(v, i + 1, KeyAt(v, i));
      KeysDiffer(v, i, j);
    }
  }

  lemma ContainsStays(children: map<string, Tree>, key: string, here: Tree, t: Tree)
    requires Contains(children, t) && key !in children
    ensures Contains(children[key := here], t)
  {
    var k :| k in children && (children[k] == t || t < children[k]);
    assert k in children[key := here] && children[key := here][k] == children[k];
  }

  lemma {:induction false} GraftIsInsideEntry(root: string, t: Tree, w: Json, n: nat)
    requires WellKeyed(w) && IsContainer(w) && InRange(root, n, After(w, n))
    ensures Grafted(root, t, w, n) == t || t < Grafted(root, t, w, n)
    decreases w, Size(w) + 1
  {
    if NodeId(n + 1) != root {
      var m :| n < m <= After(w, n) && root == NodeId(m);
      assert InRange(root, n + 1, After(w, n));
      GraftIsInside(root, t, w, 0, n + 1);
      var inner := GraftedFrom(root, t, w, 0, n + 1);
      var k :| k in inner && (inner[k] == t || t < inner[k]);
      assert inner[k] < Node(inner);
    }
  }

  // ----- What the facts represent ----------------------------------------

  /**
    The set holds the emitted facts, and of the nodes numbered `lo + 1` to `hi`
    no others, except about the root.
  */
  ghost predicate Holds(all: set<Fact>, root: string, facts: seq<Fact>, lo: nat, hi: nat) {
    && (forall f | f in facts :: f in all)
    && (forall f | f in all && f.node != root && InRange(f.node, lo, hi) :: f in facts)
  }

  lemma SplitHolds(all: set<Fact>, root: string, id: string, v: Json, i: nat, n: nat)
    requires i < Size(v) && (id == root || NotAnId(id, n, EmitFrom(id, v, i, n).1))
    requires var (facts, n') := EmitFrom(id, v, i, n); Holds(all, root, facts, n, n')
    ensures var (first, n1) := EmitOne(id, KeyAt(v, i), ValueAt(v, i), n);
            var (rest, n2) := EmitFrom(id, v, i + 1, n1);
            n <= n1 <= n2 && Holds(all, root, first, n, n1) && Holds(all, root, rest, n1, n2)
  {
    var (first, n1) := EmitOne(id, KeyAt(v, i), ValueAt(v, i), n);
    var (rest, n2) := EmitFrom(id, v, i + 1, n1);
    EmitNext(id, v, i, n);
    OneIsOwned(id, KeyAt(v, i), ValueAt(v, i), n);
    EmitIsOwned(id, v, i + 1, n1);
    forall f | f in all && f.node != root && InRange(f.node, n, n1) ensures f in first {
      RangesAreDisjoint(f.node, n, n1, n2);
    }
    forall f | f in all && f.node != root && InRange(f.node, n1, n2) ensures f in rest {
      WidenRange(f.node, n1, n2, n, n2);
      if f in first {
        RangesAreDisjoint(f.node, n, n1, n2);
      }
    }
  }

  /** The facts inside a linked container are held too, together with everything about its node. */
  lemma InnerIsHeld(all: set<Fact>, root: string, id: string, key: string, w: Json, n: nat)
    requires IsContainer(w) && NodeId(n + 1) != root
    requires id == root || NotAnId(id, n, EmitOne(id, key, w, n).1)
    requires var (facts, n') := EmitOne(id, key, w, n); Holds(all, root, facts, n, n')
    ensures var (inner, n') := EmitFrom(NodeId(n + 1), w, 0, n + 1);
            && Holds(all, root, inner, n + 1, n')
            && forall f | f in all && f.node == NodeId(n + 1) :: f in inner
  {
    var (facts, n') := EmitOne(id, key, w, n);
    var child := NodeId(n + 1);
    var inner := EmitFrom(child, w, 0, n + 1).0;
    EmitIsOwned(child, w, 0, n + 1);
    forall f | f in all && f.node != root && (f.node == child || InRange(f.node, n + 1, n')) ensures f in inner {
      if InRange(f.node, n + 1, n') { WidenRange(f.node, n + 1, n', n, n'); }
      assert InRange(f.node, n, n');
    }
  }

  /** The root represents `t`, if a container within the range got its id. */
  ghost predicate Grounded(all: set<Fact>, root: string, t: Tree, lo: nat, hi: nat) {
    InRange(root, lo, hi) ==> Represents(all, root, t)
  }

  lemma GroundedWithin(all: set<Fact>, root: string, t: Tree, lo: nat, hi: nat, lo': nat, hi': nat)
    requires Grounded(all, root, t, lo, hi) && lo <= lo' && hi' <= hi
    ensures Grounded(all, root, t, lo', hi')
  {
    if InRange(root, lo', hi') { WidenRange(root, lo', hi', lo, hi); }
  }

  ghost predicate ShowsAll(all: set<Fact>, id: string, children: map<string, Tree>) {
    forall k | k in children :: Shows(all, id, k, children[k])
  }

  lemma ShowsOneMore(all: set<Fact>, id: string, children: map<string, Tree>, key: string, t: Tree)
    requires ShowsAll(all, id, children) && Shows(all, id, key, t)
    ensures ShowsAll(all, id, children[key := t])
  {
  }

  /** All that emitting facts for node `id` with ids after `n` up to `hi` leaves in the set. */
  ghost predicate Emitted(all: set<Fact>, root: string, t: Tree, id: string, facts: seq<Fact>, n: nat, hi: nat) {
    (id == root || NotAnId(id, n, hi)) && Holds(all, root, facts, n, hi) && Grounded(all, root, t, n, hi)
  }

  ghost predicate EntriesEmitted(all: set<Fact>, root: string, t: Tree, id: string, v: Json, i: nat, n: nat)
    requires i <= Size(v)
  {
    var (facts, n') := EmitFrom(id, v, i, n);
    Emitted(all, root, t, id, facts, n, n')
  }

  ghost predicate EntryEmitted(all: set<Fact>, root: string, t: Tree, id: string, key: string, w: Json, n: nat) {
    var (facts, n') := EmitOne(id, key, w, n);
    Emitted(all, root, t, id, facts, n, n')
  }

  lemma EntryCounters(id: string, v: Json, i: nat, n: nat)
    requires i < Size(v)
    ensures var n1 := After(ValueAt(v, i), n);
            && EmitOne(id, KeyAt(v, i), ValueAt(v, i), n).1 == n1
            && n <= n1 <= EmitFrom(id, v, i + 1, n1).1 == EmitFrom(id, v, i, n).1
  {
    OneLinkIsFresh(id, KeyAt(v, i), ValueAt(v, i), n);
    LinksAreFresh(id, v, i + 1, After(ValueAt(v, i), n));
    EmitNext(id, v, i, n);
  }

  lemma SplitEmitted(all: set<Fact>, root: string, t: Tree, id: string, v: Json, i: nat, n: nat)
    requires i < Size(v) && EntriesEmitted(all, root, t, id, v, i, n)
    ensures EntryEmitted(all, root, t, id, KeyAt(v, i), ValueAt(v, i), n)
    ensures EntriesEmitted(all, root, t, id, v, i + 1, After(ValueAt(v, i), n))
  {
    var n1, n2 := After(ValueAt(v, i), n), EmitFrom(id, v, i, n).1;
    EntryCounters(id, v, i, n);
    SplitHolds(all, root, id, v, i, n);
    GroundedWithin(all, root, t, n, n2, n, n1);
    GroundedWithin(all, root, t, n, n2, n1, n2);
  }

  /** The facts of the entries from `i` on show the grafted tree of each. */
  lemma {:induction false} EntriesShow(all: set<Fact>, root: string, t: Tree, id: string, v: Json, i: nat, n: nat)
    requires i <= Size(v) && WellKeyed(v) && EntriesEmitted(all, root, t, id, v, i, n)
    ensures ShowsAll(all, id, GraftedFrom(root, t, v, i, n))
    decreases v, Size(v) - i
  {
    if i < Size(v) {
      var w := ValueAt(v, i);
      var n1 := After(w, n);
      SplitEmitted(all, root, t, id, v, i, n);
      EntriesShow(all, root, t, id, v, i + 1, n1);
      if !w.Null? {
        OneShows(all, root, t, id, KeyAt(v, i), w, n);
        ShowsOneMore(all, id, GraftedFrom(root, t, v, i + 1, n1), KeyAt(v, i), Grafted(root, t, w, n));
      }
    }
  }

  lemma {:induction false} OneShows(all: set<Fact>, root: string, t: Tree, id: string, key: string, w: Json, n: nat)
    requires WellKeyed(w) && !w.Null? && EntryEmitted(all, root, t, id, key, w, n)
    ensures Shows(all, id, key, Grafted(root, t, w, n))
    decreases w, Size(w) + 2
  {
    if IsContainer(w) {
      LinkIsHeld(all, root, t, id, key, w, n);
      if NodeId(n + 1) != root {
        NestedIsEmitted(all, root, t, id, key, w, n);
        NestedRepresents(all, root, t, w, n + 1);
      }
      LinkShows(all, id, key, NodeId(n + 1), Grafted(root, t, w, n));
    } else {
      LeafShows(all, id, key, w, n);
    }
  }

  lemma LinkIsHeld(all: set<Fact>, root: string, t: Tree, id: string, key: string, w: Json, n: nat)
    requires IsContainer(w) && EntryEmitted(all, root, t, id, key, w, n)
    ensures Link(id, key, NodeId(n + 1)) in all
    ensures NodeId(n + 1) == root ==> Represents(all, root, t)
  {
    var (facts, n') := EmitOne(id, key, w, n);
    assert Link(id, key, NodeId(n + 1)) in facts;
    EmitIsOwned(NodeId(n + 1), w, 0, n + 1);
    assert InRange(NodeId(n + 1), n, n');
  }

  lemma NestedIsEmitted(all: set<Fact>, root: string, t: Tree, id: string, key: string, w: Json, n: nat)
    requires IsContainer(w) && NodeId(n + 1) != root && EntryEmitted(all, root, t, id, key, w, n)
    ensures EntriesEmitted(all, root, t, NodeId(n + 1), w, 0, n + 1)
    ensures forall f | f in all && f.node == NodeId(n + 1) :: f in EmitFrom(NodeId(n + 1), w, 0, n + 1).0
  {
    var n' := EmitOne(id, key, w, n).1;
    InnerIsHeld(all, root, id, key, w, n);
    ChildIsNotLater(n + 1, n');
    GroundedWithin(all, root, t, n, n', n + 1, n');
  }

  lemma LinkShows(all: set<Fact>, id: string, key: string, child: string, t: Tree)
    requires Link(id, key, child) in all && Represents(all, child, t)
    ensures Shows(all, id, key, t)
  {
  }

  lemma LeafShows(all: set<Fact>, id: string, key: string, w: Json, n: nat)
    requires !w.Null? && !IsContainer(w)
    requires forall f | f in EmitOne(id, key, w, n).0 :: f in all
    ensures Shows(all, id, key, TreeOf(w))
  {
    assert EmitOne(id, key, w, n).0[0] in EmitOne(id, key, w, n).0;
  }

  /** A nested container whose facts are all there, and no others of its nodes, represents its grafted tree. */
  lemma {:induction false} NestedRepresents(all: set<Fact>, root: string, t: Tree, v: Json, n: nat)
    requires IsContainer(v) && WellKeyed(v) && EntriesEmitted(all, root, t, NodeId(n), v, 0, n)
    requires forall f | f in all && f.node == NodeId(n) :: f in EmitFrom(NodeId(n), v, 0, n).0
    ensures Represents(all, NodeId(n), Node(GraftedFrom(root, t, v, 0, n)))
    decreases v, Size(v) + 1
  {
    ChildIsNotLater(n, EmitFrom(NodeId(n), v, 0, n).1);
    EntriesShow(all, root, t, NodeId(n), v, 0, n);
    OwnKeysAreChildren(NodeId(n), v, n);
    GraftedKeys(root, t, v, 0, n);
  }

  lemma OwnKeysAreChildren(id: string, v: Json, n: nat)
    requires WellKeyed(v) && NotAnId(id, n, EmitFrom(id, v, 0, n).1)
    ensures forall f | f in EmitFrom(id, v, 0, n).0 && f.node == id :: f.key in Children(v, 0)
  {
    OwnKeysOnly(id, v, 0, n);
    forall f | f in EmitFrom(id, v, 0, n).0 && f.node == id ensures f.key in Children(v, 0) {
      var j :| 0 <= j < Size(v) && f.key == KeyAt(v, j) && !ValueAt(v, j).Null?;
      EntryIsChild(v, 0, j);
    }
  }

  /** Where each node has at most one fact per key, it says at most one tree. */
  lemma {:induction false} RepresentedOnce(facts: set<Fact>, id: string, t: Tree, u: Tree)
    requires forall f, g | f in facts && g in facts && f.node == g.node && f.key == g.key :: f == g
    requires Represents(facts, id, t) && Represents(facts, id, u)
    ensures t == u
    decreases t
  {
    assert t.children.Keys <= u.children.Keys by {
      forall k | k in t.children ensures k in u.children {
        assert Shows(facts, id, k, t.children[k]);
        ShowsAFact(facts, id, k, t.children[k]);
      }
    }
    assert u.children.Keys <= t.children.Keys by {
      forall k | k in u.children ensures k in t.children {
        assert Shows(facts, id, k, u.children[k]);
        ShowsAFact(facts, id, k, u.children[k]);
      }
    }
    forall k | k in t.children ensures t.children[k] == u.children[k] {
      var a, b := t.children[k], u.children[k];
      assert Shows(facts, id, k, a) && Shows(facts, id, k, b);
      if a.Node? && b.Node? {
        var c :| Link(id, k, c) in facts && Represents(facts, c, a);
        var d :| Link(id, k, d) in facts && Represents(facts, d, b);
        assert c == d;
        RepresentedOnce(facts, c, a, b);
      } else {
        LeavesAgree(facts, id, k, a, b);
      }
    }
    assert t.children == u.children;
  }

  lemma ShowsAFact(facts: set<Fact>, id: string, key: string, t: Tree)
    requires Shows(facts, id, key, t)
    ensures exists f | f in facts :: f.node == id && f.key == key
  {
    if t.Node? {
      var c :| Link(id, key, c) in facts;
      assert Link(id, key, c).key == key;
    } else {
      var f := if t.LeafStr? then StrFact(id, key, t.s)
               else if t.LeafBool? then BoolFact(id, key, t.b)
               else NumFact(id, key, t.n);
      assert f in facts && f.node == id && f.key == key;
    }
  }

  lemma LeavesAgree(facts: set<Fact>, id: string, key: string, a: Tree, b: Tree)
    requires forall f, g | f in facts && g in facts && f.node == g.node && f.key == g.key :: f == g
    requires Shows(facts, id, key, a) && Shows(facts, id, key, b) && !(a.Node? && b.Node?)
    ensures a == b
  {
  }

  function FactSet(root: string, v: Json): set<Fact> {
    set f | f in FlatFacts(root, v)
  }

  /** The root's facts show its tree with the root's own tree, if it represents one, grafted into it. */
  lemma RootShows(root: string, v: Json, t: Tree)
    requires WellKeyed(v) && Grounded(FactSet(root, v), root, t, 0, Containers(v, 0))
    ensures ShowsAll(FactSet(root, v), root, GraftedFrom(root, t, v, 0, 0))
  {
    LinksAreFresh(root, v, 0, 0);
    EntriesShow(FactSet(root, v), root, t, root, v, 0, 0);
  }

  /**
    For every container and any root that is none of the ids given out below
    it, the set of facts represents the value's tree and no other tree.
  */
  lemma FactsDetermineTree(root: string, v: Json, t: Tree)
    requires IsContainer(v) && WellKeyed(v) && !InRange(root, 0, Containers(v, 0))
    ensures Represents(FactSet(root, v), root, t) <==> t == TreeOf(v)
  {
    var all := FactSet(root, v);
    LinksAreFresh(root, v, 0, 0);
    RootShows(root, v, t);
    NothingGrafted(root, t, v, 0, 0);
    OwnKeysAreChildren(root, v, 0);
    assert Represents(all, root, TreeOf(v));
    EmitIsFunctional(root, v, 0, 0);
    if Represents(all, root, t) {
      RepresentedOnce(all, root, t, TreeOf(v));
    }
  }

  /** A root that is one of those ids represents a larger tree too, if it represents the value's tree at all. */
  lemma ClashingRootHasLargerTree(root: string, v: Json) returns (u: Tree)
    requires IsContainer(v) && WellKeyed(v) && InRange(root, 0, Containers(v, 0))
    requires Represents(FactSet(root, v), root, TreeOf(v))
    ensures Represents(FactSet(root, v), root, u) && u != TreeOf(v)
  {
    var t := TreeOf(v);
    var grafted := GraftedFrom(root, t, v, 0, 0);
    u := Node(grafted);
    RootShows(root, v, t);
    GraftedKeys(root, t, v, 0, 0);
    GraftIsInside(root, t, v, 0, 0);
    var k :| k in grafted && (grafted[k] == t || t < grafted[k]);
    assert grafted[k] < u;
  }

  /** The facts of the value, read at its root, represent its tree and nothing else. */
  ghost predicate ReadsBack(root: string, v: Json)
    requires !v.Null?
  {
    forall t :: Represents(FactSet(root, v), root, t) <==> t == TreeOf(v)
  }

  /** They do if and only if the root is none of the ids given out below it. */
  lemma ReadsBackExactly(root: string, v: Json)
    requires IsContainer(v) && WellKeyed(v)
    ensures ReadsBack(root, v) <==> !InRange(root, 0, Containers(v, 0))
  {
    if !InRange(root, 0, Containers(v, 0)) {
      forall t ensures Represents(FactSet(root, v), root, t) <==> t == TreeOf(v) { FactsDetermineTree(root, v, t); }
    } else if ReadsBack(root, v) {
      assert Represents(FactSet(root, v), root, TreeOf(v));
      var u := ClashingRootHasLargerTree(root, v);
      assert false;
    }
  }

  /** The roots in use: those of the gates and those of the command line. */
  const ROOTS: seq<string> := ["Req", "Output", "input", "root"]

  /** None of them is ever a generated id. */
  lemma RootsAreNoIds(root: string, hi: nat)
    requires root in ROOTS
    ensures !InRange(root, 0, hi)
  {
    forall m | 0 < m <= hi ensures root != NodeId(m) {
      assert NodeId(m)[0] == 'n';
    }
  }

  lemma SingleEntry(id: string, key: string, w: Json, n: nat)
    ensures EmitFrom(id, Obj([Field(key, w)]), 0, n) == EmitOne(id, key, w, n)
  {
    var v := Obj([Field(key, w)]);
    EmitNext(id, v, 0, n);
    assert Size(v) == 1 && KeyAt(v, 0) == key && ValueAt(v, 0) == w;
    var (first, n1) := EmitOne(id, key, w, n);
    assert EmitFrom(id, v, 1, n1) == ([], n1);
    assert first + [] == first;
  }

  lemma SingleChild(key: string, w: Json)
    requires !w.Null?
    ensures TreeOf(Obj([Field(key, w)])) == Node(map[key := TreeOf(w)])
  {
    var v := Obj([Field(key, w)]);
    assert Children(v, 1) == map[];
    assert KeyAt(v, 0) == key && ValueAt(v, 0) == w;
  }

  /** A root that is a generated id can make two trees out of one value's facts. */
  lemma RootMustNotBeAnId()
    ensures var inner := Obj([Field("a", Num(1))]);
            var all := FactSet(NodeId(1), Obj([Field("a", inner)]));
            && Represents(all, NodeId(1), TreeOf(Obj([Field("a", inner)])))
            && Represents(all, NodeId(1), TreeOf(inner))
  {
    var inner := Obj([Field("a", Num(1))]);
    var id := NodeId(1);
    SingleEntry(id, "a", inner, 0);
    SingleEntry(id, "a", Num(1), 1);
    var facts := FlatFacts(id, Obj([Field("a", inner)]));
    assert facts == [Link(id, "a", id), NumFact(id, "a", 1)];
    var all := set f | f in facts;
    assert facts[0] in all && facts[1] in all;
    SingleChild("a", Num(1));
    SingleChild("a", inner);
    LinkShows(all, id, "a", id, TreeOf(inner));
  }
}

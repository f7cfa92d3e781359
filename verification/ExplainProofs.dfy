/** What derivation trees say about safe rules and about loaded programs. */
module ExplainProofs {
  import opened Datalog
  import opened Clauses
  import opened Prover

  /** The substitutions behind a rule node. */
  lemma RuleNode(store: Store, rules: seq<Clause>, f: Fact, t: Derivation, depth: nat)
    returns (head: Subst, sigma: Subst)
    requires ValidTree(store, rules, f, t, depth) && t.via.ViaRule?
    ensures var rule := t.via.rule;
            && head.Keys == VarsOf(rule.head.args) && Matches(rule.head.args, head, f.args)
            && Solution(store, rule.premises, 0, head, sigma)
            && |t.children| == |rule.premises|
            && forall k | 0 <= k < |t.children| ::
                 ValidChild(store, rules, rule.premises[k], Restrict(sigma, Bound(head.Keys, rule.premises, 0, k + 1)),
                            t.children[k], depth + 1)
  {
    var rule := t.via.rule;
    head, sigma :| && head.Keys == VarsOf(rule.head.args) && Matches(rule.head.args, head, f.args)
                   && Solution(store, rule.premises, 0, head, sigma)
                   && ValidChildren(store, rules, rule.premises, 0, head.Keys, sigma, t.children, depth + 1);
    forall k | 0 <= k < |t.children|
      ensures ValidChild(store, rules, rule.premises[k], Restrict(sigma, Bound(head.Keys, rule.premises, 0, k + 1)),
                         t.children[k], depth + 1)
    {
      assert rule.premises[0 + k] == rule.premises[k] && 0 + k + 1 == k + 1;
    }
  }

  /** A child with children of its own is a valid tree for some stored fact. */
  lemma ChildIsTree(store: Store, rules: seq<Clause>, f: Fact, t: Derivation, depth: nat, k: nat) returns (g: Fact)
    requires ValidTree(store, rules, f, t, depth) && t.via.ViaRule? && k < |t.children|
    ensures || ValidTree(store, rules, g, t.children[k], depth + 1)
            || ((t.children[k].via.ViaNegation? || t.children[k].via.ViaBuiltin?) && t.children[k].children == [])
  {
    var head, sigma := RuleNode(store, rules, f, t, depth);
    var p := t.via.rule.premises[k];
    var s := Restrict(sigma, Bound(head.Keys, t.via.rule.premises, 0, k + 1));
    assert ValidChild(store, rules, p, s, t.children[k], depth + 1);
    g := if p.Pos? then GroundFact(p.atom.pred, ApplyArgs(p.atom.args, s)) else f;
  }

  /** In a safe rule's node every child states its premise under one ground substitution. */
  lemma SafeRuleNode(store: Store, rules: seq<Clause>, f: Fact, t: Derivation, depth: nat) returns (sigma: Subst)
    requires ValidTree(store, rules, f, t, depth) && t.via.ViaRule?
    requires Safe(VarsOf(t.via.rule.head.args), t.via.rule.premises, 0)
    ensures Matches(t.via.rule.head.args, sigma, f.args)
    ensures |t.children| == |t.via.rule.premises|
    ensures forall j | 0 <= j < |t.children| ::
              && t.children[j].conclusion == ApplyPremise(t.via.rule.premises[j], sigma)
              && Satisfies(store, t.via.rule.premises[j], sigma)
  {
    var rule := t.via.rule;
    var head;
    head, sigma := RuleNode(store, rules, f, t, depth);
    forall i | 0 <= i < |rule.head.args| ensures ApplyTerm(rule.head.args[i], sigma) == Const(f.args[i]) {
      assert ApplyTerm(rule.head.args[i], head) == Const(f.args[i]);
    }
    forall j | 0 <= j < |t.children|
      ensures t.children[j].conclusion == ApplyPremise(rule.premises[j], sigma)
      ensures Satisfies(store, rule.premises[j], sigma)
    {
      SafeChild(store, rules, rule.premises, head.Keys, sigma, j, t.children[j], depth + 1);
    }
  }

  lemma SafeChild(store: Store, rules: seq<Clause>, premises: seq<Premise>, keys: set<string>, sigma: Subst, j: nat,
                  child: Derivation, depth: nat)
    requires j < |premises| && Safe(keys, premises, 0) && sigma.Keys == Bound(keys, premises, 0, |premises|)
    requires ValidChild(store, rules, premises[j], Restrict(sigma, Bound(keys, premises, 0, j + 1)), child, depth)
    ensures child.conclusion == ApplyPremise(premises[j], sigma) && Satisfies(store, premises[j], sigma)
  {
    BoundGrows(keys, premises, 0, j + 1, |premises|);
    SameWhenBound(store, premises[j], Restrict(sigma, Bound(keys, premises, 0, j + 1)), sigma);
  }

  /** The tree goes no deeper than `n` levels below its root. */
  predicate HeightAtMost(t: Derivation, n: nat) {
    t.children == [] || (n > 0 && forall c | c in t.children :: HeightAtMost(c, n - 1))
  }

  /** No tree reaches below the depth limit. */
  lemma {:induction false} TreesAreShallow(store: Store, rules: seq<Clause>, f: Fact, t: Derivation, depth: nat)
    requires ValidTree(store, rules, f, t, depth)
    ensures HeightAtMost(t, MAX_DEPTH - depth)
    decreases t
  {
    if t.via.ViaRule? {
      forall c | c in t.children ensures HeightAtMost(c, MAX_DEPTH - depth - 1) {
        var k :| 0 <= k < |t.children| && t.children[k] == c;
        var g := ChildIsTree(store, rules, f, t, depth, k);
        if ValidTree(store, rules, g, c, depth + 1) {
          TreesAreShallow(store, rules, g, c, depth + 1);
        }
      }
    }
  }

  /** No node was cut short. */
  predicate Complete(t: Derivation) {
    !t.via.ViaDepthLimit? && forall c | c in t.children :: Complete(c)
  }

  /** A tree that is cut only at the depth limit and does not reach it is complete. */
  lemma {:induction false} CutAtLimitIsDeep(t: Derivation, depth: nat)
    requires CutOnlyAtLimit(t, depth) && depth < MAX_DEPTH && HeightAtMost(t, MAX_DEPTH - 1 - depth)
    ensures Complete(t)
    decreases t
  {
    forall c | c in t.children ensures Complete(c) {
      CutAtLimitIsDeep(c, depth + 1);
    }
  }

  /**
    What a tree within the step limit says about every fact above the depth
    limit: a rule node with the first rule that fires if one does, and a base
    leaf exactly if none does.
  */
  ghost predicate Decided(store: Store, rules: seq<Clause>, t: Derivation, depth: nat) {
    && (forall f | t.conclusion == Label(f) && (t.via.ViaRule? || t.via.ViaFact? || t.via.ViaDepthLimit?) ::
          depth < MAX_DEPTH ==>
            && (t.via.ViaRule? <==> Derivable(store, rules, f))
            && (t.via.ViaRule? ==> FirstRule(store, rules, t.via.rule, f))
            && (t.via.ViaFact? <==> !Derivable(store, rules, f)))
    && forall c | c in t.children :: Decided(store, rules, c, depth + 1)
  }

  lemma LabelIsInjective(f: Fact, g: Fact)
    requires Label(f) == Label(g)
    ensures f == g
  {
    assert FactAtom(f).args == FactAtom(g).args;
    forall i | 0 <= i < |f.args| ensures f.args[i] == g.args[i] {
      assert FactAtom(f).args[i] == FactAtom(g).args[i];
    }
  }

  lemma {:induction false} TreesAreDecided(store: Store, rules: seq<Clause>, f: Fact, t: Derivation, depth: nat)
    requires ValidTree(store, rules, f, t, depth) && CutOnlyAtLimit(t, depth)
    ensures Decided(store, rules, t, depth)
    decreases t
  {
    forall g | t.conclusion == Label(g) ensures g == f { LabelIsInjective(f, g); }
    if t.via.ViaRule? {
      var k :| 0 <= k < |rules| && rules[k] == t.via.rule && FiresFor(store, t.via.rule, f);
      assert rules[k] in rules;
    }
    forall c | c in t.children ensures Decided(store, rules, c, depth + 1) {
      var k :| 0 <= k < |t.children| && t.children[k] == c;
      var g := ChildIsTree(store, rules, f, t, depth, k);
      if ValidTree(store, rules, g, c, depth + 1) {
        TreesAreDecided(store, rules, g, c, depth + 1);
      }
    }
  }

  // ----- Trees over the store of a loaded program ------------------------

  /** The ground rule is the clause under `s`. */
  ghost predicate InstanceOf(r: Rule, c: Clause, s: Subst) {
    && c.head.pred == r.head.pred && Matches(c.head.args, s, r.head.args)
    && forall p | p in c.premises ::
         match p
         case Pos(a) => IsGround(ApplyArgs(a.args, s)) && GroundFact(a.pred, ApplyArgs(a.args, s)) in r.pos
         case Neg(a) => IsGround(ApplyArgs(a.args, s)) && GroundFact(a.pred, ApplyArgs(a.args, s)) in r.neg
         case Eq(left, right) => ApplyTerm(left, s).Const? && ApplyTerm(left, s) == ApplyTerm(right, s)
         case Ineq(left, right) =>
           ApplyTerm(left, s).Const? && ApplyTerm(right, s).Const? && ApplyTerm(left, s) != ApplyTerm(right, s)
         case Other(_) => false
  }

  ghost predicate GroundedFrom(program: set<Rule>, rules: seq<Clause>) {
    forall r | r in program :: exists c, s :: c in rules && InstanceOf(r, c, s)
  }

  lemma FiringInstanceFires(store: Store, r: Rule, c: Clause, s: Subst)
    requires InstanceOf(r, c, s) && Fires(r, store, store) && c.premises != []
    ensures FiresFor(store, c, r.head)
  {
    forall j | 0 <= j < |c.premises| ensures Satisfies(store, c.premises[j], s) {
      assert c.premises[j] in c.premises;
    }
    var head := Restrict(s, VarsOf(c.head.args));
    forall i | 0 <= i < |c.head.args| ensures ApplyTerm(c.head.args[i], head) == Const(r.head.args[i]) {
      assert ApplyTerm(c.head.args[i], s) == Const(r.head.args[i]);
    }
    forall v | v in VarsOf(c.head.args) ensures v in head.Keys {
      var i :| 0 <= i < |c.head.args| && c.head.args[i] == Var(v);
      assert ApplyTerm(c.head.args[i], s) == Const(r.head.args[i]);
    }
    SatisfiedIsSolution(store, c.premises, 0, head, s);
  }

  /** The fact is in the input or stated by a clause without a body. */
  ghost predicate Loaded(rules: seq<Clause>, input: Store, f: Fact) {
    || f in input
    || exists c, s :: c in rules && c.premises == [] && c.head.pred == f.pred && Matches(c.head.args, s, f.args)
  }

  /** In a stable model of the program over an input, a fact for which no rule fires was given. */
  lemma UnfiredIsLoaded(program: set<Rule>, rules: seq<Clause>, input: Store, store: Store, f: Fact)
    requires StableModel(program, input, store) && GroundedFrom(program, rules) && f in store
    requires forall c | c in rules :: !FiresFor(store, c, f)
    ensures Loaded(rules, input, f)
  {
    if f !in input {
      CloseIsSupported(program, store, input, f);
      var r :| r in program && r.head == f && Fires(r, store, store);
      var c, s :| c in rules && InstanceOf(r, c, s);
      if c.premises != [] {
        FiringInstanceFires(store, r, c, s);
      }
    }
  }

  ghost predicate LeavesAreLoaded(rules: seq<Clause>, input: Store, t: Derivation) {
    && (t.via.ViaFact? ==> exists f :: t.conclusion == Label(f) && Loaded(rules, input, f))
    && forall c | c in t.children :: LeavesAreLoaded(rules, input, c)
  }

  /**
    Over a stable model of the program over an input, every base-fact leaf of a
    tree is in that input or a clause without a body.
  */
  lemma {:induction false} ExplanationsEndInLoadedFacts(program: set<Rule>, rules: seq<Clause>, input: Store,
                                                        store: Store, f: Fact, t: Derivation, depth: nat)
    requires StableModel(program, input, store) && GroundedFrom(program, rules)
    requires ValidTree(store, rules, f, t, depth)
    ensures LeavesAreLoaded(rules, input, t)
    decreases t
  {
    if t.via.ViaFact? {
      UnfiredIsLoaded(program, rules, input, store, f);
    } else if t.via.ViaRule? {
      forall c | c in t.children ensures LeavesAreLoaded(rules, input, c) {
        var k :| 0 <= k < |t.children| && t.children[k] == c;
        var g := ChildIsTree(store, rules, f, t, depth, k);
        if ValidTree(store, rules, g, c, depth + 1) {
          ExplanationsEndInLoadedFacts(program, rules, input, store, g, c, depth + 1);
        }
      }
    }
  }
}

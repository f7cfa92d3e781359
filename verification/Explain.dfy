/** The prover: finds a rule whose head unifies and whose premises hold, and records why. */
module Prover {
  import opened Datalog
  import opened Clauses

  const MAX_DEPTH := 32
  const MAX_STEPS := 1000

  datatype Via = ViaRule(rule: Clause) | ViaFact | ViaDepthLimit | ViaNegation | ViaBuiltin

  datatype Derivation = Derivation(conclusion: Premise, via: Via, children: seq<Derivation>)

  function Label(f: Fact): Premise {
    Pos(FactAtom(f))
  }

  function LeftBelow(depth: nat): nat {
    if depth >= MAX_DEPTH then 0 else MAX_DEPTH - depth
  }

  // ----- Valid derivation trees ------------------------------------------

  /** The first rule in program order that fires for `f`. */
  ghost predicate FirstRule(store: Store, rules: seq<Clause>, rule: Clause, f: Fact) {
    exists k :: 0 <= k < |rules| && rules[k] == rule && FiresFor(store, rule, f) &&
                forall m | 0 <= m < k :: !FiresFor(store, rules[m], f)
  }

  /** A tree that explains why the stored fact `f` holds, its root at the given depth. */
  ghost predicate ValidTree(store: Store, rules: seq<Clause>, f: Fact, t: Derivation, depth: nat)
    decreases t, 1
  {
    && f in store
    && t.conclusion == Label(f)
    && depth <= MAX_DEPTH
    && (depth == MAX_DEPTH ==> t.via.ViaDepthLimit?)
    && match t.via
       case ViaDepthLimit => t.children == []
       case ViaFact => t.children == [] && forall rule | rule in rules :: !FiresFor(store, rule, f)
       case ViaRule(rule) =>
         && FirstRule(store, rules, rule, f)
         && exists head: Subst, sigma: Subst ::
              && head.Keys == VarsOf(rule.head.args) && Matches(rule.head.args, head, f.args)
              && Solution(store, rule.premises, 0, head, sigma)
              && ValidChildren(store, rules, rule.premises, 0, head.Keys, sigma, t.children, depth + 1)
       case _ => false
  }

  /** Each premise, under the one substitution, is answered by its own child. */
  ghost predicate ValidChildren(store: Store, rules: seq<Clause>, premises: seq<Premise>, i: nat, keys: set<string>,
                                sigma: Subst, children: seq<Derivation>, depth: nat)
    requires i <= |premises|
    decreases children, 0
  {
    && |children| == |premises| - i
    && forall c | 0 <= c < |children| ::
         ValidChild(store, rules, premises[i + c], Restrict(sigma, Bound(keys, premises, i, i + c + 1)), children[c],
                    depth)
  }

  ghost predicate ValidChild(store: Store, rules: seq<Clause>, p: Premise, s: Subst, t: Derivation, depth: nat)
    decreases t, 2
  {
    && t.conclusion == ApplyPremise(p, s)
    && HoldsSoFar(store, p, s)
    && match p
       case Pos(a) => ValidTree(store, rules, GroundFact(a.pred, ApplyArgs(a.args, s)), t, depth)
       case Neg(_) => t.via.ViaNegation? && t.children == []
       case _ => t.via.ViaBuiltin? && t.children == []
  }

  /** Proofs are cut short only at the depth limit. */
  predicate CutOnlyAtLimit(t: Derivation, depth: nat) {
    && (t.via.ViaDepthLimit? ==> depth >= MAX_DEPTH)
    && forall c | c in t.children :: CutOnlyAtLimit(c, depth + 1)
  }

  predicate AllCutOnlyAtLimit(trees: seq<Derivation>, depth: nat) {
    forall t | t in trees :: CutOnlyAtLimit(t, depth)
  }

  /** Some rule with a body fires for the fact. */
  ghost predicate Derivable(store: Store, rules: seq<Clause>, f: Fact) {
    exists rule | rule in rules :: FiresFor(store, rule, f)
  }

  lemma GroundLabel(a: Atom, s: Subst)
    requires IsGround(ApplyArgs(a.args, s))
    ensures ApplyPremise(Pos(a), s) == Label(GroundFact(a.pred, ApplyArgs(a.args, s)))
  {
    var args := ApplyArgs(a.args, s);
    forall i | 0 <= i < |args| ensures args[i] == Const(args[i].name) {
      assert args[i] in args;
    }
  }

  /** Unifying an instance with a fact is matching the fact. */
  lemma MatchedFact(a: Atom, s: Subst, f: Fact)
    requires a.pred == f.pred && Matches(a.args, s, f.args)
    ensures IsGround(ApplyArgs(a.args, s)) && GroundFact(a.pred, ApplyArgs(a.args, s)) == f
  {
    var args := ApplyArgs(a.args, s);
    assert forall i | 0 <= i < |args| :: args[i] == Const(f.args[i]);
  }

  lemma GroundMatches(a: Atom, s: Subst)
    requires IsGround(ApplyArgs(a.args, s))
    ensures Matches(a.args, s, GroundFact(a.pred, ApplyArgs(a.args, s)).args)
  {
    var args := ApplyArgs(a.args, s);
    forall i | 0 <= i < |args| ensures args[i] == Const(args[i].name) {
      assert args[i] in args;
    }
  }

  // ----- Unification -----------------------------------------------------

  /**
    Binds the pattern's variables left to right. Success gives the least
    extension that turns the pattern into the fact's arguments; failure means
    that no extension does.
  */
  method UnifyArgs(pattern: seq<Term>, actual: seq<string>, subst: Subst) returns (ok: bool, out: Subst)
    requires |pattern| == |actual|
    ensures ok ==> Extends(subst, out) && out.Keys == subst.Keys + VarsOf(pattern) && Matches(pattern, out, actual)
    ensures !ok ==> forall s | Extends(subst, s) :: !Matches(pattern, s, actual)
  {
    out := subst;
    for i := 0 to |pattern|
      invariant Extends(subst, out)
      invariant out.Keys == subst.Keys + VarsOf(pattern[..i])
      invariant forall k | 0 <= k < i :: ApplyTerm(pattern[k], out) == Const(actual[k])
      invariant forall s | Extends(subst, s) && Matches(pattern, s, actual) :: Extends(out, s)
    {
      var t := pattern[i];
      VarsOfNext(pattern, i);
      assert forall s | Matches(pattern, s, actual) :: ApplyTerm(pattern[i], s) == Const(actual[i]);
      if t.Var? {
        if t.name in out {
          if out[t.name] != actual[i] {
            return false, out;
          }
        } else {
          out := out[t.name := actual[i]];
        }
      } else if t.name != actual[i] {
        return false, out;
      }
    }
    assert pattern[..|pattern|] == pattern;
    ok := true;
  }

  lemma VarsOfNext(pattern: seq<Term>, i: nat)
    requires i < |pattern|
    ensures VarsOf(pattern[..i + 1]) == VarsOf(pattern[..i]) + if pattern[i].Var? then {pattern[i].name} else {}
  {
    assert pattern[..i + 1] == pattern[..i] + [pattern[i]];
  }

  // ----- One premise of the search ---------------------------------------

  /** A premise that binds nothing new is checked under the bindings at hand. */
  lemma NoNewVariables(store: Store, premises: seq<Premise>, i: nat, subst: Subst)
    requires i < |premises| && PosVars(premises[i]) <= subst.Keys
    ensures Solvable(store, premises, i, subst) <==>
              HoldsSoFar(store, premises[i], subst) && Solvable(store, premises, i + 1, subst)
  {
    assert subst.Keys + PosVars(premises[i]) == subst.Keys;
    if Solvable(store, premises, i, subst) {
      var sigma :| Solution(store, premises, i, subst, sigma);
      SolutionTail(store, premises, i, subst, sigma);
      assert Restrict(sigma, subst.Keys) == subst;
    }
    if HoldsSoFar(store, premises[i], subst) && Solvable(store, premises, i + 1, subst) {
      var sigma :| Solution(store, premises, i + 1, subst, sigma);
      SolutionCons(store, premises, i, subst, subst, sigma);
    }
  }

  /** The stored fact `f` answers positive premise `i` and leaves the rest solvable. */
  ghost predicate SolvedBy(store: Store, premises: seq<Premise>, i: nat, subst: Subst, f: Fact)
    requires i < |premises| && premises[i].Pos?
  {
    exists next: Subst ::
      && Extends(subst, next) && next.Keys == subst.Keys + PosVars(premises[i])
      && Matches(premises[i].atom.args, next, f.args)
      && Solvable(store, premises, i + 1, next)
  }

  lemma SolvedBySomeFact(store: Store, premises: seq<Premise>, i: nat, subst: Subst)
    requires i < |premises| && premises[i].Pos?
    ensures Solvable(store, premises, i, subst) <==>
              exists f | f in store && f.pred == premises[i].atom.pred :: SolvedBy(store, premises, i, subst, f)
  {
    var a := premises[i].atom;
    if Solvable(store, premises, i, subst) {
      var sigma :| Solution(store, premises, i, subst, sigma);
      SolutionTail(store, premises, i, subst, sigma);
      var next := Restrict(sigma, subst.Keys + PosVars(premises[i]));
      GroundMatches(a, next);
      assert SolvedBy(store, premises, i, subst, GroundFact(a.pred, ApplyArgs(a.args, next)));
    }
    forall f | f in store && f.pred == a.pred && SolvedBy(store, premises, i, subst, f)
      ensures Solvable(store, premises, i, subst)
    {
      var next: Subst :| && Extends(subst, next) && next.Keys == subst.Keys + PosVars(premises[i])
                         && Matches(a.args, next, f.args) && Solvable(store, premises, i + 1, next);
      MatchedFact(a, next, f);
      var sigma :| Solution(store, premises, i + 1, next, sigma);
      SolutionCons(store, premises, i, subst, next, sigma);
    }
  }

  /** Matching the partly bound arguments is matching the original ones under an extension. */
  lemma MatchAfterApply(args: seq<Term>, subst: Subst, next: Subst, actual: seq<string>)
    requires Extends(subst, next)
    ensures Matches(ApplyArgs(args, subst), next, actual) <==> Matches(args, next, actual)
    ensures subst.Keys + VarsOf(ApplyArgs(args, subst)) == subst.Keys + VarsOf(args)
  {
    var applied := ApplyArgs(args, subst);
    assert forall i | 0 <= i < |args| :: ApplyTerm(applied[i], next) == ApplyTerm(args[i], next);
    forall v ensures v in subst.Keys + VarsOf(applied) <==> v in subst.Keys + VarsOf(args) {
      if v in VarsOf(applied) {
        var i :| 0 <= i < |applied| && applied[i] == Var(v);
        assert args[i] == Var(v) && args[i] in args;
      }
      if v in VarsOf(args) && v !in subst {
        var i :| 0 <= i < |args| && args[i] == Var(v);
        assert applied[i] == Var(v) && applied[i] in applied;
      }
    }
  }

  lemma NextIsUnique(subst: Subst, args: seq<Term>, a: Subst, b: Subst, actual: seq<string>)
    requires Extends(subst, a) && Extends(subst, b)
    requires a.Keys == b.Keys == subst.Keys + VarsOf(args)
    requires Matches(args, a, actual) && Matches(args, b, actual)
    ensures a == b
  {
    forall v | v in VarsOf(args) ensures a[v] == b[v] {
      var i :| 0 <= i < |args| && args[i] == Var(v);
      assert ApplyTerm(args[i], a) == ApplyTerm(args[i], b);
    }
  }

  lemma ConsChildren(store: Store, rules: seq<Clause>, premises: seq<Premise>, i: nat, subst: Subst, next: Subst,
                     sigma: Subst, child: Derivation, rest: seq<Derivation>, depth: nat)
    requires i < |premises| && Extends(subst, next) && next.Keys == subst.Keys + PosVars(premises[i])
    requires ValidChild(store, rules, premises[i], next, child, depth)
    requires Solution(store, premises, i + 1, next, sigma)
    requires ValidChildren(store, rules, premises, i + 1, next.Keys, sigma, rest, depth)
    ensures Solution(store, premises, i, subst, sigma)
    ensures ValidChildren(store, rules, premises, i, subst.Keys, sigma, [child] + rest, depth)
  {
    SolutionCons(store, premises, i, subst, next, sigma);
    var children := [child] + rest;
    forall c | 0 <= c < |children|
      ensures ValidChild(store, rules, premises[i + c],
                         Restrict(sigma, Bound(subst.Keys, premises, i, i + c + 1)), children[c], depth)
    {
      if c > 0 {
        LaterChild(store, rules, premises, i, subst.Keys, next.Keys, sigma, rest, depth, c);
      }
    }
  }

  lemma LaterChild(store: Store, rules: seq<Clause>, premises: seq<Premise>, i: nat, keys: set<string>,
                   next: set<string>, sigma: Subst, rest: seq<Derivation>, depth: nat, c: nat)
    requires i < |premises| && next == keys + PosVars(premises[i]) && 0 < c <= |rest|
    requires ValidChildren(store, rules, premises, i + 1, next, sigma, rest, depth)
    ensures i + c < |premises|
    ensures ValidChild(store, rules, premises[i + c], Restrict(sigma, Bound(keys, premises, i, i + c + 1)), rest[c - 1],
                       depth)
  {
    assert Bound(keys, premises, i, i + c + 1) == Bound(next, premises, i + 1, i + c + 1);
    assert premises[(i + 1) + (c - 1)] == premises[i + c];
  }

  // ----- Search ----------------------------------------------------------

  class Prover {
    const store: Store
    const rules: seq<Clause>
    var steps: nat

    constructor (store: Store, rules: seq<Clause>)
      ensures this.store == store && this.rules == rules && steps == 0
    {
      this.store, this.rules, steps := store, rules, 0;
    }

    /**
      Proves a fact. Every stored fact gets a valid tree, whatever the limits;
      a fact outside the store is accepted only at a limit or if a rule fires
      for it. Within the limits the tree starts with a rule exactly if one
      fires, and while the steps last nothing is cut above the depth limit.
    */
    method Prove(fact: Fact, depth: nat) returns (t: Derivation, ok: bool)
      modifies this`steps
      ensures fact in store ==> ok && (depth <= MAX_DEPTH ==> ValidTree(store, rules, fact, t, depth))
      ensures ok <==> old(steps) >= MAX_STEPS || depth >= MAX_DEPTH || fact in store || Derivable(store, rules, fact)
      ensures old(steps) < MAX_STEPS && depth < MAX_DEPTH ==>
                && (t.via.ViaRule? <==> Derivable(store, rules, fact))
                && (t.via.ViaFact? <==> !Derivable(store, rules, fact))
      ensures steps > old(steps)
      ensures steps <= MAX_STEPS ==> CutOnlyAtLimit(t, depth)
      decreases LeftBelow(depth), 1, 0, 0
    {
      steps := steps + 1;
      if steps > MAX_STEPS || depth >= MAX_DEPTH {
        return Derivation(Label(fact), ViaDepthLimit, []), true;
      }
      for k := 0 to |rules|
        invariant forall m | 0 <= m < k :: !FiresFor(store, rules[m], fact)
        invariant steps > old(steps)
      {
        var rule := rules[k];
        if rule.head.pred == fact.pred && |rule.head.args| == |fact.args| && rule.premises != [] {
          var unified, subst := UnifyArgs(rule.head.args, fact.args, map[]);
          if unified {
            var children, solved, sigma := SolvePremises(rule.premises, 0, subst, depth);
            assert subst.Keys == VarsOf(rule.head.args);
            if solved {
              assert FiresFor(store, rule, fact);
              assert FirstRule(store, rules, rule, fact);
              return Derivation(Label(fact), ViaRule(rule), children), true;
            }
            NoOtherHead(rule, fact, subst);
          }
        }
      }
      ok := fact in store;
      t := Derivation(Label(fact), ViaFact, []);
    }

    lemma NoOtherHead(rule: Clause, fact: Fact, subst: Subst)
      requires subst.Keys == VarsOf(rule.head.args) && Matches(rule.head.args, subst, fact.args)
      requires !Solvable(store, rule.premises, 0, subst)
      ensures !FiresFor(store, rule, fact)
    {
      forall head: Subst | head.Keys == VarsOf(rule.head.args) && Matches(rule.head.args, head, fact.args)
        ensures head == subst
      {
        MatchIsUnique(rule.head.args, subst, head, fact.args);
      }
    }

    /**
      Solves `premises[i..]` under `subst`. It succeeds exactly when a solution
      exists, so neither the order in which stored facts are tried nor the
      depth and step limits can change the answer.
    */
    method SolvePremises(premises: seq<Premise>, i: nat, subst: Subst, depth: nat)
      returns (children: seq<Derivation>, ok: bool, ghost sigma: Subst)
      requires i <= |premises| && depth < MAX_DEPTH
      modifies this`steps
      ensures ok <==> Solvable(store, premises, i, subst)
      ensures ok ==> Solution(store, premises, i, subst, sigma)
      ensures ok ==> ValidChildren(store, rules, premises, i, subst.Keys, sigma, children, depth + 1)
      ensures steps >= old(steps)
      ensures ok && steps <= MAX_STEPS ==> AllCutOnlyAtLimit(children, depth + 1)
      decreases LeftBelow(depth), 0, |premises| - i, 2
    {
      if i >= |premises| {
        assert Solution(store, premises, i, subst, subst);
        return [], true, subst;
      }
      var p := premises[i];
      if p.Pos? {
        if !IsGround(ApplyArgs(p.atom.args, subst)) {
          children, ok, sigma := SolveOpen(premises, i, subst, depth);
          return;
        }
        GroundIsBound(p.atom.args, subst);
      }
      NoNewVariables(store, premises, i, subst);
      var child, holds := CheckClosed(p, subst, depth);
      if !holds {
        return [], false, subst;
      }
      children, ok, sigma := SolvePremises(premises, i + 1, subst, depth);
      if ok {
        ConsChildren(store, rules, premises, i, subst, subst, sigma, child, children, depth + 1);
        children := [child] + children;
      }
    }

    /** A premise that binds nothing new: a stored fact with its proof, an absent one, or a comparison. */
    method CheckClosed(p: Premise, subst: Subst, depth: nat) returns (child: Derivation, holds: bool)
      requires PosVars(p) <= subst.Keys && depth < MAX_DEPTH
      modifies this`steps
      ensures holds <==> HoldsSoFar(store, p, subst)
      ensures holds ==> ValidChild(store, rules, p, subst, child, depth + 1)
      ensures steps >= old(steps)
      ensures holds && steps <= MAX_STEPS ==> CutOnlyAtLimit(child, depth + 1)
      decreases LeftBelow(depth), 0, 0, 0
    {
      holds := HoldsSoFar(store, p, subst);
      child := Derivation(ApplyPremise(p, subst), if p.Neg? then ViaNegation else ViaBuiltin, []);
      if p.Pos? && holds {
        var proved;
        child, proved := Prove(GroundFact(p.atom.pred, ApplyArgs(p.atom.args, subst)), depth + 1);
        GroundLabel(p.atom, subst);
      }
    }

    /** An open positive premise: tries the stored facts of its predicate, in any order. */
    method SolveOpen(premises: seq<Premise>, i: nat, subst: Subst, depth: nat)
      returns (children: seq<Derivation>, ok: bool, ghost sigma: Subst)
      requires i < |premises| && premises[i].Pos? && depth < MAX_DEPTH
      modifies this`steps
      ensures ok <==> Solvable(store, premises, i, subst)
      ensures ok ==> Solution(store, premises, i, subst, sigma)
      ensures ok ==> ValidChildren(store, rules, premises, i, subst.Keys, sigma, children, depth + 1)
      ensures steps >= old(steps)
      ensures ok && steps <= MAX_STEPS ==> AllCutOnlyAtLimit(children, depth + 1)
      decreases LeftBelow(depth), 0, |premises| - i, 1
    {
      var candidates := set f | f in store && f.pred == premises[i].atom.pred;
      SolvedBySomeFact(store, premises, i, subst);
      while candidates != {}
        invariant forall f | f in candidates :: f in store && f.pred == premises[i].atom.pred
        invariant forall f | f in store && f.pred == premises[i].atom.pred && f !in candidates ::
                    !SolvedBy(store, premises, i, subst, f)
        invariant steps >= old(steps)
        decreases |candidates|
      {
        var f :| f in candidates;
        candidates := candidates - {f};
        children, ok, sigma := TryCandidate(premises, i, subst, f, depth);
        if ok {
          return;
        }
      }
      return [], false, subst;
    }

    method TryCandidate(premises: seq<Premise>, i: nat, subst: Subst, f: Fact, depth: nat)
      returns (children: seq<Derivation>, ok: bool, ghost sigma: Subst)
      requires i < |premises| && premises[i].Pos? && depth < MAX_DEPTH
      requires f in store && f.pred == premises[i].atom.pred
      modifies this`steps
      ensures ok <==> SolvedBy(store, premises, i, subst, f)
      ensures ok ==> Solution(store, premises, i, subst, sigma)
      ensures ok ==> ValidChildren(store, rules, premises, i, subst.Keys, sigma, children, depth + 1)
      ensures steps >= old(steps)
      ensures ok && steps <= MAX_STEPS ==> AllCutOnlyAtLimit(children, depth + 1)
      decreases LeftBelow(depth), 0, |premises| - i, 0
    {
      var a := premises[i].atom;
      var args := ApplyArgs(a.args, subst);
      if |f.args| != |args| {
        return [], false, subst;
      }
      var unified, trial := UnifyArgs(args, f.args, subst);
      if !unified {
        Refuted(premises, i, subst, f, unified, trial);
        return [], false, subst;
      }
      var child, proved := Prove(f, depth + 1);
      assert proved;
      children, ok, sigma := SolvePremises(premises, i + 1, trial, depth);
      if ok {
        Answered(premises, i, subst, f, trial, sigma, child, children, depth + 1);
        children := [child] + children;
      } else {
        Refuted(premises, i, subst, f, unified, trial);
      }
    }

    lemma Answered(premises: seq<Premise>, i: nat, subst: Subst, f: Fact, trial: Subst, sigma: Subst,
                   child: Derivation, rest: seq<Derivation>, depth: nat)
      requires i < |premises| && premises[i].Pos? && f.pred == premises[i].atom.pred
      requires var args := ApplyArgs(premises[i].atom.args, subst);
               && Extends(subst, trial) && trial.Keys == subst.Keys + VarsOf(args)
               && Matches(args, trial, f.args)
      requires ValidTree(store, rules, f, child, depth)
      requires Solution(store, premises, i + 1, trial, sigma)
      requires ValidChildren(store, rules, premises, i + 1, trial.Keys, sigma, rest, depth)
      ensures SolvedBy(store, premises, i, subst, f)
      ensures Solution(store, premises, i, subst, sigma)
      ensures ValidChildren(store, rules, premises, i, subst.Keys, sigma, [child] + rest, depth)
    {
      var a := premises[i].atom;
      MatchAfterApply(a.args, subst, trial, f.args);
      MatchedFact(a, trial, f);
      GroundLabel(a, trial);
      ConsChildren(store, rules, premises, i, subst, trial, sigma, child, rest, depth);
    }

    lemma Refuted(premises: seq<Premise>, i: nat, subst: Subst, f: Fact, unified: bool, trial: Subst)
      requires i < |premises| && premises[i].Pos?
      requires var args := ApplyArgs(premises[i].atom.args, subst);
               if unified then
                 && Extends(subst, trial) && trial.Keys == subst.Keys + VarsOf(args)
                 && Matches(args, trial, f.args) && !Solvable(store, premises, i + 1, trial)
               else forall s | Extends(subst, s) :: !Matches(args, s, f.args)
      ensures !SolvedBy(store, premises, i, subst, f)
    {
      var a := premises[i].atom;
      forall next: Subst | Extends(subst, next) && next.Keys == subst.Keys + PosVars(premises[i]) &&
                           Matches(a.args, next, f.args)
        ensures !Solvable(store, premises, i + 1, next)
      {
        MatchAfterApply(a.args, subst, next, f.args);
        if unified {
          MatchAfterApply(a.args, subst, trial, f.args);
          NextIsUnique(subst, a.args, trial, next, f.args);
        }
      }
    }

    /**
      Explains a query: one valid tree for each stored fact that is an instance
      of it, in any order; a repeated variable counts as different ones. Every
      match is proved, so no match is reported underived; and while the steps
      last, trees are cut only at the depth limit.
    */
    method Explain(query: Atom) returns (outcome: bool, derivations: seq<Derivation>, ghost facts: seq<Fact>)
      modifies this`steps
      ensures ListsInstances(store, Linearised(query), facts) && Explains(store, rules, facts, derivations)
      ensures NoRepeats(query.args) ==> ListsInstances(store, query, facts)
      ensures outcome <==> facts != []
      ensures steps <= MAX_STEPS ==> AllCutOnlyAtLimit(derivations, 0)
      ensures old(steps) < MAX_STEPS && facts != [] ==>
                (derivations[0].via.ViaRule? <==> Derivable(store, rules, facts[0]))
    {
      outcome, derivations, facts := false, [], [];
      var todo := set f | f in store && f.pred == query.pred;
      while todo != {}
        invariant todo <= store && Lists(store, query, todo, facts)
        invariant Explains(store, rules, facts, derivations)
        invariant outcome <==> facts != []
        invariant steps >= old(steps) && (facts == [] ==> steps == old(steps))
        invariant steps <= MAX_STEPS ==> AllCutOnlyAtLimit(derivations, 0)
        invariant old(steps) < MAX_STEPS && facts != [] ==>
                    (derivations[0].via.ViaRule? <==> Derivable(store, rules, facts[0]))
        decreases |todo|
      {
        var f :| f in todo;
        ListOne(store, query, todo, facts, f);
        todo := todo - {f};
        if QueryMatches(query, f) {
          var t, ok := Prove(f, 0);
          assert ok;
          ExplainOne(store, rules, facts, derivations, f, t);
          outcome, derivations, facts := true, derivations + [t], facts + [f];
        }
      }
      ListedAreInstances(store, query, facts);
    }
  }

  /** Listed once each are exactly the stored facts that match, but for those still to do. */
  ghost predicate Lists(store: Store, query: Atom, todo: set<Fact>, facts: seq<Fact>) {
    && (forall f :: f in facts ==> f in store && QueryMatches(query, f) && f !in todo)
    && (forall f :: f in store && QueryMatches(query, f) ==> f in todo || f in facts)
    && (forall i, j | 0 <= i < j < |facts| :: facts[i] != facts[j])
  }

  /** Every fact has its own valid tree. */
  ghost predicate Explains(store: Store, rules: seq<Clause>, facts: seq<Fact>, derivations: seq<Derivation>) {
    && |derivations| == |facts|
    && forall k | 0 <= k < |facts| :: ValidTree(store, rules, facts[k], derivations[k], 0)
  }

  lemma ListOne(store: Store, query: Atom, todo: set<Fact>, facts: seq<Fact>, f: Fact)
    requires todo <= store && Lists(store, query, todo, facts) && f in todo
    ensures Lists(store, query, todo - {f}, if QueryMatches(query, f) then facts + [f] else facts)
  {
    if QueryMatches(query, f) {
      var facts' := facts + [f];
      assert forall g :: g in facts' <==> g in facts || g == f;
      forall i | 0 <= i < |facts| ensures facts[i] != f {
        assert facts[i] in facts;
      }
    }
  }

  lemma ExplainOne(store: Store, rules: seq<Clause>, facts: seq<Fact>, derivations: seq<Derivation>, f: Fact,
                   t: Derivation)
    requires Explains(store, rules, facts, derivations) && ValidTree(store, rules, f, t, 0)
    ensures Explains(store, rules, facts + [f], derivations + [t])
  {
  }

  // ----- What a query matches --------------------------------------------

  /** The match that queries use: constants must agree, variables match anything. */
  predicate QueryMatches(query: Atom, f: Fact) {
    && query.pred == f.pred && |query.args| == |f.args|
    && forall i | 0 <= i < |query.args| :: query.args[i].Var? || query.args[i].name == f.args[i]
  }

  /** Some substitution for its variables turns the query into the fact. */
  ghost predicate IsInstance(query: Atom, f: Fact) {
    query.pred == f.pred && exists s :: Matches(query.args, s, f.args)
  }

  predicate NoRepeats(args: seq<Term>) {
    forall i, j | 0 <= i < j < |args| :: args[i].Var? ==> args[i] != args[j]
  }

  /** The query with every variable occurrence made a variable of its own. */
  function Linearised(query: Atom): Atom {
    Atom(query.pred, seq(|query.args|, i requires 0 <= i < |query.args| =>
      if query.args[i].Var? then Var(seq(i, _ => 'x')) else query.args[i]))
  }

  /** Every instance of a query matches it. */
  lemma InstanceMatches(query: Atom, f: Fact)
    requires IsInstance(query, f)
    ensures QueryMatches(query, f)
  {
    var s :| Matches(query.args, s, f.args);
    forall i | 0 <= i < |query.args| ensures query.args[i].Var? || query.args[i].name == f.args[i] {
      assert ApplyTerm(query.args[i], s) == Const(f.args[i]);
    }
  }

  lemma MatchIsInstance(query: Atom, f: Fact)
    requires NoRepeats(query.args) && QueryMatches(query, f)
    ensures IsInstance(query, f)
  {
    var s := Bindings(query.args, f.args, |f.args|);
    assert Matches(query.args, s, f.args);
  }

  /** What matches are exactly the instances of the query once no variable is repeated in it. */
  lemma MatchesAreLinearInstances(query: Atom, f: Fact)
    ensures QueryMatches(query, f) <==> IsInstance(Linearised(query), f)
  {
    var linear := Linearised(query);
    assert QueryMatches(query, f) <==> QueryMatches(linear, f) by {
      forall i | 0 <= i < |query.args|
        ensures query.args[i].Var? == linear.args[i].Var?
        ensures query.args[i].Const? ==> query.args[i] == linear.args[i] {}
    }
    forall i, j | 0 <= i < j < |linear.args| && linear.args[i].Var? ensures linear.args[i] != linear.args[j] {
      assert linear.args[j].Var? ==> |linear.args[i].name| != |linear.args[j].name|;
    }
    if QueryMatches(linear, f) {
      MatchIsInstance(linear, f);
    }
    if IsInstance(linear, f) {
      InstanceMatches(linear, f);
    }
  }

  /**
    The matches of a query are exactly its instances, for every fact, if and
    only if no variable of the query is repeated: a repeated one also matches
    unequal arguments.
  */
  lemma MatchIsInstanceExactly(query: Atom)
    ensures NoRepeats(query.args) <==> forall f :: QueryMatches(query, f) <==> IsInstance(query, f)
  {
    if NoRepeats(query.args) {
      forall f ensures QueryMatches(query, f) <==> IsInstance(query, f) {
        if QueryMatches(query, f) {
          MatchIsInstance(query, f);
        } else if IsInstance(query, f) {
          InstanceMatches(query, f);
        }
      }
    } else {
      var i, j :| 0 <= i < j < |query.args| && query.args[i].Var? && query.args[i] == query.args[j];
      var name := (k: nat) requires k < |query.args| =>
        if query.args[k].Const? then query.args[k].name else if k == i then "a" else "b";
      var f := Fact(query.pred, seq(|query.args|, name));
      assert QueryMatches(query, f);
      forall s ensures !Matches(query.args, s, f.args) {
        assert f.args[i] != f.args[j];
      }
    }
  }

  function Bindings(args: seq<Term>, actual: seq<string>, n: nat): (s: Subst)
    requires n <= |args| == |actual|
    ensures forall v | v in s :: exists k | 0 <= k < n :: args[k] == Var(v)
    ensures NoRepeats(args) ==>
              forall k | 0 <= k < n && args[k].Var? :: args[k].name in s && s[args[k].name] == actual[k]
  {
    if n == 0 then map[]
    else
      var s := Bindings(args, actual, n - 1);
      if args[n - 1].Var? then s[args[n - 1].name := actual[n - 1]] else s
  }

  /** Listed once each are the stored facts of this description, and no others. */
  ghost predicate ListsInstances(store: Store, query: Atom, facts: seq<Fact>) {
    && (forall f :: f in facts <==> f in store && IsInstance(query, f))
    && (forall i, j | 0 <= i < j < |facts| :: facts[i] != facts[j])
  }

  lemma ListedAreInstances(store: Store, query: Atom, facts: seq<Fact>)
    requires Lists(store, query, {}, facts)
    ensures ListsInstances(store, Linearised(query), facts)
    ensures NoRepeats(query.args) ==> ListsInstances(store, query, facts)
  {
    forall f ensures f in facts <==> f in store && IsInstance(Linearised(query), f) {
      MatchesAreLinearInstances(query, f);
    }
    MatchIsInstanceExactly(query);
  }
}

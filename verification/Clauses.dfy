/**
  Proof reconstruction over an evaluated store: rules with variables,
  substitutions, and what it means for a rule to fire for a stored fact.
*/
module Clauses {
  import opened Datalog

  datatype Term = Const(name: string) | Var(name: string)

  datatype Atom = Atom(pred: PredicateSym, args: seq<Term>)

  /** A body literal; `Other` stands for the constructs the prover records but does not check. */
  datatype Premise = Pos(atom: Atom) | Neg(atom: Atom) | Eq(left: Term, right: Term) | Ineq(left: Term, right: Term)
    | Other(text: string)

  datatype Clause = Clause(head: Atom, premises: seq<Premise>)

  /** Facts are ground, so variables are only ever bound to constants. */
  type Subst = map<string, string>

  function ApplyTerm(t: Term, s: Subst): Term {
    if t.Var? && t.name in s then Const(s[t.name]) else t
  }

  function ApplyArgs(args: seq<Term>, s: Subst): seq<Term> {
    seq(|args|, i requires 0 <= i < |args| => ApplyTerm(args[i], s))
  }

  function ApplyPremise(p: Premise, s: Subst): Premise {
    match p
    case Pos(a) => Pos(Atom(a.pred, ApplyArgs(a.args, s)))
    case Neg(a) => Neg(Atom(a.pred, ApplyArgs(a.args, s)))
    case Eq(l, r) => Eq(ApplyTerm(l, s), ApplyTerm(r, s))
    case Ineq(l, r) => Ineq(ApplyTerm(l, s), ApplyTerm(r, s))
    case Other(_) => p
  }

  predicate IsGround(args: seq<Term>) {
    forall t | t in args :: t.Const?
  }

  /** The fact that ground arguments denote. */
  function GroundFact(pred: PredicateSym, args: seq<Term>): Fact {
    Fact(pred, seq(|args|, i requires 0 <= i < |args| => args[i].name))
  }

  function FactAtom(f: Fact): Atom {
    Atom(f.pred, seq(|f.args|, i requires 0 <= i < |f.args| => Const(f.args[i])))
  }

  function VarsOf(args: seq<Term>): set<string> {
    set t | t in args && t.Var? :: t.name
  }

  predicate Extends(s: Subst, s': Subst) {
    forall v | v in s :: v in s' && s'[v] == s[v]
  }

  function Restrict(s: Subst, keys: set<string>): Subst {
    map v | v in s && v in keys :: s[v]
  }

  /** Under `s` the pattern is exactly the given constants. */
  predicate Matches(pattern: seq<Term>, s: Subst, actual: seq<string>) {
    |pattern| == |actual| && forall i | 0 <= i < |pattern| :: ApplyTerm(pattern[i], s) == Const(actual[i])
  }

  // ----- When premises hold ----------------------------------------------

  function PosVars(p: Premise): set<string> {
    if p.Pos? then VarsOf(p.atom.args) else {}
  }

  /** The variables bound once the positive premises of `premises[lo..hi]` are solved. */
  function Bound(keys: set<string>, premises: seq<Premise>, lo: nat, hi: nat): set<string>
    requires hi <= |premises|
    decreases hi - lo
  {
    if lo >= hi then keys else Bound(keys + PosVars(premises[lo]), premises, lo + 1, hi)
  }

  /**
    What the prover checks of a premise under the bindings it has so far: a
    negation or an (in)equality that is not ground yet is let through.
  */
  predicate HoldsSoFar(store: Store, p: Premise, s: Subst) {
    match p
    case Pos(a) => IsGround(ApplyArgs(a.args, s)) && GroundFact(a.pred, ApplyArgs(a.args, s)) in store
    case Neg(a) => IsGround(ApplyArgs(a.args, s)) ==> GroundFact(a.pred, ApplyArgs(a.args, s)) !in store
    case Eq(l, r) => ApplyTerm(l, s).Const? && ApplyTerm(r, s).Const? ==> ApplyTerm(l, s) == ApplyTerm(r, s)
    case Ineq(l, r) => ApplyTerm(l, s).Const? && ApplyTerm(r, s).Const? ==> ApplyTerm(l, s) != ApplyTerm(r, s)
    case Other(_) => true
  }

  /** One substitution that carries `subst` through all premises from `i` on. */
  predicate Solution(store: Store, premises: seq<Premise>, i: nat, subst: Subst, sigma: Subst)
    requires i <= |premises|
  {
    && Extends(subst, sigma)
    && sigma.Keys == Bound(subst.Keys, premises, i, |premises|)
    && forall j | i <= j < |premises| ::
         HoldsSoFar(store, premises[j], Restrict(sigma, Bound(subst.Keys, premises, i, j + 1)))
  }

  ghost predicate Solvable(store: Store, premises: seq<Premise>, i: nat, subst: Subst)
    requires i <= |premises|
  {
    exists sigma :: Solution(store, premises, i, subst, sigma)
  }

  /** The rule has a body, and an instance of it concludes `f` from the store. */
  ghost predicate FiresFor(store: Store, rule: Clause, f: Fact) {
    && rule.premises != []
    && rule.head.pred == f.pred
    && exists head: Subst :: head.Keys == VarsOf(rule.head.args) && Matches(rule.head.args, head, f.args) &&
                      Solvable(store, rule.premises, 0, head)
  }

  // ----- Facts about substitutions ---------------------------------------

  lemma {:induction false} BoundGrows(keys: set<string>, premises: seq<Premise>, lo: nat, mid: nat, hi: nat)
    requires lo <= mid <= hi <= |premises|
    ensures keys <= Bound(keys, premises, lo, mid) <= Bound(keys, premises, lo, hi)
    decreases hi - lo
  {
    if lo < hi {
      BoundGrows(keys + PosVars(premises[lo]), premises, lo + 1, if lo < mid then mid else lo + 1, hi);
    }
  }

  lemma MatchIsUnique(pattern: seq<Term>, a: Subst, b: Subst, actual: seq<string>)
    requires Matches(pattern, a, actual) && Matches(pattern, b, actual)
    requires a.Keys == VarsOf(pattern)
    ensures Extends(a, b)
  {
    forall v | v in a ensures v in b && b[v] == a[v] {
      var t :| t in pattern && t == Var(v);
      var i :| 0 <= i < |pattern| && pattern[i] == t;
      assert ApplyTerm(pattern[i], b) == ApplyTerm(pattern[i], a);
    }
  }

  /** A premise that is ground under fewer bindings is the same under more. */
  lemma GroundIsStable(args: seq<Term>, s: Subst, s': Subst)
    requires Extends(s, s') && IsGround(ApplyArgs(args, s))
    ensures ApplyArgs(args, s') == ApplyArgs(args, s)
  {
    forall i | 0 <= i < |args| ensures ApplyTerm(args[i], s') == ApplyTerm(args[i], s) {
      assert ApplyArgs(args, s)[i] in ApplyArgs(args, s);
    }
  }

  lemma BoundIsGround(args: seq<Term>, s: Subst)
    requires VarsOf(args) <= s.Keys
    ensures IsGround(ApplyArgs(args, s))
  {
    forall t | t in ApplyArgs(args, s) ensures t.Const? {
      var i :| 0 <= i < |args| && t == ApplyTerm(args[i], s);
      assert args[i].Var? ==> args[i].name in VarsOf(args);
    }
  }

  lemma GroundIsBound(args: seq<Term>, s: Subst)
    requires IsGround(ApplyArgs(args, s))
    ensures VarsOf(args) <= s.Keys
  {
    forall v | v in VarsOf(args) ensures v in s.Keys {
      var i :| 0 <= i < |args| && args[i] == Var(v);
      assert ApplyArgs(args, s)[i] in ApplyArgs(args, s);
    }
  }

  // ----- One premise at a time -------------------------------------------

  /** A solution splits into the bindings of its first premise and a solution of the rest. */
  lemma SolutionTail(store: Store, premises: seq<Premise>, i: nat, subst: Subst, sigma: Subst)
    requires i < |premises| && Solution(store, premises, i, subst, sigma)
    ensures var next := Restrict(sigma, subst.Keys + PosVars(premises[i]));
            && Extends(subst, next)
            && next.Keys == subst.Keys + PosVars(premises[i])
            && HoldsSoFar(store, premises[i], next)
            && Solution(store, premises, i + 1, next, sigma)
  {
    var keys := subst.Keys + PosVars(premises[i]);
    assert Bound(subst.Keys, premises, i, i + 1) == keys;
    BoundGrows(keys, premises, i + 1, i + 1, |premises|);
    var next := Restrict(sigma, keys);
    assert next.Keys == keys;
    forall j | i + 1 <= j < |premises|
      ensures HoldsSoFar(store, premises[j], Restrict(sigma, Bound(next.Keys, premises, i + 1, j + 1)))
    {
      assert Bound(subst.Keys, premises, i, j + 1) == Bound(next.Keys, premises, i + 1, j + 1);
    }
  }

  lemma SolutionCons(store: Store, premises: seq<Premise>, i: nat, subst: Subst, next: Subst, sigma: Subst)
    requires i < |premises| && Extends(subst, next) && next.Keys == subst.Keys + PosVars(premises[i])
    requires HoldsSoFar(store, premises[i], next) && Solution(store, premises, i + 1, next, sigma)
    ensures Solution(store, premises, i, subst, sigma)
    ensures next == Restrict(sigma, Bound(subst.Keys, premises, i, i + 1))
  {
    BoundGrows(next.Keys, premises, i + 1, i + 1, |premises|);
    assert Bound(subst.Keys, premises, i, i + 1) == next.Keys;
    assert next == Restrict(sigma, next.Keys);
    forall j | i <= j < |premises|
      ensures HoldsSoFar(store, premises[j], Restrict(sigma, Bound(subst.Keys, premises, i, j + 1)))
    {
      if j > i {
        assert Bound(subst.Keys, premises, i, j + 1) == Bound(next.Keys, premises, i + 1, j + 1);
      }
    }
  }

  // ----- Safe rules: the checks are the real ones ------------------------

  /** The premise holds outright under `s`. */
  predicate Satisfies(store: Store, p: Premise, s: Subst) {
    match p
    case Pos(a) => IsGround(ApplyArgs(a.args, s)) && GroundFact(a.pred, ApplyArgs(a.args, s)) in store
    case Neg(a) => IsGround(ApplyArgs(a.args, s)) && GroundFact(a.pred, ApplyArgs(a.args, s)) !in store
    case Eq(l, r) => ApplyTerm(l, s).Const? && ApplyTerm(l, s) == ApplyTerm(r, s)
    case Ineq(l, r) => ApplyTerm(l, s).Const? && ApplyTerm(r, s).Const? && ApplyTerm(l, s) != ApplyTerm(r, s)
    case Other(_) => false
  }

  lemma NoSubstitution(p: Premise)
    ensures ApplyPremise(p, map[]) == p
  {
    if p.Pos? || p.Neg? {
      assert ApplyArgs(p.atom.args, map[]) == p.atom.args;
    }
  }

  /** The premise is a ground truth about the store. */
  ghost predicate IsTrue(store: Store, p: Premise) {
    || (exists f :: p == Pos(FactAtom(f)) && f in store)
    || (exists f :: p == Neg(FactAtom(f)) && f !in store)
    || (exists a :: p == Eq(Const(a), Const(a)))
    || (exists a, b :: p == Ineq(Const(a), Const(b)) && a != b)
  }

  /** A premise holds outright exactly if its instance is a ground truth. */
  lemma SatisfiedExactly(store: Store, p: Premise, s: Subst)
    ensures Satisfies(store, p, s) <==> IsTrue(store, ApplyPremise(p, s))
  {
    if p.Pos? || p.Neg? {
      var args := ApplyArgs(p.atom.args, s);
      GroundAtomExactly(p.atom.pred, args);
      if f :| FactAtom(f) == Atom(p.atom.pred, args) {
        assert IsGround(args) && GroundFact(p.atom.pred, args) == f;
      }
    } else if p.Eq? {
      assert ApplyTerm(p.left, s).Const? ==> ApplyTerm(p.left, s) == Const(ApplyTerm(p.left, s).name);
    } else if p.Ineq? {
      var l, r := ApplyTerm(p.left, s), ApplyTerm(p.right, s);
      assert l.Const? && r.Const? ==> l == Const(l.name) && r == Const(r.name);
    }
  }

  lemma GroundAtomExactly(pred: PredicateSym, args: seq<Term>)
    ensures IsGround(args) <==> exists f :: FactAtom(f) == Atom(pred, args)
    ensures IsGround(args) ==> FactAtom(GroundFact(pred, args)) == Atom(pred, args)
    ensures forall f | FactAtom(f) == Atom(pred, args) :: GroundFact(pred, args) == f
  {
    if IsGround(args) {
      forall i | 0 <= i < |args| ensures args[i] == Const(args[i].name) { assert args[i] in args; }
      assert FactAtom(GroundFact(pred, args)) == Atom(pred, args);
    }
    forall f | FactAtom(f) == Atom(pred, args) ensures IsGround(args) && GroundFact(pred, args) == f {
      assert forall i | 0 <= i < |args| :: args[i] == Const(f.args[i]);
    }
  }

  /** What refutes a negation or a comparison. */
  function Contrary(p: Premise): Premise
    requires p.Neg? || p.Eq? || p.Ineq?
  {
    match p
    case Neg(a) => Pos(a)
    case Eq(l, r) => Ineq(l, r)
    case Ineq(l, r) => Eq(l, r)
  }

  /**
    A positive premise passes exactly if it holds outright; a negation or a
    comparison exactly unless its contrary does; anything else always.
  */
  lemma PassesExactly(store: Store, p: Premise, s: Subst)
    ensures HoldsSoFar(store, p, s) <==>
              if p.Pos? then Satisfies(store, p, s)
              else p.Other? || !Satisfies(store, Contrary(p), s)
  {
  }

  function PremiseVars(p: Premise): set<string> {
    match p
    case Pos(a) => VarsOf(a.args)
    case Neg(a) => VarsOf(a.args)
    case Eq(l, r) => VarsOf([l, r])
    case Ineq(l, r) => VarsOf([l, r])
    case Other(_) => {}
  }

  /** Every negated or compared variable is bound by the start or an earlier positive premise. */
  predicate Safe(keys: set<string>, premises: seq<Premise>, i: nat)
    requires i <= |premises|
  {
    forall j | i <= j < |premises| ::
      !premises[j].Other? && PremiseVars(premises[j]) <= Bound(keys, premises, i, j + 1)
  }

  lemma SameWhenBound(store: Store, p: Premise, s: Subst, s': Subst)
    requires Extends(s, s') && PremiseVars(p) <= s.Keys && !p.Other?
    ensures HoldsSoFar(store, p, s) <==> Satisfies(store, p, s')
    ensures ApplyPremise(p, s) == ApplyPremise(p, s')
  {
    match p
    case Pos(a) => BoundIsGround(a.args, s); GroundIsStable(a.args, s, s');
    case Neg(a) => BoundIsGround(a.args, s); GroundIsStable(a.args, s, s');
    case Eq(l, r) => assert forall t | t in [l, r] && t.Var? :: t.name in VarsOf([l, r]);
      assert l in [l, r] && r in [l, r];
    case Ineq(l, r) => assert forall t | t in [l, r] && t.Var? :: t.name in VarsOf([l, r]);
      assert l in [l, r] && r in [l, r];
  }

  predicate SatisfiesAll(store: Store, premises: seq<Premise>, i: nat, s: Subst) {
    forall j | i <= j < |premises| :: Satisfies(store, premises[j], s)
  }

  lemma {:induction false} SatisfiedBinds(store: Store, premises: seq<Premise>, i: nat, keys: set<string>, s: Subst)
    requires i <= |premises| && keys <= s.Keys && SatisfiesAll(store, premises, i, s)
    ensures Bound(keys, premises, i, |premises|) <= s.Keys
    decreases |premises| - i
  {
    if i < |premises| {
      assert Satisfies(store, premises[i], s);
      if premises[i].Pos? { GroundIsBound(premises[i].atom.args, s); }
      SatisfiedBinds(store, premises, i + 1, keys + PosVars(premises[i]), s);
    }
  }

  lemma SafeSolutionSatisfies(store: Store, premises: seq<Premise>, i: nat, subst: Subst, sigma: Subst)
    requires i <= |premises| && Safe(subst.Keys, premises, i) && Solution(store, premises, i, subst, sigma)
    ensures SatisfiesAll(store, premises, i, sigma)
  {
    forall j | i <= j < |premises| ensures Satisfies(store, premises[j], sigma) {
      BoundGrows(subst.Keys, premises, i, j + 1, |premises|);
      SameWhenBound(store, premises[j], Restrict(sigma, Bound(subst.Keys, premises, i, j + 1)), sigma);
    }
  }

  /** Whatever satisfies the premises outright contains a solution, safe or not. */
  lemma SatisfiedIsSolution(store: Store, premises: seq<Premise>, i: nat, subst: Subst, s: Subst)
    requires i <= |premises| && Extends(subst, s) && SatisfiesAll(store, premises, i, s)
    ensures Solution(store, premises, i, subst, Restrict(s, Bound(subst.Keys, premises, i, |premises|)))
  {
    SatisfiedBinds(store, premises, i, subst.Keys, s);
    BoundGrows(subst.Keys, premises, i, i, |premises|);
    var sigma := Restrict(s, Bound(subst.Keys, premises, i, |premises|));
    forall j | i <= j < |premises|
      ensures HoldsSoFar(store, premises[j], Restrict(sigma, Bound(subst.Keys, premises, i, j + 1)))
    {
      BoundGrows(subst.Keys, premises, i, j + 1, |premises|);
      BoundIncludes(subst.Keys, premises, i, j);
      SatisfiedHoldsSoFar(store, premises[j], Restrict(sigma, Bound(subst.Keys, premises, i, j + 1)), s);
    }
  }

  lemma {:induction false} BoundIncludes(keys: set<string>, premises: seq<Premise>, lo: nat, j: nat)
    requires lo <= j < |premises|
    ensures PosVars(premises[j]) <= Bound(keys, premises, lo, j + 1)
    decreases j - lo
  {
    if lo < j {
      BoundIncludes(keys + PosVars(premises[lo]), premises, lo + 1, j);
    }
  }

  lemma SatisfiedHoldsSoFar(store: Store, p: Premise, s: Subst, s': Subst)
    requires Extends(s, s') && Satisfies(store, p, s') && PosVars(p) <= s.Keys
    ensures HoldsSoFar(store, p, s)
  {
    match p
    case Pos(a) => BoundIsGround(a.args, s); GroundIsStable(a.args, s, s');
    case Neg(a) => if IsGround(ApplyArgs(a.args, s)) { GroundIsStable(a.args, s, s'); }
    case Eq(_, _) =>
    case Ineq(_, _) =>
  }

  /**
    For safe premises a solution exists exactly when some extension of the
    substitution satisfies all of them outright.
  */
  lemma SafeIsOutright(store: Store, premises: seq<Premise>, i: nat, subst: Subst)
    requires i <= |premises| && Safe(subst.Keys, premises, i)
    ensures Solvable(store, premises, i, subst) <==>
              exists s :: Extends(subst, s) && SatisfiesAll(store, premises, i, s)
  {
    if Solvable(store, premises, i, subst) {
      var sigma :| Solution(store, premises, i, subst, sigma);
      SafeSolutionSatisfies(store, premises, i, subst, sigma);
    }
    if s :| Extends(subst, s) && SatisfiesAll(store, premises, i, s) {
      SatisfiedIsSolution(store, premises, i, subst, s);
    }
  }

  /**
    Without safety the two differ: `q(X), Y = "a", Y = "b"` is let through for
    any stored `q` fact although no substitution satisfies it.
  */
  lemma UnsafeIsLetThrough(q: PredicateSym, c: string)
    ensures var premises := [Pos(Atom(q, [Var("X")])), Eq(Var("Y"), Const("a")), Eq(Var("Y"), Const("b"))];
            var store := {Fact(q, [c])};
            && Solvable(store, premises, 0, map[])
            && !exists s :: SatisfiesAll(store, premises, 0, s)
  {
    var premises := [Pos(Atom(q, [Var("X")])), Eq(Var("Y"), Const("a")), Eq(Var("Y"), Const("b"))];
    var store := {Fact(q, [c])};
    var sigma: Subst := map["X" := c];
    assert VarsOf([Var("X")]) == {"X"} by { assert Var("X") in [Var("X")]; }
    assert Restrict(sigma, {"X"}) == sigma;
    assert ApplyArgs([Var("X")], sigma) == [Const(c)];
    assert GroundFact(q, [Const(c)]) == Fact(q, [c]);
    assert Solution(store, premises, 3, sigma, sigma);
    SolutionCons(store, premises, 2, sigma, sigma, sigma);
    SolutionCons(store, premises, 1, sigma, sigma, sigma);
    SolutionCons(store, premises, 0, map[], sigma, sigma);
    forall s ensures !SatisfiesAll(store, premises, 0, s) {
      assert Satisfies(store, premises[1], s) ==> !Satisfies(store, premises[2], s);
    }
  }
}

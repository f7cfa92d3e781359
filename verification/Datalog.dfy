/**
  Ground Datalog with stratified negation: the meaning that the policy runtime
  gives to a rule program.

  A program is a finite set of ground rules. `Evaluate` is what a completed
  evaluation leaves in the store: each stratum in turn is closed under its
  rules, negated atoms being judged against what the lower strata left. Its
  independent reference is the stable model: a store that equals the least
  closure of the whole program when negated atoms are judged against that very
  store. The results here say that a stratified program has exactly one stable
  model over any input, that `Evaluate` is it, and that it therefore does not
  depend on the stratification.
*/
module Datalog {

  datatype PredicateSym = PredicateSym(symbol: string, arity: nat)

  /** A ground atom. */
  datatype Fact = Fact(pred: PredicateSym, args: seq<string>)

  /** A ground rule `head :- pos, not neg`. */
  datatype Rule = Rule(head: Fact, pos: set<Fact>, neg: set<Fact>)

  type Store = set<Fact>

  /** The number of strata and the predicate-to-stratum map. */
  datatype Strata = Strata(count: nat, level: map<PredicateSym, nat>)

  function Level(strata: Strata, f: Fact): nat {
    if f.pred in strata.level then strata.level[f.pred] else 0
  }

  predicate Stratified(rules: set<Rule>, strata: Strata) {
    forall r | r in rules ::
      && Level(strata, r.head) < strata.count
      && (forall f | f in r.pos :: Level(strata, f) <= Level(strata, r.head))
      && (forall f | f in r.neg :: Level(strata, f) < Level(strata, r.head))
  }

  predicate NegationFree(rules: set<Rule>) {
    forall r | r in rules :: r.neg == {}
  }

  function Heads(rules: set<Rule>): Store {
    set r | r in rules :: r.head
  }

  /** The predicates a program can add facts for. */
  function Idb(rules: set<Rule>): set<PredicateSym> {
    set r | r in rules :: r.head.pred
  }

  // ----- Closure ---------------------------------------------------------

  predicate Fires(r: Rule, below: Store, store: Store) {
    r.pos <= store && r.neg !! below
  }

  predicate Closed(rules: set<Rule>, below: Store, store: Store) {
    forall r | r in rules && Fires(r, below, store) :: r.head in store
  }

  /** `closed` is the least store around `store` that the rules add nothing to. */
  ghost predicate IsClosure(rules: set<Rule>, below: Store, store: Store, closed: Store) {
    && store <= closed
    && Closed(rules, below, closed)
    && (forall model | store <= model && Closed(rules, below, model) :: closed <= model)
  }

  /** A closure exists: firing one rule at a time must stop, for there are finitely many heads. */
  lemma {:induction false} ClosureExists(rules: set<Rule>, below: Store, store: Store) returns (closed: Store)
    ensures IsClosure(rules, below, store, closed)
    ensures closed <= store + Heads(rules)
    decreases Heads(rules) - store
  {
    if Closed(rules, below, store) {
      closed := store;
    } else {
      var r :| r in rules && Fires(r, below, store) && r.head !in store;
      closed := ClosureExists(rules, below, store + {r.head});
      forall model | store <= model && Closed(rules, below, model) ensures closed <= model {
        assert Fires(r, below, model);
        assert store + {r.head} <= model;
      }
    }
  }

  ghost function Close(rules: set<Rule>, below: Store, store: Store): Store {
    assert exists closed :: IsClosure(rules, below, store, closed) by {
      var closed := ClosureExists(rules, below, store);
    }
    var closed :| IsClosure(rules, below, store, closed);
    closed
  }

  lemma CloseIsClosed(rules: set<Rule>, below: Store, store: Store)
    ensures store <= Close(rules, below, store) <= store + Heads(rules)
    ensures Closed(rules, below, Close(rules, below, store))
  {
    var closed := ClosureExists(rules, below, store);
  }

  /** The closure lies inside every closed store that holds the input. */
  lemma CloseIsLeast(rules: set<Rule>, below: Store, store: Store, model: Store)
    requires store <= model && Closed(rules, below, model)
    ensures Close(rules, below, store) <= model
  {
  }

  /** Nothing is in a closure without a reason. */
  lemma CloseIsSupported(rules: set<Rule>, below: Store, store: Store, f: Fact)
    requires f in Close(rules, below, store) && f !in store
    ensures exists r | r in rules :: r.head == f && Fires(r, below, Close(rules, below, store))
  {
    var closed := Close(rules, below, store);
    CloseIsClosed(rules, below, store);
    if forall r | r in rules && r.head == f :: !Fires(r, below, closed) {
      var less := closed - {f};
      forall r | r in rules && Fires(r, below, less) ensures r.head in less {
        assert Fires(r, below, closed);
      }
      CloseIsLeast(rules, below, store, less);
    }
  }

  /** More rules, more input and fewer negated facts present give a larger closure. */
  lemma CloseIsMonotone(rules: set<Rule>, below: Store, store: Store,
                        rules': set<Rule>, below': Store, store': Store)
    requires rules <= rules' && store <= store' && below' <= below
    ensures Close(rules, below, store) <= Close(rules', below', store')
  {
    var big := Close(rules', below', store');
    CloseIsClosed(rules', below', store');
    forall r | r in rules && Fires(r, below, big) ensures r.head in big {
      assert Fires(r, below', big);
    }
    CloseIsLeast(rules, below, store, big);
  }

  // ----- Stratified evaluation -------------------------------------------

  function StratumRules(rules: set<Rule>, strata: Strata, n: nat): set<Rule> {
    set r | r in rules && Level(strata, r.head) == n
  }

  ghost function EvaluateUpTo(rules: set<Rule>, strata: Strata, input: Store, n: nat): Store {
    if n == 0 then input
    else
      var lower := EvaluateUpTo(rules, strata, input, n - 1);
      Close(StratumRules(rules, strata, n - 1), lower, lower)
  }

  /** What a completed stratified evaluation leaves in the store. */
  ghost function Evaluate(rules: set<Rule>, strata: Strata, input: Store): Store {
    EvaluateUpTo(rules, strata, input, strata.count)
  }

  lemma StratumIsClosed(rules: set<Rule>, strata: Strata, input: Store, n: nat)
    ensures var lower, upper := EvaluateUpTo(rules, strata, input, n), EvaluateUpTo(rules, strata, input, n + 1);
            && lower <= upper <= lower + Heads(StratumRules(rules, strata, n))
            && Closed(StratumRules(rules, strata, n), lower, upper)
  {
    var lower := EvaluateUpTo(rules, strata, input, n);
    CloseIsClosed(StratumRules(rules, strata, n), lower, lower);
  }

  lemma {:induction false} StrataOnlyGrow(rules: set<Rule>, strata: Strata, input: Store, n: nat, m: nat)
    requires n <= m
    ensures EvaluateUpTo(rules, strata, input, n) <= EvaluateUpTo(rules, strata, input, m)
  {
    if n < m {
      StratumIsClosed(rules, strata, input, m - 1);
      StrataOnlyGrow(rules, strata, input, n, m - 1);
    }
  }

  /** Later strata only add facts of their own levels. */
  lemma {:induction false} StratumIsFinal(rules: set<Rule>, strata: Strata, input: Store, n: nat, m: nat, f: Fact)
    requires n <= m && Level(strata, f) < n && f in EvaluateUpTo(rules, strata, input, m)
    ensures f in EvaluateUpTo(rules, strata, input, n)
  {
    if n < m {
      StratumIsClosed(rules, strata, input, m - 1);
      StratumIsFinal(rules, strata, input, n, m - 1, f);
    }
  }

  // ----- Stable models ---------------------------------------------------

  /** `model` is what the rules yield from `input` when negation is judged against `model`. */
  ghost predicate StableModel(rules: set<Rule>, input: Store, model: Store) {
    model == Close(rules, model, input)
  }

  /** A rule that fires in the final store already fires once its own stratum is closed. */
  lemma FiringIsClosed(rules: set<Rule>, strata: Strata, input: Store, r: Rule)
    requires Stratified(rules, strata) && r in rules
    requires Fires(r, Evaluate(rules, strata, input), Evaluate(rules, strata, input))
    ensures r.head in Evaluate(rules, strata, input)
  {
    var k := Level(strata, r.head);
    StrataOnlyGrow(rules, strata, input, k, strata.count);
    StrataOnlyGrow(rules, strata, input, k + 1, strata.count);
    forall f | f in r.pos ensures f in EvaluateUpTo(rules, strata, input, k + 1) {
      StratumIsFinal(rules, strata, input, k + 1, strata.count, f);
    }
    StratumIsClosed(rules, strata, input, k);
    assert r in StratumRules(rules, strata, k);
  }

  lemma {:induction false} EvaluateIsSupported(rules: set<Rule>, strata: Strata, input: Store, n: nat)
    requires Stratified(rules, strata) && n <= strata.count
    ensures EvaluateUpTo(rules, strata, input, n) <= Close(rules, Evaluate(rules, strata, input), input)
  {
    var model := Evaluate(rules, strata, input);
    var stable := Close(rules, model, input);
    CloseIsClosed(rules, model, input);
    if n > 0 {
      EvaluateIsSupported(rules, strata, input, n - 1);
      var lower := EvaluateUpTo(rules, strata, input, n - 1);
      var stratum := StratumRules(rules, strata, n - 1);
      forall r | r in stratum && Fires(r, lower, stable) ensures r.head in stable {
        forall f | f in r.neg ensures f !in model {
          if f in model { StratumIsFinal(rules, strata, input, n - 1, strata.count, f); }
        }
        assert Fires(r, model, stable);
      }
      CloseIsLeast(stratum, lower, lower, stable);
    }
  }

  /** Evaluation stratum by stratum computes a stable model. */
  lemma EvaluateIsStable(rules: set<Rule>, strata: Strata, input: Store)
    requires Stratified(rules, strata)
    ensures StableModel(rules, input, Evaluate(rules, strata, input))
    ensures input <= Evaluate(rules, strata, input) <= input + Heads(rules)
    ensures Closed(rules, Evaluate(rules, strata, input), Evaluate(rules, strata, input))
  {
    var model := Evaluate(rules, strata, input);
    EvaluateIsSupported(rules, strata, input, strata.count);
    StrataOnlyGrow(rules, strata, input, 0, strata.count);
    forall r | r in rules && Fires(r, model, model) ensures r.head in model {
      FiringIsClosed(rules, strata, input, r);
    }
    CloseIsLeast(rules, model, input, model);
    CloseIsClosed(rules, model, input);
  }

  /** Two stable models that agree below level `n` agree at level `n`. */
  lemma StableModelsAgreeAt(rules: set<Rule>, strata: Strata, input: Store, a: Store, b: Store, n: nat)
    requires Stratified(rules, strata) && StableModel(rules, input, a) && StableModel(rules, input, b)
    requires forall f | Level(strata, f) < n && f in a + b :: f in a && f in b
    ensures forall f | f in a && Level(strata, f) <= n :: f in b
  {
    CloseIsClosed(rules, a, input);
    CloseIsClosed(rules, b, input);
    var kept := set f | f in a && (Level(strata, f) <= n ==> f in b);
    forall r | r in rules && Fires(r, a, kept) ensures r.head in kept {
      assert Fires(r, a, a);
      if Level(strata, r.head) <= n {
        assert Fires(r, b, b);
      }
    }
    CloseIsLeast(rules, a, input, kept);
  }

  lemma {:induction false} StableModelsAgreeBelow(rules: set<Rule>, strata: Strata, input: Store,
                                                  a: Store, b: Store, n: nat)
    requires Stratified(rules, strata) && StableModel(rules, input, a) && StableModel(rules, input, b)
    ensures forall f | Level(strata, f) < n && f in a + b :: f in a && f in b
  {
    if n > 0 {
      StableModelsAgreeBelow(rules, strata, input, a, b, n - 1);
      StableModelsAgreeAt(rules, strata, input, a, b, n - 1);
      StableModelsAgreeAt(rules, strata, input, b, a, n - 1);
    }
  }

  /** A stratified program has at most one stable model over an input. */
  lemma StableModelIsUnique(rules: set<Rule>, strata: Strata, input: Store, a: Store, b: Store)
    requires Stratified(rules, strata) && StableModel(rules, input, a) && StableModel(rules, input, b)
    ensures a == b
  {
    forall f ensures f in a <==> f in b {
      StableModelsAgreeBelow(rules, strata, input, a, b, Level(strata, f) + 1);
    }
  }

  /** `Evaluate` yields the one stable model, whichever stratification it is given. */
  lemma EvaluateIsTheStableModel(rules: set<Rule>, strata: Strata, input: Store, model: Store)
    requires Stratified(rules, strata)
    ensures StableModel(rules, input, model) <==> model == Evaluate(rules, strata, input)
  {
    EvaluateIsStable(rules, strata, input);
    if StableModel(rules, input, model) {
      StableModelIsUnique(rules, strata, input, model, Evaluate(rules, strata, input));
    }
  }

  // ----- Starting from a partly evaluated store --------------------------

  /**
    Re-evaluating from a store that already holds part of the outcome changes
    nothing, and this is the only way to change nothing: a single fact that the
    outcome does not hold would stay in for good.
  */
  lemma ReevaluationIsExact(rules: set<Rule>, strata: Strata, input: Store, partial: Store)
    requires Stratified(rules, strata) && input <= partial
    ensures Evaluate(rules, strata, partial) == Evaluate(rules, strata, input)
       <==> partial <= Evaluate(rules, strata, input)
  {
    var model := Evaluate(rules, strata, input);
    EvaluateIsStable(rules, strata, input);
    EvaluateIsStable(rules, strata, partial);
    if partial <= model {
      CloseIsMonotone(rules, model, input, rules, model, partial);
      CloseIsLeast(rules, model, partial, model);
      StableModelIsUnique(rules, strata, partial, model, Evaluate(rules, strata, partial));
    }
  }

  // ----- Programs whose negated atoms stay out ---------------------------

  /** What the rules derive when every negated premise is taken to hold. */
  ghost function LeastModel(rules: set<Rule>, input: Store): Store {
    Close(rules, {}, input)
  }

  /** Evaluation never leaves the least model, whatever it negates. */
  lemma EvaluateIsWithinLeastModel(rules: set<Rule>, strata: Strata, input: Store)
    requires Stratified(rules, strata)
    ensures Evaluate(rules, strata, input) <= LeastModel(rules, input)
  {
    EvaluateIsStable(rules, strata, input);
    CloseIsMonotone(rules, Evaluate(rules, strata, input), input, rules, {}, input);
  }

  /** No rule negates a fact of the store. */
  predicate Unblocked(rules: set<Rule>, store: Store) {
    forall r, f | r in rules && f in r.neg :: f !in store
  }

  /** Where no negated atom is in the least model, evaluation is the least model. */
  lemma UnblockedIsLeastModel(rules: set<Rule>, strata: Strata, input: Store)
    requires Stratified(rules, strata) && Unblocked(rules, LeastModel(rules, input))
    ensures Evaluate(rules, strata, input) == LeastModel(rules, input)
  {
    var model := Evaluate(rules, strata, input);
    EvaluateIsStable(rules, strata, input);
    EvaluateIsWithinLeastModel(rules, strata, input);
    forall r | r in rules && Fires(r, {}, model) ensures r.head in model {
      assert Fires(r, model, model);
    }
    CloseIsLeast(rules, {}, input, model);
  }

  /** Without negation the strata do not matter: evaluation is the least model. */
  lemma EvaluateIsLeastModel(rules: set<Rule>, strata: Strata, input: Store)
    requires Stratified(rules, strata) && NegationFree(rules)
    ensures Evaluate(rules, strata, input) == LeastModel(rules, input)
  {
    UnblockedIsLeastModel(rules, strata, input);
  }

  /** No negated predicate heads a rule or occurs in the input. */
  predicate NegatesOnlyAbsent(rules: set<Rule>, input: Store) {
    Negated(rules) !! Idb(rules) && forall f | f in input :: f.pred !in Negated(rules)
  }

  function Negated(rules: set<Rule>): set<PredicateSym> {
    set r, f | r in rules && f in r.neg :: f.pred
  }

  lemma AbsentIsUnblocked(rules: set<Rule>, input: Store)
    requires NegatesOnlyAbsent(rules, input)
    ensures Unblocked(rules, LeastModel(rules, input))
  {
    CloseIsClosed(rules, {}, input);
    forall r, f | r in rules && f in r.neg ensures f !in LeastModel(rules, input) {
      assert f.pred in Negated(rules);
      assert f in Heads(rules) ==> f.pred in Idb(rules);
    }
  }

  // ----- Monotone programs -----------------------------------------------

  /** Further input never withdraws a fact. */
  ghost predicate Monotone(rules: set<Rule>, strata: Strata) {
    forall a: Store, b: Store | a <= b :: Evaluate(rules, strata, a) <= Evaluate(rules, strata, b)
  }

  lemma NegationFreeIsMonotone(rules: set<Rule>, strata: Strata)
    requires Stratified(rules, strata) && NegationFree(rules)
    ensures Monotone(rules, strata)
  {
    forall a: Store, b: Store | a <= b ensures Evaluate(rules, strata, a) <= Evaluate(rules, strata, b) {
      EvaluateIsLeastModel(rules, strata, a);
      EvaluateIsLeastModel(rules, strata, b);
      CloseIsMonotone(rules, {}, a, rules, {}, b);
    }
  }

  /** A store closed under the rules, negation judged against itself, is its own model. */
  lemma ClosedIsItsModel(rules: set<Rule>, strata: Strata, store: Store)
    requires Stratified(rules, strata) && Closed(rules, store, store)
    ensures Evaluate(rules, strata, store) == store
  {
    CloseIsLeast(rules, store, store, store);
    CloseIsClosed(rules, store, store);
    EvaluateIsTheStableModel(rules, strata, store, store);
  }

  /** A monotone program loses none of its facts when rules are added to it. */
  lemma MonotoneSurvivesMoreRules(rules: set<Rule>, strata: Strata, rules': set<Rule>, strata': Strata, input: Store)
    requires Stratified(rules, strata) && Stratified(rules', strata') && rules <= rules' && Monotone(rules, strata)
    ensures Evaluate(rules, strata, input) <= Evaluate(rules', strata', input)
  {
    var model := Evaluate(rules', strata', input);
    EvaluateIsStable(rules', strata', input);
    ClosedIsItsModel(rules, strata, model);
    assert input <= model;
  }
}

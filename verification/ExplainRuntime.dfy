/** Explanations of what the runtime's queries answer. */
module ExplainRuntime {
  import opened Common
  import opened Datalog
  import opened RuntimeModel
  import opened RuntimeProofs
  import opened Clauses
  import opened Prover
  import opened ExplainProofs

  /**
    Whenever a query is answered as intended, its explanations never pass a
    derived fact off as given: every base-fact leaf was loaded, came with the
    request, or is a clause without a body. The clauses must be those of the
    program that the store was evaluated with.
  */
  lemma IntendedExplanationsEndInLoadedFacts(rt: Runtime, facts: seq<Fact>, rules: seq<Clause>, f: Fact, t: Derivation,
                                             depth: nat)
    requires Sound(rt) && rt.info.Some? && GroundedFrom(rt.info.value.rules, rules)
    requires Fresh(rt, facts) == Intended(rt, facts) && ValidTree(Fresh(rt, facts), rules, f, t, depth)
    ensures LeavesAreLoaded(rules, rt.explicit + Elements(facts), t)
  {
    var info := rt.info.value;
    EvaluateIsStable(info.rules, info.strata, rt.explicit + Elements(facts));
    ExplanationsEndInLoadedFacts(info.rules, rules, rt.explicit + Elements(facts), Fresh(rt, facts), f, t, depth);
  }

  /** So it is in every run of monotone programs, and whenever no rule negates a fact of the least model. */
  lemma RunExplanationsEndInLoadedFacts(ops: seq<Op>, facts: seq<Fact>, rules: seq<Clause>, f: Fact, t: Derivation)
    requires ValidRun(INITIAL, ops)
    requires var rt := After(INITIAL, ops).rt;
             && rt.info.Some? && GroundedFrom(rt.info.value.rules, rules)
             && (MonotoneRun(INITIAL, ops) || Undisturbed(rt, facts))
             && ValidTree(Fresh(rt, facts), rules, f, t, 0)
    ensures LeavesAreLoaded(rules, After(INITIAL, ops).rt.explicit + Elements(facts), t)
  {
    var rt := After(INITIAL, ops).rt;
    RunKeepsSound(INITIAL, ops);
    if MonotoneRun(INITIAL, ops) {
      MonotoneRunAnswersIntended(ops, facts);
    } else {
      UndisturbedQueryIsLeastModel(rt, facts);
    }
    IntendedExplanationsEndInLoadedFacts(rt, facts, rules, f, t, 0);
  }

  /** A rule whose only premise negates a stored fact fires for nothing. */
  lemma BlockedRuleFiresForNothing(store: Store, p: Fact, q: Fact)
    requires q in store
    ensures forall f :: !FiresFor(store, Clause(FactAtom(p), [Neg(FactAtom(q))]), f)
  {
    var premises := [Neg(FactAtom(q))];
    assert GroundFact(q.pred, FactAtom(q).args) == q;
    forall subst: Subst ensures !Solvable(store, premises, 0, subst) {
      assert ApplyArgs(FactAtom(q).args, subst) == FactAtom(q).args;
      NoNewVariables(store, premises, 0, subst);
    }
  }

  /**
    Otherwise a stale fact is shown as given: after `p :- not q` is added, a
    request that brings `q` gets `p` explained as a base fact, although nobody
    ever loaded it.
  */
  lemma StaleFactIsShownAsGiven(p: Fact, q: Fact)
    requires p.pred != q.pred
    ensures var info := Info({Rule(p, {}, {q})}, Strata(2, map[p.pred := 1, q.pred := 0]));
            var rt := AddPolicy(EMPTY_RUNTIME, Parsed(info.rules), false, Some(info.strata), Outcome({p}, true));
            var rules := [Clause(FactAtom(p), [Neg(FactAtom(q))])];
            var t := Derivation(Label(p), ViaFact, []);
            && rt.info == Some(info) && GroundedFrom(info.rules, rules)
            && ValidTree(Fresh(rt, [q]), rules, p, t, 0)
            && !LeavesAreLoaded(rules, rt.explicit + Elements([q]), t)
  {
    var info := Info({Rule(p, {}, {q})}, Strata(2, map[p.pred := 1, q.pred := 0]));
    var rt := AddPolicy(EMPTY_RUNTIME, Parsed(info.rules), false, Some(info.strata), Outcome({p}, true));
    NegationLeavesStaleFact(p, q);
    OneNegationModels(p, q, info);
    assert q in Elements([q]) && rt.explicit + Elements([q]) == {q};
    EvaluateIsStable(info.rules, info.strata, rt.base + Elements([q]));
    UnfiredFactIsShownAsGiven(Fresh(rt, [q]), p, q);
  }

  lemma UnfiredFactIsShownAsGiven(store: Store, p: Fact, q: Fact)
    requires p in store && q in store && p != q
    ensures var rules := [Clause(FactAtom(p), [Neg(FactAtom(q))])];
            var t := Derivation(Label(p), ViaFact, []);
            && GroundedFrom({Rule(p, {}, {q})}, rules)
            && ValidTree(store, rules, p, t, 0) && !LeavesAreLoaded(rules, {q}, t)
  {
    var rules := [Clause(FactAtom(p), [Neg(FactAtom(q))])];
    BlockedRuleFiresForNothing(store, p, q);
    assert InstanceOf(Rule(p, {}, {q}), rules[0], map[]) by {
      assert ApplyArgs(FactAtom(q).args, map[]) == FactAtom(q).args;
      assert GroundFact(q.pred, FactAtom(q).args) == q;
    }
    assert rules[0] in rules;
    forall f | Label(p) == Label(f) ensures f == p { LabelIsInjective(p, f); }
  }

  /**
    Explained with clauses of another program, of which none fires for a fact
    or states it, a fact that the store's own program derives is shown as given.
  */
  lemma ForeignRulesShowDerivedAsGiven(program: set<Rule>, input: Store, store: Store, rules: seq<Clause>, f: Fact)
    requires StableModel(program, input, store) && f in store && f !in input
    requires forall c | c in rules :: !FiresFor(store, c, f)
    requires forall c, s | c in rules && c.premises == [] && c.head.pred == f.pred :: !Matches(c.head.args, s, f.args)
    ensures exists r | r in program :: r.head == f && Fires(r, store, store)
    ensures ValidTree(store, rules, f, Derivation(Label(f), ViaFact, []), 0)
    ensures !LeavesAreLoaded(rules, input, Derivation(Label(f), ViaFact, []))
  {
    CloseIsSupported(program, store, input, f);
    forall g | Label(f) == Label(g) ensures f == g { LabelIsInjective(f, g); }
  }
}

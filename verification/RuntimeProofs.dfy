/** What every step of the runtime keeps, and what queries therefore answer. */
module RuntimeProofs {
  import opened Common
  import opened Datalog
  import opened RuntimeModel

  // ----- Soundness of the materialised store -----------------------------

  /**
    The base store holds the explicit facts and otherwise only facts of
    predicates the program derives, and it never leaves the least model of the
    explicit facts: each of its facts has a derivation if negated premises are
    ignored.
  */
  ghost predicate Sound(rt: Runtime) {
    && rt.ready == rt.info.Some?
    && rt.explicit <= rt.base
    && (rt.info.None? ==> rt.base == rt.explicit)
    && (rt.info.Some? ==> SoundProgram(rt, rt.info.value))
  }

  ghost predicate SoundProgram(rt: Runtime, info: Info) {
    && info.rules == Combined(rt.units)
    && Stratified(info.rules, info.strata)
    && (forall f | f in rt.base :: f in rt.explicit || f.pred in Idb(info.rules))
    && rt.base <= LeastModel(info.rules, rt.explicit)
  }

  ghost predicate SoundReload(reload: Reload) {
    reload.FactsTaken? ==>
      && reload.info.rules == Combined(reload.units)
      && Stratified(reload.info.rules, reload.info.strata)
      && reload.merged == reload.explicit
  }

  ghost predicate SoundSystem(sys: System) {
    Sound(sys.rt) && forall reload | reload in sys.reloads :: SoundReload(reload)
  }

  lemma EvaluationAddsIdbFacts(info: Info, input: Store, outcome: Outcome)
    requires Stratified(info.rules, info.strata) && ValidOutcome(info, input, outcome)
    ensures forall f | f in outcome.store :: f in input || f.pred in Idb(info.rules)
  {
    EvaluateIsStable(info.rules, info.strata, input);
  }

  /** Evaluating in place, even part-way, from inside the least model stays inside it. */
  lemma EvaluationStaysInLeastModel(info: Info, input: Store, explicit: Store, outcome: Outcome)
    requires Stratified(info.rules, info.strata) && ValidOutcome(info, input, outcome)
    requires input <= LeastModel(info.rules, explicit)
    ensures outcome.store <= LeastModel(info.rules, explicit)
  {
    EvaluateIsWithinLeastModel(info.rules, info.strata, input);
    CloseIsClosed(info.rules, {}, explicit);
    CloseIsLeast(info.rules, {}, input, LeastModel(info.rules, explicit));
  }

  lemma LoadFactsKeepsSound(rt: Runtime, batch: seq<Option<Fact>>, outcome: Outcome)
    requires Sound(rt)
    requires AllParse(batch) && rt.info.Some? ==>
               ValidOutcome(rt.info.value, rt.base + ParsedPrefix(batch), outcome)
    ensures Sound(LoadFacts(rt, batch, outcome))
  {
    if rt.info.Some? {
      var info := rt.info.value;
      var loaded := ParsedPrefix(batch);
      var base, explicit := rt.base + loaded, rt.explicit + loaded;
      CloseIsMonotone(info.rules, {}, rt.explicit, info.rules, {}, explicit);
      CloseIsClosed(info.rules, {}, explicit);
      if AllParse(batch) {
        EvaluationAddsIdbFacts(info, base, outcome);
        EvaluationStaysInLeastModel(info, base, explicit, outcome);
      }
    }
  }

  lemma AddPolicyKeepsSound(rt: Runtime, unit: Unit, persistent: bool, strata: Strata, outcome: Outcome)
    requires Sound(rt)
    requires Stratified(Combined(rt.units + [unit]), strata)
    requires ValidOutcome(Info(Combined(rt.units + [unit]), strata), rt.base, outcome)
    ensures Sound(AddPolicy(rt, Parsed(unit), persistent, Some(strata), outcome))
  {
    var info := Info(Combined(rt.units + [unit]), strata);
    CombinedGrows(rt.units, unit);
    EvaluationAddsIdbFacts(info, rt.base, outcome);
    CloseIsClosed(info.rules, {}, rt.explicit);
    if rt.info.Some? {
      CloseIsMonotone(rt.info.value.rules, {}, rt.explicit, info.rules, {}, rt.explicit);
    }
    EvaluationStaysInLeastModel(info, rt.base, rt.explicit, outcome);
  }

  lemma CombinedGrows(units: seq<Unit>, unit: Unit)
    ensures Combined(units) <= Combined(units + [unit])
  {
    forall r | r in Combined(units) ensures r in Combined(units + [unit]) {
      var i :| 0 <= i < |units| && r in units[i];
      assert (units + [unit])[i] == units[i];
    }
  }

  /** The reload filter removes every stale derivation and no explicit fact, negation or not. */
  lemma FilterKeepsExactlyExplicit(rt: Runtime)
    requires Sound(rt)
    ensures FilterBaseFacts(rt.base, OldIdb(rt), rt.explicit) == rt.explicit
  {
  }

  /** A committed reload leaves precisely the new program's model of the facts it snapshotted. */
  lemma CommitKeepsSound(rt: Runtime, reload: Reload, outcome: Outcome)
    requires Sound(rt) && reload.FactsTaken? && SoundReload(reload)
    requires ValidOutcome(reload.info, reload.merged, outcome)
    ensures Sound(Commit(rt, reload, outcome))
    ensures outcome.ok ==> Commit(rt, reload, outcome).base == Model(reload.info, reload.explicit)
  {
    EvaluationAddsIdbFacts(reload.info, reload.merged, outcome);
    EvaluateIsStable(reload.info.rules, reload.info.strata, reload.explicit);
    EvaluateIsWithinLeastModel(reload.info.rules, reload.info.strata, reload.explicit);
  }

  lemma StepKeepsSound(sys: System, op: Op)
    requires SoundSystem(sys) && Enabled(sys, op)
    ensures SoundSystem(Step(sys, op))
  {
    match op
    case OpLoad(batch, outcome) => LoadFactsKeepsSound(sys.rt, batch, outcome);
    case OpAdd(source, persistent, strata, outcome) =>
      if source.Parsed? && strata.Some? {
        AddPolicyKeepsSound(sys.rt, source.unit, persistent, strata.value, outcome);
      }
    case OpTakeUnits(_) =>
    case OpTakeFacts(reload, strata) => FilterKeepsExactlyExplicit(sys.rt);
    case OpCommit(reload, outcome) => CommitKeepsSound(sys.rt, reload, outcome);
    case OpBegin(_, _) =>
    case OpFinish(_, _) =>
  }

  lemma {:induction false} RunKeepsSound(sys: System, ops: seq<Op>)
    requires SoundSystem(sys) && ValidRun(sys, ops)
    ensures SoundSystem(After(sys, ops))
    decreases |ops|
  {
    if ops != [] {
      StepKeepsSound(sys, ops[0]);
      RunKeepsSound(Step(sys, ops[0]), ops[1..]);
    }
  }

  // ----- What an evaluation of the base store answers --------------------

  /** The store the documentation promises: the program over the facts in force, nothing else. */
  ghost function Intended(rt: Runtime, facts: seq<Fact>): Store
    requires rt.info.Some?
  {
    Model(rt.info.value, rt.explicit + Elements(facts))
  }

  /** The store a query evaluates: the program over the materialised base store. */
  ghost function Fresh(rt: Runtime, facts: seq<Fact>): Store
    requires rt.info.Some?
  {
    Model(rt.info.value, rt.base + Elements(facts))
  }

  /**
    A query answers from the intended store exactly when no materialised fact
    is one that the request's own facts withdraw, which shows in the answer
    itself: it must follow from the facts in force with negation judged
    against it.
  */
  lemma QueryIsIntendedExactly(rt: Runtime, facts: seq<Fact>)
    requires Sound(rt) && rt.info.Some?
    ensures Fresh(rt, facts) == Intended(rt, facts) <==> rt.base <= Intended(rt, facts)
    ensures Fresh(rt, facts) == Intended(rt, facts) <==>
              StableModel(rt.info.value.rules, rt.explicit + Elements(facts), Fresh(rt, facts))
  {
    var info := rt.info.value;
    var wanted := rt.explicit + Elements(facts);
    EvaluateIsStable(info.rules, info.strata, wanted);
    ReevaluationIsExact(info.rules, info.strata, wanted, rt.base + Elements(facts));
    EvaluateIsTheStableModel(info.rules, info.strata, wanted, Fresh(rt, facts));
  }

  /** The rules over these facts negate nothing that they could derive from them. */
  ghost predicate Undisturbed(rt: Runtime, facts: seq<Fact>)
    requires rt.info.Some?
  {
    Unblocked(rt.info.value.rules, LeastModel(rt.info.value.rules, rt.explicit + Elements(facts)))
  }

  /** Where no rule negates a fact of the least model, the answer is intended, and is the least model. */
  lemma UndisturbedQueryIsLeastModel(rt: Runtime, facts: seq<Fact>)
    requires Sound(rt) && rt.info.Some? && Undisturbed(rt, facts)
    ensures Fresh(rt, facts) == Intended(rt, facts)
         == LeastModel(rt.info.value.rules, rt.explicit + Elements(facts))
  {
    var info := rt.info.value;
    var wanted := rt.explicit + Elements(facts);
    CloseIsMonotone(info.rules, {}, rt.explicit, info.rules, {}, wanted);
    UnblockedIsLeastModel(info.rules, info.strata, wanted);
    QueryIsIntendedExactly(rt, facts);
  }

  /** It is enough that no negated predicate heads a rule or occurs among the facts. */
  lemma AbsentNegationQueryIsLeastModel(rt: Runtime, facts: seq<Fact>)
    requires Sound(rt) && rt.info.Some?
    requires NegatesOnlyAbsent(rt.info.value.rules, rt.explicit + Elements(facts))
    ensures Fresh(rt, facts) == Intended(rt, facts)
         == LeastModel(rt.info.value.rules, rt.explicit + Elements(facts))
  {
    AbsentIsUnblocked(rt.info.value.rules, rt.explicit + Elements(facts));
    UndisturbedQueryIsLeastModel(rt, facts);
  }

  /**
    After any run, however its steps interleave and wherever its evaluations
    abort, the base store lies between the explicit facts and their least
    model; and a fresh evaluation gives the least model of explicit and
    request facts unless a rule negates a fact of that model.
  */
  lemma RunAnswersLeastModel(ops: seq<Op>, facts: seq<Fact>)
    requires ValidRun(INITIAL, ops)
    ensures var rt := After(INITIAL, ops).rt;
            rt.info.Some? ==>
              && rt.explicit <= rt.base <= LeastModel(rt.info.value.rules, rt.explicit)
              && (Undisturbed(rt, facts) ==>
                    Fresh(rt, facts) == LeastModel(rt.info.value.rules, rt.explicit + Elements(facts)))
  {
    RunKeepsSound(INITIAL, ops);
    var rt := After(INITIAL, ops).rt;
    if rt.info.Some? && Undisturbed(rt, facts) {
      UndisturbedQueryIsLeastModel(rt, facts);
    }
  }

  // ----- Which programs are always answered as intended ------------------

  ghost predicate MonotoneProgram(rt: Runtime) {
    rt.info.Some? ==> Monotone(rt.info.value.rules, rt.info.value.strata)
  }

  /** Every program that is in force during the run is monotone. */
  ghost predicate MonotoneRun(sys: System, ops: seq<Op>)
    requires ValidRun(sys, ops)
    decreases |ops|
  {
    MonotoneProgram(sys.rt) && (ops == [] || MonotoneRun(Step(sys, ops[0]), ops[1..]))
  }

  /** Every materialised fact is in the model of the explicit facts. */
  ghost predicate Exact(rt: Runtime) {
    rt.info.Some? ==> rt.base <= Model(rt.info.value, rt.explicit)
  }

  /** Evaluating in place, even part-way, from inside the model stays inside it. */
  lemma EvaluationStaysInModel(info: Info, input: Store, explicit: Store, outcome: Outcome)
    requires Stratified(info.rules, info.strata) && ValidOutcome(info, input, outcome)
    requires explicit <= input <= Model(info, explicit)
    ensures outcome.store <= Model(info, explicit)
  {
    ReevaluationIsExact(info.rules, info.strata, explicit, input);
  }

  lemma LoadKeepsExact(rt: Runtime, batch: seq<Option<Fact>>, outcome: Outcome)
    requires Sound(rt) && Exact(rt) && MonotoneProgram(rt)
    requires AllParse(batch) && rt.info.Some? ==>
               ValidOutcome(rt.info.value, rt.base + ParsedPrefix(batch), outcome)
    ensures Exact(LoadFacts(rt, batch, outcome))
  {
    if rt.info.Some? {
      var info := rt.info.value;
      var base, explicit := rt.base + ParsedPrefix(batch), rt.explicit + ParsedPrefix(batch);
      EvaluateIsStable(info.rules, info.strata, explicit);
      assert Model(info, rt.explicit) <= Model(info, explicit);
      if AllParse(batch) {
        EvaluationStaysInModel(info, base, explicit, outcome);
      }
    }
  }

  lemma AddKeepsExact(rt: Runtime, unit: Unit, persistent: bool, strata: Strata, outcome: Outcome)
    requires Sound(rt) && Exact(rt) && MonotoneProgram(rt)
    requires Stratified(Combined(rt.units + [unit]), strata)
    requires ValidOutcome(Info(Combined(rt.units + [unit]), strata), rt.base, outcome)
    ensures Exact(AddPolicy(rt, Parsed(unit), persistent, Some(strata), outcome))
  {
    var info := Info(Combined(rt.units + [unit]), strata);
    EvaluateIsStable(info.rules, info.strata, rt.explicit);
    if rt.info.Some? {
      CombinedGrows(rt.units, unit);
      MonotoneSurvivesMoreRules(rt.info.value.rules, rt.info.value.strata, info.rules, info.strata, rt.explicit);
    }
    EvaluationStaysInModel(info, rt.base, rt.explicit, outcome);
  }

  lemma StepKeepsExact(sys: System, op: Op)
    requires SoundSystem(sys) && Exact(sys.rt) && MonotoneProgram(sys.rt) && Enabled(sys, op)
    ensures Exact(Step(sys, op).rt)
  {
    match op
    case OpLoad(batch, outcome) => LoadKeepsExact(sys.rt, batch, outcome);
    case OpAdd(source, persistent, strata, outcome) =>
      if source.Parsed? && strata.Some? {
        AddKeepsExact(sys.rt, source.unit, persistent, strata.value, outcome);
      }
    case OpTakeUnits(_) =>
    case OpTakeFacts(_, _) =>
    case OpCommit(reload, outcome) => CommitKeepsSound(sys.rt, reload, outcome);
    case OpBegin(_, _) =>
    case OpFinish(_, _) =>
  }

  lemma {:induction false} RunKeepsExact(sys: System, ops: seq<Op>)
    requires SoundSystem(sys) && Exact(sys.rt) && ValidRun(sys, ops) && MonotoneRun(sys, ops)
    ensures SoundSystem(After(sys, ops)) && Exact(After(sys, ops).rt) && MonotoneProgram(After(sys, ops).rt)
    decreases |ops|
  {
    if ops != [] {
      StepKeepsSound(sys, ops[0]);
      StepKeepsExact(sys, ops[0]);
      RunKeepsExact(Step(sys, ops[0]), ops[1..]);
    }
  }

  /** While only monotone programs are in force, every query of every run is answered as intended. */
  lemma MonotoneRunAnswersIntended(ops: seq<Op>, facts: seq<Fact>)
    requires ValidRun(INITIAL, ops) && MonotoneRun(INITIAL, ops)
    ensures var rt := After(INITIAL, ops).rt; rt.info.Some? ==> Fresh(rt, facts) == Intended(rt, facts)
  {
    RunKeepsExact(INITIAL, ops);
    var rt := After(INITIAL, ops).rt;
    if rt.info.Some? {
      assert Model(rt.info.value, rt.explicit) <= Model(rt.info.value, rt.explicit + Elements(facts));
      QueryIsIntendedExactly(rt, facts);
    }
  }

  /** Some facts are loaded, and then the program is added to the empty runtime and evaluated to its end. */
  function Installed(info: Info, batch: seq<Option<Fact>>, model: Store): Runtime {
    AddPolicy(LoadFacts(EMPTY_RUNTIME, batch, Outcome({}, true)), Parsed(info.rules), false, Some(info.strata),
              Outcome(model, true))
  }

  /** Whatever is loaded before it, every request to the program is answered as intended. */
  ghost predicate AlwaysIntended(info: Info) {
    forall batch: seq<Option<Fact>>, facts: seq<Fact> | AllParse(batch) :: AnsweredAsIntended(info, batch, facts)
  }

  ghost predicate AnsweredAsIntended(info: Info, batch: seq<Option<Fact>>, facts: seq<Fact>) {
    var rt := Installed(info, batch, Model(info, ParsedPrefix(batch)));
    rt.info.Some? && Fresh(rt, facts) == Intended(rt, facts)
  }

  lemma {:induction false} SomeBatch(store: Store) returns (batch: seq<Option<Fact>>, facts: seq<Fact>)
    ensures AllParse(batch) && ParsedPrefix(batch) == store && Elements(facts) == store
  {
    if store == {} {
      batch, facts := [], [];
    } else {
      var f :| f in store;
      var rest, others := SomeBatch(store - {f});
      batch, facts := [Some(f)] + rest, [f] + others;
      assert batch[1..] == rest;
    }
  }

  lemma InstalledIsSound(info: Info, batch: seq<Option<Fact>>)
    requires Stratified(info.rules, info.strata) && AllParse(batch)
    ensures var rt := Installed(info, batch, Model(info, ParsedPrefix(batch)));
            && Sound(rt) && rt.info == Some(info)
            && rt.explicit == ParsedPrefix(batch) && rt.base == Model(info, rt.explicit)
  {
    var loaded := LoadFacts(EMPTY_RUNTIME, batch, Outcome({}, true));
    assert loaded.units == [] && [] + [info.rules] == [info.rules] && [info.rules][0] == info.rules;
    assert Combined([info.rules]) == info.rules;
    assert loaded.explicit == {} + ParsedPrefix(batch) == ParsedPrefix(batch);
    var outcome := Outcome(Model(info, loaded.explicit), true);
    EvaluateIsStable(info.rules, info.strata, loaded.explicit);
    AddPolicyKeepsSound(loaded, info.rules, false, info.strata, outcome);
  }

  lemma InstalledAnswersExactly(info: Info, batch: seq<Option<Fact>>, facts: seq<Fact>)
    requires Stratified(info.rules, info.strata) && AllParse(batch)
    ensures AnsweredAsIntended(info, batch, facts) <==>
              Model(info, ParsedPrefix(batch)) <= Model(info, ParsedPrefix(batch) + Elements(facts))
  {
    InstalledIsSound(info, batch);
    QueryIsIntendedExactly(Installed(info, batch, Model(info, ParsedPrefix(batch))), facts);
  }

  /**
    A program is always answered as intended if and only if it is monotone,
    which is a property of the rules alone. Negation-free programs are.
  */
  lemma AlwaysIntendedExactly(info: Info)
    requires Stratified(info.rules, info.strata)
    ensures AlwaysIntended(info) <==> Monotone(info.rules, info.strata)
  {
    if Monotone(info.rules, info.strata) {
      forall batch: seq<Option<Fact>>, facts: seq<Fact> | AllParse(batch)
        ensures AnsweredAsIntended(info, batch, facts)
      {
        InstalledAnswersExactly(info, batch, facts);
        assert ParsedPrefix(batch) <= ParsedPrefix(batch) + Elements(facts);
      }
    }
    if AlwaysIntended(info) {
      forall a: Store, b: Store | a <= b
        ensures Evaluate(info.rules, info.strata, a) <= Evaluate(info.rules, info.strata, b)
      {
        var batch, _ := SomeBatch(a);
        var _, facts := SomeBatch(b);
        assert ParsedPrefix(batch) + Elements(facts) == b;
        InstalledAnswersExactly(info, batch, facts);
      }
    }
  }

  /** Straight after a committed reload a query without facts of its own is exact, negation or not. */
  lemma ReloadedQueryIsIntended(rt: Runtime, reload: Reload, outcome: Outcome)
    requires Sound(rt) && reload.FactsTaken? && SoundReload(reload)
    requires ValidOutcome(reload.info, reload.merged, outcome) && outcome.ok
    ensures var rt' := Commit(rt, reload, outcome); Fresh(rt', []) == Intended(rt', [])
  {
    CommitKeepsSound(rt, reload, outcome);
    var rt' := Commit(rt, reload, outcome);
    assert rt'.explicit + Elements([]) == rt'.explicit;
    QueryIsIntendedExactly(rt', []);
  }

  /** The program `p :- not q` derives `p` from nothing and nothing from `q`. */
  lemma OneNegationModels(p: Fact, q: Fact, info: Info)
    requires p.pred != q.pred
    requires info == Info({Rule(p, {}, {q})}, Strata(2, map[p.pred := 1, q.pred := 0]))
    ensures Stratified(info.rules, info.strata)
    ensures Model(info, {}) == {p} && Model(info, {q}) == {q}
  {
    var rule := Rule(p, {}, {q});
    assert Heads(info.rules) == {p};
    EvaluateIsStable(info.rules, info.strata, {});
    assert Fires(rule, Model(info, {}), Model(info, {}));
    EvaluateIsStable(info.rules, info.strata, {q});
    CloseIsLeast(info.rules, Model(info, {q}), {q}, {q});
  }

  /**
    Negation breaks it: with the single rule `p :- not q` loaded, a request
    that brings `q` still sees the `p` that was materialised without it.
  */
  lemma NegationLeavesStaleFact(p: Fact, q: Fact)
    requires p.pred != q.pred
    ensures var info := Info({Rule(p, {}, {q})}, Strata(2, map[p.pred := 1, q.pred := 0]));
            var rt := AddPolicy(EMPTY_RUNTIME, Parsed(info.rules), false, Some(info.strata), Outcome({p}, true));
            && ValidOutcome(info, {}, Outcome({p}, true))
            && rt.info == Some(info)
            && p in Fresh(rt, [q]) && Intended(rt, [q]) == {q}
  {
    var info := Info({Rule(p, {}, {q})}, Strata(2, map[p.pred := 1, q.pred := 0]));
    assert ([] + [info.rules])[0] == info.rules;
    assert Combined([] + [info.rules]) == info.rules;
    OneNegationModels(p, q, info);
    assert Elements([q]) == {q} && {} + {q} == {q};
    EvaluateIsStable(info.rules, info.strata, {p} + {q});
  }

  // ----- Coherence of the evaluated-store cache --------------------------

  ghost predicate Known(sys: System, key: Key) {
    (key.programVersion, key.baseVersion) in sys.history
  }

  function Recorded(sys: System, key: Key): Snapshot
    requires (key.programVersion, key.baseVersion) in sys.history
  {
    sys.history[(key.programVersion, key.baseVersion)]
  }

  ghost predicate Coherent(sys: System) {
    && sys.rt.ready == sys.rt.info.Some?
    && (forall v | v in sys.history :: v.0 <= sys.rt.programVersion && v.1 <= sys.rt.baseVersion)
    && CurrentIsRecorded(sys)
    && (sys.rt.cache.Some? ==> forall key | key in sys.rt.cache.value :: CoherentEntry(sys, key))
    && (forall q | q in sys.queries :: CoherentQuery(sys, q))
  }

  ghost predicate CurrentIsRecorded(sys: System) {
    sys.rt.info.Some? ==>
      var key := CurrentKey(sys.rt, []);
      Known(sys, key) && Recorded(sys, key) == Snapshot(sys.rt.info.value, sys.rt.base)
  }

  ghost predicate CoherentEntry(sys: System, key: Key)
    requires sys.rt.cache.Some? && key in sys.rt.cache.value
  {
    Known(sys, key) &&
    sys.rt.cache.value[key] == Model(Recorded(sys, key).info, Recorded(sys, key).base + Elements(key.facts))
  }

  ghost predicate CoherentQuery(sys: System, q: Query) {
    Known(sys, q.key) && Recorded(sys, q.key) == Snapshot(q.info, q.base)
  }

  /** A load is clean unless it adds facts and then meets a string that does not parse. */
  predicate Clean(rt: Runtime, op: Op) {
    op.OpLoad? ==> AllParse(op.batch) || !rt.ready || ParsedPrefix(op.batch) <= rt.base
  }

  /** A change of program or base store takes a version pair never used before. */
  lemma NewVersionsKeepCoherent(sys: System, rt: Runtime)
    requires Coherent(sys) && rt.cache.None? && rt.ready == rt.info.Some?
    requires sys.rt.programVersion <= rt.programVersion && sys.rt.baseVersion <= rt.baseVersion
    requires (sys.rt.programVersion, sys.rt.baseVersion) != (rt.programVersion, rt.baseVersion)
    ensures Coherent(Record(sys, rt))
  {
    assert (rt.programVersion, rt.baseVersion) !in sys.history;
    forall q | q in sys.queries ensures CoherentQuery(Record(sys, rt), q) {
      assert CoherentQuery(sys, q);
    }
  }

  lemma FinishKeepsCoherent(sys: System, q: Query, outcome: Outcome)
    requires Coherent(sys) && q in sys.queries && ValidOutcome(q.info, Working(q), outcome)
    ensures Coherent(sys.(rt := FinishQuery(sys.rt, q, outcome).0))
  {
    var sys' := sys.(rt := FinishQuery(sys.rt, q, outcome).0);
    assert CoherentQuery(sys, q);
    if sys'.rt.cache.Some? {
      forall key | key in sys'.rt.cache.value ensures CoherentEntry(sys', key) {
        if key != q.key || sys'.rt == sys.rt {
          assert CoherentEntry(sys, key);
        }
      }
    }
    assert forall q' | q' in sys.queries :: CoherentQuery(sys, q') ==> CoherentQuery(sys', q');
  }

  lemma BeginKeepsCoherent(sys: System, facts: seq<Fact>, cacheable: bool)
    requires Coherent(sys)
    ensures Coherent(Step(sys, OpBegin(facts, cacheable)))
  {
    var sys' := Step(sys, OpBegin(facts, cacheable));
    assert forall q | q in sys.queries :: CoherentQuery(sys, q) ==> CoherentQuery(sys', q);
    if sys.rt.cache.Some? {
      assert forall key | key in sys.rt.cache.value :: CoherentEntry(sys, key) ==> CoherentEntry(sys', key);
    }
  }

  lemma StepKeepsCoherent(sys: System, op: Op)
    requires Coherent(sys) && Enabled(sys, op) && Clean(sys.rt, op)
    ensures Coherent(Step(sys, op))
  {
    match op
    case OpLoad(batch, outcome) =>
      var rt := LoadFacts(sys.rt, batch, outcome);
      if sys.rt.ready && AllParse(batch) {
        NewVersionsKeepCoherent(sys, rt);
      } else {
        LoadWithoutBumpKeepsCoherent(sys, rt);
      }
    case OpAdd(source, persistent, strata, outcome) =>
      if source.Parsed? && strata.Some? {
        NewVersionsKeepCoherent(sys, AddPolicy(sys.rt, source, persistent, strata, outcome));
      }
    case OpTakeUnits(_) =>
    case OpTakeFacts(_, _) =>
    case OpCommit(reload, outcome) =>
      if outcome.ok {
        NewVersionsKeepCoherent(sys, Commit(sys.rt, reload, outcome));
      }
    case OpBegin(facts, cacheable) => BeginKeepsCoherent(sys, facts, cacheable);
    case OpFinish(query, outcome) => FinishKeepsCoherent(sys, query, outcome);
  }

  lemma LoadWithoutBumpKeepsCoherent(sys: System, rt: Runtime)
    requires Coherent(sys) && rt == sys.rt.(base := rt.base, explicit := rt.explicit)
    requires sys.rt.ready ==> rt.base == sys.rt.base
    ensures Coherent(Record(sys, rt))
  {
    var sys' := Record(sys, rt);
    assert sys'.history == sys.history;
    assert forall q | q in sys.queries :: CoherentQuery(sys, q) ==> CoherentQuery(sys', q);
    if rt.cache.Some? {
      assert forall key | key in rt.cache.value :: CoherentEntry(sys, key) ==> CoherentEntry(sys', key);
    }
  }

  /** A load that is not clean breaks coherence, so cleanness is exactly what is needed. */
  lemma UncleanLoadBreaksCoherence(sys: System, op: Op)
    requires Coherent(sys) && Enabled(sys, op) && !Clean(sys.rt, op)
    ensures !Coherent(Step(sys, op))
  {
    var f :| f in ParsedPrefix(op.batch) && f !in sys.rt.base;
    var sys' := Step(sys, op);
    assert f in sys'.rt.base;
    assert Recorded(sys', CurrentKey(sys'.rt, [])) == Recorded(sys, CurrentKey(sys.rt, []));
  }

  predicate CleanRun(sys: System, ops: seq<Op>)
    requires ValidRun(sys, ops)
    decreases |ops|
  {
    ops == [] || (Clean(sys.rt, ops[0]) && CleanRun(Step(sys, ops[0]), ops[1..]))
  }

  lemma {:induction false} RunKeepsCoherent(sys: System, ops: seq<Op>)
    requires Coherent(sys) && ValidRun(sys, ops) && CleanRun(sys, ops)
    ensures Coherent(After(sys, ops))
    decreases |ops|
  {
    if ops != [] {
      StepKeepsCoherent(sys, ops[0]);
      RunKeepsCoherent(Step(sys, ops[0]), ops[1..]);
    }
  }

  /**
    After any interleaving whose loads are clean, a cache hit returns the very
    store that a fresh evaluation of the current program and facts would give.
  */
  lemma CacheHitIsFresh(ops: seq<Op>, facts: seq<Fact>)
    requires ValidRun(INITIAL, ops) && CleanRun(INITIAL, ops)
    ensures var rt := After(INITIAL, ops).rt;
            var begun := BeginQuery(rt, facts, true).1;
            begun.Hit? ==> begun.store == Fresh(rt, facts)
  {
    RunKeepsCoherent(INITIAL, ops);
    var sys := After(INITIAL, ops);
    var begun := BeginQuery(sys.rt, facts, true).1;
    if begun.Hit? {
      var key := CurrentKey(sys.rt, facts);
      assert CoherentEntry(sys, key);
      assert Recorded(sys, key) == Recorded(sys, CurrentKey(sys.rt, []));
    }
  }

  /** No more than eight stores are cached, and each one under the current versions is what evaluation gives. */
  ghost predicate FreshCache(rt: Runtime) {
    rt.cache.Some? ==>
      && |rt.cache.value| <= 8
      && (rt.info.Some? ==>
            forall facts | CurrentKey(rt, facts) in rt.cache.value ::
              rt.cache.value[CurrentKey(rt, facts)] == Fresh(rt, facts))
  }

  lemma FinishKeepsCacheSmall(rt: Runtime, q: Query, outcome: Outcome)
    requires rt.cache.Some? ==> |rt.cache.value| <= 8
    ensures var rt' := FinishQuery(rt, q, outcome).0; rt'.cache.Some? ==> |rt'.cache.value| <= 8
  {
    if rt.cache.Some? {
      OneMoreKey(if |rt.cache.value| >= MAX_CACHE_ENTRIES then map[] else rt.cache.value, q.key, outcome.store);
    }
  }

  lemma OneMoreKey(m: map<Key, Store>, key: Key, store: Store)
    ensures |m[key := store]| <= |m| + 1
  {
    assert m[key := store].Keys == m.Keys + {key};
    assert |m.Keys + {key}| <= |m.Keys| + 1;
  }

  lemma {:induction false} CacheStaysSmall(sys: System, ops: seq<Op>)
    requires ValidRun(sys, ops) && (sys.rt.cache.Some? ==> |sys.rt.cache.value| <= 8)
    ensures var rt := After(sys, ops).rt; rt.cache.Some? ==> |rt.cache.value| <= 8
    decreases |ops|
  {
    if ops != [] {
      if ops[0].OpFinish? {
        FinishKeepsCacheSmall(sys.rt, ops[0].query, ops[0].outcome);
      }
      CacheStaysSmall(Step(sys, ops[0]), ops[1..]);
    }
  }

  /** So it is after every run whose loads are clean. */
  lemma RunKeepsCacheFresh(ops: seq<Op>)
    requires ValidRun(INITIAL, ops) && CleanRun(INITIAL, ops)
    ensures FreshCache(After(INITIAL, ops).rt)
  {
    var rt := After(INITIAL, ops).rt;
    CacheStaysSmall(INITIAL, ops);
    if rt.cache.Some? && rt.info.Some? {
      RunKeepsSound(INITIAL, ops);
      forall facts | CurrentKey(rt, facts) in rt.cache.value
        ensures rt.cache.value[CurrentKey(rt, facts)] == Fresh(rt, facts)
      {
        CacheHitIsFresh(ops, facts);
      }
    }
  }

  /** The state between two calls: the base store is sound, and what is cached is fresh. */
  ghost predicate Trusted(rt: Runtime) {
    Sound(rt) && FreshCache(rt)
  }

  /** The evaluation library: what it leaves of a store under a program, and whether it succeeded. */
  type Evaluator = (Info, Store) -> Outcome

  /** It answers every stratified program with some part of its model, and with all of it when it succeeds. */
  ghost predicate Faithful(eval: Evaluator) {
    forall info: Info, input: Store | Stratified(info.rules, info.strata) ::
      ValidOutcome(info, input, eval(info, input))
  }

  /** The analyser stratifies the program of these units, if it accepts it. */
  ghost predicate Analysed(units: seq<Unit>, strata: Option<Strata>) {
    strata.Some? ==> Stratified(Combined(units), strata.value)
  }

  /** A policy that the analyser accepts keeps it so. */
  lemma AddKeepsTrusted(rt: Runtime, unit: Unit, persistent: bool, strata: Strata, eval: Evaluator)
    requires Trusted(rt) && Faithful(eval) && Analysed(rt.units + [unit], Some(strata))
    ensures var outcome := eval(Info(Combined(rt.units + [unit]), strata), rt.base);
            Trusted(AddPolicy(rt, Parsed(unit), persistent, Some(strata), outcome))
  {
    var info := Info(Combined(rt.units + [unit]), strata);
    assert ValidOutcome(info, rt.base, eval(info, rt.base));
    AddPolicyKeepsSound(rt, unit, persistent, strata, eval(info, rt.base));
  }

  /** So does a reload, which leaves exactly the new program's model of the facts in force. */
  lemma ReloadKeepsTrusted(rt: Runtime, unit: Unit, strata: Strata, eval: Evaluator)
    requires Trusted(rt) && Faithful(eval) && Analysed([unit] + rt.persistent, Some(strata))
    ensures var info := Info(Combined([unit] + rt.persistent), strata);
            var outcome := eval(info, FilterBaseFacts(rt.base, OldIdb(rt), rt.explicit));
            var rt' := ReloadFromSource(rt, Parsed(unit), Some(strata), outcome);
            Trusted(rt') && (outcome.ok ==> rt'.base == Model(info, rt.explicit) && rt'.explicit == rt.explicit)
  {
    var info := Info(Combined([unit] + rt.persistent), strata);
    var reload := TakeFacts(rt, TakeUnits(rt, unit), strata);
    FilterKeepsExactlyExplicit(rt);
    assert ValidOutcome(info, reload.merged, eval(info, reload.merged));
    CommitKeepsSound(rt, reload, eval(info, reload.merged));
  }

  /** And a load that is clean. */
  lemma LoadKeepsTrusted(rt: Runtime, batch: seq<Option<Fact>>, eval: Evaluator)
    requires Trusted(rt) && Faithful(eval) && Clean(rt, OpLoad(batch, Outcome({}, true)))
    ensures var outcome := if rt.ready then eval(rt.info.value, rt.base + ParsedPrefix(batch))
                           else Outcome({}, true);
            Trusted(LoadFacts(rt, batch, outcome))
  {
    var outcome := if rt.ready then eval(rt.info.value, rt.base + ParsedPrefix(batch)) else Outcome({}, true);
    LoadFactsKeepsSound(rt, batch, outcome);
    var rt' := LoadFacts(rt, batch, outcome);
    if rt'.cache.Some? && rt'.info.Some? {
      assert rt'.base == rt.base;
      forall facts | CurrentKey(rt', facts) in rt'.cache.value
        ensures rt'.cache.value[CurrentKey(rt', facts)] == Fresh(rt', facts)
      {
        assert CurrentKey(rt', facts) == CurrentKey(rt, facts);
      }
    }
  }

  /** A whole query that nothing interleaves with. */
  function Queried(rt: Runtime, facts: seq<Fact>, cacheable: bool, outcome: Outcome): (Runtime, Answer) {
    var (rt1, begun) := BeginQuery(rt, facts, cacheable);
    match begun
    case NotReady => (rt1, Failed)
    case Hit(store) => (rt1, Answered(store))
    case Missed(q) => FinishQuery(rt1, q, outcome)
  }

  /** It answers what evaluation gives, and keeps the state as it was but for the cache. */
  lemma QueryKeepsTrusted(rt: Runtime, facts: seq<Fact>, cacheable: bool, outcome: Outcome)
    requires Trusted(rt)
    requires rt.info.Some? ==> ValidOutcome(rt.info.value, rt.base + Elements(facts), outcome)
    ensures var (rt', answer) := Queried(rt, facts, cacheable, outcome);
            && Trusted(rt')
            && (answer.Answered? ==> rt.info.Some? && answer.store == Fresh(rt, facts))
            && (answer.Failed? ==> rt.info.None? || !outcome.ok)
  {
    var rt' := Queried(rt, facts, cacheable, outcome).0;
    assert rt' == rt.(cache := rt'.cache);
    SoundWithoutCache(rt, rt');
    if rt.info.Some? {
      var (rt1, begun) := BeginQuery(rt, facts, cacheable);
      if begun.Missed? {
        FinishKeepsCacheSmall(rt1, begun.query, outcome);
      }
      if rt'.cache.Some? {
        forall other | CurrentKey(rt', other) in rt'.cache.value
          ensures rt'.cache.value[CurrentKey(rt', other)] == Fresh(rt', other)
        {
          assert CurrentKey(rt', other) == CurrentKey(rt, other);
        }
      }
    }
  }

  lemma SoundWithoutCache(rt: Runtime, rt': Runtime)
    requires Sound(rt) && rt' == rt.(cache := rt'.cache)
    ensures Sound(rt')
  {
  }

  /** The step puts a program in place. */
  predicate Installs(op: Op) {
    || (op.OpAdd? && op.source.Parsed? && op.strata.Some?)
    || (op.OpCommit? && op.outcome.ok)
  }

  /** A runtime has a program exactly after the first step that put one in place. */
  lemma {:induction false} ReadyExactly(sys: System, ops: seq<Op>)
    requires ValidRun(sys, ops)
    ensures After(sys, ops).rt.info.Some? <==> sys.rt.info.Some? || exists op | op in ops :: Installs(op)
    decreases |ops|
  {
    if ops != [] {
      var next, rest := Step(sys, ops[0]), ops[1..];
      ReadyExactly(next, rest);
      assert next.rt.info.Some? <==> sys.rt.info.Some? || Installs(ops[0]);
      if op :| op in ops && Installs(op) {
        assert op == ops[0] || op in rest;
      }
      if op :| op in rest && Installs(op) {
        assert op in ops;
      }
      assert ops[0] in ops;
    }
  }

  /**
    What a query answers, cacheable or not, that begins after any run whose
    loads are clean and ends after any further steps. It is turned away exactly
    if no program was ever put in place; a hit answers at once; a miss fails
    exactly if its evaluation does, and otherwise panics or answers. Every
    answer is the store that evaluation gives at the moment the query began.
  */
  lemma AnswerIsFresh(ops: seq<Op>, facts: seq<Fact>, cacheable: bool, later: seq<Op>, outcome: Outcome)
    requires ValidRun(INITIAL, ops) && CleanRun(INITIAL, ops)
    requires ValidRun(Step(After(INITIAL, ops), OpBegin(facts, cacheable)), later)
    ensures var rt := After(INITIAL, ops).rt;
            var begun := Step(After(INITIAL, ops), OpBegin(facts, cacheable));
            match BeginQuery(rt, facts, cacheable).1
            case NotReady => forall op | op in ops :: !Installs(op)
            case Hit(store) => cacheable && rt.info.Some? && store == Fresh(rt, facts)
            case Missed(q) =>
              && rt.info.Some?
              && q in begun.queries
              && (ValidOutcome(q.info, Working(q), outcome) ==>
                    match FinishQuery(After(begun, later).rt, q, outcome).1
                    case Failed => !outcome.ok
                    case Panicked => outcome.ok && cacheable && InvalidatedSince(begun, later)
                    case Answered(store) => outcome.ok && store == Fresh(rt, facts))
  {
    var sys := After(INITIAL, ops);
    RunKeepsSound(INITIAL, ops);
    ReadyExactly(INITIAL, ops);
    if BeginQuery(sys.rt, facts, cacheable).1.Hit? {
      CacheHitIsFresh(ops, facts);
    } else if outcome.ok && cacheable && BeginQuery(sys.rt, facts, cacheable).1.Missed? {
      FinishPanicsExactly(sys, facts, later, outcome);
    }
  }

  /**
    What an unclean load does: a hit under the unchanged versions is stale
    precisely when some fact of the failed batch was not already a consequence.
  */
  lemma StaleHitExactly(sys: System, batch: seq<Option<Fact>>, outcome: Outcome, facts: seq<Fact>)
    requires Coherent(sys) && SoundSystem(sys) && Enabled(sys, OpLoad(batch, outcome))
    requires sys.rt.ready && !AllParse(batch)
    requires BeginQuery(sys.rt, facts, true).1.Hit?
    ensures var rt := LoadFacts(sys.rt, batch, outcome);
            var begun := BeginQuery(rt, facts, true).1;
            begun.Hit? && (begun.store == Fresh(rt, facts) <==> ParsedPrefix(batch) <= Fresh(sys.rt, facts))
  {
    var rt := LoadFacts(sys.rt, batch, outcome);
    var info := sys.rt.info.value;
    var key := CurrentKey(sys.rt, facts);
    assert CoherentEntry(sys, key);
    assert Recorded(sys, key) == Recorded(sys, CurrentKey(sys.rt, []));
    var before, after := sys.rt.base + Elements(facts), rt.base + Elements(facts);
    EvaluateIsStable(info.rules, info.strata, before);
    ReevaluationIsExact(info.rules, info.strata, before, after);
    assert after == before + ParsedPrefix(batch);
  }

  // ----- The insert that meets a nil map ---------------------------------

  predicate Invalidates(sys: System, op: Op) {
    match op
    case OpLoad(batch, _) => sys.rt.ready && AllParse(batch)
    case OpAdd(source, _, strata, _) => source.Parsed? && strata.Some?
    case OpCommit(_, outcome) => outcome.ok
    case _ => false
  }

  predicate Refills(sys: System, op: Op) {
    op.OpBegin? && op.cacheable && sys.rt.ready && sys.rt.info.Some?
  }

  /** Some step of the run allocates the cache. */
  predicate RefilledBy(sys: System, ops: seq<Op>)
    requires ValidRun(sys, ops)
    decreases |ops|
  {
    ops != [] && (Refills(sys, ops[0]) || RefilledBy(Step(sys, ops[0]), ops[1..]))
  }

  /** Some step of the run invalidates the cache and no later one allocates it. */
  predicate InvalidatedSince(sys: System, ops: seq<Op>)
    requires ValidRun(sys, ops)
    decreases |ops|
  {
    ops != [] &&
    var next, rest := Step(sys, ops[0]), ops[1..];
    (Invalidates(sys, ops[0]) && !RefilledBy(next, rest)) || InvalidatedSince(next, rest)
  }

  lemma StepAndCache(sys: System, op: Op)
    requires Enabled(sys, op)
    ensures Step(sys, op).rt.cache.None? <==>
              Invalidates(sys, op) || (sys.rt.cache.None? && !Refills(sys, op))
  {
  }

  lemma {:induction false} CacheIsNilExactly(sys: System, ops: seq<Op>)
    requires ValidRun(sys, ops)
    ensures After(sys, ops).rt.cache.None? <==>
              InvalidatedSince(sys, ops) || (sys.rt.cache.None? && !RefilledBy(sys, ops))
    decreases |ops|
  {
    if ops != [] {
      StepAndCache(sys, ops[0]);
      CacheIsNilExactly(Step(sys, ops[0]), ops[1..]);
    }
  }

  /**
    A cacheable query that completes panics exactly when, since it began, the
    cache was invalidated and no later query has allocated it again.
  */
  lemma FinishPanicsExactly(sys: System, facts: seq<Fact>, ops: seq<Op>, outcome: Outcome)
    requires ValidRun(Step(sys, OpBegin(facts, true)), ops)
    requires BeginQuery(sys.rt, facts, true).1.Missed? && outcome.ok
    ensures var begun := Step(sys, OpBegin(facts, true));
            var q := BeginQuery(sys.rt, facts, true).1.query;
            FinishQuery(After(begun, ops).rt, q, outcome).1.Panicked? <==> InvalidatedSince(begun, ops)
  {
    CacheIsNilExactly(Step(sys, OpBegin(facts, true)), ops);
  }

  // ----- Calls as runs, and what the versions count ----------------------

  /** A reload that nothing interleaves with is a run of three steps. */
  lemma ReloadIsRun(sys: System, unit: Unit, strata: Strata, outcome: Outcome)
    requires Stratified(Combined([unit] + sys.rt.persistent), strata)
    requires var info := Info(Combined([unit] + sys.rt.persistent), strata);
             ValidOutcome(info, FilterBaseFacts(sys.rt.base, OldIdb(sys.rt), sys.rt.explicit), outcome)
    ensures var taken := TakeUnits(sys.rt, unit);
            var ops := [OpTakeUnits(unit), OpTakeFacts(taken, strata),
                        OpCommit(TakeFacts(sys.rt, taken, strata), outcome)];
            ValidRun(sys, ops) && After(sys, ops).rt == ReloadFromSource(sys.rt, Parsed(unit), Some(strata), outcome)
  {
    var taken := TakeUnits(sys.rt, unit);
    var facts := TakeFacts(sys.rt, taken, strata);
    var sys1 := Step(sys, OpTakeUnits(unit));
    var sys2 := Step(sys1, OpTakeFacts(taken, strata));
    RunOne(sys2, OpCommit(facts, outcome), []);
    RunOne(sys1, OpTakeFacts(taken, strata), [OpCommit(facts, outcome)]);
    RunOne(sys, OpTakeUnits(unit), [OpTakeFacts(taken, strata), OpCommit(facts, outcome)]);
  }

  /** A query that nothing interleaves with is a run of one step if it hits, and of two if it misses. */
  lemma QueryIsRun(sys: System, facts: seq<Fact>, cacheable: bool, outcome: Outcome)
    requires sys.rt.info.Some? ==> ValidOutcome(sys.rt.info.value, sys.rt.base + Elements(facts), outcome)
    ensures var begun := BeginQuery(sys.rt, facts, cacheable).1;
            var ops := [OpBegin(facts, cacheable)] + if begun.Missed? then [OpFinish(begun.query, outcome)] else [];
            ValidRun(sys, ops) && After(sys, ops).rt == Queried(sys.rt, facts, cacheable, outcome).0
  {
    var begun := BeginQuery(sys.rt, facts, cacheable).1;
    var sys1 := Step(sys, OpBegin(facts, cacheable));
    if begun.Missed? {
      RunOne(sys1, OpFinish(begun.query, outcome), []);
      RunOne(sys, OpBegin(facts, cacheable), [OpFinish(begun.query, outcome)]);
    } else {
      RunOne(sys, OpBegin(facts, cacheable), []);
    }
  }

  lemma RunOne(sys: System, op: Op, ops: seq<Op>)
    requires Enabled(sys, op) && ValidRun(Step(sys, op), ops)
    ensures ValidRun(sys, [op] + ops) && After(sys, [op] + ops) == After(Step(sys, op), ops)
  {
    assert ([op] + ops)[1..] == ops;
  }

  /** How many steps of a run put a program in place, and how many renewed the facts under one. */
  function Installations(sys: System, ops: seq<Op>): nat
    requires ValidRun(sys, ops)
    decreases |ops|
  {
    if ops == [] then 0
    else (if Installs(ops[0]) then 1 else 0) + Installations(Step(sys, ops[0]), ops[1..])
  }

  function Renewals(sys: System, ops: seq<Op>): nat
    requires ValidRun(sys, ops)
    decreases |ops|
  {
    if ops == [] then 0
    else
      var renews := || (ops[0].OpCommit? && ops[0].outcome.ok)
                    || (ops[0].OpLoad? && sys.rt.ready && AllParse(ops[0].batch));
      (if renews then 1 else 0) + Renewals(Step(sys, ops[0]), ops[1..])
  }

  /** The versions count exactly these. */
  lemma {:induction false} VersionsCount(sys: System, ops: seq<Op>)
    requires ValidRun(sys, ops)
    ensures var rt := After(sys, ops).rt;
            && rt.programVersion == sys.rt.programVersion + Installations(sys, ops)
            && rt.baseVersion == sys.rt.baseVersion + Renewals(sys, ops)
    decreases |ops|
  {
    if ops != [] {
      VersionsCount(Step(sys, ops[0]), ops[1..]);
    }
  }

  // ----- Which units are active ------------------------------------------

  /** A policy operation that succeeded, in the order of success. */
  datatype PolicyEvent = Added(unit: Unit, persistent: bool) | Reloaded(unit: Unit)

  function AllAdded(log: seq<PolicyEvent>): seq<Unit> {
    if log == [] then []
    else AllAdded(log[..|log| - 1]) + (var e := log[|log| - 1]; if e.Added? then [e.unit] else [])
  }

  function AllPersistent(log: seq<PolicyEvent>): seq<Unit> {
    if log == [] then []
    else AllPersistent(log[..|log| - 1]) +
         (var e := log[|log| - 1]; if e.Added? && e.persistent then [e.unit] else [])
  }

  function LastReload(log: seq<PolicyEvent>): (k: int)
    ensures -1 <= k < |log|
    ensures k >= 0 ==> log[k].Reloaded?
    ensures forall j | k < j < |log| :: log[j].Added?
  {
    if log == [] then -1
    else if log[|log| - 1].Reloaded? then |log| - 1
    else LastReload(log[..|log| - 1])
  }

  /** The last reloaded unit, the persistent units before it, and everything added since. */
  function ActiveUnits(log: seq<PolicyEvent>): seq<Unit> {
    var k := LastReload(log);
    if k < 0 then AllAdded(log)
    else [log[k].unit] + AllPersistent(log[..k]) + AllAdded(log[k + 1..])
  }

  /** Sequential use of the runtime: each call runs to its end before the next. */
  datatype Call =
    | CallLoad(batch: seq<Option<Fact>>, outcome: Outcome)
    | CallAdd(source: Source, persistent: bool, strata: Option<Strata>, outcome: Outcome)
    | CallReload(source: Source, strata: Option<Strata>, outcome: Outcome)

  function Perform(rt: Runtime, call: Call): Runtime {
    match call
    case CallLoad(batch, outcome) => LoadFacts(rt, batch, outcome)
    case CallAdd(source, persistent, strata, outcome) => AddPolicy(rt, source, persistent, strata, outcome)
    case CallReload(source, strata, outcome) => ReloadFromSource(rt, source, strata, outcome)
  }

  function Logged(call: Call): seq<PolicyEvent> {
    match call
    case CallLoad(_, _) => []
    case CallAdd(source, persistent, strata, _) =>
      if source.Parsed? && strata.Some? then [Added(source.unit, persistent)] else []
    case CallReload(source, strata, outcome) =>
      if source.Parsed? && strata.Some? && outcome.ok then [Reloaded(source.unit)] else []
  }

  function PerformAll(calls: seq<Call>): Runtime {
    if calls == [] then EMPTY_RUNTIME
    else Perform(PerformAll(calls[..|calls| - 1]), calls[|calls| - 1])
  }

  function LoggedAll(calls: seq<Call>): seq<PolicyEvent> {
    if calls == [] then [] else LoggedAll(calls[..|calls| - 1]) + Logged(calls[|calls| - 1])
  }

  lemma {:induction false} ActiveUnitsAfterAdd(log: seq<PolicyEvent>, unit: Unit, persistent: bool)
    ensures ActiveUnits(log + [Added(unit, persistent)]) == ActiveUnits(log) + [unit]
    ensures AllPersistent(log + [Added(unit, persistent)]) ==
              if persistent then AllPersistent(log) + [unit] else AllPersistent(log)
  {
    var e := Added(unit, persistent);
    var log' := log + [e];
    assert log'[..|log'| - 1] == log;
    var k := LastReload(log);
    assert LastReload(log') == k;
    if k >= 0 {
      assert log'[..k] == log[..k];
      var since := log'[k + 1..];
      assert since == log[k + 1..] + [e];
      assert since[..|since| - 1] == log[k + 1..];
    }
  }

  lemma {:induction false} ActiveUnitsAfterReload(log: seq<PolicyEvent>, unit: Unit)
    ensures ActiveUnits(log + [Reloaded(unit)]) == [unit] + AllPersistent(log)
    ensures AllPersistent(log + [Reloaded(unit)]) == AllPersistent(log)
  {
    var log' := log + [Reloaded(unit)];
    assert log'[..|log|] == log;
    assert log'[|log| + 1..] == [];
  }

  lemma PerformedUnits(rt: Runtime, call: Call)
    ensures var rt' := Perform(rt, call);
            if Logged(call) == [] then rt'.units == rt.units && rt'.persistent == rt.persistent
            else if call.CallAdd? then
              && rt'.units == rt.units + [call.source.unit]
              && rt'.persistent == if call.persistent then rt.persistent + [call.source.unit] else rt.persistent
            else rt'.units == [call.source.unit] + rt.persistent && rt'.persistent == rt.persistent
  {
  }

  /**
    After every sequence of calls, failed ones included, the rule units are
    the last reloaded one, all persistent ones, and the user ones added since.
  */
  lemma {:induction false} UnitsAreActiveUnits(calls: seq<Call>)
    ensures PerformAll(calls).units == ActiveUnits(LoggedAll(calls))
    ensures PerformAll(calls).persistent == AllPersistent(LoggedAll(calls))
  {
    if calls != [] {
      var before, call := calls[..|calls| - 1], calls[|calls| - 1];
      UnitsAreActiveUnits(before);
      PerformedUnits(PerformAll(before), call);
      var log := LoggedAll(before);
      if Logged(call) == [] {
        assert log + [] == log;
      } else if call.CallAdd? {
        ActiveUnitsAfterAdd(log, call.source.unit, call.persistent);
      } else {
        ActiveUnitsAfterReload(log, call.source.unit);
      }
    }
  }

  /** The fact stands in the batch before any string that does not parse. */
  predicate Loads(call: Call, f: Fact) {
    call.CallLoad? && exists k | 0 <= k < |call.batch| :: call.batch[k] == Some(f) && AllParse(call.batch[..k])
  }

  lemma {:induction false} ParsedPrefixExactly(batch: seq<Option<Fact>>, f: Fact)
    ensures f in ParsedPrefix(batch) <==> exists k | 0 <= k < |batch| :: batch[k] == Some(f) && AllParse(batch[..k])
  {
    if batch != [] && batch[0].Some? {
      ParsedPrefixExactly(batch[1..], f);
      if k :| 0 <= k < |batch| - 1 && batch[1..][k] == Some(f) && AllParse(batch[1..][..k]) {
        assert batch[..k + 1] == [batch[0]] + batch[1..][..k];
        assert batch[k + 1] == Some(f) && AllParse(batch[..k + 1]);
      }
      if k :| 0 <= k < |batch| && batch[k] == Some(f) && AllParse(batch[..k]) {
        if k > 0 {
          assert batch[1..][..k - 1] == batch[..k][1..];
          assert batch[1..][k - 1] == Some(f) && AllParse(batch[1..][..k - 1]);
        } else {
          assert batch[..0] == [];
        }
      }
    } else if batch != [] {
      forall k | 0 < k < |batch| ensures !AllParse(batch[..k]) {
        assert batch[..k][0] in batch[..k];
      }
    }
  }

  /** After every sequence of calls, failed ones included, the facts in force are exactly those loaded. */
  lemma {:induction false} ExplicitFactsAreLoaded(calls: seq<Call>, f: Fact)
    ensures f in PerformAll(calls).explicit <==> exists call | call in calls :: Loads(call, f)
  {
    if calls != [] {
      var before, call := calls[..|calls| - 1], calls[|calls| - 1];
      ExplicitFactsAreLoaded(before, f);
      if call.CallLoad? {
        ParsedPrefixExactly(call.batch, f);
      }
      assert f in PerformAll(calls).explicit <==> f in PerformAll(before).explicit || Loads(call, f);
      if c :| c in calls && Loads(c, f) {
        assert c == call || c in before;
      }
      if c :| c in before && Loads(c, f) {
        assert c in calls;
      }
      assert call in calls;
    }
  }

  /**
    Run concurrently, a reload forgets the facts loaded between its snapshot
    and its commit, unless the new program happens to derive them.
  */
  lemma ConcurrentLoadIsLost(rt: Runtime, unit: Unit, strata: Strata, f: Fact, outcome: Outcome, outcome': Outcome)
    requires Sound(rt) && f !in rt.explicit
    requires var reload := TakeFacts(rt, TakeUnits(rt, unit), strata);
             ValidOutcome(reload.info, reload.merged, outcome') && outcome'.ok
    ensures var reload := TakeFacts(rt, TakeUnits(rt, unit), strata);
            var loaded := LoadFacts(rt, [Some(f)], outcome);
            var rt' := Commit(loaded, reload, outcome');
            && f in loaded.explicit && f !in rt'.explicit
            && (f in rt'.base <==> f in Model(reload.info, rt.explicit))
  {
    FilterKeepsExactlyExplicit(rt);
    assert [Some(f)][0] == Some(f);
  }

  /**
    A persistent unit added between a reload's first snapshot and its commit
    is not among the active units afterwards, although it is still recorded as
    persistent and the next reload brings it back.
  */
  lemma ConcurrentPersistentIsDropped(rt: Runtime, unit: Unit, added: Unit, strata: Strata, strata': Strata,
                                      outcome: Outcome, outcome': Outcome)
    requires outcome'.ok
    ensures var taken := TakeUnits(rt, unit);
            var rt1 := AddPolicy(rt, Parsed(added), true, Some(strata), outcome);
            var rt2 := Commit(rt1, TakeFacts(rt1, taken, strata'), outcome');
            && rt1.units == rt.units + [added]
            && rt2.units == [unit] + rt.persistent
            && rt2.persistent == rt.persistent + [added]
            && forall next: Unit :: TakeUnits(rt2, next).units == [next] + rt.persistent + [added]
  {
    forall next: Unit ensures [next] + (rt.persistent + [added]) == [next] + rt.persistent + [added] {}
  }
}

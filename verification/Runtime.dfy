/**
  The policy runtime as a transition system over values.

  Every critical section of the runtime is one step, so that queries (snapshot,
  evaluate, insert) and reloads (take the units, take the facts, commit) may
  interleave with loads, policy additions and each other in any order. What
  the parser, the analyser and the evaluator answer is supplied from outside.
*/
module RuntimeModel {
  import opened Common
  import opened Datalog

  /** A parsed source unit: the rules it contributes. */
  type Unit = set<Rule>

  /** What the text of a policy turns out to be: empty, not parsing, or a unit. */
  datatype Source = Blank | Unparsed | Parsed(unit: Unit)

  /** The analysed program together with its stratification. */
  datatype Info = Info(rules: set<Rule>, strata: Strata)

  /** The cache key; the 64-bit hash of the source is taken to be injective. */
  datatype Key = Key(programVersion: nat, baseVersion: nat, facts: seq<Fact>)

  const MAX_CACHE_ENTRIES := 8

  datatype Runtime = Runtime(
    info: Option<Info>,
    units: seq<Unit>,
    persistent: seq<Unit>,
    base: Store,
    explicit: Store,
    ready: bool,
    programVersion: nat,
    baseVersion: nat,
    cache: Option<map<Key, Store>>)

  const EMPTY_RUNTIME := Runtime(None, [], [], {}, {}, false, 0, 0, None)

  /** What the evaluator left in the store it was given, and whether it ran to its end. */
  datatype Outcome = Outcome(store: Store, ok: bool)

  function Combined(units: seq<Unit>): set<Rule> {
    set i, r | 0 <= i < |units| && r in units[i] :: r
  }

  ghost function Model(info: Info, input: Store): Store {
    Evaluate(info.rules, info.strata, input)
  }

  /** An evaluation cut short (timeout, cancellation, fact limit) leaves some part of the model. */
  ghost predicate ValidOutcome(info: Info, input: Store, outcome: Outcome) {
    && input <= outcome.store <= Model(info, input)
    && (outcome.ok ==> outcome.store == Model(info, input))
  }

  function Elements(facts: seq<Fact>): Store {
    set f | f in facts
  }

  // ----- Loading facts and policies --------------------------------------

  predicate AllParse(batch: seq<Option<Fact>>) {
    forall f | f in batch :: f.Some?
  }

  /** The facts that are added before the first string that does not parse. */
  function ParsedPrefix(batch: seq<Option<Fact>>): Store {
    if batch == [] || batch[0].None? then {}
    else {batch[0].value} + ParsedPrefix(batch[1..])
  }

  function LoadFacts(rt: Runtime, batch: seq<Option<Fact>>, outcome: Outcome): Runtime {
    var loaded := ParsedPrefix(batch);
    var added := rt.(base := rt.base + loaded, explicit := rt.explicit + loaded);
    if !AllParse(batch) || !rt.ready then added
    else added.(baseVersion := rt.baseVersion + 1, cache := None, base := outcome.store)
  }

  function AddPolicy(rt: Runtime, source: Source, persistent: bool, strata: Option<Strata>,
                     outcome: Outcome): Runtime
  {
    if !source.Parsed? || strata.None? then rt
    else
      var units := rt.units + [source.unit];
      var info := Info(Combined(units), strata.value);
      rt.(info := Some(info),
          units := units,
          persistent := if persistent then rt.persistent + [source.unit] else rt.persistent,
          base := outcome.store,
          ready := true,
          programVersion := rt.programVersion + 1,
          cache := None)
  }

  // ----- Reload ----------------------------------------------------------

  /** A reload in flight, after its first and after its second snapshot. */
  datatype Reload =
    | UnitsTaken(units: seq<Unit>)
    | FactsTaken(units: seq<Unit>, info: Info, explicit: Store, merged: Store)

  /** Drops facts of predicates the old program derives, unless loaded explicitly. */
  function FilterBaseFacts(store: Store, oldIdb: Option<set<PredicateSym>>, explicit: Store): Store {
    set f | f in store && (oldIdb.Some? && f.pred in oldIdb.value ==> f in explicit)
  }

  function OldIdb(rt: Runtime): Option<set<PredicateSym>> {
    if rt.info.None? then None else Some(Idb(rt.info.value.rules))
  }

  function TakeUnits(rt: Runtime, unit: Unit): Reload {
    UnitsTaken([unit] + rt.persistent)
  }

  function TakeFacts(rt: Runtime, reload: Reload, strata: Strata): Reload {
    FactsTaken(reload.units, Info(Combined(reload.units), strata), rt.explicit,
               FilterBaseFacts(rt.base, OldIdb(rt), rt.explicit))
  }

  function Commit(rt: Runtime, reload: Reload, outcome: Outcome): Runtime
    requires reload.FactsTaken?
  {
    if !outcome.ok then rt
    else rt.(
        info := Some(reload.info),
        units := reload.units,
        base := outcome.store,
        explicit := reload.explicit,
        ready := true,
        programVersion := rt.programVersion + 1,
        baseVersion := rt.baseVersion + 1,
        cache := None)
  }

  /** A reload that nothing interleaves with. */
  function ReloadFromSource(rt: Runtime, source: Source, strata: Option<Strata>, outcome: Outcome): Runtime {
    if !source.Parsed? || strata.None? then rt
    else Commit(rt, TakeFacts(rt, TakeUnits(rt, source.unit), strata.value), outcome)
  }

  // ----- Queries ---------------------------------------------------------

  /** A query that missed the cache: what it read under the lock. */
  datatype Query = Query(key: Key, info: Info, base: Store, cacheable: bool)

  datatype Begun = NotReady | Hit(store: Store) | Missed(query: Query)

  datatype Answer = Failed | Panicked | Answered(store: Store)

  function CurrentKey(rt: Runtime, facts: seq<Fact>): Key {
    Key(rt.programVersion, rt.baseVersion, facts)
  }

  function BeginQuery(rt: Runtime, facts: seq<Fact>, cacheable: bool): (Runtime, Begun) {
    if !rt.ready || rt.info.None? then (rt, NotReady)
    else
      var key := CurrentKey(rt, facts);
      var missed := Missed(Query(key, rt.info.value, rt.base, cacheable));
      if !cacheable then (rt, missed)
      else
        var entries := GetOr(rt.cache, map[]);
        (rt.(cache := Some(entries)), if key in entries then Hit(entries[key]) else missed)
  }

  function Working(q: Query): Store {
    q.base + Elements(q.key.facts)
  }

  /** Evaluate the snapshot and publish the store; writing to a nil map panics. */
  function FinishQuery(rt: Runtime, q: Query, outcome: Outcome): (Runtime, Answer) {
    if !outcome.ok then (rt, Failed)
    else if !q.cacheable then (rt, Answered(outcome.store))
    else if rt.cache.None? then (rt, Panicked)
    else
      var entries := if |rt.cache.value| >= MAX_CACHE_ENTRIES then map[] else rt.cache.value;
      (rt.(cache := Some(entries[q.key := outcome.store])), Answered(outcome.store))
  }

  // ----- Runs ------------------------------------------------------------

  datatype Snapshot = Snapshot(info: Info, base: Store)

  /**
    The runtime, the queries and reloads begun so far, and an auxiliary record
    of the first program and base store seen under each pair of versions.
  */
  datatype System = System(
    rt: Runtime,
    queries: set<Query>,
    reloads: set<Reload>,
    history: map<(nat, nat), Snapshot>)

  const INITIAL := System(EMPTY_RUNTIME, {}, {}, map[])

  datatype Op =
    | OpLoad(batch: seq<Option<Fact>>, outcome: Outcome)
    | OpAdd(source: Source, persistent: bool, strata: Option<Strata>, outcome: Outcome)
    | OpTakeUnits(newUnit: Unit)
    | OpTakeFacts(reload: Reload, newStrata: Strata)
    | OpCommit(reload: Reload, outcome: Outcome)
    | OpBegin(facts: seq<Fact>, cacheable: bool)
    | OpFinish(query: Query, outcome: Outcome)

  /** What the analyser and the evaluator may answer, and which steps are open. */
  ghost predicate Enabled(sys: System, op: Op) {
    match op
    case OpLoad(batch, outcome) =>
      AllParse(batch) && sys.rt.info.Some? ==>
        ValidOutcome(sys.rt.info.value, sys.rt.base + ParsedPrefix(batch), outcome)
    case OpAdd(source, _, strata, outcome) =>
      source.Parsed? && strata.Some? ==>
        var rules := Combined(sys.rt.units + [source.unit]);
        Stratified(rules, strata.value) && ValidOutcome(Info(rules, strata.value), sys.rt.base, outcome)
    case OpTakeUnits(_) => true
    case OpTakeFacts(reload, strata) =>
      reload in sys.reloads && reload.UnitsTaken? && Stratified(Combined(reload.units), strata)
    case OpCommit(reload, outcome) =>
      reload in sys.reloads && reload.FactsTaken? && ValidOutcome(reload.info, reload.merged, outcome)
    case OpBegin(_, _) => true
    case OpFinish(query, outcome) =>
      query in sys.queries && ValidOutcome(query.info, Working(query), outcome)
  }

  function Record(sys: System, rt: Runtime): System {
    var versions := (rt.programVersion, rt.baseVersion);
    sys.(rt := rt,
         history := if rt.info.None? || versions in sys.history then sys.history
                    else sys.history[versions := Snapshot(rt.info.value, rt.base)])
  }

  function Step(sys: System, op: Op): System
    requires Enabled(sys, op)
  {
    match op
    case OpLoad(batch, outcome) => Record(sys, LoadFacts(sys.rt, batch, outcome))
    case OpAdd(source, persistent, strata, outcome) =>
      Record(sys, AddPolicy(sys.rt, source, persistent, strata, outcome))
    case OpTakeUnits(unit) => sys.(reloads := sys.reloads + {TakeUnits(sys.rt, unit)})
    case OpTakeFacts(reload, strata) => sys.(reloads := sys.reloads + {TakeFacts(sys.rt, reload, strata)})
    case OpCommit(reload, outcome) => Record(sys, Commit(sys.rt, reload, outcome))
    case OpBegin(facts, cacheable) =>
      var (rt, begun) := BeginQuery(sys.rt, facts, cacheable);
      sys.(rt := rt, queries := sys.queries + if begun.Missed? then {begun.query} else {})
    case OpFinish(query, outcome) => sys.(rt := FinishQuery(sys.rt, query, outcome).0)
  }

  ghost predicate ValidRun(sys: System, ops: seq<Op>)
    decreases |ops|
  {
    ops == [] || (Enabled(sys, ops[0]) && ValidRun(Step(sys, ops[0]), ops[1..]))
  }

  function After(sys: System, ops: seq<Op>): System
    requires ValidRun(sys, ops)
    decreases |ops|
  {
    if ops == [] then sys else After(Step(sys, ops[0]), ops[1..])
  }
}

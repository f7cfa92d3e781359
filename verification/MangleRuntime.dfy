/** The runtime itself, whose methods are proved to take the steps of the model. */
module MangleRuntime {
  import opened Common
  import opened Datalog
  import opened RuntimeModel
  import opened RuntimeProofs

  /** Copies a store predicate by predicate, as the reload filter does. */
  method FilterStore(store: Store, oldIdb: Option<set<PredicateSym>>, explicit: Store) returns (out: Store)
    ensures out == FilterBaseFacts(store, oldIdb, explicit)
  {
    if oldIdb.None? {
      return store;
    }
    out := {};
    var syms := set f | f in store :: f.pred;
    while syms != {}
      invariant syms <= set f | f in store :: f.pred
      invariant out == set f | f in FilterBaseFacts(store, oldIdb, explicit) && f.pred !in syms
      decreases syms
    {
      var sym :| sym in syms;
      var facts := set f | f in store && f.pred == sym;
      ghost var done := out;
      while facts != {}
        invariant facts <= set f | f in store && f.pred == sym
        invariant out == done + set f | f in FilterBaseFacts(store, oldIdb, explicit) && f.pred == sym && f !in facts
        decreases facts
      {
        var f :| f in facts;
        if sym !in oldIdb.value || f in explicit {
          out := out + {f};
        }
        facts := facts - {f};
      }
      syms := syms - {sym};
    }
  }

  class MangleRuntime {
    var info: Option<Info>
    var units: seq<Unit>
    var persistent: seq<Unit>
    var base: Store
    var explicit: Store
    var ready: bool
    var programVersion: nat
    var baseVersion: nat
    var cache: Option<map<Key, Store>>

    ghost function View(): Runtime
      reads this
    {
      Runtime(info, units, persistent, base, explicit, ready, programVersion, baseVersion, cache)
    }

    constructor ()
      ensures View() == EMPTY_RUNTIME
    {
      info, units, persistent, base, explicit := None, [], [], {}, {};
      ready, programVersion, baseVersion, cache := false, 0, 0, None;
    }

    /** Adds facts up to the first string that does not parse. */
    method AddBatch(batch: seq<Option<Fact>>) returns (ok: bool)
      modifies this`base, this`explicit
      ensures ok == AllParse(batch)
      ensures base == old(base) + ParsedPrefix(batch) && explicit == old(explicit) + ParsedPrefix(batch)
    {
      var i := 0;
      while i < |batch|
        invariant 0 <= i <= |batch|
        invariant AllParse(batch[..i])
        invariant base + ParsedPrefix(batch[i..]) == old(base) + ParsedPrefix(batch)
        invariant explicit + ParsedPrefix(batch[i..]) == old(explicit) + ParsedPrefix(batch)
      {
        assert batch[i..][0] == batch[i] && batch[i..][1..] == batch[i + 1..];
        if batch[i].None? {
          assert batch[i] in batch;
          return false;
        }
        base := base + {batch[i].value};
        explicit := explicit + {batch[i].value};
        i := i + 1;
      }
      assert batch[..i] == batch && batch[i..] == [];
      ok := true;
    }

    /** Adds the batch, then re-evaluates the base store in place. */
    method LoadFacts(batch: seq<Option<Fact>>, eval: Evaluator) returns (ok: bool)
      requires ready ==> info.Some?
      modifies this
      ensures var outcome := if old(ready) then eval(old(info).value, old(base) + ParsedPrefix(batch))
                             else Outcome({}, true);
              && View() == RuntimeModel.LoadFacts(old(View()), batch, outcome)
              && ok == (AllParse(batch) && outcome.ok)
    {
      ok := AddBatch(batch);
      if ok && ready {
        baseVersion := baseVersion + 1;
        cache := None;
        var outcome := eval(info.value, base);
        base, ok := outcome.store, outcome.ok;
      }
    }

    /** An empty source is no error and changes nothing. */
    method AddPolicy(source: Source, isPersistent: bool, strata: Option<Strata>, eval: Evaluator) returns (ok: bool)
      modifies this
      ensures !source.Parsed? || strata.None? ==> View() == old(View()) && ok == source.Blank?
      ensures source.Parsed? && strata.Some? ==>
                var outcome := eval(Info(Combined(old(units) + [source.unit]), strata.value), old(base));
                View() == RuntimeModel.AddPolicy(old(View()), source, isPersistent, strata, outcome) && ok == outcome.ok
    {
      if source.Blank? {
        return true;
      }
      if source.Unparsed? || strata.None? {
        return false;
      }
      units := units + [source.unit];
      if isPersistent {
        persistent := persistent + [source.unit];
      }
      info := Some(Info(Combined(units), strata.value));
      ready := true;
      programVersion := programVersion + 1;
      cache := None;
      var outcome := eval(info.value, base);
      base, ok := outcome.store, outcome.ok;
    }

    /** Builds and validates everything on the side and swaps it in only when nothing failed. */
    method ReloadFromSource(source: Source, strata: Option<Strata>, eval: Evaluator) returns (ok: bool)
      modifies this
      ensures !ok ==> View() == old(View())
      ensures !source.Parsed? || strata.None? ==> !ok
      ensures source.Parsed? && strata.Some? ==>
                var outcome := eval(Info(Combined([source.unit] + old(persistent)), strata.value),
                                    FilterBaseFacts(old(base), OldIdb(old(View())), old(explicit)));
                View() == RuntimeModel.ReloadFromSource(old(View()), source, strata, outcome) && ok == outcome.ok
    {
      if !source.Parsed? || strata.None? {
        return false;
      }
      var newUnits := [source.unit] + persistent;
      var newInfo := Info(Combined(newUnits), strata.value);
      var oldIdb := if info.None? then None else Some(Idb(info.value.rules));
      var snapshot := explicit;
      var merged := FilterStore(base, oldIdb, snapshot);
      var outcome := eval(newInfo, merged);
      if !outcome.ok {
        return false;
      }
      units, info, base, explicit := newUnits, Some(newInfo), outcome.store, snapshot;
      ready, programVersion, baseVersion, cache := true, programVersion + 1, baseVersion + 1, None;
      ok := true;
    }

    /**
      A query that nothing interleaves with; its insert never meets a nil map.
      From a trusted state, hit or miss, cacheable or not, it answers the store
      that evaluation gives; it fails exactly if there is no program or its own
      evaluation fails, and only a cacheable one touches anything, the cache.
    */
    method EvaluatedWorkingStore(facts: seq<Fact>, cacheable: bool, eval: Evaluator) returns (answer: Answer)
      modifies this
      ensures !answer.Panicked?
      ensures var outcome := if old(info).Some? then eval(old(info).value, old(base) + Elements(facts))
                             else Outcome({}, false);
              && (View(), answer) == Queried(old(View()), facts, cacheable, outcome)
              && (Trusted(old(View())) && Faithful(eval) ==>
                    && Trusted(View())
                    && (answer.Answered? ==> old(info).Some? && answer.store == Fresh(old(View()), facts))
                    && (answer.Failed? ==> !outcome.ok))
      ensures View() == old(View()).(cache := cache) && (!cacheable ==> cache == old(cache))
    {
      if Trusted(View()) && Faithful(eval) {
        QueryKeepsTrusted(View(), facts, cacheable,
          if info.Some? then eval(info.value, base + Elements(facts)) else Outcome({}, false));
      }
      if !ready || info.None? {
        return Failed;
      }
      var key := Key(programVersion, baseVersion, facts);
      if cacheable {
        if cache.None? {
          cache := Some(map[]);
        }
        if key in cache.value {
          return Answered(cache.value[key]);
        }
      }
      var working := base;
      for i := 0 to |facts|
        invariant working == base + Elements(facts[..i])
      {
        working := working + {facts[i]};
      }
      assert facts[..|facts|] == facts;
      var outcome := eval(info.value, working);
      if !outcome.ok {
        return Failed;
      }
      if cacheable {
        if |cache.value| >= MAX_CACHE_ENTRIES {
          cache := Some(map[]);
        }
        cache := Some(cache.value[key := outcome.store]);
      }
      answer := Answered(outcome.store);
    }
  }
}

/** The gate as the engine and the supervisor run it. */
module Gate {
  import opened Common
  import opened GateModel
  import opened GateProofs

  method CollectTiered(solutions: seq<Solution>) returns (matches: seq<Match>)
    ensures matches == TieredMatches(solutions)
  {
    matches := [];
    for i := 0 to |solutions|
      invariant matches == TieredMatches(solutions[..i])
    {
      assert solutions[..i + 1][..i] == solutions[..i];
      var s := solutions[i];
      if s.reason.Some? {
        var tier := if s.tier.Some? then s.tier.value else "";
        if tier == "" {
          tier := UNKNOWN;
        }
        matches := matches + [Match(s.reason.value, tier)];
      }
    }
    assert solutions[..|solutions|] == solutions;
  }

  method CollectPlain(reasons: seq<Option<string>>) returns (matches: seq<Match>)
    ensures matches == PlainMatches(reasons)
  {
    matches := [];
    for i := 0 to |reasons|
      invariant matches == PlainMatches(reasons[..i])
    {
      assert reasons[..i + 1][..i] == reasons[..i];
      if reasons[i].Some? {
        matches := matches + [Match(reasons[i].value, UNKNOWN)];
      }
    }
    assert reasons[..|reasons|] == reasons;
  }

  method PickBest(matches: seq<Match>) returns (best: Match)
    requires matches != []
    ensures best == Best(matches)
  {
    best := matches[0];
    for i := 1 to |matches|
      invariant best == Best(matches[..i])
    {
      assert matches[..i + 1][..i] == matches[..i];
      if TierPriority(matches[i].tier) < TierPriority(best.tier) {
        best := matches[i];
      }
    }
    assert matches[..|matches|] == matches;
  }

  method EvaluateGateWithTrail(entity: string, a: Answers) returns (r: GateResult)
    ensures r == Gate(entity, a)
  {
    if !a.ready {
      return GateResult(None, Some(Alignment("policy engine not initialized: fail-closed", "", "")));
    }
    if !a.converted {
      return GateResult(None, Some(EngineFailure));
    }
    var matches := CollectTiered(a.halt3);
    if matches == [] {
      if a.halt2.None? {
        return GateResult(None, Some(EngineFailure));
      }
      matches := CollectPlain(a.halt2.value);
    }
    if matches != [] {
      var best := PickBest(matches);
      return GateResult(Some(Rules(entity, matches)), Some(Alignment(best.reason, a.ruleID, best.tier)));
    }
    if a.halt1.None? {
      return GateResult(None, Some(EngineFailure));
    }
    if a.halt1.value {
      return GateResult(None, Some(Alignment(a.message, a.ruleID, UNKNOWN)));
    }
    return GateResult(None, None);
  }

  method ViolationTierFromDecision(trail: Option<seq<Rule>>) returns (tier: TrustTier)
    ensures tier == ViolationTier(trail)
  {
    if trail.None? {
      return Tier1Admin;
    }
    var rules := trail.value;
    var severe := "";
    for i := 0 to |rules|
      invariant severe == MostSevere(rules[..i])
    {
      assert rules[..i + 1][..i] == rules[..i];
      var t := rules[i].tier;
      if t == "" {
        continue;
      }
      if severe == "" || TierSeverity(t) < TierSeverity(severe) {
        severe := t;
      }
    }
    assert rules[..|rules|] == rules;
    tier := MapCoreTier(severe);
  }

  method PolicyViolationFromResult(result: AuditResult) returns (tier: string, rule: string)
    ensures Reported(result, tier, rule)
  {
    tier, rule := CoreTierName(result.tier), "";
    if result.trail.None? {
      return;
    }
    var rules := result.trail.value;
    for i := 0 to |rules|
      invariant forall j | 0 <= j < i :: !Responsible(result, rules[j])
    {
      if rules[i].definition != "" && rules[i].tier != "" && MapCoreTier(rules[i].tier) == result.tier {
        assert FirstResponsible(result, rules, i);
        return rules[i].tier, rules[i].definition;
      }
    }
    for i := 0 to |rules|
      invariant forall j | 0 <= j < i :: rules[j].definition == ""
    {
      if rules[i].definition != "" {
        assert FirstDefined(rules, i);
        return CoreTierName(result.tier), rules[i].definition;
      }
    }
  }

  /**
    Pre-check, action, post-check; `ran` says whether the action was reached.
    Its output is returned exactly if both checks let it through.
  */
  method ExecuteInternal<T>(r: Request<T>) returns (ending: Ending<T>, ran: bool)
    ensures ran <==> Entered(r)
    ensures ending.InnerFailed? <==> ran && r.inner.None?
    ensures ending.Returned? <==> ran && r.inner.Some? && Released(r)
    ensures ending.Returned? ==> ending.value == r.inner.value
    ensures ending == SupervisorError <==>
              PreVerdict(r).Broken? || (ran && r.inner.Some? && PostVerdict(r) == Some(Broken))
    ensures ending.PolicyViolation? ==>
              var verdict := if ran then GetOr(PostVerdict(r), Broken) else PreVerdict(r);
              verdict.Verified? && Reported(verdict.result, ending.tier, ending.rule)
  {
    OutputIsLetThroughExactly(r);
    ran := false;
    var verdict := VerifyAtoms(r.context, r.inAtoms, r.before);
    if verdict.Broken? {
      return SupervisorError, false;
    }
    if !verdict.result.pass && Blocking(verdict.result.tier) {
      var tier, rule := PolicyViolationFromResult(verdict.result);
      return PolicyViolation(tier, rule), false;
    }
    ran := true;
    if r.inner.None? {
      return InnerFailed, true;
    }
    if r.context.Some? {
      var post := VerifyAtoms(Some(PostContext(r.context.value)), r.outAtoms, r.after);
      if post.Broken? {
        return SupervisorError, true;
      }
      if !post.result.pass && Blocking(post.result.tier) {
        var tier, rule := PolicyViolationFromResult(post.result);
        return PolicyViolation(tier, rule), true;
      }
    }
    ending := Returned(r.inner.value);
  }
}

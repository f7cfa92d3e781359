/** When each gate blocks, and when the two agree. */
module GateProofs {
  import opened Common
  import opened GateModel

  function TiersOf(matches: seq<Match>): set<string> {
    set m | m in matches :: m.tier
  }

  // ----- Choosing among matches ------------------------------------------

  predicate FirstOfHighest(matches: seq<Match>, k: nat)
    requires k < |matches|
  {
    && (forall j | 0 <= j < |matches| :: TierPriority(matches[k].tier) <= TierPriority(matches[j].tier))
    && (forall j | 0 <= j < k :: TierPriority(matches[k].tier) < TierPriority(matches[j].tier))
  }

  /** The best match is the first whose tier no other match outranks. */
  lemma {:induction false} BestIsFirstOfHighest(matches: seq<Match>) returns (k: nat)
    requires matches != []
    ensures k < |matches| && Best(matches) == matches[k] && FirstOfHighest(matches, k)
  {
    var n := |matches| - 1;
    k := n;
    if n > 0 {
      var front := matches[..n];
      var b := BestIsFirstOfHighest(front);
      assert forall j | 0 <= j < n :: front[j] == matches[j];
      assert forall j | 0 <= j < n :: TierPriority(front[b].tier) <= TierPriority(matches[j].tier);
      if TierPriority(matches[n].tier) >= TierPriority(front[b].tier) {
        k := b;
      }
    }
  }

  lemma BestOutranks(matches: seq<Match>)
    requires matches != []
    ensures Best(matches).tier in TiersOf(matches)
    ensures forall t | t in TiersOf(matches) :: TierPriority(Best(matches).tier) <= TierPriority(t)
  {
    var k := BestIsFirstOfHighest(matches);
    assert matches[k] in matches;
  }

  /** The most severe tier is the tier of some rule, and no rule with a tier is more severe. */
  lemma {:induction false} MostSevereOutranks(rules: seq<Rule>)
    ensures MostSevere(rules) == "" <==> forall r | r in rules :: r.tier == ""
    ensures MostSevere(rules) != "" ==> exists r | r in rules :: r.tier == MostSevere(rules)
    ensures forall r | r in rules && r.tier != "" :: TierSeverity(MostSevere(rules)) <= TierSeverity(r.tier)
  {
    if rules != [] {
      var n := |rules| - 1;
      MostSevereOutranks(rules[..n]);
      assert rules == rules[..n] + [rules[n]];
      assert rules[n] in rules;
    }
  }

  // ----- Where matches come from -----------------------------------------

  lemma {:induction false} TieredMatchesHaveTiers(solutions: seq<Solution>)
    ensures forall m | m in TieredMatches(solutions) :: m.tier != ""
  {
    if solutions != [] {
      TieredMatchesHaveTiers(solutions[..|solutions| - 1]);
    }
  }

  lemma {:induction false} PlainMatchesAreUnknown(reasons: seq<Option<string>>)
    ensures forall m | m in PlainMatches(reasons) :: m.tier == UNKNOWN
  {
    if reasons != [] {
      PlainMatchesAreUnknown(reasons[..|reasons| - 1]);
    }
  }

  lemma RulesHaveTheTiers(entity: string, matches: seq<Match>)
    ensures forall t :: t in TiersOf(matches) <==> exists r | r in Rules(entity, matches) :: r.tier == t
  {
    var rules := Rules(entity, matches);
    forall t ensures t in TiersOf(matches) <==> exists r | r in rules :: r.tier == t {
      if t in TiersOf(matches) {
        var m :| m in matches && m.tier == t;
        var i :| 0 <= i < |matches| && matches[i] == m;
        assert rules[i] in rules && rules[i].tier == t;
      }
      if r :| r in rules && r.tier == t {
        var i :| 0 <= i < |rules| && rules[i] == r;
        assert matches[i] in matches;
      }
    }
  }

  /** A halt keeps the tier its solution gives it, and is of unknown tier exactly if that is missing or empty. */
  predicate TierIs(given: Option<string>, tier: string) {
    if given in {None, Some("")} then tier == UNKNOWN else given == Some(tier)
  }

  /** `at` holds, in order, the positions of the solutions with a reason; each gives the match listed for it. */
  predicate Lists(solutions: seq<Solution>, matches: seq<Match>, at: seq<nat>) {
    && |at| == |matches|
    && (forall i, j | 0 <= i < j < |at| :: at[i] < at[j])
    && (forall k | 0 <= k < |solutions| :: solutions[k].reason.Some? <==> k in at)
    && (forall i | 0 <= i < |at| :: at[i] < |solutions| && IsMatch(solutions[at[i]], matches[i]))
  }

  predicate IsMatch(s: Solution, m: Match) {
    s.reason == Some(m.reason) && TierIs(s.tier, m.tier)
  }

  /** The collected halts are the solutions with a reason, all of them, in order, with reason and tier kept. */
  lemma {:induction false} TieredMatchesAreListed(solutions: seq<Solution>) returns (at: seq<nat>)
    ensures Lists(solutions, TieredMatches(solutions), at)
  {
    at := [];
    if solutions != [] {
      var n := |solutions| - 1;
      var before := TieredMatchesAreListed(solutions[..n]);
      at := before + if solutions[n].reason.Some? then [n] else [];
      ListOneMore(solutions[..n], TieredMatches(solutions[..n]), before, solutions[n], TieredMatch(solutions[n]));
      assert solutions == solutions[..n] + [solutions[n]];
    }
  }

  lemma ListOneMore(front: seq<Solution>, matches: seq<Match>, at: seq<nat>, s: Solution, found: seq<Match>)
    requires Lists(front, matches, at)
    requires if s.reason.Some? then |found| == 1 && IsMatch(s, found[0]) else found == []
    ensures Lists(front + [s], matches + found, at + if s.reason.Some? then [|front|] else [])
  {
    var solutions, all := front + [s], at + if s.reason.Some? then [|front|] else [];
    forall k | 0 <= k < |solutions| ensures solutions[k].reason.Some? <==> k in all {
      assert k in all <==> k in at || (k == |front| && s.reason.Some?);
      assert k in at ==> k < |front|;
    }
    forall i | 0 <= i < |all| ensures all[i] < |solutions| && IsMatch(solutions[all[i]], (matches + found)[i]) {
      if i < |at| {
        assert IsMatch(front[at[i]], matches[i]);
      }
    }
  }

  /** Two-place halts are collected like three-place ones without a tier. */
  lemma {:induction false} PlainMatchesAreUntiered(reasons: seq<Option<string>>)
    ensures PlainMatches(reasons) == TieredMatches(Untiered(reasons))
  {
    if reasons != [] {
      var n := |reasons| - 1;
      PlainMatchesAreUntiered(reasons[..n]);
      assert Untiered(reasons)[..n] == Untiered(reasons[..n]);
    }
  }

  function Untiered(reasons: seq<Option<string>>): seq<Solution> {
    seq(|reasons|, i requires 0 <= i < |reasons| => Solution(reasons[i], None))
  }

  // ----- What blocks -----------------------------------------------------

  /** The tiers of the three-place halts, as given. */
  function GivenTiers(a: Answers): set<Option<string>> {
    set s | s in a.halt3 && s.reason.Some? :: s.tier
  }

  /** There are two-place halts, and no three-place ones that would take their place. */
  predicate HaltedPlainly(a: Answers) {
    GivenTiers(a) == {} && a.halt2.Some? && exists r | r in a.halt2.value :: r.Some?
  }

  /** The engine could not be asked, or failed at a question that decides. */
  predicate Unanswered(a: Answers) {
    || !a.ready || !a.converted
    || (GivenTiers(a) == {} && (a.halt2.None? || (!HaltedPlainly(a) && a.halt1.None?)))
  }

  /** Only the one-place halt holds. */
  predicate PlainlyDenied(a: Answers) {
    GivenTiers(a) == {} && !HaltedPlainly(a) && a.halt1 == Some(true)
  }

  predicate Known(t: Option<string>) {
    t == Some(T0) || t == Some(T1) || t == Some(T2) || t == Some(T3)
  }

  /** Advisory halts are those of the playbook and user tiers. */
  predicate Advisory(t: Option<string>) {
    t == Some(T2) || t == Some(T3)
  }

  /** All three-place halts, if any, are of unknown tiers. */
  predicate NoneKnown(a: Answers) {
    forall t | t in GivenTiers(a) :: !Known(t)
  }

  /** No answer, a plain denial, or a halt that is not advisory. */
  predicate Stopped(a: Answers) {
    Unanswered(a) || PlainlyDenied(a) || HaltedPlainly(a) || exists t | t in GivenTiers(a) :: !Advisory(t)
  }

  /** No answer, a plain denial, a halt of T0 or T1, or halts of unknown tiers only. */
  predicate Withheld(a: Answers) {
    || Unanswered(a) || PlainlyDenied(a) || HaltedPlainly(a)
    || Some(T0) in GivenTiers(a) || Some(T1) in GivenTiers(a)
    || (GivenTiers(a) != {} && NoneKnown(a))
  }

  /** The halts a gate goes by, as it collects them: the three-place ones, or else the two-place ones. */
  function Halts(a: Answers): seq<Match> {
    if TieredMatches(a.halt3) != [] then TieredMatches(a.halt3)
    else if a.halt2.Some? then PlainMatches(a.halt2.value)
    else []
  }

  lemma ListedMatch(solutions: seq<Solution>, m: Match)
    ensures m in TieredMatches(solutions) <==> exists s | s in solutions :: IsMatch(s, m)
  {
    var matches := TieredMatches(solutions);
    var at := TieredMatchesAreListed(solutions);
    if i :| 0 <= i < |matches| && matches[i] == m {
      assert solutions[at[i]] in solutions && IsMatch(solutions[at[i]], m);
    }
    if s :| s in solutions && IsMatch(s, m) {
      var k :| 0 <= k < |solutions| && solutions[k] == s;
      MatchIsListed(solutions, matches, at, k, m);
    }
  }

  lemma MatchIsListed(solutions: seq<Solution>, matches: seq<Match>, at: seq<nat>, k: nat, m: Match)
    requires Lists(solutions, matches, at) && k < |solutions| && IsMatch(solutions[k], m)
    ensures m in matches
  {
    var i :| 0 <= i < |at| && at[i] == k;
    assert IsMatch(solutions[k], matches[i]) && matches[i] == m;
  }

  function MatchOf(s: Solution): (m: Match)
    requires s.reason.Some?
    ensures IsMatch(s, m)
  {
    Match(s.reason.value, if s.tier in {None, Some("")} then UNKNOWN else s.tier.value)
  }

  /** Every three-place solution with a reason is collected, and nothing else is. */
  lemma CollectedExactly(a: Answers)
    ensures TieredMatches(a.halt3) == [] <==> GivenTiers(a) == {}
  {
    var matches := TieredMatches(a.halt3);
    if matches != [] {
      assert matches[0] in matches;
      ListedMatch(a.halt3, matches[0]);
      var s :| s in a.halt3 && IsMatch(s, matches[0]);
      assert s.tier in GivenTiers(a);
    }
    if t :| t in GivenTiers(a) {
      var s :| s in a.halt3 && s.reason.Some?;
      ListedMatch(a.halt3, MatchOf(s));
    }
  }

  lemma KnownTierIsGiven(a: Answers, t: string)
    requires Known(Some(t))
    ensures t in TiersOf(TieredMatches(a.halt3)) <==> Some(t) in GivenTiers(a)
  {
    if t in TiersOf(TieredMatches(a.halt3)) {
      var m :| m in TieredMatches(a.halt3) && m.tier == t;
      ListedMatch(a.halt3, m);
      var s :| s in a.halt3 && IsMatch(s, m);
    }
    if Some(t) in GivenTiers(a) {
      var s :| s in a.halt3 && s.reason.Some? && s.tier == Some(t);
      ListedMatch(a.halt3, MatchOf(s));
      assert MatchOf(s).tier == t;
    }
  }

  lemma PlainCollectedExactly(reasons: seq<Option<string>>)
    ensures PlainMatches(reasons) != [] <==> exists r | r in reasons :: r.Some?
  {
    PlainMatchesAreUntiered(reasons);
    var solutions := Untiered(reasons);
    var at := TieredMatchesAreListed(solutions);
    if r :| r in reasons && r.Some? {
      var k :| 0 <= k < |reasons| && reasons[k] == r;
      assert solutions[k].reason.Some? && k in at;
    }
    if PlainMatches(reasons) != [] {
      assert at[0] in at && solutions[at[0]].reason.Some? && reasons[at[0]] in reasons;
    }
  }

  lemma HaltsHaveTiers(a: Answers)
    ensures forall m | m in Halts(a) :: m.tier != ""
  {
    TieredMatchesHaveTiers(a.halt3);
    if a.halt2.Some? { PlainMatchesAreUnknown(a.halt2.value); }
  }

  /** The tiers the gate compares are those given, or unknown ones. */
  lemma TiersOfHalts(a: Answers)
    ensures Halts(a) != [] <==> GivenTiers(a) != {} || HaltedPlainly(a)
    ensures forall t | Known(Some(t)) :: t in TiersOf(Halts(a)) <==> Some(t) in GivenTiers(a)
    ensures (exists t | t in TiersOf(Halts(a)) :: !Known(Some(t))) <==>
              HaltedPlainly(a) || exists t | t in GivenTiers(a) :: !Known(t)
  {
    CollectedExactly(a);
    if a.halt2.Some? {
      PlainCollectedExactly(a.halt2.value);
    }
    if GivenTiers(a) != {} {
      UnknownTiers(a);
      forall t | Known(Some(t)) ensures t in TiersOf(Halts(a)) <==> Some(t) in GivenTiers(a) {
        KnownTierIsGiven(a, t);
      }
    } else if Halts(a) != [] {
      PlainMatchesAreUnknown(a.halt2.value);
      assert Halts(a)[0] in Halts(a) && Halts(a)[0].tier in TiersOf(Halts(a));
    }
  }

  lemma UnknownTiers(a: Answers)
    ensures (exists t | t in TiersOf(TieredMatches(a.halt3)) :: !Known(Some(t))) <==>
              exists t | t in GivenTiers(a) :: !Known(t)
  {
    if t :| t in TiersOf(TieredMatches(a.halt3)) && !Known(Some(t)) {
      var m :| m in TieredMatches(a.halt3) && m.tier == t;
      ListedMatch(a.halt3, m);
      var s :| s in a.halt3 && IsMatch(s, m);
      assert s.tier in GivenTiers(a) && !Known(s.tier);
    }
    if t :| t in GivenTiers(a) && !Known(t) {
      var s :| s in a.halt3 && s.reason.Some? && s.tier == t;
      ListedMatch(a.halt3, MatchOf(s));
      assert MatchOf(s).tier in TiersOf(TieredMatches(a.halt3)) && !Known(Some(MatchOf(s).tier));
    }
  }

  lemma GateOfHalts(entity: string, a: Answers)
    requires !Unanswered(a)
    ensures Gate(entity, a) ==
              if Halts(a) != [] then Violation(entity, a, Halts(a))
              else if a.halt1 == Some(true) then GateResult(None, Some(Alignment(a.message, a.ruleID, UNKNOWN)))
              else GateResult(None, None)
  {
    TiersOfHalts(a);
    CollectedExactly(a);
  }

  /** Without an answer the gate denies under tier T1 if the engine is not ready, and is broken otherwise. */
  lemma UnansweredBlocks(a: Answers)
    requires Unanswered(a)
    ensures AssessVerdict(a).Broken? <==> a.ready
    ensures ReflectVerdict(a).Broken? <==> a.ready
    ensures Blocks(AssessVerdict(a)) && Blocks(ReflectVerdict(a))
  {
    CollectedExactly(a);
    TiersOfHalts(a);
  }

  /** The tier a pre-check reports for a list of halts: the most severe, unknown ones counting as T1. */
  lemma PreTier(entity: string, matches: seq<Match>)
    requires matches != [] && forall m | m in matches :: m.tier != ""
    ensures var tiers := TiersOf(matches);
            ViolationTier(Some(Rules(entity, matches))) ==
              if T0 in tiers then Tier0Kernel
              else if T1 in tiers || exists t | t in tiers :: !Known(Some(t)) then Tier1Admin
              else if T2 in tiers then Tier2AI
              else Tier3User
  {
    var rules := Rules(entity, matches);
    MostSevereOutranks(rules);
    RulesHaveTheTiers(entity, matches);
    var severe := MostSevere(rules);
    assert rules[0] in rules && rules[0].tier == matches[0].tier != "" && severe != "";
    assert severe in TiersOf(matches);
    forall t | t in TiersOf(matches) ensures TierSeverity(severe) <= TierSeverity(t) {
      var r :| r in rules && r.tier == t;
      var m :| m in matches && m.tier == t;
    }
  }

  /** The tier a post-check reports for a list of halts: the highest, unknown ones counting last, and then as T1. */
  lemma PostTier(matches: seq<Match>)
    requires matches != []
    ensures var tiers := TiersOf(matches);
            MapCoreTier(Best(matches).tier) ==
              if T0 in tiers then Tier0Kernel
              else if T1 in tiers then Tier1Admin
              else if T2 in tiers then Tier2AI
              else if T3 in tiers then Tier3User
              else Tier1Admin
  {
    BestOutranks(matches);
  }

  /** The tier under which the pre-check denies. */
  function DeniedAs(a: Answers): TrustTier {
    if Some(T0) in GivenTiers(a) then Tier0Kernel
    else if GivenTiers(a) == {} || exists t | t in GivenTiers(a) :: !Advisory(t) then Tier1Admin
    else if Some(T2) in GivenTiers(a) then Tier2AI
    else Tier3User
  }

  /** The tier under which the post-check denies. */
  function WithheldAs(a: Answers): TrustTier {
    if Some(T0) in GivenTiers(a) then Tier0Kernel
    else if Some(T1) in GivenTiers(a) || NoneKnown(a) then Tier1Admin
    else if Some(T2) in GivenTiers(a) then Tier2AI
    else Tier3User
  }

  /** The answers hold no halt at all. */
  predicate Unhalted(a: Answers) {
    GivenTiers(a) == {} && !HaltedPlainly(a) && !PlainlyDenied(a)
  }

  /** An answered pre-check passes exactly if there is no halt; else its tier is that of the severest halt. */
  lemma PreVerdictExactly(a: Answers)
    requires !Unanswered(a)
    ensures var v := AssessVerdict(a);
            v.Verified? && (v.result.pass <==> Unhalted(a)) && (!v.result.pass ==> v.result.tier == DeniedAs(a))
  {
    GateOfHalts("Req", a);
    TiersOfHalts(a);
    if Halts(a) != [] {
      HaltsHaveTiers(a);
      PreTier("Req", Halts(a));
    }
  }

  /** An answered post-check passes exactly if there is no halt; else its tier is that of the first-ranked halt. */
  lemma PostVerdictExactly(a: Answers)
    requires !Unanswered(a)
    ensures var v := ReflectVerdict(a);
            v.Verified? && (v.result.pass <==> Unhalted(a)) && (!v.result.pass ==> v.result.tier == WithheldAs(a))
  {
    GateOfHalts("Output", a);
    TiersOfHalts(a);
    if Halts(a) != [] {
      PostTier(Halts(a));
    }
  }

  /**
    The pre-check blocks exactly when the engine gave no answer, when only the
    one-place or two-place halt holds, or when some three-place halt is given
    any tier but T2 and T3.
  */
  lemma PreCheckBlocksExactly(a: Answers)
    ensures Blocks(AssessVerdict(a)) <==> Stopped(a)
  {
    if Unanswered(a) {
      UnansweredBlocks(a);
    } else {
      PreVerdictExactly(a);
      assert !Advisory(Some(T0));
    }
  }

  /**
    The post-check blocks exactly when the engine gave no answer, when only the
    one-place or two-place halt holds, or when some three-place halt is given
    tier T0 or T1, or when there are such halts and none is given a known tier.
  */
  lemma PostCheckBlocksExactly(a: Answers)
    ensures Blocks(ReflectVerdict(a)) <==> Withheld(a)
  {
    if Unanswered(a) {
      UnansweredBlocks(a);
    } else {
      PostVerdictExactly(a);
      assert WithheldAs(a) in {Tier0Kernel, Tier1Admin} <==>
               Some(T0) in GivenTiers(a) || Some(T1) in GivenTiers(a) || NoneKnown(a);
    }
  }

  /** Halts of unknown tier beside advisory ones, and none of T0 or T1. */
  predicate UnknownBesideAdvisory(tiers: set<Option<string>>) {
    && Some(T0) !in tiers && Some(T1) !in tiers
    && (Some(T2) in tiers || Some(T3) in tiers)
    && (exists t | t in tiers :: !Known(t))
  }

  /** On the same answers the gates differ exactly there, and then it is the post-check that lets pass. */
  lemma GatesDifferExactly(a: Answers)
    ensures Blocks(ReflectVerdict(a)) ==> Blocks(AssessVerdict(a))
    ensures Blocks(AssessVerdict(a)) != Blocks(ReflectVerdict(a)) <==>
              !Unanswered(a) && UnknownBesideAdvisory(GivenTiers(a))
  {
    PreCheckBlocksExactly(a);
    PostCheckBlocksExactly(a);
    if GivenTiers(a) != {} {
      var t :| t in GivenTiers(a);
      assert Known(t) || !Advisory(t);
    }
  }

  /** The engine answers the three-place query with these solutions and all others with nothing. */
  function OnlyTiered(solutions: seq<Solution>): Answers {
    Answers(true, true, solutions, false, Some([]), Some(false), "", "")
  }

  lemma TiersOfTwo(first: Solution, second: Solution)
    requires first.reason.Some? && second.reason.Some?
    ensures GivenTiers(OnlyTiered([first])) == {first.tier}
    ensures GivenTiers(OnlyTiered([first, second])) == {first.tier, second.tier}
  {
    assert first in [first] && first in [first, second] && second in [first, second];
  }

  /** A halt without a tier blocks an output alone, and no longer once a user rule halts too. */
  lemma UserHaltHidesUnknownHalt(unknown: string, user: string)
    ensures var first, second := Solution(Some(unknown), None), Solution(Some(user), Some(T3));
            && Blocks(ReflectVerdict(OnlyTiered([first])))
            && !Blocks(ReflectVerdict(OnlyTiered([first, second])))
            && Blocks(AssessVerdict(OnlyTiered([first, second])))
  {
    var first, second := Solution(Some(unknown), None), Solution(Some(user), Some(T3));
    TiersOfTwo(first, second);
    PostCheckBlocksExactly(OnlyTiered([first]));
    assert !Known(None) && UnknownBesideAdvisory({None, Some(T3)});
    GatesDifferExactly(OnlyTiered([first, second]));
  }

  // ----- A three-place query that fails ----------------------------------

  /**
    When the three-place query fails before it delivers a match, both gates
    go by the other two queries alone.
  */
  lemma FailedTieredQueryBlocksExactly(a: Answers)
    requires a.ready && a.converted && a.halt3Failed && forall s | s in a.halt3 :: s.reason.None?
    ensures Blocks(AssessVerdict(a)) <==>
              a.halt2.None? || (exists r | r in a.halt2.value :: r.Some?) || a.halt1 != Some(false)
    ensures Blocks(ReflectVerdict(a)) <==> Blocks(AssessVerdict(a))
  {
    assert GivenTiers(a) == {};
    PreCheckBlocksExactly(a);
    PostCheckBlocksExactly(a);
  }

  /** So a failure of that query alone lets everything pass. */
  lemma FailedTieredQueryIsIgnored()
    ensures var a := OnlyTiered([]).(halt3Failed := true); !Blocks(AssessVerdict(a)) && !Blocks(ReflectVerdict(a))
  {
  }

  /** The queries of one gate are answered from one evaluation, so they fail together or not at all. */
  predicate SharedOutcome(a: Answers) {
    if a.halt3Failed then a.halt3 == [] && a.halt2.None? && a.halt1.None? else a.halt2.Some? && a.halt1.Some?
  }

  /** Then a failure always blocks, in both gates. */
  lemma SharedFailureBlocks(a: Answers)
    requires SharedOutcome(a)
    ensures Unanswered(a) <==> !a.ready || !a.converted || a.halt3Failed
    ensures Unanswered(a) ==> Blocks(AssessVerdict(a)) && Blocks(ReflectVerdict(a))
  {
    if Unanswered(a) {
      UnansweredBlocks(a);
    }
  }

  lemma NoTiersNoHalts(matches: seq<Match>)
    ensures TiersOf(matches) == {} <==> matches == []
  {
    if matches != [] {
      assert matches[0] in matches && matches[0].tier in TiersOf(matches);
    }
  }

  lemma SameTiers(matches: seq<Match>, others: seq<Match>, a: Answers, b: Answers)
    requires matches != [] && others != [] && TiersOf(matches) == TiersOf(others)
    requires matches == Halts(a) && others == Halts(b)
    ensures ViolationTier(Some(Rules("Req", matches))) == ViolationTier(Some(Rules("Req", others)))
    ensures MapCoreTier(Best(matches).tier) == MapCoreTier(Best(others).tier)
  {
    HaltsHaveTiers(a);
    HaltsHaveTiers(b);
    PreTier("Req", matches);
    PreTier("Req", others);
    PostTier(matches);
    PostTier(others);
  }

  /** Neither verdict depends on the order or the number of the halts, only on their tiers. */
  lemma VerdictsGoByTiers(a: Answers, b: Answers)
    requires !Unanswered(a) && !Unanswered(b)
    requires TiersOf(Halts(a)) == TiersOf(Halts(b)) && a.halt1 == b.halt1
    ensures Blocks(AssessVerdict(a)) == Blocks(AssessVerdict(b))
    ensures Blocks(ReflectVerdict(a)) == Blocks(ReflectVerdict(b))
  {
    GateOfHalts("Req", a);
    GateOfHalts("Req", b);
    GateOfHalts("Output", a);
    GateOfHalts("Output", b);
    NoTiersNoHalts(Halts(a));
    NoTiersNoHalts(Halts(b));
    if Halts(a) != [] {
      SameTiers(Halts(a), Halts(b), a, b);
    }
  }

  // ----- What is reported ------------------------------------------------

  /** The reported tier always translates to the tier that blocked. */
  lemma ReportedTierBlocked(result: AuditResult, tier: string, rule: string)
    requires Reported(result, tier, rule)
    ensures MapCoreTier(tier) == result.tier
  {
  }

  /** The tier names and the supervisor's tiers correspond; any other name counts as T1. */
  lemma TierNamesCorrespond(tier: TrustTier, name: string)
    ensures Known(Some(CoreTierName(tier))) && MapCoreTier(CoreTierName(tier)) == tier
    ensures if Known(Some(name)) then CoreTierName(MapCoreTier(name)) == name else MapCoreTier(name) == Tier1Admin
  {
  }

  /** The answers hold this halt, and the gate goes by it. */
  predicate Halted(a: Answers, m: Match) {
    if GivenTiers(a) != {} then exists s | s in a.halt3 :: IsMatch(s, m)
    else HaltedPlainly(a) && Some(m.reason) in a.halt2.value && m.tier == UNKNOWN
  }

  lemma HaltsAreGiven(a: Answers, m: Match)
    ensures m in Halts(a) <==> Halted(a, m)
  {
    CollectedExactly(a);
    ListedMatch(a.halt3, m);
    if GivenTiers(a) == {} && a.halt2.Some? {
      PlainMatchIsGiven(a.halt2.value, m);
    }
  }

  lemma PlainMatchIsGiven(reasons: seq<Option<string>>, m: Match)
    ensures m in PlainMatches(reasons) <==> Some(m.reason) in reasons && m.tier == UNKNOWN
  {
    PlainMatchesAreUntiered(reasons);
    ListedMatch(Untiered(reasons), m);
    if s :| s in Untiered(reasons) && IsMatch(s, m) {
      var k :| 0 <= k < |reasons| && Untiered(reasons)[k] == s;
      assert reasons[k] in reasons;
    }
    if Some(m.reason) in reasons && m.tier == UNKNOWN {
      var k :| 0 <= k < |reasons| && reasons[k] == Some(m.reason);
      assert Untiered(reasons)[k] in Untiered(reasons) && IsMatch(Untiered(reasons)[k], m);
    }
  }

  predicate NamesHalt(rule: string, m: Match) {
    rule == "halt(\"Req\", \"" + m.reason + "\", \"" + m.tier + "\")"
  }

  lemma DefinitionNames(m: Match)
    ensures NamesHalt(Definition("Req", m), m) && Definition("Req", m) != ""
  {
  }

  /** A pre-check that denies on halts names one of them, of the tier under which it denies. */
  lemma PreCheckNamesResponsibleRule(a: Answers, tier: string, rule: string)
    requires !Unanswered(a) && !Unhalted(a) && !PlainlyDenied(a) && AssessVerdict(a).Verified?
    requires Reported(AssessVerdict(a).result, tier, rule)
    ensures MapCoreTier(tier) == DeniedAs(a)
    ensures exists m | Halted(a, m) :: tier == m.tier && NamesHalt(rule, m)
  {
    DeniedTrail(a);
    var k := ResponsibleRule(AssessVerdict(a).result, Halts(a), tier, rule);
    var m := Halts(a)[k];
    assert m in Halts(a);
    DefinitionNames(m);
    HaltsAreGiven(a, m);
  }

  lemma DeniedTrail(a: Answers)
    requires !Unanswered(a) && !Unhalted(a) && !PlainlyDenied(a)
    ensures Halts(a) != [] && forall m | m in Halts(a) :: m.tier != ""
    ensures var v := AssessVerdict(a);
            && v.Verified? && v.result.trail == Some(Rules("Req", Halts(a)))
            && v.result.tier == ViolationTier(v.result.trail) == DeniedAs(a)
  {
    PreVerdictExactly(a);
    TiersOfHalts(a);
    GateOfHalts("Req", a);
    HaltsHaveTiers(a);
  }

  lemma ResponsibleRule(result: AuditResult, matches: seq<Match>, tier: string, rule: string) returns (k: nat)
    requires matches != [] && forall m | m in matches :: m.tier != ""
    requires result.trail == Some(Rules("Req", matches)) && result.tier == ViolationTier(result.trail)
    requires Reported(result, tier, rule)
    ensures k < |matches| && tier == matches[k].tier && rule == Definition("Req", matches[k])
    ensures MapCoreTier(tier) == result.tier
  {
    var rules := Rules("Req", matches);
    MostSevereOutranks(rules);
    assert rules[0] in rules && rules[0].tier == matches[0].tier && matches[0] in matches;
    var r :| r in rules && r.tier == MostSevere(rules);
    var i :| 0 <= i < |rules| && rules[i] == r;
    assert matches[i] in matches && r.definition == Definition("Req", matches[i]);
    DefinitionNames(matches[i]);
    assert Responsible(result, r);
    k :| 0 <= k < |rules| && FirstResponsible(result, rules, k) && Rule(rule, tier) == rules[k];
  }

  ghost predicate NoneOutranks(a: Answers, tier: string) {
    forall m | Halted(a, m) :: TierPriority(tier) <= TierPriority(m.tier)
  }

  /** The reason given for a denial is that of a halt which no other halt outranks, or the one-place message. */
  ghost predicate Explains(a: Answers, reason: string) {
    if PlainlyDenied(a) then reason == a.message
    else exists m | Halted(a, m) :: m.reason == reason && NoneOutranks(a, m.tier)
  }

  /** Both gates give the reason of a first-ranked halt; the post-check puts the rule's id first, if there is one. */
  lemma DenialIsExplained(a: Answers)
    requires !Unanswered(a) && !Unhalted(a)
    ensures var v := AssessVerdict(a); v.Verified? && Explains(a, v.result.path)
    ensures var v := ReflectVerdict(a);
            && v.Verified?
            && if a.ruleID != "" then v.result.path == a.ruleID
               else exists reason | Explains(a, reason) ::
                      v.result.path == if reason == "" then "sdk_adapter.post_check" else reason
  {
    GateOfHalts("Req", a);
    GateOfHalts("Output", a);
    TiersOfHalts(a);
    if Halts(a) != [] {
      BestIsExplained(a);
    } else {
      assert Explains(a, a.message);
    }
  }

  lemma BestIsExplained(a: Answers)
    requires Halts(a) != [] && !PlainlyDenied(a)
    ensures Explains(a, Best(Halts(a)).reason)
  {
    var matches := Halts(a);
    var k := BestIsFirstOfHighest(matches);
    var best := matches[k];
    assert best in matches;
    HaltsAreGiven(a, best);
    forall n | Halted(a, n) ensures TierPriority(best.tier) <= TierPriority(n.tier) {
      HaltsAreGiven(a, n);
      var j :| 0 <= j < |matches| && matches[j] == n;
    }
  }

  // ----- The supervised action -------------------------------------------

  /**
    The action is reached. Without a context and without atoms there is no
    check; more than 1000 atoms block; the strict check decides, or the lenient
    one if the context is already that of an output.
  */
  predicate Entered<T>(r: Request<T>) {
    match r.context
    case None => r.inAtoms == 0 || (r.inAtoms <= 1000 && !Stopped(r.before))
    case Some(c) =>
      && r.inAtoms <= 1000
      && if c.entityID == "Output" && c.actionName != "" then !Withheld(r.before) else !Stopped(r.before)
  }

  /**
    The output gets out. Without a context it is not checked; otherwise more
    than 1000 atoms block, and the check is the lenient one if the action has a
    name, and else the strict one, which asks about the request again.
  */
  predicate Released<T>(r: Request<T>) {
    match r.context
    case None => true
    case Some(c) =>
      r.outAtoms <= 1000 && if c.actionName != "" then !Withheld(r.after) else !Stopped(r.after)
  }

  /** The verdicts before and after a supervised action, for every request. */
  lemma OutputIsLetThroughExactly<T>(r: Request<T>)
    ensures !Blocks(PreVerdict(r)) <==> Entered(r)
    ensures PostVerdict(r).Some? && Blocks(PostVerdict(r).value) <==> !Released(r)
  {
    PreCheckBlocksExactly(r.before);
    PostCheckBlocksExactly(r.before);
    PreCheckBlocksExactly(r.after);
    PostCheckBlocksExactly(r.after);
  }
}

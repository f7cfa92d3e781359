/**
  The two gates around a supervised action: how halt answers of the policy
  engine become a verdict before the action runs and after it has run.
*/
module GateModel {
  import opened Common

  // ----- Tiers -----------------------------------------------------------

  const T0: string := "T0"
  const T1: string := "T1"
  const T2: string := "T2"
  const T3: string := "T3"
  const UNKNOWN: string := "Unknown"

  /** The supervisor's own vocabulary. */
  datatype TrustTier = Tier0Kernel | Tier1Admin | Tier2AI | Tier3User

  function TierPriority(t: string): nat {
    if t == T0 then 0 else if t == T1 then 1 else if t == T2 then 2 else if t == T3 then 3 else 4
  }

  function TierSeverity(t: string): nat {
    if t == T0 then 0 else if t == T1 || t == "" then 1 else if t == T2 then 2 else if t == T3 then 3 else 1
  }

  function MapCoreTier(t: string): TrustTier {
    if t == T0 then Tier0Kernel
    else if t == T1 then Tier1Admin
    else if t == T2 then Tier2AI
    else if t == T3 then Tier3User
    else Tier1Admin
  }

  function CoreTierName(t: TrustTier): string {
    match t
    case Tier0Kernel => T0
    case Tier1Admin => T1
    case Tier2AI => T2
    case Tier3User => T3
  }

  predicate Blocking(t: TrustTier) {
    t == Tier0Kernel || t == Tier1Admin
  }

  // ----- What the engine answers -----------------------------------------

  /** One solution of the three-place halt query; an argument may not be a string. */
  datatype Solution = Solution(reason: Option<string>, tier: Option<string>)

  /**
    Everything one gate may ask. `halt3` holds the solutions delivered, also
    when that query then fails, which `halt3Failed` records; a failed `halt2`
    or `halt1` is `None`.
  */
  datatype Answers = Answers(
    ready: bool, converted: bool,
    halt3: seq<Solution>, halt3Failed: bool, halt2: Option<seq<Option<string>>>, halt1: Option<bool>,
    message: string, ruleID: string)

  datatype Match = Match(reason: string, tier: string)

  function TieredMatch(s: Solution): seq<Match> {
    match s.reason
    case None => []
    case Some(reason) =>
      [Match(reason, if s.tier.None? || s.tier.value == "" then UNKNOWN else s.tier.value)]
  }

  function TieredMatches(solutions: seq<Solution>): seq<Match> {
    if solutions == [] then []
    else TieredMatches(solutions[..|solutions| - 1]) + TieredMatch(solutions[|solutions| - 1])
  }

  function PlainMatch(reason: Option<string>): seq<Match> {
    match reason
    case None => []
    case Some(reason) => [Match(reason, UNKNOWN)]
  }

  function PlainMatches(reasons: seq<Option<string>>): seq<Match> {
    if reasons == [] then []
    else PlainMatches(reasons[..|reasons| - 1]) + PlainMatch(reasons[|reasons| - 1])
  }

  // ----- The gate --------------------------------------------------------

  datatype GateError = Alignment(message: string, ruleID: string, tier: string) | EngineFailure

  datatype Rule = Rule(definition: string, tier: string)

  datatype GateResult = GateResult(trail: Option<seq<Rule>>, error: Option<GateError>)

  /** The match whose tier has the highest priority; the first of equals. */
  function Best(matches: seq<Match>): Match
    requires matches != []
  {
    var last := matches[|matches| - 1];
    if |matches| == 1 then last
    else
      var best := Best(matches[..|matches| - 1]);
      if TierPriority(last.tier) < TierPriority(best.tier) then last else best
  }

  function Definition(entity: string, m: Match): string {
    "halt(\"" + entity + "\", \"" + m.reason + "\", \"" + m.tier + "\")"
  }

  function Rules(entity: string, matches: seq<Match>): seq<Rule> {
    seq(|matches|, i requires 0 <= i < |matches| => Rule(Definition(entity, matches[i]), matches[i].tier))
  }

  function Violation(entity: string, a: Answers, matches: seq<Match>): GateResult
    requires matches != []
  {
    var best := Best(matches);
    GateResult(Some(Rules(entity, matches)), Some(Alignment(best.reason, a.ruleID, best.tier)))
  }

  /** A failure of the three-place query is noted in the log only. */
  function Gate(entity: string, a: Answers): GateResult {
    if !a.ready then GateResult(None, Some(Alignment("policy engine not initialized: fail-closed", "", "")))
    else if !a.converted then GateResult(None, Some(EngineFailure))
    else
      var tiered := TieredMatches(a.halt3);
      if tiered != [] then Violation(entity, a, tiered)
      else if a.halt2.None? then GateResult(None, Some(EngineFailure))
      else
        var plain := PlainMatches(a.halt2.value);
        if plain != [] then Violation(entity, a, plain)
        else if a.halt1.None? then GateResult(None, Some(EngineFailure))
        else if a.halt1.value then GateResult(None, Some(Alignment(a.message, a.ruleID, UNKNOWN)))
        else GateResult(None, None)
  }

  // ----- From the gate to a verdict --------------------------------------

  datatype AuditResult = AuditResult(pass: bool, tier: TrustTier, path: string, trail: Option<seq<Rule>>)

  /** `Broken` is an error of the verifier itself. */
  datatype Verdict = Verified(result: AuditResult) | Broken

  function Passed(trail: Option<seq<Rule>>): Verdict {
    Verified(AuditResult(true, Tier0Kernel, "", trail))
  }

  /** The most severe tier so far; rules without a tier do not take part. */
  function MoreSevere(severe: string, tier: string): string {
    if tier == "" then severe
    else if severe == "" || TierSeverity(tier) < TierSeverity(severe) then tier
    else severe
  }

  function MostSevere(rules: seq<Rule>): string {
    if rules == [] then "" else MoreSevere(MostSevere(rules[..|rules| - 1]), rules[|rules| - 1].tier)
  }

  function ViolationTier(trail: Option<seq<Rule>>): TrustTier {
    match trail
    case None => Tier1Admin
    case Some(rules) => MapCoreTier(MostSevere(rules))
  }

  /** The pre-check: an assessment whose halt takes the most severe tier of its trail. */
  function AssessVerdict(a: Answers): Verdict {
    var gate := Gate("Req", a);
    match gate.error
    case None => Passed(gate.trail)
    case Some(EngineFailure) => Broken
    case Some(Alignment(message, _, _)) =>
      Verified(AuditResult(false, ViolationTier(gate.trail), message, gate.trail))
  }

  /** The post-check: a reflection whose halt takes the tier of the best match. */
  function ReflectVerdict(a: Answers): Verdict {
    match Gate("Output", a).error
    case None => Passed(None)
    case Some(EngineFailure) => Broken
    case Some(Alignment(message, ruleID, tier)) =>
      var path := if ruleID != "" then ruleID else if message != "" then message else "sdk_adapter.post_check";
      Verified(AuditResult(false, MapCoreTier(tier), path, None))
  }

  const MAX_FACTS_PER_VERIFY := 1000

  datatype Context = Context(actionName: string, entityID: string)

  /** `a` answers the query of whichever check the context selects. */
  function VerifyAtoms(context: Option<Context>, atoms: nat, a: Answers): Verdict {
    if atoms == 0 && context.None? then Passed(None)
    else if atoms > MAX_FACTS_PER_VERIFY then
      Verified(AuditResult(false, Tier0Kernel, "sdk_adapter.fact_limit_exceeded", None))
    else if context.Some? && context.value.entityID == "Output" && context.value.actionName != "" then ReflectVerdict(a)
    else AssessVerdict(a)
  }

  predicate Blocks(v: Verdict) {
    v.Broken? || (!v.result.pass && Blocking(v.result.tier))
  }

  // ----- The supervised action -------------------------------------------

  datatype Ending<T> = SupervisorError | PolicyViolation(tier: string, rule: string) | InnerFailed | Returned(value: T)

  datatype Request<T> = Request(
    context: Option<Context>,
    inAtoms: nat, before: Answers,
    inner: Option<T>,
    outAtoms: nat, after: Answers)

  /** The reported rule: the first of the violation's own tier, else the first with a definition. */
  predicate Reported(result: AuditResult, tier: string, rule: string) {
    if result.trail.None? || (forall r | r in result.trail.value :: r.definition == "") then
      tier == CoreTierName(result.tier) && rule == ""
    else if exists r | r in result.trail.value :: Responsible(result, r) then
      exists k | 0 <= k < |result.trail.value| ::
        && FirstResponsible(result, result.trail.value, k)
        && Rule(rule, tier) == result.trail.value[k]
    else
      && tier == CoreTierName(result.tier)
      && exists k | 0 <= k < |result.trail.value| ::
           FirstDefined(result.trail.value, k) && rule == result.trail.value[k].definition
  }

  predicate FirstDefined(rules: seq<Rule>, k: nat)
    requires k < |rules|
  {
    rules[k].definition != "" && forall j | 0 <= j < k :: rules[j].definition == ""
  }

  predicate Responsible(result: AuditResult, r: Rule) {
    r.definition != "" && r.tier != "" && MapCoreTier(r.tier) == result.tier
  }

  predicate FirstResponsible(result: AuditResult, rules: seq<Rule>, k: nat)
    requires k < |rules|
  {
    Responsible(result, rules[k]) && forall j | 0 <= j < k :: !Responsible(result, rules[j])
  }

  function PostContext(context: Context): Context {
    context.(entityID := "Output")
  }

  /** The verdict before the action runs. */
  function PreVerdict<T>(r: Request<T>): Verdict {
    VerifyAtoms(r.context, r.inAtoms, r.before)
  }

  /** The verdict on its output; without a context there is none. */
  function PostVerdict<T>(r: Request<T>): Option<Verdict> {
    match r.context
    case None => None
    case Some(context) => Some(VerifyAtoms(Some(PostContext(context)), r.outAtoms, r.after))
  }
}

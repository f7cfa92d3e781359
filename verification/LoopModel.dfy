/**
  The execution loop of the client: one action after another under retry,
  route and halt decisions, with a checkpoint when a step proceeds.
*/
module LoopModel {
  import opened Common

  const DEFAULT_MAX_STEPS := 10
  const DEFAULT_MAX_RETRIES := 3

  const PROCEED: string := "PROCEED"
  const HALT: string := "HALT"
  const RETRY: string := "RETRY"
  const ROUTE: string := "ROUTE"

  /** The decision entry of the metadata: missing, a string, or a value of another type. */
  datatype Decision = Absent | Word(text: string) | Foreign

  /** What a result envelope carries for the loop; `next` is "" when there is no usable next step. */
  datatype Envelope = Envelope(decision: Decision, feedback: string, payload: string, next: string)

  /** A steering decision and the metadata that comes with it. */
  datatype Steering = Steering(decision: string, feedback: Option<string>, next: Option<string>)

  /** How executing the action ends. */
  datatype Reply =
    | Crashed
    | Rejected(message: string)
    | Replied(envelope: Envelope, steering: Option<Steering>)

  /** Everything outside the loop's control during one step. */
  datatype Event = Event(cancelled: bool, registered: bool, reply: Reply, interrupted: bool)

  /** `steering` is the feature switch; `durable` means a state manager and a session id. */
  datatype Config = Config(norm: string -> string, steering: bool, durable: bool, maxSteps: int)

  // ----- Similar feedback ------------------------------------------------

  predicate Contains(s: string, part: string) {
    exists i | 0 <= i <= |s| :: part <= s[i..]
  }

  predicate Similar(norm: string -> string, a: string, b: string) {
    || a == b
    || norm(a) == norm(b)
    || (norm(a) != "" && norm(b) != "" && (Contains(norm(a), norm(b)) || Contains(norm(b), norm(a))))
  }

  // ----- State -----------------------------------------------------------

  /** One audit record; `step` counts from zero. */
  datatype Record = Record(step: nat, outcome: string)

  datatype Params = Params(retries: nat, feedback: seq<string>, last: string, audit: seq<Record>)

  datatype Checkpoint = Checkpoint(envelope: Envelope, retries: nat, feedback: seq<string>, audit: seq<Record>)

  datatype Kind = Raised | Misaligned(message: string) | Decided(envelope: Envelope)

  /** One execution: of what, with which feedback in its envelope, and what came of it. */
  datatype Execution = Execution(action: string, payload: string, shown: seq<string>, prompt: string, kind: Kind)

  /** `trace` and `saved` record the executions and the checkpoints so far. */
  datatype State = State(action: string, payload: string, params: Params, trace: seq<Execution>, saved: seq<Checkpoint>)

  datatype Error =
    Cancelled | NotFound | ActionError | MaxRetries | Thrashing | Halted | MissingNext | MaxSteps

  datatype Reaction = Fail(error: Error) | Give(envelope: Envelope)

  // ----- One step --------------------------------------------------------

  function Steered(config: Config, e: Envelope, steering: Option<Steering>): Envelope {
    if && config.steering && (e.decision == Absent || e.decision == Word(""))
       && steering.Some? && steering.value.decision != ""
    then
      var s := steering.value;
      Envelope(Word(s.decision), GetOr(s.feedback, e.feedback), e.payload, GetOr(s.next, e.next))
    else e
  }

  function KindOf(config: Config, reply: Reply): Kind {
    match reply
    case Crashed => Raised
    case Rejected(message) => Misaligned(message)
    case Replied(envelope, steering) => Decided(Steered(config, envelope, steering))
  }

  function Executed(config: Config, s: State, reply: Reply): State {
    s.(trace := s.trace + [Execution(s.action, s.payload, s.params.feedback, s.params.last, KindOf(config, reply))])
  }

  /** The action was rejected: retry without adding to the feedback history. */
  function OnRejection(s: State, message: string, interrupted: bool): (State, Reaction) {
    if s.params.retries >= DEFAULT_MAX_RETRIES then (s, Fail(MaxRetries))
    else
      var s' := s.(params := s.params.(retries := s.params.retries + 1, last := message));
      if interrupted then (s', Fail(Cancelled))
      else (s', Give(Envelope(Word(RETRY), "", s.payload, "")))
  }

  predicate Proceeds(d: Decision) {
    d == Word("") || d == Word(PROCEED)
  }

  function Saved(config: Config, s: State, e: Envelope): State {
    if config.durable && Proceeds(e.decision)
    then s.(saved := s.saved + [Checkpoint(e, s.params.retries, s.params.feedback, s.params.audit)])
    else s
  }

  predicate IsThrashing(norm: string -> string, feedback: seq<string>, hint: string) {
    exists p | p in feedback :: Similar(norm, p, hint)
  }

  function OnRetry(config: Config, s: State, e: Envelope, interrupted: bool): (State, Reaction) {
    if s.params.retries >= DEFAULT_MAX_RETRIES then (s, Fail(MaxRetries))
    else if IsThrashing(config.norm, s.params.feedback, e.feedback) then (s, Fail(Thrashing))
    else
      var s' := s.(params := s.params.(
        retries := s.params.retries + 1, last := e.feedback, feedback := s.params.feedback + [e.feedback]));
      if interrupted then (s', Fail(Cancelled)) else (s', Give(e))
  }

  function OnDecision(config: Config, s: State, e: Envelope, interrupted: bool): (State, Reaction) {
    if e.decision == Word(RETRY) then OnRetry(config, s, e, interrupted)
    else if e.decision == Word(ROUTE) then (s.(params := s.params.(retries := 0, feedback := [])), Give(e))
    else if e.decision == Word(HALT) then (s, Fail(Halted))
    else (s, Give(e))
  }

  function SingleStep(config: Config, s: State, event: Event): (State, Reaction) {
    if !event.registered then (s, Fail(NotFound))
    else
      var done := Executed(config, s, event.reply);
      match event.reply
      case Crashed => (done, Fail(ActionError))
      case Rejected(message) => OnRejection(done, message, event.interrupted)
      case Replied(envelope, steering) =>
        var e := Steered(config, envelope, steering);
        OnDecision(config, Saved(config, done.(params := done.params.(last := "")), e), e, event.interrupted)
  }

  // ----- The loop --------------------------------------------------------

  datatype Ending = Returned(envelope: Envelope) | Error(error: Error)

  datatype Turn = Again(state: State) | End(state: State, ending: Ending)

  function OutcomeOf(d: Decision): string {
    if d.Word? && d.text != "" then d.text else PROCEED
  }

  function LoopTurn(config: Config, s: State, step: nat, event: Event): Turn {
    if event.cancelled then End(s, Error(Cancelled))
    else
      var (s1, reaction) := SingleStep(config, s, event);
      match reaction
      case Fail(error) => End(s1, Error(error))
      case Give(e) =>
        var s2 := s1.(params := s1.params.(audit := s1.params.audit + [Record(step, OutcomeOf(e.decision))]));
        if e.decision == Word(ROUTE) then
          if e.next == "" then End(s2, Error(MissingNext)) else Again(s2.(action := e.next, payload := e.payload))
        else if e.decision == Word(RETRY) then Again(s2)
        else End(s2, Returned(e))
  }

  /** All steps from `step` on; `events(i)` is what happens around step `i`. */
  function RunFrom(config: Config, s: State, step: nat, max: nat, events: nat -> Event): (State, Ending)
    decreases max - step
  {
    if step >= max then (s, Error(MaxSteps))
    else match LoopTurn(config, s, step, events(step))
      case End(s', ending) => (s', ending)
      case Again(s') => RunFrom(config, s', step + 1, max, events)
  }

  function Start(action: string, payload: string, retries: nat, feedback: seq<string>): State {
    State(action, payload, Params(retries, feedback, "", []), [], [])
  }

  /** The caller's limit, or else the client's, or else the default; never zero. */
  function StepLimit(requested: int, client: int): (n: nat)
    ensures n > 0
  {
    if requested > 0 then requested else if client > 0 then client else DEFAULT_MAX_STEPS
  }

  /** A whole run under the limit that the caller and the client ask for. */
  function Run(config: Config, init: State, requested: int, events: nat -> Event): (State, Ending) {
    RunFrom(config, init, 0, StepLimit(requested, config.maxSteps), events)
  }
}

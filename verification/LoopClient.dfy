/** The loop as it updates its execution parameters in place. */
module LoopClient {
  import opened Common
  import opened LoopModel

  method IsSemanticallySimilar(norm: string -> string, a: string, b: string) returns (r: bool)
    ensures r == Similar(norm, a, b)
  {
    if a == b {
      return true;
    }
    var n1, n2 := norm(a), norm(b);
    if n1 == n2 {
      return true;
    }
    if n1 == "" || n2 == "" {
      return false;
    }
    return Contains(n1, n2) || Contains(n2, n1);
  }

  method IsFeedbackLoop(norm: string -> string, feedback: seq<string>, hint: string) returns (found: bool)
    ensures found == IsThrashing(norm, feedback, hint)
  {
    for i := 0 to |feedback|
      invariant forall j | 0 <= j < i :: !Similar(norm, feedback[j], hint)
    {
      var similar := IsSemanticallySimilar(norm, feedback[i], hint);
      if similar {
        return true;
      }
    }
    return false;
  }

  /** The parameters of one execution, and a log of what was executed and saved. */
  class Session {
    const config: Config
    var action: string
    var payload: string
    var params: Params
    var trace: seq<Execution>
    var saved: seq<Checkpoint>

    function View(): State
      reads this
    {
      State(action, payload, params, trace, saved)
    }

    constructor (config: Config, action: string, payload: string, retries: nat, feedback: seq<string>)
      ensures this.config == config && View() == Start(action, payload, retries, feedback)
      ensures this.action == action && this.payload == payload && params == Params(retries, feedback, "", [])
      ensures trace == [] && saved == []
    {
      this.config := config;
      this.action, this.payload := action, payload;
      params := Params(retries, feedback, "", []);
      trace, saved := [], [];
    }

    method HandleExecutionError(message: string, interrupted: bool) returns (r: Reaction)
      modifies this`params
      ensures (View(), r) == OnRejection(old(View()), message, interrupted)
    {
      if params.retries >= DEFAULT_MAX_RETRIES {
        return Fail(MaxRetries);
      }
      params := params.(retries := params.retries + 1, last := message);
      if interrupted {
        return Fail(Cancelled);
      }
      return Give(Envelope(Word(RETRY), "", payload, ""));
    }

    method HandleDecision(e: Envelope, interrupted: bool) returns (r: Reaction)
      modifies this`params
      ensures (View(), r) == OnDecision(config, old(View()), e, interrupted)
    {
      if e.decision == Word(RETRY) {
        if params.retries >= DEFAULT_MAX_RETRIES {
          return Fail(MaxRetries);
        }
        var thrashing := IsFeedbackLoop(config.norm, params.feedback, e.feedback);
        if thrashing {
          return Fail(Thrashing);
        }
        params := params.(
          retries := params.retries + 1, last := e.feedback, feedback := params.feedback + [e.feedback]);
        if interrupted {
          return Fail(Cancelled);
        }
        return Give(e);
      }
      if e.decision == Word(ROUTE) {
        params := params.(retries := 0, feedback := []);
        return Give(e);
      }
      if e.decision == Word(HALT) {
        return Fail(Halted);
      }
      return Give(e);
    }

    method ExecuteSingleStep(event: Event) returns (r: Reaction)
      modifies this
      ensures (View(), r) == SingleStep(config, old(View()), event)
    {
      if !event.registered {
        return Fail(NotFound);
      }
      trace := trace + [Execution(action, payload, params.feedback, params.last, KindOf(config, event.reply))];
      match event.reply
      case Crashed => return Fail(ActionError);
      case Rejected(message) =>
        r := HandleExecutionError(message, event.interrupted);
      case Replied(envelope, steering) =>
        params := params.(last := "");
        var e := Steered(config, envelope, steering);
        if config.durable && (e.decision == Word("") || e.decision == Word(PROCEED)) {
          saved := saved + [Checkpoint(e, params.retries, params.feedback, params.audit)];
        }
        r := HandleDecision(e, event.interrupted);
    }

    /** One turn of the loop; no ending means another turn. */
    method TakeTurn(step: nat, event: Event) returns (ending: Option<Ending>)
      modifies this
      ensures LoopTurn(config, old(View()), step, event) ==
                if ending.Some? then End(View(), ending.value) else Again(View())
    {
      if event.cancelled {
        return Some(Error(Cancelled));
      }
      var reaction := ExecuteSingleStep(event);
      if reaction.Fail? {
        return Some(Error(reaction.error));
      }
      var e := reaction.envelope;
      params := params.(audit := params.audit + [Record(step, OutcomeOf(e.decision))]);
      if e.decision == Word(ROUTE) {
        if e.next == "" {
          return Some(Error(MissingNext));
        }
        action, payload := e.next, e.payload;
      } else if e.decision != Word(RETRY) {
        return Some(Returned(e));
      }
      return None;
    }

    method RunLoop(requested: int, events: nat -> Event) returns (ending: Ending)
      modifies this
      ensures (View(), ending) == Run(config, old(View()), requested, events)
    {
      var max := requested;
      if max <= 0 {
        max := config.maxSteps;
      }
      if max <= 0 {
        max := DEFAULT_MAX_STEPS;
      }
      var step := 0;
      while step < max
        invariant step <= max
        invariant RunFrom(config, View(), step, max, events) == RunFrom(config, old(View()), 0, max, events)
      {
        var ended := TakeTurn(step, events(step));
        if ended.Some? {
          return ended.value;
        }
        step := step + 1;
      }
      ending := Error(MaxSteps);
    }
  }
}

/** What every run of the loop keeps to. */
module LoopProofs {
  import opened Common
  import opened LoopModel

  // ----- Runs as chains of executions ------------------------------------

  predicate Retried(x: Execution) {
    x.kind.Misaligned? || (x.kind.Decided? && x.kind.envelope.decision == Word(RETRY))
  }

  predicate Routed(x: Execution) {
    x.kind.Decided? && x.kind.envelope.decision == Word(ROUTE)
  }

  /**
    Why one execution follows another: a rejection or a hint unlike all those
    shown repeats the action on the same payload and passes the message on; a
    route hands the result over and forgets the feedback.
  */
  predicate Follows(norm: string -> string, x: Execution, y: Execution) {
    if x.kind.Misaligned? then
      y.action == x.action && y.payload == x.payload && y.prompt == x.kind.message && y.shown == x.shown
    else if Retried(x) then
      && y.action == x.action && y.payload == x.payload
      && y.prompt == x.kind.envelope.feedback
      && y.shown == x.shown + [x.kind.envelope.feedback]
      && !IsThrashing(norm, x.shown, x.kind.envelope.feedback)
    else
      && Routed(x)
      && y.action == x.kind.envelope.next != "" && y.payload == x.kind.envelope.payload
      && y.prompt == "" && y.shown == []
  }

  predicate Chain(norm: string -> string, trace: seq<Execution>) {
    forall i | 0 <= i < |trace| - 1 :: Follows(norm, trace[i], trace[i + 1])
  }

  /** The execution that would come next in this state. */
  function Upcoming(s: State): Execution {
    Execution(s.action, s.payload, s.params.feedback, s.params.last, Raised)
  }

  /** Retries in a row at the end of the trace, together with those brought along from before it. */
  function Streak(trace: seq<Execution>, before: nat): nat {
    if trace == [] then before
    else if Retried(trace[|trace| - 1]) then Streak(trace[..|trace| - 1], before) + 1
    else 0
  }

  function Outcome(x: Execution): string {
    match x.kind
    case Decided(Envelope(Word(text), _, _, _)) => if text == "" then "PROCEED" else text
    case Decided(_) => "PROCEED"
    case _ => "RETRY"
  }

  function AuditOf(trace: seq<Execution>): seq<Record> {
    seq(|trace|, i requires 0 <= i < |trace| => Record(i, Outcome(trace[i])))
  }

  /** The first execution is of what the run was asked for, and shows the hints it was started with. */
  predicate StartsAt(init: State, x: Execution) {
    && x.action == init.action && x.payload == init.payload
    && x.shown == init.params.feedback && x.prompt == init.params.last
  }

  /** At the head of the loop. */
  predicate Going(config: Config, init: State, s: State, step: nat) {
    && |s.trace| == step
    && Chain(config.norm, s.trace + [Upcoming(s)])
    && (s.trace == [] ==> s == init)
    && (s.trace != [] ==> StartsAt(init, s.trace[0]))
    && s.params.retries == Streak(s.trace, init.params.retries)
    && s.params.audit == AuditOf(s.trace)
    && s.saved == []
  }

  /** A trace at the end of a run, and how the run ended. */
  predicate Finished(config: Config, init: State, s: State, ending: Ending) {
    && Chain(config.norm, s.trace)
    && (s.trace != [] ==> StartsAt(init, s.trace[0]))
    && (s.saved != [] ==> ending.Returned?)
    && (ending.Returned? ==>
          && s.trace != []
          && var n := |s.trace| - 1;
             && s.trace[n].kind == Decided(ending.envelope)
             && ending.envelope.decision !in {Word(RETRY), Word(ROUTE), Word(HALT)}
             && s.saved ==
                if config.durable && ending.envelope.decision in {Word(""), Word("PROCEED")}
                then [Checkpoint(ending.envelope, Streak(s.trace[..n], init.params.retries), s.trace[n].shown,
                                 AuditOf(s.trace[..n]))]
                else [])
  }

  lemma ChainExtends(norm: string -> string, trace: seq<Execution>, x: Execution, x': Execution, y: Execution)
    requires Chain(norm, trace + [x])
    requires x' == x.(kind := x'.kind) && Follows(norm, x', y)
    ensures Chain(norm, trace + [x'] + [y])
  {
    var longer := trace + [x'] + [y];
    forall i | 0 <= i < |longer| - 1 ensures Follows(norm, longer[i], longer[i + 1]) {
      if i < |trace| {
        assert Follows(norm, (trace + [x])[i], (trace + [x])[i + 1]);
      }
    }
  }

  lemma ChainEnds(norm: string -> string, trace: seq<Execution>, x: Execution, x': Execution)
    requires Chain(norm, trace + [x]) && x' == x.(kind := x'.kind)
    ensures Chain(norm, trace + [x'])
  {
    forall i | 0 <= i < |trace| ensures Follows(norm, (trace + [x'])[i], (trace + [x'])[i + 1]) {
      assert Follows(norm, (trace + [x])[i], (trace + [x])[i + 1]);
    }
  }

  lemma OneMoreRecord(trace: seq<Execution>, x: Execution)
    ensures AuditOf(trace + [x]) == AuditOf(trace) + [Record(|trace|, Outcome(x))]
  {
  }

  lemma OneMoreInStreak(trace: seq<Execution>, x: Execution, before: nat)
    ensures Streak(trace + [x], before) == if Retried(x) then Streak(trace, before) + 1 else 0
  {
    assert (trace + [x])[..|trace|] == trace;
  }

  /** How one step changes the state. */
  lemma StepShape(config: Config, s: State, event: Event)
    requires event.registered
    ensures var (s', r) := SingleStep(config, s, event);
            var x := Upcoming(s).(kind := KindOf(config, event.reply));
            && s'.trace == s.trace + [x]
            && s'.action == s.action && s'.payload == s.payload && s'.params.audit == s.params.audit
            && (r.Give? ==>
                  && (x.kind.Decided? ==> r.envelope == x.kind.envelope && r.envelope.decision != Word(HALT))
                  && (!x.kind.Decided? ==> x.kind.Misaligned? && r.envelope.decision == Word(RETRY)))
            && s'.saved == s.saved +
                 if config.durable && x.kind.Decided? && Proceeds(x.kind.envelope.decision)
                 then [Checkpoint(x.kind.envelope, s.params.retries, s.params.feedback, s.params.audit)]
                 else []
  {
  }

  lemma ProceedingStepGives(config: Config, s: State, event: Event)
    requires event.registered && event.reply.Replied?
    requires Proceeds(Steered(config, event.reply.envelope, event.reply.steering).decision)
    ensures SingleStep(config, s, event).1.Give?
  {
  }

  /** How a turn that goes on changes the state. */
  lemma TurnFollows(config: Config, s: State, step: nat, event: Event)
    requires LoopTurn(config, s, step, event).Again?
    ensures var s' := LoopTurn(config, s, step, event).state;
            var x := Upcoming(s).(kind := KindOf(config, event.reply));
            && s'.trace == s.trace + [x]
            && Follows(config.norm, x, Upcoming(s'))
            && (Retried(x) || Routed(x))
            && s'.params.retries == (if Retried(x) then s.params.retries + 1 else 0)
            && (Retried(x) ==> s.params.retries < DEFAULT_MAX_RETRIES)
            && s'.params.audit == s.params.audit + [Record(step, Outcome(x))]
            && s'.saved == s.saved
  {
  }

  lemma TurnKeepsGoing(config: Config, init: State, s: State, step: nat, event: Event)
    requires Going(config, init, s, step) && LoopTurn(config, s, step, event).Again?
    ensures Going(config, init, LoopTurn(config, s, step, event).state, step + 1)
  {
    var s' := LoopTurn(config, s, step, event).state;
    var x := Upcoming(s).(kind := KindOf(config, event.reply));
    TurnFollows(config, s, step, event);
    ChainExtends(config.norm, s.trace, Upcoming(s), x, Upcoming(s'));
    OneMoreRecord(s.trace, x);
    OneMoreInStreak(s.trace, x, init.params.retries);
  }

  /** How a turn that ends the run changes the state. */
  lemma TurnEnds(config: Config, s: State, step: nat, event: Event)
    requires LoopTurn(config, s, step, event).End?
    ensures var (s', ending) := (LoopTurn(config, s, step, event).state, LoopTurn(config, s, step, event).ending);
            var x := Upcoming(s).(kind := KindOf(config, event.reply));
            && (s'.trace == s.trace || s'.trace == s.trace + [x])
            && (ending.Returned? ==>
                  && s'.trace == s.trace + [x]
                  && x.kind == Decided(ending.envelope)
                  && ending.envelope.decision !in {Word(RETRY), Word(ROUTE), Word(HALT)})
            && s'.saved == s.saved +
                 if config.durable && ending.Returned? && Proceeds(ending.envelope.decision)
                 then [Checkpoint(ending.envelope, s.params.retries, s.params.feedback, s.params.audit)]
                 else []
  {
    if !event.cancelled && event.registered {
      StepShape(config, s, event);
      var kind := KindOf(config, event.reply);
      if kind.Decided? && Proceeds(kind.envelope.decision) {
        ProceedingStepGives(config, s, event);
      }
    }
  }

  lemma TurnFinishes(config: Config, init: State, s: State, step: nat, event: Event)
    requires Going(config, init, s, step) && LoopTurn(config, s, step, event).End?
    ensures var turn := LoopTurn(config, s, step, event);
            Finished(config, init, turn.state, turn.ending) && |turn.state.trace| <= step + 1
  {
    var s' := LoopTurn(config, s, step, event).state;
    var x := Upcoming(s).(kind := KindOf(config, event.reply));
    TurnEnds(config, s, step, event);
    ChainEnds(config.norm, s.trace, Upcoming(s), x);
    if s'.trace == s.trace {
      GoingIsChain(config, init, s, step);
    } else {
      assert s'.trace[..step] == s.trace;
    }
  }

  lemma GoingIsChain(config: Config, init: State, s: State, step: nat)
    requires Going(config, init, s, step)
    ensures Chain(config.norm, s.trace)
  {
    forall i | 0 <= i < |s.trace| - 1 ensures Follows(config.norm, s.trace[i], s.trace[i + 1]) {
      var longer := s.trace + [Upcoming(s)];
      assert Follows(config.norm, longer[i], longer[i + 1]);
    }
  }

  lemma {:induction false} RunFinishes(config: Config, init: State, s: State, step: nat, max: nat, events: nat -> Event)
    requires Going(config, init, s, step) && step <= max
    ensures var (s', ending) := RunFrom(config, s, step, max, events);
            Finished(config, init, s', ending) && |s'.trace| <= max
    decreases max - step
  {
    if step == max {
      GoingIsChain(config, init, s, step);
    } else {
      var event := events(step);
      if LoopTurn(config, s, step, event).End? {
        TurnFinishes(config, init, s, step, event);
      } else {
        TurnKeepsGoing(config, init, s, step, event);
        RunFinishes(config, init, LoopTurn(config, s, step, event).state, step + 1, max, events);
      }
    }
  }

  // ----- What a run of the loop guarantees -------------------------------

  lemma {:induction false} TraceOnlyGrows(config: Config, s: State, step: nat, max: nat, events: nat -> Event)
    ensures |RunFrom(config, s, step, max, events).0.trace| >= |s.trace|
    decreases max - step
  {
    if step < max {
      var event := events(step);
      if LoopTurn(config, s, step, event).End? {
        TurnEnds(config, s, step, event);
      } else {
        TurnFollows(config, s, step, event);
        TraceOnlyGrows(config, LoopTurn(config, s, step, event).state, step + 1, max, events);
      }
    }
  }

  /** A step whose action is known executes it. */
  lemma TraceGrows(config: Config, s: State, step: nat, max: nat, events: nat -> Event)
    requires step < max && !events(step).cancelled && events(step).registered
    ensures |RunFrom(config, s, step, max, events).0.trace| > |s.trace|
  {
    var event := events(step);
    StepShape(config, s, event);
    if LoopTurn(config, s, step, event).Again? {
      TurnFollows(config, s, step, event);
      TraceOnlyGrows(config, LoopTurn(config, s, step, event).state, step + 1, max, events);
    }
  }

  /** Nothing executed, recorded or saved yet. */
  predicate Fresh(s: State) {
    s.trace == [] && s.saved == [] && s.params.audit == []
  }

  /**
    Every run executes at least once if it is not cancelled before and knows
    its action, and at most as often as its step limit. The first execution
    shows the restored hints; each later one has the reason that its
    predecessor gives. A run returns only the envelope of its last execution,
    and only if that decided neither to retry nor to route nor to halt. At most
    one checkpoint is saved, by the execution whose envelope is returned,
    holding the audit records of exactly the earlier executions.
  */
  lemma RunIsChecked(config: Config, init: State, requested: int, events: nat -> Event)
    requires Fresh(init)
    ensures var (s, ending) := Run(config, init, requested, events);
            && Finished(config, init, s, ending)
            && |s.trace| <= StepLimit(requested, config.maxSteps)
            && (!events(0).cancelled && events(0).registered ==> s.trace != [])
  {
    var max := StepLimit(requested, config.maxSteps);
    RunFinishes(config, init, init, 0, max, events);
    if !events(0).cancelled && events(0).registered {
      TraceGrows(config, init, 0, max, events);
    }
  }

  /** Executions `i` to `j - 1` were all retried. */
  predicate AllRetried(trace: seq<Execution>, i: nat, j: nat)
    requires i <= j <= |trace|
  {
    forall k | i <= k < j :: Retried(trace[k])
  }

  lemma {:induction false} StretchIsInStreak(trace: seq<Execution>, i: nat, before: nat)
    requires i <= |trace| && AllRetried(trace, i, |trace|)
    ensures |trace| - i + (if i == 0 then before else 0) <= Streak(trace, before)
    decreases |trace|
  {
    if i < |trace| {
      var n := |trace| - 1;
      assert Retried(trace[n]);
      StretchIsInStreak(trace[..n], i, before);
    }
  }

  /** Every execution that was followed by a retry had fewer than three retries before it. */
  predicate Budgeted(trace: seq<Execution>, before: nat) {
    forall k | 0 <= k < |trace| - 1 && Retried(trace[k]) :: Streak(trace[..k], before) < DEFAULT_MAX_RETRIES
  }

  lemma {:induction false} RunIsBudgeted(config: Config, init: State, s: State, step: nat, max: nat,
                                         events: nat -> Event)
    requires Going(config, init, s, step) && Budgeted(s.trace + [Upcoming(s)], init.params.retries)
    ensures Budgeted(RunFrom(config, s, step, max, events).0.trace, init.params.retries)
    decreases max - step
  {
    var before := init.params.retries;
    var longer := s.trace + [Upcoming(s)];
    ShorterIsBudgeted(s.trace, Upcoming(s), before);
    if step < max {
      var event := events(step);
      var s' := LoopTurn(config, s, step, event).state;
      var x := Upcoming(s).(kind := KindOf(config, event.reply));
      if LoopTurn(config, s, step, event).End? {
        TurnEnds(config, s, step, event);
        LastIsFree(s.trace, Upcoming(s), x, before);
      } else {
        TurnKeepsGoing(config, init, s, step, event);
        TurnFollows(config, s, step, event);
        OneMoreBudgeted(s.trace, Upcoming(s), x, Upcoming(s'), before);
        RunIsBudgeted(config, init, s', step + 1, max, events);
      }
    }
  }

  lemma ShorterIsBudgeted(trace: seq<Execution>, y: Execution, before: nat)
    requires Budgeted(trace + [y], before)
    ensures Budgeted(trace, before)
  {
    forall k | 0 <= k < |trace| - 1 && Retried(trace[k]) ensures Streak(trace[..k], before) < DEFAULT_MAX_RETRIES {
      assert (trace + [y])[k] == trace[k] && (trace + [y])[..k] == trace[..k];
    }
  }

  lemma LastIsFree(trace: seq<Execution>, y: Execution, x: Execution, before: nat)
    requires Budgeted(trace + [y], before)
    ensures Budgeted(trace + [x], before)
  {
    forall k | 0 <= k < |trace| && Retried((trace + [x])[k])
      ensures Streak((trace + [x])[..k], before) < DEFAULT_MAX_RETRIES
    {
      assert (trace + [y])[k] == (trace + [x])[k] && (trace + [y])[..k] == (trace + [x])[..k];
    }
  }

  lemma OneMoreBudgeted(trace: seq<Execution>, y: Execution, x: Execution, z: Execution, before: nat)
    requires Budgeted(trace + [y], before) && (Retried(x) ==> Streak(trace, before) < DEFAULT_MAX_RETRIES)
    ensures Budgeted(trace + [x] + [z], before)
  {
    LastIsFree(trace, y, x, before);
    var longer := trace + [x] + [z];
    forall k | 0 <= k < |longer| - 1 && Retried(longer[k]) ensures Streak(longer[..k], before) < DEFAULT_MAX_RETRIES {
      if k < |trace| {
        assert (trace + [x])[k] == longer[k] && (trace + [x])[..k] == longer[..k];
      } else {
        assert longer[..k] == trace;
      }
    }
  }

  /**
    No run retries more than three times in a row: between routes an action is
    executed at most four times. Retries restored from an earlier session count.
  */
  lemma RetriesAreBounded(config: Config, init: State, requested: int, events: nat -> Event, i: nat, j: nat)
    requires Fresh(init) && i <= j < |Run(config, init, requested, events).0.trace|
    requires AllRetried(Run(config, init, requested, events).0.trace, i, j)
    ensures i < j ==> j - i + (if i == 0 then init.params.retries else 0) <= DEFAULT_MAX_RETRIES
  {
    if i < j {
      var trace := Run(config, init, requested, events).0.trace;
      var before := init.params.retries;
      RunIsBudgeted(config, init, init, 0, StepLimit(requested, config.maxSteps), events);
      var k := j - 1;
      StretchIsInStreak(trace[..k], i, before);
      assert Retried(trace[k]) && Streak(trace[..k], before) < DEFAULT_MAX_RETRIES;
    }
  }

  // ----- Why a run goes on and why it ends -------------------------------

  /** A steering decision counts only if steering is on and the action itself left the decision open. */
  predicate Steers(config: Config, e: Envelope, steering: Option<Steering>) {
    && config.steering && e.decision in {Absent, Word("")}
    && steering.Some? && steering.value.decision != ""
  }

  /** The value replaces the old one if it is there. */
  predicate Replaces(value: Option<string>, before: string, after: string) {
    if value.None? then after == before else after == value.value
  }

  /** What an execution came to, given how the action replied. */
  predicate ComesTo(config: Config, reply: Reply, kind: Kind) {
    match reply
    case Crashed => kind == Raised
    case Rejected(message) => kind == Misaligned(message)
    case Replied(e, steering) =>
      && kind.Decided?
      && if !Steers(config, e, steering) then kind.envelope == e
         else
           && kind.envelope.decision == Word(steering.value.decision)
           && Replaces(steering.value.feedback, e.feedback, kind.envelope.feedback)
           && Replaces(steering.value.next, e.next, kind.envelope.next)
           && kind.envelope.payload == e.payload
  }

  /** The execution took place at a step that was not cancelled and whose action was known. */
  predicate Executes(config: Config, event: Event, x: Execution) {
    !event.cancelled && event.registered && ComesTo(config, event.reply, x.kind)
  }

  /** Another turn follows: a retry that is left, new and not interrupted, or a route to somewhere. */
  predicate GoesOn(config: Config, x: Execution, retries: nat, interrupted: bool) {
    if Retried(x) then
      && retries < 3 && !interrupted
      && (x.kind.Decided? ==> !IsThrashing(config.norm, x.shown, x.kind.envelope.feedback))
    else Routed(x) && x.kind.envelope.next != ""
  }

  /** How the run ends with an execution after which it does not go on. */
  function EndOf(config: Config, x: Execution, retries: nat): Ending {
    match x.kind
    case Raised => Error(ActionError)
    case Misaligned(_) => Error(if retries >= 3 then MaxRetries else Cancelled)
    case Decided(e) =>
      if e.decision == Word("RETRY") then
        Error(if retries >= 3 then MaxRetries
              else if IsThrashing(config.norm, x.shown, e.feedback) then Thrashing
              else Cancelled)
      else if e.decision == Word("ROUTE") then Error(MissingNext)
      else if e.decision == Word("HALT") then Error(Halted)
      else Returned(e)
  }

  predicate WentOn(config: Config, before: nat, trace: seq<Execution>, events: nat -> Event, i: nat)
    requires i < |trace|
  {
    GoesOn(config, trace[i], Streak(trace[..i], before), events(i).interrupted)
  }

  /** Step `i` executed the `i`-th execution. */
  predicate ExecutedAt(config: Config, trace: seq<Execution>, events: nat -> Event, i: nat)
    requires i < |trace|
  {
    Executes(config, events(i), trace[i])
  }

  /**
    Each step up to the last executed its action, and each but the last went
    on. If the last went on too, the steps ran out, or the next one was
    cancelled or did not know its action; else the last execution tells why.
  */
  predicate Accounted(config: Config, before: nat, trace: seq<Execution>, ending: Ending, max: nat,
                      events: nat -> Event)
  {
    var n := |trace|;
    && n <= max
    && (forall i: nat | i < n :: ExecutedAt(config, trace, events, i))
    && (forall i: nat | i < n - 1 :: WentOn(config, before, trace, events, i))
    && if n > 0 && !WentOn(config, before, trace, events, n - 1) then
         ending == EndOf(config, trace[n - 1], Streak(trace[..n - 1], before))
       else if n == max then ending == Error(MaxSteps)
       else if events(n).cancelled then ending == Error(Cancelled)
       else !events(n).registered && ending == Error(NotFound)
  }

  /** All executions so far went on. */
  predicate AllWentOn(config: Config, before: nat, trace: seq<Execution>, events: nat -> Event) {
    forall i: nat | i < |trace| :: ExecutedAt(config, trace, events, i) && WentOn(config, before, trace, events, i)
  }

  /** One turn, told by its execution. */
  lemma TurnIsAccounted(config: Config, s: State, step: nat, event: Event)
    ensures var x := Upcoming(s).(kind := KindOf(config, event.reply));
            match LoopTurn(config, s, step, event)
            case Again(s') =>
              && s'.trace == s.trace + [x]
              && Executes(config, event, x) && GoesOn(config, x, s.params.retries, event.interrupted)
            case End(s', ending) =>
              if event.cancelled then s'.trace == s.trace && ending == Error(Cancelled)
              else if !event.registered then s'.trace == s.trace && ending == Error(NotFound)
              else
                && s'.trace == s.trace + [x] && Executes(config, event, x)
                && !GoesOn(config, x, s.params.retries, event.interrupted)
                && ending == EndOf(config, x, s.params.retries)
  {
  }

  lemma OneMoreWentOn(config: Config, before: nat, trace: seq<Execution>, x: Execution, events: nat -> Event)
    requires AllWentOn(config, before, trace, events) && Executes(config, events(|trace|), x)
    ensures var longer := trace + [x];
            && (forall i: nat | i < |longer| :: ExecutedAt(config, longer, events, i))
            && (forall i: nat | i < |trace| :: WentOn(config, before, longer, events, i))
            && (WentOn(config, before, longer, events, |trace|) <==>
                  GoesOn(config, x, Streak(trace, before), events(|trace|).interrupted))
  {
    var longer := trace + [x];
    forall i: nat | i < |longer|
      ensures ExecutedAt(config, longer, events, i)
      ensures i < |trace| ==> WentOn(config, before, longer, events, i)
    {
      if i < |trace| {
        assert ExecutedAt(config, trace, events, i) && WentOn(config, before, trace, events, i);
        assert longer[..i] == trace[..i] && longer[i] == trace[i];
      }
    }
    assert longer[..|trace|] == trace;
  }

  lemma {:induction false} RunIsAccounted(config: Config, init: State, s: State, step: nat, max: nat,
                                          events: nat -> Event)
    requires Going(config, init, s, step) && step <= max
    requires AllWentOn(config, init.params.retries, s.trace, events)
    ensures var (s', ending) := RunFrom(config, s, step, max, events);
            Accounted(config, init.params.retries, s'.trace, ending, max, events)
    decreases max - step
  {
    if step < max {
      var event := events(step);
      var x := Upcoming(s).(kind := KindOf(config, event.reply));
      TurnIsAccounted(config, s, step, event);
      if !event.cancelled && event.registered {
        OneMoreWentOn(config, init.params.retries, s.trace, x, events);
        assert (s.trace + [x])[..step] == s.trace;
      }
      if LoopTurn(config, s, step, event).Again? {
        TurnKeepsGoing(config, init, s, step, event);
        RunIsAccounted(config, init, LoopTurn(config, s, step, event).state, step + 1, max, events);
      }
    }
  }

  /**
    Every run is accounted for, step by step, by what happened around it: what
    each reply came to, steering included, why each execution was followed by
    another, and why the run ended as it did. The step limit is the caller's if
    positive, else the client's if positive, else ten.
  */
  lemma RunEndsExactly(config: Config, init: State, requested: int, events: nat -> Event)
    requires Fresh(init)
    ensures var max := if requested > 0 then requested else if config.maxSteps > 0 then config.maxSteps else 10;
            var (s, ending) := Run(config, init, requested, events);
            Accounted(config, init.params.retries, s.trace, ending, max, events)
  {
    RunIsAccounted(config, init, init, 0, StepLimit(requested, config.maxSteps), events);
  }

  /** Two texts are alike if they are the same once normalised, or one of them is then found inside the other. */
  lemma SimilarExactly(norm: string -> string, a: string, b: string)
    ensures Similar(norm, a, b) <==>
              || a == b || norm(a) == norm(b)
              || (norm(a) != "" && exists u, v :: norm(b) == u + norm(a) + v)
              || (norm(b) != "" && exists u, v :: norm(a) == u + norm(b) + v)
  {
    ContainsExactly(norm(a), norm(b));
    ContainsExactly(norm(b), norm(a));
    if norm(a) == "" {
      assert forall u, v :: norm(a) == u + norm(b) + v ==> |norm(b)| == 0;
    }
    if norm(b) == "" {
      assert forall u, v :: norm(b) == u + norm(a) + v ==> |norm(a)| == 0;
    }
  }

  lemma ContainsExactly(s: string, part: string)
    ensures Contains(s, part) <==> exists u, v :: s == u + part + v
  {
    if i :| 0 <= i <= |s| && part <= s[i..] {
      assert s == s[..i] + part + s[i..][|part|..];
    }
    if u, v :| s == u + part + v {
      assert s[|u|..] == part + v;
    }
  }

  // ----- No feedback loops -----------------------------------------------

  lemma {:induction false} HintsAreShown(norm: string -> string, trace: seq<Execution>, i: nat, j: nat)
    requires Chain(norm, trace) && i < j < |trace| && AllRetried(trace, i, j)
    requires trace[i].kind.Decided?
    ensures trace[i].kind.envelope.feedback in trace[j].shown
    decreases j - i
  {
    assert Retried(trace[i]);
    if i + 1 < j {
      HintsAreShown(norm, trace, i, j - 1);
      assert Retried(trace[j - 1]);
    }
    assert Follows(norm, trace[j - 1], trace[j - 1 + 1]);
  }

  /** Between two routes, no two hints that lead to a retry are alike. */
  lemma NoFeedbackLoop(config: Config, init: State, requested: int, events: nat -> Event, i: nat, j: nat)
    requires Fresh(init) && i < j < |Run(config, init, requested, events).0.trace| - 1
    requires AllRetried(Run(config, init, requested, events).0.trace, i, j + 1)
    requires var trace := Run(config, init, requested, events).0.trace; trace[i].kind.Decided? && trace[j].kind.Decided?
    ensures var trace := Run(config, init, requested, events).0.trace;
            !Similar(config.norm, trace[i].kind.envelope.feedback, trace[j].kind.envelope.feedback)
  {
    RunIsChecked(config, init, requested, events);
    var trace := Run(config, init, requested, events).0.trace;
    HintsAreShown(config.norm, trace, i, j);
    assert Follows(config.norm, trace[j], trace[j + 1]) && Retried(trace[j]);
  }

  /** Hints restored from before the run are shown until the first route. */
  lemma {:induction false} RestoredAreShown(norm: string -> string, trace: seq<Execution>, j: nat, hint: string)
    requires Chain(norm, trace) && j < |trace| && AllRetried(trace, 0, j) && hint in trace[0].shown
    ensures hint in trace[j].shown
    decreases j
  {
    if j > 0 {
      RestoredAreShown(norm, trace, j - 1, hint);
      assert Retried(trace[j - 1]);
      assert Follows(norm, trace[j - 1], trace[j - 1 + 1]);
    }
  }

  /** Before the first route, no hint that leads to a retry is like one restored from an earlier session. */
  lemma NoLoopAcrossSessions(config: Config, init: State, requested: int, events: nat -> Event, j: nat, hint: string)
    requires Fresh(init) && j < |Run(config, init, requested, events).0.trace| - 1 && hint in init.params.feedback
    requires AllRetried(Run(config, init, requested, events).0.trace, 0, j + 1)
    requires Run(config, init, requested, events).0.trace[j].kind.Decided?
    ensures !Similar(config.norm, hint, Run(config, init, requested, events).0.trace[j].kind.envelope.feedback)
  {
    RunIsChecked(config, init, requested, events);
    var trace := Run(config, init, requested, events).0.trace;
    RestoredAreShown(config.norm, trace, j, hint);
    assert Follows(config.norm, trace[j], trace[j + 1]) && Retried(trace[j]);
  }

  // ----- Sessions one after another --------------------------------------

  predicate Dissimilar(norm: string -> string, feedback: seq<string>) {
    forall i, j | 0 <= i < j < |feedback| :: !Similar(norm, feedback[i], feedback[j])
  }

  /** No two hints alike, and no more hints than retries. */
  predicate Sound(norm: string -> string, retries: nat, feedback: seq<string>) {
    |feedback| <= retries && Dissimilar(norm, feedback)
  }

  predicate AllShowDissimilar(norm: string -> string, trace: seq<Execution>) {
    forall x | x in trace :: Dissimilar(norm, x.shown)
  }

  lemma {:induction false} RunShowsDissimilar(config: Config, s: State, step: nat, max: nat, events: nat -> Event)
    requires Sound(config.norm, s.params.retries, s.params.feedback) && AllShowDissimilar(config.norm, s.trace)
    ensures AllShowDissimilar(config.norm, RunFrom(config, s, step, max, events).0.trace)
    decreases max - step
  {
    if step < max {
      var event := events(step);
      if LoopTurn(config, s, step, event).End? {
        TurnEnds(config, s, step, event);
      } else {
        TurnFollows(config, s, step, event);
        TurnKeepsSound(config, s, step, event);
        RunShowsDissimilar(config, LoopTurn(config, s, step, event).state, step + 1, max, events);
      }
    }
  }

  /** From sound parameters, fresh or restored, no execution is ever shown two hints alike. */
  lemma ShownHintsAreDissimilar(config: Config, init: State, requested: int, events: nat -> Event)
    requires Fresh(init) && Sound(config.norm, init.params.retries, init.params.feedback)
    ensures AllShowDissimilar(config.norm, Run(config, init, requested, events).0.trace)
  {
    RunShowsDissimilar(config, init, 0, StepLimit(requested, config.maxSteps), events);
  }

  lemma TurnKeepsSound(config: Config, s: State, step: nat, event: Event)
    requires Sound(config.norm, s.params.retries, s.params.feedback) && LoopTurn(config, s, step, event).Again?
    ensures var s' := LoopTurn(config, s, step, event).state;
            Sound(config.norm, s'.params.retries, s'.params.feedback)
  {
    var s' := LoopTurn(config, s, step, event).state;
    var x := Upcoming(s).(kind := KindOf(config, event.reply));
    TurnFollows(config, s, step, event);
    if x.kind.Decided? && Retried(x) {
      var hint := x.kind.envelope.feedback;
      assert s'.params.feedback == s.params.feedback + [hint];
      assert forall i | 0 <= i < |s.params.feedback| :: s.params.feedback[i] in s.params.feedback;
    }
  }

  lemma {:induction false} CheckpointIsSound(config: Config, s: State, step: nat, max: nat, events: nat -> Event)
    requires Sound(config.norm, s.params.retries, s.params.feedback)
    requires forall c | c in s.saved :: Sound(config.norm, c.retries, c.feedback)
    ensures forall c | c in RunFrom(config, s, step, max, events).0.saved :: Sound(config.norm, c.retries, c.feedback)
    decreases max - step
  {
    if step < max {
      var event := events(step);
      if LoopTurn(config, s, step, event).End? {
        TurnEnds(config, s, step, event);
      } else {
        TurnFollows(config, s, step, event);
        TurnKeepsSound(config, s, step, event);
        CheckpointIsSound(config, LoopTurn(config, s, step, event).state, step + 1, max, events);
      }
    }
  }

  /** One call on a session: what it is asked to do, how often, and what happens meanwhile. */
  datatype Visit = Visit(action: string, payload: string, requested: int, events: nat -> Event)

  /** Where a call begins: with the last checkpoint's payload, retries and hints, or afresh. */
  function Hydrated(visit: Visit, stored: Option<Checkpoint>): State {
    match stored
    case None => Start(visit.action, visit.payload, 0, [])
    case Some(c) => Start(visit.action, c.envelope.payload, c.retries, c.feedback)
  }

  /** What is stored after the calls, each starting from what the one before it left. */
  function Stored(config: Config, visits: seq<Visit>): Option<Checkpoint> {
    if visits == [] then None
    else
      var n := |visits| - 1;
      var before := Stored(config, visits[..n]);
      var saved := Run(config, Hydrated(visits[n], before), visits[n].requested, visits[n].events).0.saved;
      if saved == [] then before else Some(saved[|saved| - 1])
  }

  /**
    Every call on a session first executes the action it is asked for, on the
    payload and with the hints of the last checkpoint, or afresh if there is
    none; and it leaves what it saved, or else what was stored before.
  */
  lemma CallsResume(config: Config, visits: seq<Visit>, visit: Visit)
    ensures var before := Stored(config, visits);
            var run := Run(config, Hydrated(visit, before), visit.requested, visit.events).0;
            && (run.trace != [] ==>
                  && run.trace[0].action == visit.action && run.trace[0].prompt == ""
                  && run.trace[0].payload == (if before.Some? then before.value.envelope.payload else visit.payload)
                  && run.trace[0].shown == if before.Some? then before.value.feedback else [])
            && |run.saved| <= 1
            && Stored(config, visits + [visit]) == if run.saved == [] then before else Some(run.saved[0])
  {
    assert (visits + [visit])[..|visits|] == visits;
    RunIsChecked(config, Hydrated(visit, Stored(config, visits)), visit.requested, visit.events);
  }

  /** Through any number of calls a session stores no two like hints and no more than its retries. */
  lemma {:induction false} SessionsStaySound(config: Config, visits: seq<Visit>)
    ensures Stored(config, visits).Some? ==>
              Sound(config.norm, Stored(config, visits).value.retries, Stored(config, visits).value.feedback)
  {
    if visits != [] {
      var n := |visits| - 1;
      SessionsStaySound(config, visits[..n]);
      var max := StepLimit(visits[n].requested, config.maxSteps);
      CheckpointIsSound(config, Hydrated(visits[n], Stored(config, visits[..n])), 0, max, visits[n].events);
    }
  }

  /** Through any number of calls, at most three retries in a row are ever counted. */
  lemma {:induction false} SessionsStayBounded(config: Config, visits: seq<Visit>)
    ensures Stored(config, visits).Some? ==> Stored(config, visits).value.retries <= DEFAULT_MAX_RETRIES
  {
    if visits != [] {
      var n := |visits| - 1;
      SessionsStayBounded(config, visits[..n]);
      var max := StepLimit(visits[n].requested, config.maxSteps);
      CheckpointIsBounded(config, Hydrated(visits[n], Stored(config, visits[..n])), 0, max, visits[n].events);
    }
  }

  lemma {:induction false} CheckpointIsBounded(config: Config, s: State, step: nat, max: nat, events: nat -> Event)
    requires s.params.retries <= DEFAULT_MAX_RETRIES
    requires forall c | c in s.saved :: c.retries <= DEFAULT_MAX_RETRIES
    ensures forall c | c in RunFrom(config, s, step, max, events).0.saved :: c.retries <= DEFAULT_MAX_RETRIES
    decreases max - step
  {
    if step < max {
      var event := events(step);
      if LoopTurn(config, s, step, event).End? {
        TurnEnds(config, s, step, event);
      } else {
        TurnFollows(config, s, step, event);
        CheckpointIsBounded(config, LoopTurn(config, s, step, event).state, step + 1, max, events);
      }
    }
  }
}

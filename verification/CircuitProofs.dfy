module CircuitProofs {
  import opened CircuitModel

  // ----- One probe at a time ---------------------------------------------

  function Probes(sys: System): set<nat> {
    set c | c in sys.callers && sys.callers[c].Probing?
  }

  lemma MoveProbes(sys: System, c: nat, phase: Phase)
    ensures Probes(Move(sys, c, phase)) == if phase.Probing? then Probes(sys) + {c} else Probes(sys) - {c}
  {
  }

  /** What a caller remembers is either out of date or still true. */
  predicate Remembers(sys: System, phase: Phase, timeout: int) {
    match phase
    case Read(circuit, lastOpen, generation) =>
      && generation <= sys.b.generation
      && (generation == sys.b.generation ==> circuit == sys.b.circuit && lastOpen == sys.b.lastOpen)
    case WantsProbe(lastOpen, generation) =>
      && generation <= sys.b.generation
      && sys.now - lastOpen > timeout
      && (generation == sys.b.generation ==> sys.b.circuit.Open? && lastOpen == sys.b.lastOpen)
    case _ => true
  }

  /** Half-open exactly while one probe is in flight; snapshots go stale only with the generation. */
  predicate Disciplined(cfg: Config, sys: System) {
    && (sys.b.circuit.HalfOpen? <==> Probes(sys) != {})
    && (forall c, d | c in Probes(sys) && d in Probes(sys) :: c == d)
    && forall c | c in sys.callers :: Remembers(sys, sys.callers[c], cfg.resetTimeout)
  }

  lemma CallDoneGeneration(cfg: Config, b: Breaker, outcome: Outcome, now: int)
    ensures var b' := CallDone(cfg, b, outcome, now);
            if b'.generation == b.generation then b'.circuit == b.circuit && b'.lastOpen == b.lastOpen
            else b'.generation == b.generation + 1 && b.circuit.Closed? && b'.circuit.Open?
  {
  }

  lemma StepKeepsDiscipline(cfg: Config, sys: System, step: Step)
    requires Disciplined(cfg, sys) && Enabled(sys, step)
    ensures Disciplined(cfg, Next(cfg, sys, step))
  {
    var sys' := Next(cfg, sys, step);
    match step
    case Tick(_) => assert Probes(sys') == Probes(sys);
    case Begin(c) => MoveProbes(sys, c, sys'.callers[c]);
    case Check(c) => MoveProbes(sys, c, sys'.callers[c]);
    case Claim(c) =>
      assert Remembers(sys, sys.callers[c], cfg.resetTimeout);
      MoveProbes(sys.(b := sys'.b), c, sys'.callers[c]);
      assert Probes(sys.(b := sys'.b)) == Probes(sys);
    case EndProbe(c, outcome) =>
      assert c in Probes(sys);
      MoveProbes(sys.(b := sys'.b, log := sys'.log), c, Idle);
      assert Probes(sys.(b := sys'.b, log := sys'.log)) == Probes(sys) == {c};
    case EndCall(c, outcome) =>
      CallDoneGeneration(cfg, sys.b, outcome, sys.now);
      MoveProbes(sys.(b := sys'.b, log := sys'.log), c, Idle);
      assert Probes(sys.(b := sys'.b, log := sys'.log)) == Probes(sys);
  }

  lemma {:induction false} RunKeepsDiscipline(cfg: Config, sys: System, steps: seq<Step>)
    requires Disciplined(cfg, sys) && ValidRun(cfg, sys, steps)
    ensures Disciplined(cfg, After(cfg, sys, steps))
    decreases |steps|
  {
    if steps != [] {
      StepKeepsDiscipline(cfg, sys, steps[0]);
      RunKeepsDiscipline(cfg, Next(cfg, sys, steps[0]), steps[1..]);
    }
  }

  /**
    In every interleaving the breaker is half-open exactly when one probe is in
    flight, and there are never two.
  */
  lemma AtMostOneProbe(cfg: Config, start: int, steps: seq<Step>)
    requires ValidRun(cfg, Initial(start), steps)
    ensures var sys := After(cfg, Initial(start), steps);
            && (sys.b.circuit.HalfOpen? <==> |Probes(sys)| == 1)
            && |Probes(sys)| <= 1
  {
    RunKeepsDiscipline(cfg, Initial(start), steps);
    var sys := After(cfg, Initial(start), steps);
    if Probes(sys) != {} {
      var c :| c in Probes(sys);
      assert Probes(sys) == {c};
    }
  }

  /**
    The circuit turns half-open only by a claim, only from open, and only when
    more than the reset timeout has passed since it was last opened. A claim on
    an unchanged generation is never refused.
  */
  lemma HalfOpenAfterTimeout(cfg: Config, start: int, steps: seq<Step>, step: Step)
    requires ValidRun(cfg, Initial(start), steps)
    requires Enabled(After(cfg, Initial(start), steps), step)
    ensures var sys := After(cfg, Initial(start), steps);
            var sys' := Next(cfg, sys, step);
            && (!sys.b.circuit.HalfOpen? && sys'.b.circuit.HalfOpen? ==>
                  step.Claim? && sys.b.circuit.Open? && sys.now - sys.b.lastOpen > cfg.resetTimeout)
            && (step.Claim? ==> !TryProbe(sys.b, PhaseOf(sys, step.c).generation).1.Refused?)
  {
    RunKeepsDiscipline(cfg, Initial(start), steps);
    var sys := After(cfg, Initial(start), steps);
    if step.Claim? {
      assert Remembers(sys, sys.callers[step.c], cfg.resetTimeout);
    }
  }

  // ----- Counting failures -----------------------------------------------

  function Limit(cfg: Config): nat {
    if cfg.threshold == 0 then 1 else cfg.threshold
  }

  /** Counted failures seen in Closed since the last success seen in Closed or the last closing probe. */
  function Streak(log: seq<Event>): nat {
    if log == [] then 0
    else
      var before := Streak(log[..|log| - 1]);
      match log[|log| - 1]
      case Called(Success, Closed) => 0
      case Called(Counted, Closed) => before + 1
      case Called(_, _) => before
      case Probed(Counted) => before
      case Probed(_) => 0
  }

  /** Closed means a streak below the limit, which is what the counter holds. */
  predicate Counts(cfg: Config, sys: System) {
    sys.b.circuit.Closed? ==> sys.b.failures == Streak(sys.log) < Limit(cfg)
  }

  lemma OneMoreEvent(log: seq<Event>, e: Event)
    ensures Streak(log + [e]) ==
              match e
              case Called(Success, Closed) => 0
              case Called(Counted, Closed) => Streak(log) + 1
              case Called(_, _) => Streak(log)
              case Probed(Counted) => Streak(log)
              case Probed(_) => 0
  {
    assert (log + [e])[..|log|] == log;
  }

  lemma StepKeepsCount(cfg: Config, sys: System, step: Step)
    requires Disciplined(cfg, sys) && Counts(cfg, sys) && Enabled(sys, step)
    ensures Counts(cfg, Next(cfg, sys, step))
  {
    match step
    case EndProbe(c, outcome) => OneMoreEvent(sys.log, Probed(outcome));
    case EndCall(c, outcome) => OneMoreEvent(sys.log, Called(outcome, sys.b.circuit));
    case _ =>
  }

  lemma {:induction false} RunKeepsCount(cfg: Config, sys: System, steps: seq<Step>)
    requires Disciplined(cfg, sys) && Counts(cfg, sys) && ValidRun(cfg, sys, steps)
    ensures Counts(cfg, After(cfg, sys, steps))
    decreases |steps|
  {
    if steps != [] {
      StepKeepsDiscipline(cfg, sys, steps[0]);
      StepKeepsCount(cfg, sys, steps[0]);
      RunKeepsCount(cfg, Next(cfg, sys, steps[0]), steps[1..]);
    }
  }

  /**
    Over every interleaving a report opens a closed circuit exactly when it is
    the counted failure that completes the streak; neutral errors and reports
    that find the circuit not closed change nothing at all.
  */
  lemma OpensExactlyAtLimit(cfg: Config, start: int, steps: seq<Step>, c: nat, outcome: Outcome)
    requires ValidRun(cfg, Initial(start), steps)
    requires Enabled(After(cfg, Initial(start), steps), EndCall(c, outcome))
    ensures var sys := After(cfg, Initial(start), steps);
            var b := Next(cfg, sys, EndCall(c, outcome)).b;
            && (sys.b.circuit.Closed? ==> sys.b.failures == Streak(sys.log) < Limit(cfg))
            && (sys.b.circuit.Closed? && b.circuit.Open? <==>
                  sys.b.circuit.Closed? && outcome.Counted? && Streak(sys.log) + 1 == Limit(cfg))
            && (outcome.Neutral? || !sys.b.circuit.Closed? ==> b == sys.b)
  {
    RunKeepsDiscipline(cfg, Initial(start), []);
    RunKeepsCount(cfg, Initial(start), steps);
  }

  /** An open circuit stays open, and keeps its opening time, until a probe is claimed. */
  lemma OnlyClaimsLeaveOpen(cfg: Config, sys: System, step: Step)
    requires Disciplined(cfg, sys) && Enabled(sys, step) && sys.b.circuit.Open?
    ensures var sys' := Next(cfg, sys, step);
            || sys'.b == sys.b
            || (step.Claim? && sys'.b == sys.b.(circuit := HalfOpen, generation := sys.b.generation + 1))
  {
    assert forall c | c in sys.callers :: sys.callers[c].Probing? ==> c in Probes(sys);
  }

  // ----- How the circuit recovers ----------------------------------------

  /**
    Over every interleaving the report of a probe decides: the circuit closes
    with no failures counted exactly if the outcome was no counted failure, and
    otherwise it is open again from that moment.
  */
  lemma ProbeDecides(cfg: Config, start: int, steps: seq<Step>, c: nat, outcome: Outcome)
    requires ValidRun(cfg, Initial(start), steps)
    requires Enabled(After(cfg, Initial(start), steps), EndProbe(c, outcome))
    ensures var sys := After(cfg, Initial(start), steps);
            var b := Next(cfg, sys, EndProbe(c, outcome)).b;
            && sys.b.circuit.HalfOpen?
            && (b.circuit.Closed? && b.failures == 0 <==> !outcome.Counted?)
            && (b.circuit.Open? && b.lastOpen == sys.now <==> outcome.Counted?)
            && (!outcome.Counted? ==> b.lastOpen == sys.b.lastOpen)
            && (outcome.Counted? ==> b.failures == sys.b.failures)
  {
    RunKeepsDiscipline(cfg, Initial(start), steps);
    assert c in Probes(After(cfg, Initial(start), steps));
  }

  /** The step is the report of an outcome. */
  predicate Reports(step: Step, outcome: Outcome) {
    (step.EndProbe? || step.EndCall?) && step.outcome == outcome
  }

  /**
    Over every interleaving the circuit opens only at a counted failure, and
    then `lastOpen` is the moment it opened; it closes only at a probe that did
    not fail; and `lastOpen` changes at no other step.
  */
  lemma CircuitTurnsExactly(cfg: Config, start: int, steps: seq<Step>, step: Step)
    requires ValidRun(cfg, Initial(start), steps)
    requires Enabled(After(cfg, Initial(start), steps), step)
    ensures var sys := After(cfg, Initial(start), steps);
            var b := Next(cfg, sys, step).b;
            && (!sys.b.circuit.Open? && b.circuit.Open? <==>
                  && Reports(step, Counted)
                  && (step.EndProbe? || (sys.b.circuit.Closed? && Streak(sys.log) + 1 == Limit(cfg))))
            && (!sys.b.circuit.Open? && b.circuit.Open? ==> b.lastOpen == sys.now)
            && (b.lastOpen != sys.b.lastOpen ==> !sys.b.circuit.Open? && b.circuit.Open?)
            && (!sys.b.circuit.Closed? && b.circuit.Closed? <==> step.EndProbe? && !step.outcome.Counted?)
  {
    RunKeepsDiscipline(cfg, Initial(start), steps);
    RunKeepsCount(cfg, Initial(start), steps);
    var sys := After(cfg, Initial(start), steps);
    assert forall c | PhaseOf(sys, c).Probing? :: c in Probes(sys);
  }

  // ----- A call that nothing interrupts ----------------------------------

  /** The circuit is closed, or has been open for longer than the reset timeout. */
  predicate LetsThrough(cfg: Config, b: Breaker, now: int) {
    b.circuit.Closed? || (b.circuit.Open? && now - b.lastOpen > cfg.resetTimeout)
  }

  /** The steps of a caller that is alone, from its first reading to its report. */
  function CallSteps(cfg: Config, b: Breaker, outcome: Outcome, now: int, later: int): seq<Step> {
    if !LetsThrough(cfg, b, now) then [Begin(0), Check(0)]
    else if b.circuit.Closed? then [Begin(0), Check(0), Tick(later), EndCall(0, outcome)]
    else [Begin(0), Check(0), Claim(0), Tick(later), EndProbe(0, outcome)]
  }

  function Alone(b: Breaker, now: int): System {
    System(b, map[], now, [])
  }

  lemma RunOne(cfg: Config, sys: System, step: Step, steps: seq<Step>)
    requires Enabled(sys, step) && ValidRun(cfg, Next(cfg, sys, step), steps)
    ensures ValidRun(cfg, sys, [step] + steps)
    ensures After(cfg, sys, [step] + steps) == After(cfg, Next(cfg, sys, step), steps)
  {
    assert ([step] + steps)[1..] == steps;
  }

  /** A lone call claims the probe at once and leaves the breaker as its report says. */
  lemma LoneCall(cfg: Config, b: Breaker, outcome: Outcome, now: int, later: int)
    requires now <= later
    ensures var steps := CallSteps(cfg, b, outcome, now, later);
            && ValidRun(cfg, Alone(b, now), steps)
            && After(cfg, Alone(b, now), steps).b ==
               if !LetsThrough(cfg, b, now) then b
               else if b.circuit.Closed? then CallDone(cfg, b, outcome, later)
               else ProbeDone(TryProbe(b, b.generation).0, outcome, later)
  {
    var s0 := Alone(b, now);
    var s1 := Next(cfg, s0, Begin(0));
    var s2 := Next(cfg, s1, Check(0));
    if !LetsThrough(cfg, b, now) {
      RunOne(cfg, s1, Check(0), []);
      RunOne(cfg, s0, Begin(0), [Check(0)]);
    } else if b.circuit.Closed? {
      var s3 := Next(cfg, s2, Tick(later));
      RunOne(cfg, s3, EndCall(0, outcome), []);
      RunOne(cfg, s2, Tick(later), [EndCall(0, outcome)]);
      RunOne(cfg, s1, Check(0), [Tick(later), EndCall(0, outcome)]);
      RunOne(cfg, s0, Begin(0), [Check(0), Tick(later), EndCall(0, outcome)]);
    } else {
      var s3 := Next(cfg, s2, Claim(0));
      var s4 := Next(cfg, s3, Tick(later));
      RunOne(cfg, s4, EndProbe(0, outcome), []);
      RunOne(cfg, s3, Tick(later), [EndProbe(0, outcome)]);
      RunOne(cfg, s2, Claim(0), [Tick(later), EndProbe(0, outcome)]);
      RunOne(cfg, s1, Check(0), [Claim(0), Tick(later), EndProbe(0, outcome)]);
      RunOne(cfg, s0, Begin(0), [Check(0), Claim(0), Tick(later), EndProbe(0, outcome)]);
    }
  }
}

/**
  The circuit breaker under many concurrent callers. Every critical section is
  one step: read the state, try to become the probe, report a probe, report an
  ordinary call. Callers, clock readings and outcomes interleave freely.
*/
module CircuitModel {

  datatype Circuit = Closed | Open | HalfOpen

  /** How the inner action ended, as the failure classifier sees it. */
  datatype Outcome = Success | Counted | Neutral

  datatype Config = Config(threshold: nat, resetTimeout: int)

  datatype Breaker = Breaker(circuit: Circuit, failures: nat, lastOpen: int, generation: nat)

  const FRESH := Breaker(Closed, 0, 0, 0)

  // ----- The four critical sections --------------------------------------

  datatype Verdict = Probe | Restart | Refused

  /** Re-validates under the write lock and claims the probe. */
  function TryProbe(b: Breaker, generation: nat): (Breaker, Verdict) {
    if b.generation != generation then (b, Restart)
    else if b.circuit.Open? then (b.(circuit := HalfOpen, generation := b.generation + 1), Probe)
    else (b, Refused)
  }

  function ProbeDone(b: Breaker, outcome: Outcome, now: int): Breaker {
    if outcome.Counted? then b.(circuit := Open, lastOpen := now, generation := b.generation + 1)
    else b.(circuit := Closed, failures := 0, generation := b.generation + 1)
  }

  function CallDone(cfg: Config, b: Breaker, outcome: Outcome, now: int): Breaker {
    if !b.circuit.Closed? then b
    else match outcome
      case Success => b.(failures := 0)
      case Neutral => b
      case Counted =>
        if b.failures + 1 >= cfg.threshold
        then b.(circuit := Open, failures := b.failures + 1, lastOpen := now, generation := b.generation + 1)
        else b.(failures := b.failures + 1)
  }

  // ----- Callers ---------------------------------------------------------

  /** Where a caller is between two critical sections. */
  datatype Phase =
    | Idle
    | Read(circuit: Circuit, lastOpen: int, generation: nat)
    | WantsProbe(lastOpen: int, generation: nat)
    | Probing
    | Calling

  /** What reports have been made, in order, and in which state each found the breaker. */
  datatype Event =
    | Called(outcome: Outcome, found: Circuit)
    | Probed(outcome: Outcome)

  /** The breaker, its callers, the clock, and the record of reports. */
  datatype System = System(b: Breaker, callers: map<nat, Phase>, now: int, log: seq<Event>)

  datatype Step =
    | Tick(now: int)
    | Begin(c: nat)
    | Check(c: nat)
    | Claim(c: nat)
    | EndProbe(c: nat, outcome: Outcome)
    | EndCall(c: nat, outcome: Outcome)

  function PhaseOf(sys: System, c: nat): Phase {
    if c in sys.callers then sys.callers[c] else Idle
  }

  predicate Enabled(sys: System, step: Step) {
    match step
    case Tick(now) => sys.now <= now
    case Begin(c) => PhaseOf(sys, c).Idle?
    case Check(c) => PhaseOf(sys, c).Read?
    case Claim(c) => PhaseOf(sys, c).WantsProbe?
    case EndProbe(c, _) => PhaseOf(sys, c).Probing?
    case EndCall(c, _) => PhaseOf(sys, c).Calling?
  }

  /** What a caller does next with what it has read; `Idle` turns it away. */
  function Admitted(cfg: Config, read: Phase, now: int): Phase
    requires read.Read?
  {
    if read.circuit.Open? then
      if now - read.lastOpen <= cfg.resetTimeout then Idle else WantsProbe(read.lastOpen, read.generation)
    else if read.circuit.HalfOpen? then Idle
    else Calling
  }

  function Move(sys: System, c: nat, phase: Phase): System {
    sys.(callers := sys.callers[c := phase])
  }

  function Next(cfg: Config, sys: System, step: Step): System
    requires Enabled(sys, step)
  {
    match step
    case Tick(now) => sys.(now := now)
    case Begin(c) => Move(sys, c, Read(sys.b.circuit, sys.b.lastOpen, sys.b.generation))
    case Check(c) =>
      Move(sys, c, Admitted(cfg, PhaseOf(sys, c), sys.now))
    case Claim(c) =>
      var (b, verdict) := TryProbe(sys.b, PhaseOf(sys, c).generation);
      Move(sys.(b := b), c, if verdict.Probe? then Probing else Idle)
    case EndProbe(c, outcome) =>
      Move(sys.(b := ProbeDone(sys.b, outcome, sys.now), log := sys.log + [Probed(outcome)]), c, Idle)
    case EndCall(c, outcome) =>
      var log := sys.log + [Called(outcome, sys.b.circuit)];
      Move(sys.(b := CallDone(cfg, sys.b, outcome, sys.now), log := log), c, Idle)
  }

  predicate ValidRun(cfg: Config, sys: System, steps: seq<Step>)
    decreases |steps|
  {
    steps == [] || (Enabled(sys, steps[0]) && ValidRun(cfg, Next(cfg, sys, steps[0]), steps[1..]))
  }

  function After(cfg: Config, sys: System, steps: seq<Step>): System
    requires ValidRun(cfg, sys, steps)
    decreases |steps|
  {
    if steps == [] then sys else After(cfg, Next(cfg, sys, steps[0]), steps[1..])
  }

  function Initial(now: int): System {
    System(FRESH, map[], now, [])
  }
}

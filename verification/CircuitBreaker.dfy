/** The breaker itself: each critical section is a method that takes the model's step. */
module CircuitBreaker {
  import opened CircuitModel
  import opened CircuitProofs

  class CircuitBreaker {
    const cfg: Config
    var circuit: Circuit
    var failures: nat
    var lastOpen: int
    var generation: nat

    ghost function View(): Breaker
      reads this
    {
      Breaker(circuit, failures, lastOpen, generation)
    }

    constructor (cfg: Config)
      ensures View() == FRESH && this.cfg == cfg
    {
      this.cfg := cfg;
      circuit, failures, lastOpen, generation := Closed, 0, 0, 0;
    }

    /** What the caller does next: it is turned away exactly if the breaker does not let it through. */
    method Admit(now: int) returns (phase: Phase)
      ensures phase == Admitted(cfg, Read(circuit, lastOpen, generation), now)
      ensures phase.Idle? <==> !LetsThrough(cfg, View(), now)
    {
      if circuit == Open {
        if now - lastOpen <= cfg.resetTimeout {
          return Idle;
        }
        return WantsProbe(lastOpen, generation);
      }
      if circuit == HalfOpen {
        return Idle;
      }
      return Calling;
    }

    /**
      A call that nothing interrupts. It runs the inner action exactly if the
      breaker lets it through, and takes the steps of a lone caller. A call
      let through by an open breaker closes it, unless it is a counted failure,
      which keeps it open from then on; one through a closed breaker opens it
      exactly if it is a counted failure that reaches the threshold.
    */
    method Execute(outcome: Outcome, now: int, later: int) returns (ran: bool)
      requires now <= later
      modifies this
      ensures ran <==> LetsThrough(cfg, old(View()), now)
      ensures var steps := CallSteps(cfg, old(View()), outcome, now, later);
              && ValidRun(cfg, Alone(old(View()), now), steps)
              && View() == After(cfg, Alone(old(View()), now), steps).b
      ensures !ran ==> View() == old(View())
      ensures ran && old(circuit).Open? ==>
                if outcome == Counted then circuit == Open && lastOpen == later && failures == old(failures)
                else circuit == Closed && failures == 0 && lastOpen == old(lastOpen)
      ensures ran && old(circuit).Closed? ==>
                && failures == (match outcome
                                case Success => 0
                                case Neutral => old(failures)
                                case Counted => old(failures) + 1)
                && (circuit == Open <==> outcome == Counted && failures >= cfg.threshold)
                && (circuit == Closed <==> circuit != Open)
                && lastOpen == if circuit == Open then later else old(lastOpen)
    {
      LoneCall(cfg, View(), outcome, now, later);
      var phase := Admit(now);
      if phase.Idle? {
        return false;
      }
      if phase.Calling? {
        RunStandard(outcome, later);
      } else {
        var verdict := Claim(phase.generation);
        assert verdict.Probe?;
        RunProbe(outcome, later);
      }
      ran := true;
    }

    method Claim(seen: nat) returns (verdict: Verdict)
      modifies this
      ensures (View(), verdict) == TryProbe(old(View()), seen)
    {
      if generation != seen {
        return Restart;
      }
      if circuit == Open {
        circuit := HalfOpen;
        generation := generation + 1;
        return Probe;
      }
      return Refused;
    }

    method RunProbe(outcome: Outcome, now: int)
      modifies this
      ensures View() == ProbeDone(old(View()), outcome, now)
    {
      if outcome == Counted {
        circuit, lastOpen := Open, now;
      } else {
        circuit, failures := Closed, 0;
      }
      generation := generation + 1;
    }

    method RunStandard(outcome: Outcome, now: int)
      modifies this
      ensures View() == CallDone(cfg, old(View()), outcome, now)
    {
      if circuit != Closed {
        return;
      }
      match outcome
      case Success => failures := 0;
      case Neutral =>
      case Counted =>
        failures := failures + 1;
        if failures >= cfg.threshold {
          circuit, lastOpen := Open, now;
          generation := generation + 1;
        }
    }
  }
}

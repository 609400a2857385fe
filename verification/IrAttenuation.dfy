/** Taking capabilities away from a program only cuts its run short. */
module IrAttenuation {
  import opened Bytes
  import opened Bits
  import opened Ir

  function TraceOf(o: Outcome): seq<Effect> {
    match o
    case Running(s) => s.trace
    case Halted(trace) => trace
    case Trapped(_, _, trace) => trace
    case Aborted(trace) => trace
  }

  /** Effects are only ever added. */
  lemma StepExtendsTrace(code: seq<byte>, host: Host, s: State)
    ensures s.trace <= TraceOf(Step(code, host, s))
  {
    hide Plain, Push, I64, Range, Can;
  }

  lemma {:induction false} RunExtendsTrace(code: seq<byte>, host: Host, s: State, n: nat)
    ensures s.trace <= TraceOf(Run(code, host, s, n))
    decreases n
  {
    hide Step;
    if n > 0 {
      StepExtendsTrace(code, host, s);
      match Step(code, host, s)
      case Running(s1) => RunExtendsTrace(code, host, s1, n - 1);
      case _ =>
    }
  }

  /** `o1` is `o2`, or stopped early for want of a capability. */
  predicate CutShort(o1: Outcome, o2: Outcome) {
    o1 == o2 || (o1.Trapped? && o1.trap == MissingCapability && o1.trace <= TraceOf(o2))
  }

  lemma StepAttenuates(code: seq<byte>, host: Host, caps: nat, s: State)
    requires Within(caps, host.caps)
    ensures var o1, o2 := Step(code, host.(caps := caps), s), Step(code, host, s);
            o1 == o2 || (o1.Trapped? && o1.trap == MissingCapability && o1.trace == s.trace)
  {
    if s.pc + 1 < |code| && And(caps, CapOf(code[s.pc + 1])) != 0 {
      MeetsMore(caps, host.caps, CapOf(code[s.pc + 1]));
    }
    hide Plain, Push, I64, Range, And;
  }

  /** For every program, every host, every subset of its capabilities and every number of steps: the weaker run's effects are
      a prefix of the stronger run's, and the runs are the same unless the weaker one stopped on a missing capability. */
  lemma {:induction false} AttenuationOnlyTruncates(code: seq<byte>, host: Host, caps: nat, s: State, n: nat)
    requires Within(caps, host.caps)
    ensures CutShort(Run(code, host.(caps := caps), s, n), Run(code, host, s, n))
    ensures TraceOf(Run(code, host.(caps := caps), s, n)) <= TraceOf(Run(code, host, s, n))
    decreases n
  {
    hide Step, Within;
    if n > 0 {
      StepAttenuates(code, host, caps, s);
      RunExtendsTrace(code, host, s, n);
      match Step(code, host.(caps := caps), s)
      case Running(s1) => AttenuationOnlyTruncates(code, host, caps, s1, n - 1);
      case _ =>
    }
  }
}

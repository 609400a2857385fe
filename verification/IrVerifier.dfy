/** The bytecode verifier: two passes over the code, and what passing them guarantees. */
module IrVerifier {
  import opened Bytes
  import opened Ir

  /** The first thing wrong with the walk from `from`, if anything. */
  function WalkError(code: seq<byte>, from: nat): Option<Trap>
    requires from <= |code|
    decreases |code| - from
  {
    if from == |code| then None
    else if OpSize(code[from]).None? then Some(BadOpcode)
    else if from + OpSize(code[from]).value > |code| then Some(Truncated)
    else WalkError(code, Next(code, from))
  }

  lemma {:induction false} WalkDecides(code: seq<byte>, from: nat)
    requires from <= |code|
    ensures WalkError(code, from) == None <==> Decodes(code, from)
    decreases |code| - from
  {
    if Fits(code, from) {
      WalkDecides(code, Next(code, from));
    }
  }

  /** Walks compose. */
  lemma {:induction false} ReachesThen(code: seq<byte>, a: nat, b: nat, c: nat)
    requires Reaches(code, a, b) && Reaches(code, b, c)
    ensures Reaches(code, a, c)
    decreases |code| - a
  {
    if a != b {
      ReachesThen(code, Next(code, a), b, c);
    }
  }

  /** Two places on one walk: the nearer reaches the farther. */
  lemma {:induction false} ReachesOn(code: seq<byte>, a: nat, b: nat, c: nat)
    requires Reaches(code, a, b) && Reaches(code, a, c) && b <= c
    ensures Reaches(code, b, c)
    decreases |code| - a
  {
    if a != b && a != c {
      ReachesOn(code, Next(code, a), b, c);
    } else if a != b {
      ReachesForward(code, a, b);
    }
  }

  lemma {:induction false} ReachesForward(code: seq<byte>, a: nat, b: nat)
    requires Reaches(code, a, b)
    ensures a <= b
    decreases |code| - a
  {
    if a != b {
      ReachesForward(code, Next(code, a), b);
    }
  }

  /** From a boundary of code that decodes, the walk goes on to the end. */
  lemma {:induction false} BoundaryDecodes(code: seq<byte>, a: nat, p: nat)
    requires Decodes(code, a) && Reaches(code, a, p)
    ensures Decodes(code, p) && p <= |code|
    decreases |code| - a
  {
    if a != p {
      BoundaryDecodes(code, Next(code, a), p);
    }
  }

  lemma {:induction false} DecodesReachesEnd(code: seq<byte>, a: nat)
    requires Decodes(code, a)
    ensures Reaches(code, a, |code|)
    decreases |code| - a
  {
    if a != |code| {
      DecodesReachesEnd(code, Next(code, a));
    }
  }

  /** No boundary lies strictly between two neighbours. */
  lemma NothingBetween(code: seq<byte>, pc: nat, p: nat)
    requires Reaches(code, 0, pc) && Fits(code, pc) && pc < p < Next(code, pc)
    ensures !Reaches(code, 0, p)
  {
    if Reaches(code, 0, p) {
      ReachesOn(code, 0, pc, p);
      ReachesForward(code, Next(code, pc), p);
    }
  }

  /** `verify`. Every rejection says what is wrong with the program, and a program is accepted exactly if it is well formed. */
  method Verify(code: seq<byte>) returns (r: Option<Trap>)
    ensures r == None <==> WellFormed(code)
    ensures r == if |code| > MAX_PROG then Some(TooLong)
                 else if !Decodes(code, 0) then WalkError(code, 0)
                 else if WellFormed(code) then None
                 else Some(BadTarget)
  {
    if |code| > MAX_PROG {
      return Some(TooLong);
    }
    WalkDecides(code, 0);
    var starts := new bool[MAX_PROG + 1](_ => false);
    var pc := 0;
    while pc < |code|
      invariant pc <= |code| && Reaches(code, 0, pc) && WalkError(code, 0) == WalkError(code, pc)
      invariant forall p :: 0 <= p < pc ==> starts[p] == Reaches(code, 0, p)
      invariant forall p :: pc <= p <= MAX_PROG ==> !starts[p]
    {
      starts[pc] := true;
      if OpSize(code[pc]).None? {
        return Some(BadOpcode);
      }
      var size := OpSize(code[pc]).value;
      if pc + size > |code| {
        return Some(Truncated);
      }
      forall p | pc < p < pc + size
        ensures !Reaches(code, 0, p)
      {
        NothingBetween(code, pc, p);
      }
      ReachesThen(code, 0, pc, pc + size);
      pc := pc + size;
    }
    starts[|code|] := true;
    r := CheckTargets(code, starts);
  }

  method CheckTargets(code: seq<byte>, starts: array<bool>) returns (r: Option<Trap>)
    requires |code| <= MAX_PROG && starts.Length == MAX_PROG + 1 && Decodes(code, 0)
    requires forall p :: 0 <= p <= |code| ==> starts[p] == Reaches(code, 0, p)
    ensures r == if WellFormed(code) then None else Some(BadTarget)
  {
    var pc := 0;
    while pc < |code|
      invariant pc <= |code| && Boundary(code, pc)
      invariant forall p :: 0 <= p < pc && Boundary(code, p) && Fits(code, p) ==> TargetOk(code, p)
    {
      BoundaryDecodes(code, 0, pc);
      var op := code[pc];
      if IsBranch(op) {
        var t := U16At(code, pc + 1);
        if t >= |code| || !starts[t] {
          assert !TargetOk(code, pc);
          return Some(BadTarget);
        }
      }
      forall p | pc < p < Next(code, pc)
        ensures !Boundary(code, p)
      {
        NothingBetween(code, pc, p);
      }
      ReachesThen(code, 0, pc, Next(code, pc));
      pc := pc + OpSize(op).value;
    }
    return None;
  }

  // --- Soundness ----------------------------------------------------------------------------

  /** The program counter and every saved return address are boundaries, and both stacks are within their bounds. */
  ghost predicate Sound(code: seq<byte>, s: State) {
    && Boundary(code, s.pc) && s.pc <= |code|
    && |s.vm.stack| <= STACK_SIZE && |s.vm.calls| <= CALL_SIZE
    && forall k :: 0 <= k < |s.vm.calls| ==> Boundary(code, s.vm.calls[k]) && s.vm.calls[k] <= |code|
  }

  /** A verified program never runs off an instruction, and meets an unknown opcode only as an unknown host call. */
  ghost predicate Expected(code: seq<byte>, o: Outcome) {
    match o
    case Running(s) => Sound(code, s)
    case Trapped(t, at, _) =>
      && t != Truncated && t != BadTarget && t != TooLong
      && (t == BadOpcode ==> at + 1 < |code| && Boundary(code, at) && code[at] == HOSTCALL && code[at + 1] > HC_CAIRN_GET)
    case _ => true
  }

  predicate Mild(t: Trap) {
    t != Truncated && t != BadTarget && t != TooLong && t != BadOpcode
  }

  lemma PlainIsMild(op: byte, vm: Vm)
    requires IsPlain(op) && |vm.stack| <= STACK_SIZE
    ensures match Plain(op, vm)
            case Ok(vm1) => |vm1.stack| <= STACK_SIZE && vm1.calls == vm.calls
            case Err(t) => Mild(t)
            case Overflow => true
  {
  }

  lemma GrantedIsMild(host: Host, s: State, f: byte, at: nat)
    requires f <= HC_CAIRN_GET && |s.vm.stack| <= STACK_SIZE
    ensures match Granted(host, s, f, at)
            case Running(s1) => |s1.vm.stack| <= STACK_SIZE && s1.vm.calls == s.vm.calls && s1.pc == s.pc
            case Trapped(t, _, _) => Mild(t)
            case _ => true
  {
  }

  lemma StepIsSound(code: seq<byte>, host: Host, s: State)
    requires WellFormed(code) && Sound(code, s)
    ensures Expected(code, Step(code, host, s))
  {
    hide Plain, Granted, I64;
    if s.pc < |code| {
      BoundaryDecodes(code, 0, s.pc);
      assert Fits(code, s.pc) && TargetOk(code, s.pc);
      ReachesThen(code, 0, s.pc, Next(code, s.pc));
      var op := code[s.pc];
      if IsPlain(op) {
        PlainIsMild(op, s.vm);
      } else if op == HOSTCALL && code[s.pc + 1] <= HC_CAIRN_GET {
        GrantedIsMild(host, s.(pc := s.pc + 2), code[s.pc + 1], s.pc);
      }
    }
  }

  /** Verified programs are safe to run, for any host and any number of steps. */
  lemma {:induction false} VerifiedRunsAreSound(code: seq<byte>, host: Host, s: State, n: nat)
    requires WellFormed(code) && Sound(code, s)
    ensures Expected(code, Run(code, host, s, n))
    decreases n
  {
    hide WellFormed, Step, Sound;
    if n > 0 {
      StepIsSound(code, host, s);
      match Step(code, host, s)
      case Running(s1) => VerifiedRunsAreSound(code, host, s1, n - 1);
      case _ =>
    }
  }

  /** So a program that passes the verifier is safe from its first instruction on. */
  lemma VerifiedProgramsAreSound(code: seq<byte>, host: Host, n: nat)
    requires WellFormed(code)
    ensures Expected(code, Run(code, host, START, n))
  {
    assert Sound(code, START);
    VerifiedRunsAreSound(code, host, START, n);
  }
}

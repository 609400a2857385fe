/** The interpreter as the code runs it: fixed arrays with stack pointers, changed in place. */
module IrMachine {
  import opened Bytes
  import Ir

  type Trap = Ir.Trap
  type i64 = Ir.i64

  class Machine {
    const stack: array<i64>
    var sp: nat
    const calls: array<nat>
    var csp: nat
    const mem: array<byte>

    ghost predicate Valid()
      reads this
    {
      && stack.Length == Ir.STACK_SIZE && sp <= stack.Length
      && calls.Length == Ir.CALL_SIZE && csp <= calls.Length
      && mem.Length == Ir.MEM_SIZE
    }

    function Vm(): Ir.Vm
      requires Valid()
      reads this, stack, calls, mem
    {
      Ir.Vm(stack[..sp], calls[..csp], mem[..])
    }

    constructor ()
      ensures Valid() && Vm() == Ir.START.vm && fresh(stack) && fresh(calls) && fresh(mem)
    {
      stack := new i64[Ir.STACK_SIZE](_ => 0);
      sp := 0;
      calls := new nat[Ir.CALL_SIZE](_ => 0);
      csp := 0;
      mem := new byte[Ir.MEM_SIZE](_ => 0);
      new;
      assert mem[..] == Zeros(Ir.MEM_SIZE);
    }

    // --- Operand stack and memory --------------------------------------------------------

    method Push(v: i64) returns (r: Ir.Result<()>)
      requires Valid()
      modifies stack, `sp
      ensures Valid()
      ensures match Ir.Push(old(Vm()), v)
              case Ok(vm) => r == Ir.Ok(()) && Vm() == vm
              case Err(t) => r == Ir.Err(t)
              case Overflow => r == Ir.Overflow
    {
      if sp >= Ir.STACK_SIZE {
        return Ir.Err(Ir.StackOverflow);
      }
      stack[sp] := v;
      sp := sp + 1;
      assert stack[..sp] == old(stack[..sp]) + [v];
      return Ir.Ok(());
    }

    method Pop() returns (r: Ir.Result<i64>)
      requires Valid()
      modifies `sp
      ensures Valid()
      ensures match Ir.Pop(old(Vm()))
              case Ok((v, vm)) => r == Ir.Ok(v) && Vm() == vm
              case Err(t) => r == Ir.Err(t)
              case Overflow => r == Ir.Overflow
    {
      if sp == 0 {
        return Ir.Err(Ir.StackUnderflow);
      }
      sp := sp - 1;
      assert stack[..sp] == old(stack[..sp])[..sp];
      return Ir.Ok(stack[sp]);
    }

    method Pop2() returns (r: Ir.Result<(i64, i64)>)
      requires Valid()
      modifies `sp
      ensures Valid()
      ensures match Ir.Pop2(old(Vm()))
              case Ok((b, a, vm)) => r == Ir.Ok((b, a)) && Vm() == vm
              case Err(t) => r == Ir.Err(t)
              case Overflow => r == Ir.Overflow
    {
      var b := Pop();
      if !b.Ok? {
        return if b.Err? then Ir.Err(b.trap) else Ir.Overflow;
      }
      var a := Pop();
      if !a.Ok? {
        return if a.Err? then Ir.Err(a.trap) else Ir.Overflow;
      }
      return Ir.Ok((b.value, a.value));
    }

    method Write(a: nat, b: seq<byte>)
      requires Valid() && a + |b| <= Ir.MEM_SIZE
      modifies mem
      ensures Valid() && Vm() == old(Vm()).(mem := Ir.Written(old(Vm()).mem, a, b))
    {
      forall i | 0 <= i < |b| {
        mem[a + i] := b[i];
      }
      assert mem[..] == Ir.Written(old(mem[..]), a, b);
    }

    method Binary(op: byte) returns (r: Ir.Result<()>)
      requires Valid()
      modifies stack, `sp
      ensures Valid() && Done(Ir.Binary(op, old(Vm())), r)
    {
      var p := Pop2();
      match p
      case Ok((b, a)) =>
        var v := Ir.Arithmetic(op, a, b);
        match v {
          case Ok(x) => r := Push(x);
          case Err(t) => r := Ir.Err(t);
          case Overflow => r := Ir.Overflow;
        }
      case Err(t) => r := Ir.Err(t);
      case Overflow => r := Ir.Overflow;
    }

    /** The code took the step `want` describes. */
    ghost predicate Done(want: Ir.Result<Ir.Vm>, r: Ir.Result<()>)
      requires Valid()
      reads this, stack, calls, mem
    {
      match want
      case Ok(vm) => r == Ir.Ok(()) && Vm() == vm
      case Err(t) => r == Ir.Err(t)
      case Overflow => r == Ir.Overflow
    }

    method Load(size: nat) returns (r: Ir.Result<()>)
      requires Valid() && (size == 1 || size == 8)
      modifies stack, `sp
      ensures Valid() && Done(Ir.Load(old(Vm()), size), r)
    {
      hide Ir.I64;
      var addr := Pop();
      match addr
      case Ok(p) =>
        var a := Ir.Range(p, size);
        match a {
          case Ok(k) =>
            assert Vm().mem[k..k + size] == mem[k..k + size];
            if size == 1 {
              r := Push(mem[k]);
            } else {
              r := Push(Ir.I64(mem[k..k + 8]));
            }
          case Err(t) => r := Ir.Err(t);
          case Overflow => r := Ir.Overflow;
        }
      case Err(t) => r := Ir.Err(t);
      case Overflow => r := Ir.Overflow;
    }

    method Store(size: nat) returns (r: Ir.Result<()>)
      requires Valid() && (size == 1 || size == 8)
      modifies mem, `sp
      ensures Valid() && Done(Ir.Store(old(Vm()), size), r)
    {
      hide Ir.LeBytes;
      var p := Pop2();
      match p
      case Ok((val, addr)) =>
        var a := Ir.Range(addr, size);
        match a {
          case Ok(k) =>
            Write(k, Ir.LeBytes(Ir.AsUsize(val), size));
            r := Ir.Ok(());
          case Err(t) => r := Ir.Err(t);
          case Overflow => r := Ir.Overflow;
        }
      case Err(t) => r := Ir.Err(t);
      case Overflow => r := Ir.Overflow;
    }

    method Shuffle(op: byte) returns (r: Ir.Result<()>)
      requires Valid() && (op == Ir.POP || op == Ir.DUP || op == Ir.SWAP)
      modifies stack, `sp
      ensures Valid() && Done(Ir.Plain(op, old(Vm())), r)
    {
      if op == Ir.SWAP {
        var p := Pop2();
        if p.Ok? {
          r := Push(p.value.0);
          if r.Ok? {
            r := Push(p.value.1);
          }
        } else {
          r := if p.Err? then Ir.Err(p.trap) else Ir.Overflow;
        }
      } else {
        var v := Pop();
        if !v.Ok? {
          return if v.Err? then Ir.Err(v.trap) else Ir.Overflow;
        }
        if op == Ir.POP {
          return Ir.Ok(());
        }
        r := Push(v.value);
        if r.Ok? {
          r := Push(v.value);
        }
      }
    }

    method Plain(op: byte) returns (r: Ir.Result<()>)
      requires Valid() && Ir.IsPlain(op)
      modifies stack, mem, `sp
      ensures Valid() && Done(Ir.Plain(op, old(Vm())), r)
    {
      if op == Ir.POP || op == Ir.DUP || op == Ir.SWAP {
        r := Shuffle(op);
      } else if op == Ir.LOAD8 {
        r := Load(1);
      } else if op == Ir.LOAD64 {
        r := Load(8);
      } else if op == Ir.STORE8 {
        r := Store(1);
      } else if op == Ir.STORE64 {
        r := Store(8);
      } else {
        r := Binary(op);
      }
    }

    // --- Host calls and control flow ---------------------------------------------------------

    method OnBuffer(host: Ir.Host, f: byte, at: nat, pc: nat, trace: seq<Ir.Effect>, a: nat, len: Ir.usize) returns (o: Ir.Outcome)
      requires Valid() && a + len <= Ir.MEM_SIZE
      modifies stack, mem, `sp
      ensures Valid() && o == Ir.OnBuffer(host, Ir.State(pc, old(Vm()), trace), f, at, a, len)
      ensures o.Running? ==> o.s.vm == Vm()
    {
      var buf := mem[a..a + len];
      assert buf == Vm().mem[a..a + len];
      if f == Ir.HC_PRINT_STR {
        return Ir.Running(Ir.State(pc, Vm(), trace + [Ir.PrintStr(buf)]));
      }
      if f == Ir.HC_CAIRN_PUT {
        if !host.put(trace, buf) {
          return Ir.Trapped(Ir.NoDisk, at, trace + [Ir.Put(buf)]);
        }
        return Ir.Running(Ir.State(pc, Vm(), trace + [Ir.Put(buf)]));
      }
      var reply := host.get(trace, buf);
      if reply.None? {
        return Ir.Trapped(Ir.NoDisk, at, trace + [Ir.Get(buf)]);
      }
      if |reply.value.buf| == len {
        Write(a, reply.value.buf);
      }
      var r := Push(Ir.Wrap(reply.value.count));
      o := Outcome(r, at, pc, trace + [Ir.Get(buf)]);
    }

    function Outcome(r: Ir.Result<()>, at: nat, pc: nat, trace: seq<Ir.Effect>): Ir.Outcome
      requires Valid()
      reads this, stack, calls, mem
    {
      match r
      case Ok(_) => Ir.Running(Ir.State(pc, Vm(), trace))
      case Err(t) => Ir.Trapped(t, at, trace)
      case Overflow => Ir.Aborted(trace)
    }

    method HostCall(host: Ir.Host, f: byte, at: nat, pc: nat, trace: seq<Ir.Effect>) returns (o: Ir.Outcome)
      requires Valid() && f <= Ir.HC_CAIRN_GET
      modifies stack, mem, `sp
      ensures Valid() && o == Ir.Granted(host, Ir.State(pc, old(Vm()), trace), f, at)
      ensures o.Running? ==> o.s.vm == Vm()
    {
      hide Ir.OnBuffer;
      if f == Ir.HC_PRINT_NUM {
        var v := Pop();
        match v
        case Ok(x) => o := Ir.Running(Ir.State(pc, Vm(), trace + [Ir.PrintNum(x)]));
        case Err(t) => o := Ir.Trapped(t, at, trace);
        case Overflow => o := Ir.Aborted(trace);
      } else {
        var p := Pop2();
        match p
        case Ok((len, addr)) =>
          var a := Ir.Range(addr, Ir.AsUsize(len));
          match a {
            case Ok(k) => o := OnBuffer(host, f, at, pc, trace, k, Ir.AsUsize(len));
            case Err(t) => o := Ir.Trapped(t, at, trace);
            case Overflow => o := Ir.Aborted(trace);
          }
        case Err(t) => o := Ir.Trapped(t, at, trace);
        case Overflow => o := Ir.Aborted(trace);
      }
    }

    method Branch(op: byte, at: nat, pc: nat, t: nat, trace: seq<Ir.Effect>) returns (o: Ir.Outcome)
      requires Valid() && Ir.IsBranch(op)
      modifies calls, `csp, `sp
      ensures Valid() && o == Ir.Branch(Ir.State(at, old(Vm()), trace), op, pc, t)
      ensures o.Running? ==> o.s.vm == Vm()
    {
      if op == Ir.JMP {
        return Ir.Running(Ir.State(t, Vm(), trace));
      }
      if op == Ir.CALL {
        if csp >= Ir.CALL_SIZE {
          return Ir.Trapped(Ir.CallOverflow, at, trace);
        }
        calls[csp] := pc;
        csp := csp + 1;
        assert calls[..csp] == old(calls[..csp]) + [pc];
        return Ir.Running(Ir.State(t, Vm(), trace));
      }
      var v := Pop();
      match v
      case Ok(x) => o := Ir.Running(Ir.State(if (x == 0) == (op == Ir.JZ) then t else pc, Vm(), trace));
      case Err(trap) => o := Ir.Trapped(trap, at, trace);
      case Overflow => o := Ir.Aborted(trace);
    }

    method Return(at: nat, trace: seq<Ir.Effect>) returns (o: Ir.Outcome)
      requires Valid()
      modifies `csp
      ensures Valid() && o == if old(csp) == 0 then Ir.Trapped(Ir.CallUnderflow, at, trace)
                              else Ir.Running(Ir.State(old(calls[csp - 1]), old(Vm()).(calls := old(Vm()).calls[..old(csp) - 1]), trace))
      ensures o.Running? ==> o.s.vm == Vm()
    {
      if csp == 0 {
        return Ir.Trapped(Ir.CallUnderflow, at, trace);
      }
      csp := csp - 1;
      assert calls[..csp] == old(calls[..csp])[..csp];
      return Ir.Running(Ir.State(calls[csp], Vm(), trace));
    }

    method Step(code: seq<byte>, host: Ir.Host, at: nat, trace: seq<Ir.Effect>) returns (o: Ir.Outcome)
      requires Valid()
      modifies stack, calls, mem, `sp, `csp
      ensures Valid() && o == Ir.Step(code, host, Ir.State(at, old(Vm()), trace))
      ensures o.Running? ==> o.s.vm == Vm()
    {
      hide Ir.Plain, Ir.Granted, Ir.I64, Ir.Branch, Ir.Can;
      if at >= |code| {
        return Ir.Halted(trace);
      }
      var op, pc := code[at], at + 1;
      if op == Ir.HALT {
        return Ir.Halted(trace);
      } else if op == Ir.PUSH {
        if pc + 8 > |code| {
          return Ir.Trapped(Ir.Truncated, at, trace);
        }
        var r := Push(Ir.I64(code[pc..pc + 8]));
        return Outcome(r, at, pc + 8, trace);
      } else if Ir.IsPlain(op) {
        var r := Plain(op);
        return Outcome(r, at, pc, trace);
      } else if Ir.IsBranch(op) {
        if pc + 2 > |code| {
          return Ir.Trapped(Ir.Truncated, at, trace);
        }
        o := Branch(op, at, pc + 2, Ir.Target(code, at), trace);
      } else if op == Ir.RET {
        o := Return(at, trace);
      } else if op == Ir.HOSTCALL {
        if pc >= |code| {
          return Ir.Trapped(Ir.Truncated, at, trace);
        }
        if code[pc] > Ir.HC_CAIRN_GET {
          return Ir.Trapped(Ir.BadOpcode, at, trace);
        }
        if !Ir.Can(host, Ir.CapOf(code[pc])) {
          return Ir.Trapped(Ir.MissingCapability, at, trace);
        }
        o := HostCall(host, code[pc], at, pc + 1, trace);
      } else {
        o := Ir.Trapped(Ir.BadOpcode, at, trace);
      }
    }
  }

  /** `run`, for at most `fuel` instructions. */
  method Interpret(code: seq<byte>, host: Ir.Host, fuel: nat) returns (o: Ir.Outcome)
    ensures o == Ir.Run(code, host, Ir.START, fuel)
  {
    hide Ir.Step;
    var m := new Machine();
    var n := 0;
    o := Ir.Running(Ir.State(0, m.Vm(), []));
    while n < fuel && o.Running?
      invariant m.Valid() && fresh(m) && fresh(m.stack) && fresh(m.calls) && fresh(m.mem)
      invariant n <= fuel && (o.Running? ==> o.s.vm == m.Vm())
      invariant Ir.Run(code, host, Ir.START, fuel) == if o.Running? then Ir.Run(code, host, o.s, fuel - n) else o
    {
      o := m.Step(code, host, o.s.pc, o.s.trace);
      n := n + 1;
    }
  }
}

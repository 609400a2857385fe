/** Dezh-IR: the instruction set, what a well-formed program is, and one step of the machine. */
module Ir {
  import opened Bytes
  import opened Bits

  const HALT: byte := 0x00
  const PUSH: byte := 0x01
  const POP: byte := 0x02
  const DUP: byte := 0x03
  const SWAP: byte := 0x04
  const ADD: byte := 0x10
  const SUB: byte := 0x11
  const MUL: byte := 0x12
  const DIV: byte := 0x13
  const MOD: byte := 0x14
  const LT: byte := 0x18
  const GT: byte := 0x19
  const EQ: byte := 0x1a
  const LOAD8: byte := 0x20
  const STORE8: byte := 0x21
  const LOAD64: byte := 0x22
  const STORE64: byte := 0x23
  const JMP: byte := 0x30
  const JZ: byte := 0x31
  const JNZ: byte := 0x32
  const CALL: byte := 0x40
  const RET: byte := 0x41
  const HOSTCALL: byte := 0x50

  const HC_PRINT_NUM: byte := 0
  const HC_PRINT_STR: byte := 1
  const HC_CAIRN_PUT: byte := 2
  const HC_CAIRN_GET: byte := 3

  const CAP_PRINT: nat := 1
  const CAP_WRITE: nat := 2
  const CAP_READ: nat := 4

  const MEM_SIZE: nat := 256
  const STACK_SIZE: nat := 64
  const CALL_SIZE: nat := 16
  const MAX_PROG: nat := 4096
  const TWO_63: int := 0x8000_0000_0000_0000
  const TWO_64: int := 0x1_0000_0000_0000_0000

  type i64 = x: int | -TWO_63 <= x < TWO_63
  type usize = x: int | 0 <= x < TWO_64
  type Memory = m: seq<byte> | |m| == MEM_SIZE witness Zeros(MEM_SIZE)

  datatype Trap =
    | StackOverflow | StackUnderflow | CallOverflow | CallUnderflow | BadOpcode | MemOob | DivZero
    | BadTarget | Truncated | TooLong | MissingCapability | NoDisk

  // --- Well-formed programs --------------------------------------------------------------

  predicate IsBranch(op: byte) {
    op == JMP || op == JZ || op == JNZ || op == CALL
  }

  predicate IsPlain(op: byte) {
    || op == POP || op == DUP || op == SWAP || op == ADD || op == SUB || op == MUL || op == DIV || op == MOD
    || op == LT || op == GT || op == EQ || op == LOAD8 || op == STORE8 || op == LOAD64 || op == STORE64
  }

  /** Size of the instruction that starts with `op`, immediate included. */
  function OpSize(op: byte): Option<nat> {
    if op == PUSH then Some(9)
    else if IsBranch(op) then Some(3)
    else if op == HOSTCALL then Some(2)
    else if op == HALT || op == RET || IsPlain(op) then Some(1)
    else None
  }

  /** A complete instruction starts at `pc`. */
  predicate Fits(code: seq<byte>, pc: nat) {
    pc < |code| && OpSize(code[pc]).Some? && pc + OpSize(code[pc]).value <= |code|
  }

  function Next(code: seq<byte>, pc: nat): nat
    requires Fits(code, pc)
  {
    pc + OpSize(code[pc]).value
  }

  /** Walking instruction by instruction from `from`, one comes to `p`. */
  predicate Reaches(code: seq<byte>, from: nat, p: nat)
    decreases |code| - from
  {
    from == p || (Fits(code, from) && Reaches(code, Next(code, from), p))
  }

  /** The walk from `from` ends exactly at the end of the code. */
  predicate Decodes(code: seq<byte>, from: nat)
    decreases |code| - from
  {
    from == |code| || (Fits(code, from) && Decodes(code, Next(code, from)))
  }

  /** An instruction start, or the end of the code. */
  predicate Boundary(code: seq<byte>, p: nat) {
    Reaches(code, 0, p)
  }

  function Target(code: seq<byte>, pc: nat): nat
    requires pc + 3 <= |code|
  {
    U16At(code, pc + 1)
  }

  predicate TargetOk(code: seq<byte>, pc: nat)
    requires Fits(code, pc)
  {
    IsBranch(code[pc]) ==> Target(code, pc) < |code| && Boundary(code, Target(code, pc))
  }

  ghost predicate WellFormed(code: seq<byte>) {
    && |code| <= MAX_PROG && Decodes(code, 0)
    && forall p :: 0 <= p < |code| && Boundary(code, p) && Fits(code, p) ==> TargetOk(code, p)
  }

  // --- Arithmetic on machine words -------------------------------------------------------

  function Wrap(n: int): i64 {
    (n + TWO_63) % TWO_64 - TWO_63
  }

  function AsUsize(v: i64): usize {
    if v < 0 then v + TWO_64 else v
  }

  /** Division that rounds toward zero; the one quotient that does not fit is left to the caller. */
  function Quotient(a: i64, b: i64): int
    requires b != 0
  {
    var x: int, y: int := if a < 0 then -(a as int) else a, if b < 0 then -(b as int) else b;
    if (a < 0) == (b < 0) then x / y else -(x / y)
  }

  function Remainder(a: i64, b: i64): int
    requires b != 0
  {
    a - b * Quotient(a, b)
  }

  function LittleEndian(b: seq<byte>): nat {
    if b == [] then 0 else b[0] + 256 * LittleEndian(b[1..])
  }

  function I64(b: seq<byte>): i64
    requires |b| == 8
  {
    Wrap(LittleEndian(b))
  }

  function LeBytes(n: nat, k: nat): (b: seq<byte>)
    ensures |b| == k
  {
    if k == 0 then [] else [n % 256] + LeBytes(n / 256, k - 1)
  }

  lemma {:induction false} LeBytesRead(n: nat, k: nat)
    requires n < Pow2(8 * k)
    ensures LittleEndian(LeBytes(n, k)) == n
    decreases k
  {
    if k > 0 {
      EightMore(8 * (k - 1));
      LeBytesRead(n / 256, k - 1);
      assert LeBytes(n, k)[1..] == LeBytes(n / 256, k - 1);
    }
  }

  lemma EightMore(n: nat)
    ensures Pow2(n + 8) == 256 * Pow2(n)
  {
    assert Pow2(n + 2) == 4 * Pow2(n);
    assert Pow2(n + 4) == 4 * Pow2(n + 2);
    assert Pow2(n + 6) == 4 * Pow2(n + 4);
    assert Pow2(n + 8) == 4 * Pow2(n + 6);
  }

  lemma WordSize()
    ensures Pow2(64) == TWO_64
  {
    hide Pow2;
    EightMore(56);
    EightMore(48);
    EightMore(40);
    EightMore(32);
    EightMore(24);
    EightMore(16);
    EightMore(8);
    assert Pow2(8) == 256 by { PowByte(); }
  }

  lemma PowByte()
    ensures Pow2(8) == 256
  {
    EightMore(0);
  }

  /** A word that is stored loads as itself. */
  lemma WordRoundTrip(v: i64)
    ensures I64(LeBytes(AsUsize(v), 8)) == v
  {
    hide LeBytes, LittleEndian, Pow2;
    WordSize();
    LeBytesRead(AsUsize(v), 8);
  }

  // --- The machine ------------------------------------------------------------------------

  datatype Vm = Vm(stack: seq<i64>, calls: seq<nat>, mem: Memory)

  /** What the outside world saw. */
  datatype Effect = PrintNum(v: i64) | PrintStr(bytes: seq<byte>) | Put(bytes: seq<byte>) | Get(buf: seq<byte>)

  /** The buffer a read fills, and the count it reports. */
  datatype Reply = Reply(buf: seq<byte>, count: usize)

  /** A host that holds `caps` and whose answers depend on nothing but what it has been asked so far. */
  datatype Host = Host(caps: nat, put: (seq<Effect>, seq<byte>) -> bool, get: (seq<Effect>, seq<byte>) -> Option<Reply>)

  datatype State = State(pc: nat, vm: Vm, trace: seq<Effect>)

  /** `Aborted` is an arithmetic overflow that the build checks; `at` is the instruction that trapped. */
  datatype Outcome =
    | Running(s: State)
    | Halted(trace: seq<Effect>)
    | Trapped(trap: Trap, at: nat, trace: seq<Effect>)
    | Aborted(trace: seq<Effect>)

  datatype Result<T> = Ok(value: T) | Err(trap: Trap) | Overflow

  function Push(vm: Vm, v: i64): Result<Vm> {
    if |vm.stack| >= STACK_SIZE then Err(StackOverflow) else Ok(vm.(stack := vm.stack + [v]))
  }

  function Pop(vm: Vm): Result<(i64, Vm)> {
    if |vm.stack| == 0 then Err(StackUnderflow)
    else Ok((vm.stack[|vm.stack| - 1], vm.(stack := vm.stack[..|vm.stack| - 1])))
  }

  /** The top two of the stack, top first. */
  function Pop2(vm: Vm): Result<(i64, i64, Vm)> {
    match Pop(vm)
    case Ok((b, vm1)) =>
      (match Pop(vm1)
       case Ok((a, vm2)) => Ok((b, a, vm2))
       case Err(t) => Err(t)
       case Overflow => Overflow)
    case Err(t) => Err(t)
    case Overflow => Overflow
  }

  /** The start of `len` bytes at `addr`, if they lie in memory. */
  function Range(addr: i64, len: usize): (r: Result<nat>)
    ensures r.Ok? ==> r.value + len <= MEM_SIZE
  {
    if addr < 0 then Err(MemOob)
    else if addr + len >= TWO_64 then Overflow
    else if addr + len > MEM_SIZE then Err(MemOob)
    else Ok(addr)
  }

  function Arithmetic(op: byte, a: i64, b: i64): Result<i64> {
    if op == ADD then Ok(Wrap(a + b))
    else if op == SUB then Ok(Wrap(a - b))
    else if op == MUL then Ok(Wrap(a * b))
    else if op == LT then Ok(if a < b then 1 else 0)
    else if op == GT then Ok(if a > b then 1 else 0)
    else if op == EQ then Ok(if a == b then 1 else 0)
    else if b == 0 then Err(DivZero)
    else if a == -TWO_63 && b == -1 then Overflow
    else if op == DIV then Ok(Wrap(Quotient(a, b)))
    else Ok(Wrap(Remainder(a, b)))
  }

  function Binary(op: byte, vm: Vm): Result<Vm> {
    match Pop2(vm)
    case Ok((b, a, vm1)) =>
      (match Arithmetic(op, a, b)
       case Ok(r) => Push(vm1, r)
       case Err(t) => Err(t)
       case Overflow => Overflow)
    case Err(t) => Err(t)
    case Overflow => Overflow
  }

  function Load(vm: Vm, size: nat): Result<Vm>
    requires size == 1 || size == 8
  {
    match Pop(vm)
    case Ok((addr, vm1)) =>
      (match Range(addr, size)
       case Ok(a) => Push(vm1, if size == 1 then vm1.mem[a] else I64(vm1.mem[a..a + 8]))
       case Err(t) => Err(t)
       case Overflow => Overflow)
    case Err(t) => Err(t)
    case Overflow => Overflow
  }

  function Written(mem: Memory, a: nat, b: seq<byte>): Memory
    requires a + |b| <= MEM_SIZE
  {
    mem[..a] + b + mem[a + |b|..]
  }

  function Store(vm: Vm, size: nat): Result<Vm>
    requires size == 1 || size == 8
  {
    match Pop2(vm)
    case Ok((val, addr, vm1)) =>
      (match Range(addr, size)
       case Ok(a) => Ok(vm1.(mem := Written(vm1.mem, a, LeBytes(AsUsize(val), size))))
       case Err(t) => Err(t)
       case Overflow => Overflow)
    case Err(t) => Err(t)
    case Overflow => Overflow
  }

  /** Instructions that only touch the operand stack and the memory. */
  function Plain(op: byte, vm: Vm): Result<Vm>
    requires IsPlain(op)
  {
    if op == POP then
      match Pop(vm) case Ok((_, vm1)) => Ok(vm1) case Err(t) => Err(t) case Overflow => Overflow
    else if op == DUP then
      match Pop(vm)
      case Ok((v, vm1)) =>
        (match Push(vm1, v) case Ok(vm2) => Push(vm2, v) case Err(t) => Err(t) case Overflow => Overflow)
      case Err(t) => Err(t)
      case Overflow => Overflow
    else if op == SWAP then
      match Pop2(vm)
      case Ok((a, b, vm1)) =>
        (match Push(vm1, a) case Ok(vm2) => Push(vm2, b) case Err(t) => Err(t) case Overflow => Overflow)
      case Err(t) => Err(t)
      case Overflow => Overflow
    else if op == LOAD8 then Load(vm, 1)
    else if op == LOAD64 then Load(vm, 8)
    else if op == STORE8 then Store(vm, 1)
    else if op == STORE64 then Store(vm, 8)
    else Binary(op, vm)
  }

  predicate Can(host: Host, cap: nat) {
    And(host.caps, cap) != 0
  }

  /** The capability a host call needs; 0 for an unknown call. */
  function CapOf(f: byte): nat {
    if f == HC_PRINT_NUM || f == HC_PRINT_STR then CAP_PRINT
    else if f == HC_CAIRN_PUT then CAP_WRITE
    else if f == HC_CAIRN_GET then CAP_READ
    else 0
  }

  /** A host call whose capability is held. `s.pc` is already past the call, `at` is where it is. */
  function Granted(host: Host, s: State, f: byte, at: nat): Outcome
    requires f <= HC_CAIRN_GET
  {
    if f == HC_PRINT_NUM then
      match Pop(s.vm)
      case Ok((v, vm1)) => Running(s.(vm := vm1, trace := s.trace + [PrintNum(v)]))
      case Err(t) => Trapped(t, at, s.trace)
      case Overflow => Aborted(s.trace)
    else
      match Pop2(s.vm)
      case Ok((len, addr, vm1)) =>
        (match Range(addr, AsUsize(len))
         case Ok(a) => OnBuffer(host, s.(vm := vm1), f, at, a, AsUsize(len))
         case Err(t) => Trapped(t, at, s.trace)
         case Overflow => Aborted(s.trace))
      case Err(t) => Trapped(t, at, s.trace)
      case Overflow => Aborted(s.trace)
  }

  function OnBuffer(host: Host, s: State, f: byte, at: nat, a: nat, len: usize): Outcome
    requires a + len <= MEM_SIZE
  {
    var buf := s.vm.mem[a..a + len];
    if f == HC_PRINT_STR then Running(s.(trace := s.trace + [PrintStr(buf)]))
    else if f == HC_CAIRN_PUT then
      var trace := s.trace + [Put(buf)];
      if host.put(s.trace, buf) then Running(s.(trace := trace)) else Trapped(NoDisk, at, trace)
    else
      var trace := s.trace + [Get(buf)];
      match host.get(s.trace, buf)
      case None => Trapped(NoDisk, at, trace)
      case Some(r) =>
        var mem := if |r.buf| == len then Written(s.vm.mem, a, r.buf) else s.vm.mem;
        match Push(s.vm.(mem := mem), Wrap(r.count))
        case Ok(vm1) => Running(s.(vm := vm1, trace := trace))
        case Err(t) => Trapped(t, at, trace)
        case Overflow => Aborted(trace)
  }

  /** One instruction. */
  function Step(code: seq<byte>, host: Host, s: State): Outcome {
    if s.pc >= |code| then Halted(s.trace)
    else
      var op, pc := code[s.pc], s.pc + 1;
      if op == HALT then Halted(s.trace)
      else if op == PUSH then
        if pc + 8 > |code| then Trapped(Truncated, s.pc, s.trace)
        else Continue(s, pc + 8, Push(s.vm, I64(code[pc..pc + 8])))
      else if IsPlain(op) then Continue(s, pc, Plain(op, s.vm))
      else if IsBranch(op) then
        if pc + 2 > |code| then Trapped(Truncated, s.pc, s.trace) else Branch(s, op, pc + 2, Target(code, s.pc))
      else if op == RET then
        if s.vm.calls == [] then Trapped(CallUnderflow, s.pc, s.trace)
        else
          var n := |s.vm.calls| - 1;
          Running(s.(pc := s.vm.calls[n], vm := s.vm.(calls := s.vm.calls[..n])))
      else if op == HOSTCALL then
        if pc >= |code| then Trapped(Truncated, s.pc, s.trace)
        else if code[pc] > HC_CAIRN_GET then Trapped(BadOpcode, s.pc, s.trace)
        else if !Can(host, CapOf(code[pc])) then Trapped(MissingCapability, s.pc, s.trace)
        else Granted(host, s.(pc := pc + 1), code[pc], s.pc)
      else Trapped(BadOpcode, s.pc, s.trace)
  }

  function Continue(s: State, pc: nat, r: Result<Vm>): Outcome {
    match r
    case Ok(vm) => Running(s.(pc := pc, vm := vm))
    case Err(t) => Trapped(t, s.pc, s.trace)
    case Overflow => Aborted(s.trace)
  }

  function Branch(s: State, op: byte, pc: nat, t: nat): Outcome {
    if op == JMP then Running(s.(pc := t))
    else if op == CALL then
      if |s.vm.calls| >= CALL_SIZE then Trapped(CallOverflow, s.pc, s.trace)
      else Running(s.(pc := t, vm := s.vm.(calls := s.vm.calls + [pc])))
    else
      match Pop(s.vm)
      case Ok((v, vm)) => Running(s.(pc := if (v == 0) == (op == JZ) then t else pc, vm := vm))
      case Err(trap) => Trapped(trap, s.pc, s.trace)
      case Overflow => Aborted(s.trace)
  }

  /** At most `n` instructions. */
  function Run(code: seq<byte>, host: Host, s: State, n: nat): Outcome
    decreases n
  {
    if n == 0 then Running(s)
    else
      match Step(code, host, s)
      case Running(s1) => Run(code, host, s1, n - 1)
      case other => other
  }

  const START: State := State(0, Vm([], [], Zeros(MEM_SIZE)), [])
}

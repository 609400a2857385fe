/** What the instructions mean: laws of the machine's step, with opcodes by number and results by arithmetic on integers. */
module IrLaws {
  import opened Division = Arithmetic
  import opened Bytes
  import opened Bits
  import opened Ir

  /** The machine is at instruction `op` with `operands` on top of the stack, the topmost last. */
  predicate At(code: seq<byte>, s: State, op: byte, operands: seq<i64>) {
    && s.pc < |code| && code[s.pc] == op && |operands| <= |s.vm.stack| <= STACK_SIZE
    && s.vm.stack == s.vm.stack[..|s.vm.stack| - |operands|] + operands
  }

  /** `s` with its top `n` operands replaced by `results`, at `pc`. */
  function Replaced(s: State, pc: nat, n: nat, results: seq<i64>): State
    requires n <= |s.vm.stack|
  {
    s.(pc := pc, vm := s.vm.(stack := s.vm.stack[..|s.vm.stack| - n] + results))
  }

  /** The step took `n` operands, left `results` and went on to the next instruction, one byte further. */
  ghost predicate Leaves(code: seq<byte>, host: Host, s: State, n: nat, results: seq<i64>)
    requires n <= |s.vm.stack|
  {
    Step(code, host, s) == Running(Replaced(s, s.pc + 1, n, results))
  }

  predicate SameWord(x: int, y: int) {
    (x - y) % TWO_64 == 0
  }

  lemma PopsTwo(s: State, a: i64, b: i64)
    requires 2 <= |s.vm.stack| && s.vm.stack == s.vm.stack[..|s.vm.stack| - 2] + [a, b]
    ensures Pop2(s.vm) == Ok((b, a, s.vm.(stack := s.vm.stack[..|s.vm.stack| - 2])))
  {
    var n := |s.vm.stack|;
    assert s.vm.stack[..n - 1][..n - 2] == s.vm.stack[..n - 2];
  }

  /** The word congruent to a number is one. */
  lemma OneWord(x: i64, y: i64)
    requires SameWord(x, y)
    ensures x == y
  {
  }

  /** A step of an instruction with two operands and one result is that of its arithmetic. */
  lemma BinaryStep(code: seq<byte>, host: Host, s: State, op: byte, a: i64, b: i64)
    requires At(code, s, op, [a, b]) && op in {0x10, 0x11, 0x12, 0x13, 0x14, 0x18, 0x19, 0x1a}
    ensures Step(code, host, s) == match Arithmetic(op, a, b)
                                   case Ok(r) => Running(Replaced(s, s.pc + 1, 2, [r]))
                                   case Err(t) => Trapped(t, s.pc, s.trace)
                                   case Overflow => Aborted(s.trace)
  {
    PopsTwo(s, a, b);
    hide Arithmetic;
  }

  // --- Arithmetic ---------------------------------------------------------------------------

  /** `add`, `sub` and `mul` leave the sum, the difference and the product, modulo 2^64. */
  lemma Sums(code: seq<byte>, host: Host, s: State, op: byte, a: i64, b: i64) returns (r: i64)
    requires At(code, s, op, [a, b]) && (op == 0x10 || op == 0x11 || op == 0x12)
    ensures Leaves(code, host, s, 2, [r])
    ensures SameWord(r, if op == 0x10 then a + b else if op == 0x11 then a - b else a * b)
  {
    BinaryStep(code, host, s, op, a, b);
    WrapSame(a + b);
    WrapSame(a - b);
    WrapSame(a * b);
    hide Step, Wrap, SameWord;
    r := Arithmetic(op, a, b).value;
  }

  lemma WrapSame(n: int)
    ensures SameWord(Wrap(n), n)
  {
  }

  /** `lt`, `gt` and `eq` leave 1 or 0: 1 exactly if the lower operand is less than, greater than, equal to the upper. */
  lemma Compares(code: seq<byte>, host: Host, s: State, op: byte, a: i64, b: i64) returns (r: i64)
    requires At(code, s, op, [a, b]) && (op == 0x18 || op == 0x19 || op == 0x1a)
    ensures Leaves(code, host, s, 2, [r]) && (r == 0 || r == 1)
    ensures r == 1 <==> if op == 0x18 then a < b else if op == 0x19 then b < a else a == b
  {
    BinaryStep(code, host, s, op, a, b);
    hide Step;
    r := Arithmetic(op, a, b).value;
  }

  function Abs(x: int): nat {
    if x < 0 then -x else x
  }

  /** The integer quotient and remainder that round toward zero. */
  ghost predicate Divided(a: int, b: int, q: int, m: int) {
    a == b * q + m && Abs(m) < Abs(b) && (m > 0 ==> a > 0) && (m < 0 ==> a < 0)
  }

  lemma Rounds(a: i64, b: i64)
    requires b != 0
    ensures Divided(a, b, Quotient(a, b), Ir.Remainder(a, b)) && Abs(Quotient(a, b)) == Abs(a) / Abs(b)
  {
    var q, m := Abs(a) / Abs(b), Abs(a) % Abs(b);
    Euclid(Abs(a), Abs(b), q, m);
    Signs(a, b, q, m);
    assert Quotient(a, b) == if (a < 0) == (b < 0) then q else -q;
    assert Ir.Remainder(a, b) == if a < 0 then -m else m;
  }

  lemma Euclid(x: nat, y: nat, q: int, m: int)
    requires y > 0 && q == x / y && m == x % y
    ensures x == y * q + m && 0 <= m < y && 0 <= q <= x && (y > 1 && x > 0 ==> q < x)
  {
    SmallQuotient(x, y, q, m);
  }

  lemma SmallQuotient(x: nat, y: nat, q: int, m: int)
    requires x == y * q + m && 0 <= m < y
    ensures 0 <= q <= x && (y > 1 && x > 0 ==> q < x)
  {
    if q >= 0 {
      assert (y - 1) * q >= 0;
      if y > 1 {
        assert (y - 2) * q >= 0;
      }
    }
  }

  lemma Signs(a: int, b: int, q: int, m: int)
    requires b != 0 && Abs(a) == Abs(b) * q + m
    ensures a - b * (if (a < 0) == (b < 0) then q else -q) == if a < 0 then -m else m
  {
  }

  lemma QuotientFits(a: i64, b: i64)
    requires b != 0 && !(a == -TWO_63 && b == -1)
    ensures -TWO_63 <= Quotient(a, b) < TWO_63 && -TWO_63 <= Ir.Remainder(a, b) < TWO_63
  {
    Rounds(a, b);
    Euclid(Abs(a), Abs(b), Abs(a) / Abs(b), Abs(a) % Abs(b));
    if a == -TWO_63 && b == 1 {
      assert Abs(a) / 1 == Abs(a);
    } else {
      hide Quotient, Ir.Remainder;
      assert Abs(Quotient(a, b)) < TWO_63 || b == 1 || b == -1;
    }
  }

  lemma DividedWords(a: i64, b: i64) returns (q: i64, m: i64)
    requires b != 0 && !(a == -TWO_63 && b == -1)
    ensures Arithmetic(DIV, a, b) == Ok(q) && Arithmetic(MOD, a, b) == Ok(m) && Divided(a, b, q, m)
  {
    Rounds(a, b);
    QuotientFits(a, b);
    hide Quotient, Ir.Remainder, Divided;
    q, m := Quotient(a, b), Ir.Remainder(a, b);
  }

  /** `div` and `mod` trap on a zero divisor and abort on the one quotient that is no word; otherwise what they leave is
      quotient and remainder: their own divisor times the one plus the other is the dividend. */
  lemma Divides(div: seq<byte>, mod: seq<byte>, host: Host, s: State, a: i64, b: i64) returns (q: i64, m: i64)
    requires At(div, s, 0x13, [a, b]) && At(mod, s, 0x14, [a, b])
    ensures b == 0 ==> Step(div, host, s) == Step(mod, host, s) == Trapped(DivZero, s.pc, s.trace)
    ensures a == -TWO_63 && b == -1 ==> Step(div, host, s) == Step(mod, host, s) == Aborted(s.trace)
    ensures b != 0 && !(a == -TWO_63 && b == -1) ==>
              Leaves(div, host, s, 2, [q]) && Leaves(mod, host, s, 2, [m]) && Divided(a, b, q, m)
  {
    BinaryStep(div, host, s, 0x13, a, b);
    BinaryStep(mod, host, s, 0x14, a, b);
    hide Step, Divided;
    q, m := 0, 0;
    if b != 0 && !(a == -TWO_63 && b == -1) {
      hide Quotient, Ir.Remainder;
      q, m := DividedWords(a, b);
      hide Arithmetic;
    }
  }

  /** Two operands are needed. */
  lemma NeedsTwo(code: seq<byte>, host: Host, s: State)
    requires s.pc < |code| && |s.vm.stack| < 2
    requires code[s.pc] in {0x04, 0x10, 0x11, 0x12, 0x13, 0x14, 0x18, 0x19, 0x1a, 0x21, 0x23}
    ensures Step(code, host, s) == Trapped(StackUnderflow, s.pc, s.trace)
  {
  }

  /** So is one, by whatever takes one. */
  lemma NeedsOne(code: seq<byte>, host: Host, s: State)
    requires s.pc < |code| && s.vm.stack == []
    requires code[s.pc] in {0x02, 0x03, 0x20, 0x22} || (code[s.pc] in {0x31, 0x32} && s.pc + 3 <= |code|)
    ensures Step(code, host, s) == Trapped(StackUnderflow, s.pc, s.trace)
  {
  }

  /** An instruction cut off by the end of the code traps. */
  lemma CutOff(code: seq<byte>, host: Host, s: State)
    requires s.pc < |code|
    requires || (code[s.pc] == 0x01 && s.pc + 9 > |code|) || (code[s.pc] in {0x30, 0x31, 0x32, 0x40} && s.pc + 3 > |code|)
             || (code[s.pc] == 0x50 && s.pc + 2 > |code|)
    ensures Step(code, host, s) == Trapped(Truncated, s.pc, s.trace)
  {
  }

  // --- The stack ------------------------------------------------------------------------------

  lemma PopsOne(s: State, a: i64)
    requires 1 <= |s.vm.stack| && s.vm.stack == s.vm.stack[..|s.vm.stack| - 1] + [a]
    ensures Pop(s.vm) == Ok((a, s.vm.(stack := s.vm.stack[..|s.vm.stack| - 1])))
  {
  }

  /** `pop` drops, `dup` repeats and traps on a full stack, `swap` exchanges. */
  lemma Shuffles(pop: seq<byte>, dup: seq<byte>, swap: seq<byte>, host: Host, s: State, a: i64, b: i64)
    requires At(pop, s, 0x02, [a, b]) && At(dup, s, 0x03, [a, b]) && At(swap, s, 0x04, [a, b])
    ensures Leaves(pop, host, s, 2, [a]) && Leaves(swap, host, s, 2, [b, a])
    ensures if |s.vm.stack| < STACK_SIZE then Leaves(dup, host, s, 2, [a, b, b])
            else Step(dup, host, s) == Trapped(StackOverflow, s.pc, s.trace)
  {
    var rest := s.vm.stack[..|s.vm.stack| - 2];
    PopsTwo(s, a, b);
    assert s.vm.stack[..|s.vm.stack| - 1] == rest + [a];
    PopsOne(s, b);
    assert rest + [b] + [a] == rest + [b, a] && rest + [a] + [b] == rest + [a, b] && rest + [a] + [b] + [b] == rest + [a, b, b];
  }

  /** `push` leaves the word whose little-endian bytes follow, and traps on a full stack. */
  lemma Pushes(code: seq<byte>, host: Host, s: State) returns (r: i64)
    requires At(code, s, 0x01, []) && s.pc + 9 <= |code|
    ensures SameWord(r, LittleEndian(code[s.pc + 1..s.pc + 9]))
    ensures Step(code, host, s) == if |s.vm.stack| < STACK_SIZE then Running(Replaced(s, s.pc + 9, 0, [r]))
                                   else Trapped(StackOverflow, s.pc, s.trace)
  {
    r := I64(code[s.pc + 1..s.pc + 9]);
    hide LittleEndian;
    assert s.vm.stack[..|s.vm.stack| - 0] == s.vm.stack;
  }

  /** Adding a word and subtracting it again leaves the first operand, whatever wrapped in between. */
  lemma AddThenSubtract(code: seq<byte>, host: Host, s: State, a: i64, b: i64)
    requires At(code, s, 0x10, [a, b]) && s.pc + 11 <= |code| && code[s.pc + 1] == 0x01 && code[s.pc + 10] == 0x11
    requires SameWord(LittleEndian(code[s.pc + 2..s.pc + 10]), b)
    ensures Run(code, host, s, 3) == Running(Replaced(s, s.pc + 11, 2, [a]))
  {
    hide Step, LittleEndian;
    var sum := Sums(code, host, s, 0x10, a, b);
    var s1 := Replaced(s, s.pc + 1, 2, [sum]);
    var c := Pushes(code, host, s1);
    OneWord(b, c);
    var s2 := Replaced(s1, s1.pc + 9, 0, [c]);
    var rest := s.vm.stack[..|s.vm.stack| - 2];
    assert s2.vm.stack == rest + [sum, b] && s2.vm.stack[..|s2.vm.stack| - 2] == rest;
    var d := Sums(code, host, s2, 0x11, sum, b);
    OneWord(a, d);
    assert Run(code, host, s2, 1) == Step(code, host, s2);
    assert Run(code, host, s1, 2) == Run(code, host, s2, 1);
  }

  // --- Memory -----------------------------------------------------------------------------------

  /** How many bytes a load or a store moves. */
  function Width(op: byte): nat {
    if op == 0x20 || op == 0x21 then 1 else 8
  }

  lemma {:induction false} LeBytesWrap(n: nat, k: nat)
    ensures (n - LittleEndian(LeBytes(n, k))) % Pow2(8 * k) == 0 && LittleEndian(LeBytes(n, k)) < Pow2(8 * k)
    decreases k
  {
    if k > 0 {
      LeBytesWrap(n / 256, k - 1);
      assert LeBytes(n, k)[1..] == LeBytes(n / 256, k - 1);
      EightMore(8 * (k - 1));
      var p, x := Pow2(8 * (k - 1)), n / 256 - LittleEndian(LeBytes(n / 256, k - 1));
      assert n - LittleEndian(LeBytes(n, k)) == 256 * x;
      Scaled(x, p);
    }
  }

  lemma Scaled(x: int, p: nat)
    requires p > 0 && x % p == 0
    ensures 256 * x % (256 * p) == 0
  {
    var q := x / p;
    assert x == p * q;
    assert 256 * x == (256 * p) * q;
    Divisible(256 * p, q);
  }

  lemma Divisible(p: nat, q: int)
    requires p > 0
    ensures p * q % p == 0
  {
    var m, d := p * q % p, q - p * q / p;
    assert p * q == p * (p * q / p) + m;
    assert m == p * d;
    if d != 0 {
      Multiple(p, d);
    }
  }

  lemma WrittenBytes(mem: Memory, a: nat, b: seq<byte>)
    requires a + |b| <= MEM_SIZE
    ensures var mem' := Written(mem, a, b);
            mem'[a..a + |b|] == b && forall i :: 0 <= i < MEM_SIZE && !(a <= i < a + |b|) ==> mem'[i] == mem[i]
  {
  }

  lemma StoreStep(code: seq<byte>, host: Host, s: State, op: byte, addr: i64, v: i64)
    requires At(code, s, op, [addr, v]) && (op == 0x21 || op == 0x23)
    ensures Step(code, host, s) ==
            if 0 <= addr && addr + Width(op) <= MEM_SIZE
            then var mem := Written(s.vm.mem, addr, LeBytes(AsUsize(v), Width(op)));
                 Running(Replaced(s.(vm := s.vm.(mem := mem)), s.pc + 1, 2, []))
            else Trapped(MemOob, s.pc, s.trace)
  {
    PopsTwo(s, addr, v);
    hide LeBytes, Written;
    assert s.vm.stack[..|s.vm.stack| - 2] + [] == s.vm.stack[..|s.vm.stack| - 2];
  }

  /** `store8` and `store64` put the little-endian bytes of the upper operand at the lower one and leave the rest of memory
      alone; they trap if a byte would fall outside. */
  lemma Stores(code: seq<byte>, host: Host, s: State, op: byte, addr: i64, v: i64) returns (mem: Memory)
    requires At(code, s, op, [addr, v]) && (op == 0x21 || op == 0x23)
    ensures 0 <= addr && addr + Width(op) <= MEM_SIZE ==>
              && Step(code, host, s) == Running(Replaced(s.(vm := s.vm.(mem := mem)), s.pc + 1, 2, []))
              && (forall i :: 0 <= i < MEM_SIZE && !(addr <= i < addr + Width(op)) ==> mem[i] == s.vm.mem[i])
              && (LittleEndian(mem[addr..addr + Width(op)]) - v) % Pow2(8 * Width(op)) == 0
    ensures addr < 0 || addr + Width(op) > MEM_SIZE ==> Step(code, host, s) == Trapped(MemOob, s.pc, s.trace)
  {
    StoreStep(code, host, s, op, addr, v);
    hide Step, LeBytes, LittleEndian, Pow2;
    mem := s.vm.mem;
    if 0 <= addr && addr + Width(op) <= MEM_SIZE {
      var b := LeBytes(AsUsize(v), Width(op));
      mem := Written(s.vm.mem, addr, b);
      WrittenBytes(s.vm.mem, addr, b);
      hide Written;
      LeBytesWrap(AsUsize(v), Width(op));
      Unsigned(v, LittleEndian(b), Width(op));
    }
  }

  lemma Unsigned(v: i64, x: nat, k: nat)
    requires (k == 1 || k == 8) && (AsUsize(v) - x) % Pow2(8 * k) == 0
    ensures (x - v) % Pow2(8 * k) == 0
  {
    hide Pow2;
    PowByte();
    WordSize();
  }

  /** `load8` and `load64` leave the number whose little-endian bytes stand at the operand. */
  lemma Loads(code: seq<byte>, host: Host, s: State, op: byte, addr: i64) returns (r: i64)
    requires At(code, s, op, [addr]) && (op == 0x20 || op == 0x22)
    ensures 0 <= addr && addr + Width(op) <= MEM_SIZE ==>
              && Leaves(code, host, s, 1, [r])
              && SameWord(r, LittleEndian(s.vm.mem[addr..addr + Width(op)]))
    ensures addr < 0 || addr + Width(op) > MEM_SIZE ==> Step(code, host, s) == Trapped(MemOob, s.pc, s.trace)
  {
    PopsOne(s, addr);
    r := 0;
    if 0 <= addr && addr + Width(op) <= MEM_SIZE {
      var b := s.vm.mem[addr..addr + Width(op)];
      if op == 0x20 {
        r := s.vm.mem[addr];
        assert b == [r] && LittleEndian(b) == r + 256 * LittleEndian([]);
      } else {
        r := I64(b);
      }
    }
  }

  /** What a store wrote, a load of the same width at the same address leaves: the word, or its lowest byte. */
  lemma StoreThenLoad(code: seq<byte>, host: Host, s: State, wide: bool, addr: i64, v: i64) returns (mem: Memory)
    requires At(code, s, if wide then 0x23 else 0x21, [addr, v]) && s.pc + 11 <= |code| && code[s.pc + 1] == 0x01
    requires code[s.pc + 10] == if wide then 0x22 else 0x20
    requires SameWord(LittleEndian(code[s.pc + 2..s.pc + 10]), addr)
    requires 0 <= addr && addr + (if wide then 8 else 1) <= MEM_SIZE
    ensures Run(code, host, s, 3)
         == Running(Replaced(s.(vm := s.vm.(mem := mem)), s.pc + 11, 2, [if wide then v else v % 256]))
  {
    hide Step, LittleEndian, Pow2, SameWord;
    mem := Stores(code, host, s, code[s.pc], addr, v);
    var s1 := Replaced(s.(vm := s.vm.(mem := mem)), s.pc + 1, 2, []);
    var a := Pushes(code, host, s1);
    SameThrough(a, LittleEndian(code[s.pc + 2..s.pc + 10]), addr);
    OneWord(a, addr);
    var s2 := Replaced(s1, s1.pc + 9, 0, [a]);
    assert s1.vm.stack == s.vm.stack[..|s.vm.stack| - 2];
    assert s2.vm.stack == s1.vm.stack + [addr] && s2.vm.stack[..|s2.vm.stack| - 1] == s1.vm.stack;
    var r := Loads(code, host, s2, code[s2.pc], addr);
    ReadsBack(r, v, LittleEndian(mem[addr..addr + Width(code[s.pc])]), wide, mem[addr..addr + Width(code[s.pc])]);
    assert Run(code, host, s2, 1) == Step(code, host, s2);
    assert Run(code, host, s1, 2) == Run(code, host, s2, 1);
  }

  lemma ReadsBack(r: i64, v: i64, x: nat, wide: bool, b: seq<byte>)
    requires |b| == (if wide then 8 else 1) && x == LittleEndian(b)
    requires SameWord(r, x) && (x - v) % Pow2(if wide then 64 else 8) == 0
    ensures r == if wide then v else v % 256
  {
    WordSize();
    PowByte();
    hide Pow2;
    if wide {
      SameThrough(r, x, v);
      OneWord(r, v);
    } else {
      assert x == b[0] + 256 * LittleEndian([]);
      hide LittleEndian;
      OneWord(r, x);
    }
  }

  lemma SameThrough(x: int, y: int, z: int)
    requires SameWord(x, y) && SameWord(y, z)
    ensures SameWord(x, z)
  {
  }

  // --- Control --------------------------------------------------------------------------------------

  lemma TwoBytes(b: seq<byte>)
    requires |b| == 2
    ensures LittleEndian(b) == U16(b[0], b[1])
  {
    assert LittleEndian(b[1..]) == b[1] + 256 * LittleEndian([]);
  }

  /** `jmp` always jumps, `jz` exactly if the operand is zero, `jnz` exactly if it is not; otherwise the next instruction
      follows. The operand is taken either way. */
  lemma Jumps(code: seq<byte>, host: Host, s: State, op: byte, v: i64)
    requires At(code, s, op, [v]) && (op == 0x30 || op == 0x31 || op == 0x32) && s.pc + 3 <= |code|
    ensures var t := LittleEndian(code[s.pc + 1..s.pc + 3]);
            Step(code, host, s) == Running(
              if op == 0x30 then s.(pc := t)
              else Replaced(s, if (op == 0x31 && v == 0) || (op == 0x32 && v != 0) then t else s.pc + 3, 1, []))
  {
    PopsOne(s, v);
    TwoBytes(code[s.pc + 1..s.pc + 3]);
    assert s.vm.stack[..|s.vm.stack| - 1] + [] == s.vm.stack[..|s.vm.stack| - 1];
  }

  /** `call` goes to its target unless sixteen calls are open, and a `ret` that finds the calls as `call` left them goes on
      after it, with the calls as they were before. */
  lemma CallThenReturn(code: seq<byte>, host: Host, s: State, s': State)
    requires At(code, s, 0x40, []) && s.pc + 3 <= |code| && At(code, s', 0x41, [])
    ensures |s.vm.calls| >= CALL_SIZE ==> Step(code, host, s) == Trapped(CallOverflow, s.pc, s.trace)
    ensures |s.vm.calls| < CALL_SIZE ==>
              var o := Step(code, host, s);
              && o.Running? && o.s.pc == LittleEndian(code[s.pc + 1..s.pc + 3])
              && o.s.vm.stack == s.vm.stack && o.s.vm.mem == s.vm.mem && o.s.trace == s.trace
              && (s'.vm.calls == o.s.vm.calls ==>
                    Step(code, host, s') == Running(s'.(pc := s.pc + 3, vm := s'.vm.(calls := s.vm.calls))))
    ensures s'.vm.calls == [] ==> Step(code, host, s') == Trapped(CallUnderflow, s'.pc, s'.trace)
  {
    TwoBytes(code[s.pc + 1..s.pc + 3]);
    if |s.vm.calls| < CALL_SIZE {
      var calls := s.vm.calls + [s.pc + 3];
      assert calls[..|calls| - 1] == s.vm.calls;
    }
  }

  const OPCODES: set<byte> := {
    0x00, 0x01, 0x02, 0x03, 0x04, 0x10, 0x11, 0x12, 0x13, 0x14, 0x18, 0x19, 0x1a, 0x20, 0x21, 0x22, 0x23,
    0x30, 0x31, 0x32, 0x40, 0x41, 0x50}

  /** Code that runs off its end stops like `halt`; a number that is no opcode traps. */
  lemma Stops(code: seq<byte>, host: Host, s: State)
    ensures s.pc >= |code| || code[s.pc] == 0x00 ==> Step(code, host, s) == Halted(s.trace)
    ensures s.pc < |code| && code[s.pc] !in OPCODES ==> Step(code, host, s) == Trapped(BadOpcode, s.pc, s.trace)
  {
  }

  // --- Host calls -------------------------------------------------------------------------------------

  /** The bit of the capability set that opens each call: printing, then writing, then reading. */
  predicate Opens(caps: nat, f: byte)
    requires f <= 3
  {
    (if f <= 1 then caps else if f == 2 then caps / 2 else caps / 4) % 2 == 1
  }

  /** Without the capability a host call traps and nothing is seen outside. */
  lemma Refuses(code: seq<byte>, host: Host, s: State)
    requires At(code, s, 0x50, []) && s.pc + 2 <= |code|
    ensures code[s.pc + 1] > 3 ==> Step(code, host, s) == Trapped(BadOpcode, s.pc, s.trace)
    ensures code[s.pc + 1] <= 3 && !Opens(host.caps, code[s.pc + 1]) ==>
              Step(code, host, s) == Trapped(MissingCapability, s.pc, s.trace)
  {
    BitHeld(host.caps);
    hide And;
  }

  /** `print_num` shows its operand; `print_str` shows the bytes its operands name, which must lie in memory. */
  lemma Prints(code: seq<byte>, host: Host, s: State, addr: i64, v: i64)
    requires At(code, s, 0x50, [addr, v]) && s.pc + 2 <= |code| && code[s.pc + 1] <= 1 && Opens(host.caps, code[s.pc + 1])
    ensures code[s.pc + 1] == 0 ==>
              Step(code, host, s) == Running(Replaced(s, s.pc + 2, 1, []).(trace := s.trace + [PrintNum(v)]))
    ensures code[s.pc + 1] == 1 && 0 <= addr && 0 <= v && addr + v <= MEM_SIZE ==>
              var shown := PrintStr(s.vm.mem[addr..addr + v]);
              Step(code, host, s) == Running(Replaced(s, s.pc + 2, 2, []).(trace := s.trace + [shown]))
    ensures code[s.pc + 1] == 1 && (addr < 0 || (0 <= v && addr + v > MEM_SIZE)) ==>
              Step(code, host, s) == Trapped(MemOob, s.pc, s.trace)
  {
    BitHeld(host.caps);
    hide And;
    PopsTwo(s, addr, v);
    assert s.vm.stack[..|s.vm.stack| - 2] + [] == s.vm.stack[..|s.vm.stack| - 2];
    assert s.vm.stack[..|s.vm.stack| - 1] + [] == s.vm.stack[..|s.vm.stack| - 1];
  }

  /** `cairn_put` hands the bytes its operands name to the store and traps if the store refuses. */
  lemma Puts(code: seq<byte>, host: Host, s: State, addr: i64, v: i64)
    requires At(code, s, 0x50, [addr, v]) && s.pc + 2 <= |code| && code[s.pc + 1] == 2 && Opens(host.caps, 2)
    requires 0 <= addr && 0 <= v && addr + v <= MEM_SIZE
    ensures var buf := s.vm.mem[addr..addr + v];
            var s' := Replaced(s, s.pc + 2, 2, []).(trace := s.trace + [Put(buf)]);
            Step(code, host, s) == if host.put(s.trace, buf) then Running(s') else Trapped(NoDisk, s.pc, s'.trace)
  {
    BitHeld(host.caps);
    hide And;
    PopsTwo(s, addr, v);
    assert s.vm.stack[..|s.vm.stack| - 2] + [] == s.vm.stack[..|s.vm.stack| - 2];
  }

  /** `cairn_get` lets the store fill the bytes its operands name and leaves the count the store reports. */
  lemma Gets(code: seq<byte>, host: Host, s: State, addr: i64, v: i64) returns (mem: Memory, n: i64)
    requires At(code, s, 0x50, [addr, v]) && s.pc + 2 <= |code| && code[s.pc + 1] == 3 && Opens(host.caps, 3)
    requires 0 <= addr && 0 <= v && addr + v <= MEM_SIZE
    ensures var buf := s.vm.mem[addr..addr + v];
            var trace := s.trace + [Get(buf)];
            match host.get(s.trace, buf)
            case None => Step(code, host, s) == Trapped(NoDisk, s.pc, trace)
            case Some(reply) =>
              && Step(code, host, s) == Running(Replaced(s.(vm := s.vm.(mem := mem), trace := trace), s.pc + 2, 2, [n]))
              && SameWord(n, reply.count)
              && (forall i :: 0 <= i < MEM_SIZE && !(addr <= i < addr + v) ==> mem[i] == s.vm.mem[i])
              && mem[addr..addr + v] == if |reply.buf| == v then reply.buf else buf
  {
    BitHeld(host.caps);
    hide And;
    PopsTwo(s, addr, v);
    var buf := s.vm.mem[addr..addr + v];
    mem, n := s.vm.mem, 0;
    match host.get(s.trace, buf)
    case None =>
    case Some(reply) =>
      WrapSame(reply.count);
      n := Wrap(reply.count);
      hide Written, Wrap, SameWord;
      if |reply.buf| == v {
        mem := Written(s.vm.mem, addr, reply.buf);
        WrittenBytes(s.vm.mem, addr, reply.buf);
      }
  }
}

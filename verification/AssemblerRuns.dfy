/** What assembled code does when it runs: the two pseudo-instructions, from their source line to the machine. */
module AssemblerRuns {
  import Bits
  import opened Bytes
  import opened Ir
  import opened IrLaws
  import opened Assembler
  import opened AssemblerTheorems

  /** The numbers the mnemonics stand for. */
  lemma MnemonicNumbers()
    ensures OPS0 == map[
      "halt" := 0x00, "pop" := 0x02, "dup" := 0x03, "swap" := 0x04, "add" := 0x10, "sub" := 0x11, "mul" := 0x12,
      "div" := 0x13, "mod" := 0x14, "lt" := 0x18, "gt" := 0x19, "eq" := 0x1a, "load8" := 0x20, "store8" := 0x21,
      "load64" := 0x22, "store64" := 0x23, "ret" := 0x41]
    ensures BRANCHES == map["jmp" := 0x30, "jz" := 0x31, "jnz" := 0x32, "call" := 0x40]
    ensures HOSTCALLS == map["print_num" := 0, "print_str" := 1, "cairn_put" := 2, "cairn_get" := 3]
  {
  }

  // --- One operation at a time ------------------------------------------------------------

  function Pushed(s: State, pc: nat, v: i64): State {
    s.(pc := pc, vm := s.vm.(stack := s.vm.stack + [v]))
  }

  lemma PushRuns(ops: seq<Op>, k: nat, host: Host, s: State, v: i64)
    requires AllLegal(ops) && k < |ops| && ops[k] == PushOp(v) && s.pc == Offset(ops, k) && |s.vm.stack| < STACK_SIZE
    ensures Step(EncodeAll(ops), host, s) == Running(Pushed(s, Offset(ops, k + 1), v))
  {
    hide EncodeAll, Offset, AllLegal, I64;
    InstructionAt(ops, k);
  }

  lemma StoreRuns(ops: seq<Op>, k: nat, host: Host, s: State, addr: nat, b: byte)
    requires AllLegal(ops) && k < |ops| && ops[k] == PlainOp(OPS0["store8"]) && s.pc == Offset(ops, k) && addr < MEM_SIZE
    requires |s.vm.stack| + 2 <= STACK_SIZE
    ensures Step(EncodeAll(ops), host, s.(vm := s.vm.(stack := s.vm.stack + [addr, b])))
         == Running(s.(pc := Offset(ops, k + 1), vm := s.vm.(mem := s.vm.mem[addr := b])))
  {
    hide EncodeAll, Offset, AllLegal, Step, LittleEndian, Bits.Pow2;
    InstructionAt(ops, k);
    var code, s1 := EncodeAll(ops), s.(vm := s.vm.(stack := s.vm.stack + [addr, b]));
    assert code[s.pc] == 0x21 && Offset(ops, k + 1) == s.pc + 1;
    assert s1.vm.stack[..|s1.vm.stack| - 2] == s.vm.stack;
    var mem := Stores(code, host, s1, 0x21, addr, b);
    OneByte(mem[addr..addr + 1], b);
    assert mem == s.vm.mem[addr := b];
    assert s.vm.stack + [] == s.vm.stack;
  }

  lemma OneByte(m: seq<byte>, b: byte)
    requires |m| == 1 && (LittleEndian(m) - b) % Bits.Pow2(8) == 0
    ensures m == [b]
  {
    PowByte();
    assert LittleEndian(m) == m[0] + 256 * LittleEndian([]);
  }

  lemma {:induction false} RunMore(code: seq<byte>, host: Host, s: State, n: nat, s': State, m: nat)
    requires Run(code, host, s, n) == Running(s')
    ensures Run(code, host, s, n + m) == Run(code, host, s', m)
    decreases n
  {
    hide Step;
    if n > 0 {
      RunMore(code, host, Step(code, host, s).s, n - 1, s', m);
    }
  }

  // --- string -----------------------------------------------------------------------------------

  /** The three operations that store byte `b` at `addr`. */
  ghost predicate StoresByte(ops: seq<Op>, k: nat, addr: int, b: byte) {
    && k + 3 <= |ops| && -TWO_63 <= addr < TWO_63
    && ops[k] == PushOp(addr) && ops[k + 1] == PushOp(b) && ops[k + 2] == PlainOp(OPS0["store8"])
  }

  ghost predicate StoresAll(ops: seq<Op>, k: nat, addr: int, bytes: seq<byte>) {
    forall j :: 0 <= j < |bytes| ==> StoresByte(ops, k + 3 * j, addr + j, bytes[j])
  }

  lemma ByteRuns(ops: seq<Op>, k: nat, host: Host, s: State, addr: nat, b: byte)
    requires AllLegal(ops) && StoresByte(ops, k, addr, b) && s.pc == Offset(ops, k) && addr < MEM_SIZE
    requires |s.vm.stack| + 2 <= STACK_SIZE
    ensures Run(EncodeAll(ops), host, s, 3) == Running(s.(pc := Offset(ops, k + 3), vm := s.vm.(mem := s.vm.mem[addr := b])))
  {
    hide EncodeAll, Offset, AllLegal, Step;
    var code := EncodeAll(ops);
    PushRuns(ops, k, host, s, addr);
    var s1 := Pushed(s, Offset(ops, k + 1), addr);
    PushRuns(ops, k + 1, host, s1, b);
    var s2 := Pushed(s1, Offset(ops, k + 2), b);
    assert s2.vm.stack == s.vm.stack + [addr, b];
    StoreRuns(ops, k + 2, host, s.(pc := Offset(ops, k + 2)), addr, b);
    assert Run(code, host, s2, 1) == Step(code, host, s2);
    assert Run(code, host, s1, 2) == Run(code, host, s2, 1);
  }

  /** Storing the bytes of a string one after another leaves the string in memory and nothing else changed. */
  lemma {:induction false} StringRuns(ops: seq<Op>, k: nat, host: Host, s: State, addr: nat, bytes: seq<byte>, n: nat)
    requires AllLegal(ops) && k <= |ops| && s.pc == Offset(ops, k) && |s.vm.stack| + 2 <= STACK_SIZE
    requires n <= |bytes| && addr + |bytes| <= MEM_SIZE
    requires StoresAll(ops, k, addr, bytes)
    ensures k + 3 * n <= |ops|
    ensures Run(EncodeAll(ops), host, s, 3 * n)
         == Running(s.(pc := Offset(ops, k + 3 * n), vm := s.vm.(mem := Written(s.vm.mem, addr, bytes[..n]))))
    decreases n
  {
    hide EncodeAll, Offset, AllLegal, Step;
    var code := EncodeAll(ops);
    if n == 0 {
      assert Written(s.vm.mem, addr, bytes[..0]) == s.vm.mem;
    } else {
      StringRuns(ops, k, host, s, addr, bytes, n - 1);
      var mem := Written(s.vm.mem, addr, bytes[..n - 1]);
      var s1 := s.(pc := Offset(ops, k + 3 * (n - 1)), vm := s.vm.(mem := mem));
      assert StoresByte(ops, k + 3 * (n - 1), addr + (n - 1), bytes[n - 1]);
      ByteRuns(ops, k + 3 * (n - 1), host, s1, addr + (n - 1), bytes[n - 1]);
      assert mem[addr + (n - 1) := bytes[n - 1]] == Written(s.vm.mem, addr, bytes[..n]);
      RunMore(code, host, s, 3 * (n - 1), s1, 3);
    }
  }

  // --- Lines of the source --------------------------------------------------------------------------

  lemma {:induction false} ExpandPrefix(text: Text, lines: seq<Line>, k: nat, n: nat)
    requires k <= n <= |lines| && Expand(text, lines, n).Good?
    ensures Expand(text, lines, k).Good? && Expand(text, lines, k).value <= Expand(text, lines, n).value
    decreases n
  {
    hide ExpandLine;
    if k < n {
      ExpandPrefix(text, lines, k, n - 1);
    }
  }

  /** Where the operations of line `k` begin. */
  ghost function LineStart(text: Text, lines: seq<Line>, k: nat): nat
    requires k <= |lines| && Expand(text, lines, |lines|).Good?
  {
    ExpandPrefix(text, lines, k, |lines|);
    Count(Expand(text, lines, |lines|).value, |Expand(text, lines, k).value|)
  }

  ghost predicate AllInstr(items: seq<Item>) {
    forall i :: 0 <= i < |items| ==> items[i].Instr?
  }

  lemma {:induction false} CountInstr(items: seq<Item>, a: nat, b: nat)
    requires a <= b <= |items| && AllInstr(items[a..b])
    ensures Count(items, b) == Count(items, a) + (b - a)
    decreases b
  {
    if a < b {
      assert items[b - 1] == items[a..b][b - 1 - a];
      assert items[a..b - 1] == items[a..b][..b - 1 - a];
      CountInstr(items, a, b - 1);
    }
  }

  /** The items of line `k` stand together in the expanded program. */
  lemma LinePlace(text: Text, lines: seq<Line>, k: nat, more: seq<Item>)
    requires k < |lines| && Expand(text, lines, |lines|).Good? && ExpandLine(text, lines[k]) == Good(more)
    ensures Expand(text, lines, k).Good? && Expand(text, lines, k + 1).Good?
    ensures var items, at := Expand(text, lines, |lines|).value, |Expand(text, lines, k).value|;
            && at + |more| <= |items| && items[at..at + |more|] == more
            && |Expand(text, lines, k + 1).value| == at + |more|
  {
    hide ExpandLine;
    ExpandPrefix(text, lines, k, |lines|);
    ExpandPrefix(text, lines, k + 1, |lines|);
    var items, head := Expand(text, lines, |lines|).value, Expand(text, lines, k).value;
    assert Expand(text, lines, k + 1).value == head + more;
    hide Expand;
    assert items[..|head| + |more|] == head + more;
    assert items[|head|..|head| + |more|] == more;
  }

  /** Item `at` is `item`, an instruction, and became operation `n`. */
  ghost predicate ItemEmits(text: Text, items: seq<Item>, ops: seq<Op>, at: nat, item: Item, n: nat) {
    && at < |items| && items[at] == item && item.Instr? && Count(items, at) == n < |ops| && ItemMeans(text, items, ops, at)
  }

  /** And so do its instructions, if it has no label, from the line's start on. */
  lemma LineEmitted(text: Text, lines: seq<Line>, k: nat, more: seq<Item>, i: nat)
    requires k < |lines| && Program(text, lines).Good? && ExpandLine(text, lines[k]) == Good(more) && AllInstr(more) && i < |more|
    ensures Expand(text, lines, |lines|).Good? && Expand(text, lines, k).Good? && AllLegal(Program(text, lines).value)
    ensures ItemEmits(text, Expand(text, lines, |lines|).value, Program(text, lines).value, |Expand(text, lines, k).value| + i,
                      more[i], LineStart(text, lines, k) + i)
  {
    hide Program, Expand, ExpandLine, ItemMeans, Offset, AllLegal;
    ProgramTargets(text, lines);
    LinePlace(text, lines, k, more);
    var items, at := Expand(text, lines, |lines|).value, |Expand(text, lines, k).value|;
    assert items[at + i] == items[at..at + |more|][i];
    assert items[at..at + i] == more[..i];
    hide Count;
    CountInstr(items, at, at + i);
  }

  lemma LineLength(text: Text, lines: seq<Line>, k: nat, more: seq<Item>)
    requires k < |lines| && Program(text, lines).Good? && ExpandLine(text, lines[k]) == Good(more) && AllInstr(more)
    ensures Expand(text, lines, |lines|).Good? && AllLegal(Program(text, lines).value)
    ensures LineStart(text, lines, k + 1) == LineStart(text, lines, k) + |more| <= |Program(text, lines).value|
  {
    hide Program, Expand, ExpandLine, ItemMeans, Offset, AllLegal, Count;
    ProgramTargets(text, lines);
    LinePlace(text, lines, k, more);
    var items, at := Expand(text, lines, |lines|).value, |Expand(text, lines, k).value|;
    CountInstr(items, at, at + |more|);
    CountGrows(items, at + |more|, |items|);
  }

  lemma {:induction false} CountGrows(items: seq<Item>, a: nat, b: nat)
    requires a <= b <= |items|
    ensures Count(items, a) <= Count(items, b)
    decreases b
  {
    if a < b {
      CountGrows(items, a, b - 1);
    }
  }

  ghost predicate ByteItems(items: seq<Item>, k: nat, addr: int, b: byte) {
    && k + 3 <= |items| && items[k] == Instr("push", [Number(addr)]) && items[k + 1] == Instr("push", [Number(b)])
    && items[k + 2] == Instr("store8", [])
  }

  lemma {:induction false} StringItemsAre(addr: int, bytes: seq<byte>)
    ensures var items := StringItems(addr, bytes);
            && |items| == 3 * |bytes| && AllInstr(items)
            && forall j :: 0 <= j < |bytes| ==> ByteItems(items, 3 * j, addr + j, bytes[j])
    decreases |bytes|
  {
    if bytes != [] {
      var n := |bytes| - 1;
      StringItemsAre(addr, bytes[..n]);
      var items, front := StringItems(addr, bytes), StringItems(addr, bytes[..n]);
      assert items == front + [Instr("push", [Number(addr + n)]), Instr("push", [Number(bytes[n])]), Instr("store8", [])];
      hide StringItems;
      forall j | 0 <= j < |bytes|
        ensures ByteItems(items, 3 * j, addr + j, bytes[j])
      {
        if j < n {
          assert ByteItems(front, 3 * j, addr + j, bytes[..n][j]);
        }
      }
    }
  }

  /** Line `k` is `string ADDR "text"`, with this address and these bytes. */
  ghost predicate StringLine(text: Text, line: Line, addr: int, bytes: seq<byte>) {
    && |line| == 3 && text.lower(line[0]) == "string" && text.parse(line[1]) == Some(addr)
    && |line[2]| >= 2 && line[2][0] == '"' && bytes == text.utf8(line[2][1..|line[2]| - 1])
  }

  lemma PushMeans(text: Text, items: seq<Item>, ops: seq<Op>, at: nat, arg: Arg, n: nat)
    requires ItemEmits(text, items, ops, at, Instr("push", [arg]), n)
    ensures n < |ops| && ops[n].PushOp? && Value(text, arg) == Some(ops[n].v)
  {
    hide Count;
  }

  lemma PrintMeans(text: Text, items: seq<Item>, ops: seq<Op>, at: nat, n: nat)
    requires ItemEmits(text, items, ops, at, Instr("hostcall", [Token("print_str")]), n)
    ensures n < |ops| && ops[n] == HostOp(HOSTCALLS["print_str"])
  {
    hide Count;
  }

  lemma StoreMeans(text: Text, items: seq<Item>, ops: seq<Op>, at: nat, n: nat)
    requires ItemEmits(text, items, ops, at, Instr("store8", []), n)
    ensures n < |ops| && ops[n] == PlainOp(OPS0["store8"])
  {
    hide Count;
  }

  lemma StringExpands(text: Text, line: Line, addr: int, bytes: seq<byte>)
    requires StringLine(text, line, addr, bytes)
    ensures ExpandLine(text, line) == Good(StringItems(addr, bytes))
  {
    hide StringItems;
  }

  lemma StringEmitted(text: Text, lines: seq<Line>, k: nat, addr: int, bytes: seq<byte>, j: nat)
    requires k < |lines| && Program(text, lines).Good? && StringLine(text, lines[k], addr, bytes) && j < |bytes|
    ensures Expand(text, lines, |lines|).Good?
    ensures StoresByte(Program(text, lines).value, LineStart(text, lines, k) + 3 * j, addr + j, bytes[j])
  {
    var more := StringItems(addr, bytes);
    StringItemsAre(addr, bytes);
    assert ByteItems(more, 3 * j, addr + j, bytes[j]);
    StringExpands(text, lines[k], addr, bytes);
    hide StringItems, Program, Expand, StringLine, ExpandLine, LineStart, AllInstr;
    PushEmitted(text, lines, k, more, 3 * j, Number(addr + j));
    PushEmitted(text, lines, k, more, 3 * j + 1, Number(bytes[j]));
    StoreEmitted(text, lines, k, more, 3 * j + 2);
  }

  lemma PushEmitted(text: Text, lines: seq<Line>, k: nat, more: seq<Item>, i: nat, arg: Arg)
    requires k < |lines| && Program(text, lines).Good? && ExpandLine(text, lines[k]) == Good(more) && AllInstr(more)
    requires i < |more| && more[i] == Instr("push", [arg])
    ensures Expand(text, lines, |lines|).Good?
    ensures var ops, n := Program(text, lines).value, LineStart(text, lines, k) + i;
            n < |ops| && ops[n].PushOp? && Value(text, arg) == Some(ops[n].v)
  {
    hide Program, Expand, ExpandLine, LineStart, ItemEmits, AllLegal, Value;
    LineEmitted(text, lines, k, more, i);
    PushMeans(text, Expand(text, lines, |lines|).value, Program(text, lines).value, |Expand(text, lines, k).value| + i, arg,
              LineStart(text, lines, k) + i);
  }

  lemma StoreEmitted(text: Text, lines: seq<Line>, k: nat, more: seq<Item>, i: nat)
    requires k < |lines| && Program(text, lines).Good? && ExpandLine(text, lines[k]) == Good(more) && AllInstr(more)
    requires i < |more| && more[i] == Instr("store8", [])
    ensures Expand(text, lines, |lines|).Good?
    ensures var ops, n := Program(text, lines).value, LineStart(text, lines, k) + i;
            n < |ops| && ops[n] == PlainOp(OPS0["store8"])
  {
    hide Program, Expand, ExpandLine, LineStart, ItemEmits, AllLegal;
    LineEmitted(text, lines, k, more, i);
    StoreMeans(text, Expand(text, lines, |lines|).value, Program(text, lines).value, |Expand(text, lines, k).value| + i,
               LineStart(text, lines, k) + i);
  }

  /** A `string` line of any program, run from any state with room for two operands: the text's bytes stand at the
      address, the rest of memory is as it was, and the next line follows. */
  lemma StringLineRuns(text: Text, lines: seq<Line>, k: nat, host: Host, s: State, addr: nat, bytes: seq<byte>)
    requires k < |lines| && Program(text, lines).Good? && StringLine(text, lines[k], addr, bytes)
    requires addr + |bytes| <= MEM_SIZE && |s.vm.stack| + 2 <= STACK_SIZE
    ensures Expand(text, lines, |lines|).Good?
    ensures var ops := Program(text, lines).value;
            var from, to := LineStart(text, lines, k), LineStart(text, lines, k + 1);
            && from <= to <= |ops|
            && (s.pc == Offset(ops, from) ==>
                  var s' := s.(pc := Offset(ops, to), vm := s.vm.(mem := Written(s.vm.mem, addr, bytes)));
                  Run(EncodeAll(ops), host, s, 3 * |bytes|) == Running(s'))
  {
    hide Program, EncodeAll, Expand, StringLine, LineStart, Offset, StoresByte, Run, AllLegal;
    var ops := Program(text, lines).value;
    StringLength(text, lines, k, addr, bytes);
    var from := LineStart(text, lines, k);
    forall j | 0 <= j < |bytes|
      ensures StoresByte(ops, from + 3 * j, addr + j, bytes[j])
    {
      StringEmitted(text, lines, k, addr, bytes, j);
    }
    assert StoresAll(ops, from, addr, bytes);
    hide StoresAll;
    if s.pc == Offset(ops, from) {
      StringRuns(ops, from, host, s, addr, bytes, |bytes|);
      assert bytes[..|bytes|] == bytes;
    }
  }

  lemma StringLength(text: Text, lines: seq<Line>, k: nat, addr: int, bytes: seq<byte>)
    requires k < |lines| && Program(text, lines).Good? && StringLine(text, lines[k], addr, bytes)
    ensures Expand(text, lines, |lines|).Good? && AllLegal(Program(text, lines).value)
    ensures LineStart(text, lines, k + 1) == LineStart(text, lines, k) + 3 * |bytes| <= |Program(text, lines).value|
  {
    StringItemsAre(addr, bytes);
    StringExpands(text, lines[k], addr, bytes);
    hide StringItems, Program, Expand, ExpandLine, StringLine, LineStart, AllLegal, AllInstr;
    LineLength(text, lines, k, StringItems(addr, bytes));
  }

  // --- prints -----------------------------------------------------------------------------------------

  ghost predicate PrintsLine(text: Text, line: Line, addr: int, len: int) {
    |line| == 3 && text.lower(line[0]) == "prints" && text.parse(line[1]) == Some(addr) && text.parse(line[2]) == Some(len)
  }

  lemma HostRuns(ops: seq<Op>, k: nat, host: Host, s: State, addr: nat, len: nat)
    requires AllLegal(ops) && k < |ops| && ops[k] == HostOp(HOSTCALLS["print_str"]) && s.pc == Offset(ops, k)
    requires addr + len <= MEM_SIZE && |s.vm.stack| + 2 <= STACK_SIZE && Opens(host.caps, 1)
    ensures Step(EncodeAll(ops), host, s.(vm := s.vm.(stack := s.vm.stack + [addr, len])))
         == Running(s.(pc := Offset(ops, k + 1), trace := s.trace + [PrintStr(s.vm.mem[addr..addr + len])]))
  {
    hide EncodeAll, Offset, AllLegal;
    InstructionAt(ops, k);
    var code, s1 := EncodeAll(ops), s.(vm := s.vm.(stack := s.vm.stack + [addr, len]));
    assert s1.vm.stack[..|s1.vm.stack| - 2] == s.vm.stack;
    Prints(code, host, s1, addr, len);
    assert s.vm.stack + [] == s.vm.stack;
  }

  ghost function PrintsItems(line: Line): seq<Item>
    requires |line| == 3
  {
    [Instr("push", [Token(line[1])]), Instr("push", [Token(line[2])]), Instr("hostcall", [Token("print_str")])]
  }

  lemma PrintsExpands(text: Text, line: Line, addr: int, len: int)
    requires PrintsLine(text, line, addr, len)
    ensures ExpandLine(text, line) == Good(PrintsItems(line)) && AllInstr(PrintsItems(line))
  {
  }

  lemma PrintsEmitted(text: Text, lines: seq<Line>, k: nat, addr: int, len: int)
    requires k < |lines| && Program(text, lines).Good? && PrintsLine(text, lines[k], addr, len)
    ensures Expand(text, lines, |lines|).Good? && AllLegal(Program(text, lines).value)
    ensures -TWO_63 <= addr < TWO_63 && -TWO_63 <= len < TWO_63
    ensures var ops, from := Program(text, lines).value, LineStart(text, lines, k);
            && LineStart(text, lines, k + 1) == from + 3 <= |ops|
            && ops[from] == PushOp(addr) && ops[from + 1] == PushOp(len) && ops[from + 2] == HostOp(HOSTCALLS["print_str"])
  {
    var line, more := lines[k], PrintsItems(lines[k]);
    PrintsExpands(text, line, addr, len);
    hide Program, Expand, ItemEmits, ExpandLine, LineStart, AllLegal;
    LineLength(text, lines, k, more);
    PushEmitted(text, lines, k, more, 0, Token(line[1]));
    PushEmitted(text, lines, k, more, 1, Token(line[2]));
    LineEmitted(text, lines, k, more, 2);
    PrintMeans(text, Expand(text, lines, |lines|).value, Program(text, lines).value, |Expand(text, lines, k).value| + 2,
               LineStart(text, lines, k) + 2);
  }

  /** A `prints` line shows the bytes it names, if the host may print. */
  lemma PrintsLineRuns(text: Text, lines: seq<Line>, k: nat, host: Host, s: State, addr: nat, len: nat)
    requires k < |lines| && Program(text, lines).Good? && PrintsLine(text, lines[k], addr, len)
    requires addr + len <= MEM_SIZE && |s.vm.stack| + 2 <= STACK_SIZE && Opens(host.caps, 1)
    ensures Expand(text, lines, |lines|).Good?
    ensures var ops := Program(text, lines).value;
            var from, to := LineStart(text, lines, k), LineStart(text, lines, k + 1);
            && from <= to <= |ops|
            && (s.pc == Offset(ops, from) ==>
                  var s' := s.(pc := Offset(ops, to), trace := s.trace + [PrintStr(s.vm.mem[addr..addr + len])]);
                  Run(EncodeAll(ops), host, s, 3) == Running(s'))
  {
    hide Program, EncodeAll, Expand, LineStart, Offset, Step, AllLegal;
    PrintsEmitted(text, lines, k, addr, len);
    var ops, from := Program(text, lines).value, LineStart(text, lines, k);
    var code := EncodeAll(ops);
    if s.pc == Offset(ops, from) {
      PushRuns(ops, from, host, s, addr);
      var s1 := Pushed(s, Offset(ops, from + 1), addr);
      PushRuns(ops, from + 1, host, s1, len);
      var s2 := Pushed(s1, Offset(ops, from + 2), len);
      assert s2.vm.stack == s.vm.stack + [addr, len];
      HostRuns(ops, from + 2, host, s.(pc := Offset(ops, from + 2)), addr, len);
      assert Run(code, host, s2, 1) == Step(code, host, s2);
      assert Run(code, host, s1, 2) == Run(code, host, s2, 1);
    }
  }

  /** A text written by one line and printed by the next comes out as it was written. */
  lemma TextComesOut(text: Text, lines: seq<Line>, k: nat, host: Host, s: State, addr: nat, bytes: seq<byte>)
    requires k + 1 < |lines| && Program(text, lines).Good?
    requires StringLine(text, lines[k], addr, bytes) && PrintsLine(text, lines[k + 1], addr, |bytes|)
    requires addr + |bytes| <= MEM_SIZE && |s.vm.stack| + 2 <= STACK_SIZE && Opens(host.caps, 1)
    ensures Expand(text, lines, |lines|).Good? && LineStart(text, lines, k) <= |Program(text, lines).value|
    ensures s.pc == Offset(Program(text, lines).value, LineStart(text, lines, k)) ==>
              var o := Run(EncodeAll(Program(text, lines).value), host, s, 3 * |bytes| + 3);
              o.Running? && o.s.trace == s.trace + [PrintStr(bytes)]
  {
    hide Program, EncodeAll, Expand, LineStart, Offset, Run, StringLine, PrintsLine;
    var ops := Program(text, lines).value;
    var s1 := s.(vm := s.vm.(mem := Written(s.vm.mem, addr, bytes)));
    StringLineRuns(text, lines, k, host, s, addr, bytes);
    var s2 := s1.(pc := Offset(ops, LineStart(text, lines, k + 1)));
    PrintsLineRuns(text, lines, k + 1, host, s2, addr, |bytes|);
    assert s2.vm.mem[addr..addr + |bytes|] == bytes;
    if s.pc == Offset(ops, LineStart(text, lines, k)) {
      RunMore(EncodeAll(ops), host, s, 3 * |bytes|, s2, 3);
    }
  }
}

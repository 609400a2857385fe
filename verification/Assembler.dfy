/** The Dezh-IR assembler: pseudo-instructions, labels and two passes over the program. */
module Assembler {
  import opened Bytes
  import opened Ir

  /** What the assembler takes from its language's text library. */
  datatype Text = Text(lower: string -> string, parse: string -> Option<int>, utf8: string -> seq<byte>)

  datatype Error = BadUsage | NotANumber | NamelessLabel | DuplicateLabel | UnknownInstruction | BadOperands | UndefinedLabel | OutOfRange

  datatype Asm<T> = Good(value: T) | Bad(error: Error)

  /** An operand as written, or a number the expansion computed. */
  datatype Arg = Token(text: string) | Number(n: int)

  datatype Item = Label(name: string) | Instr(mnemonic: string, args: seq<Arg>)

  type Line = l: seq<string> | |l| > 0 witness ["halt"]

  // --- Mnemonics -----------------------------------------------------------------------

  const OPS0: map<string, byte> := map[
    "halt" := HALT, "pop" := POP, "dup" := DUP, "swap" := SWAP, "add" := ADD, "sub" := SUB, "mul" := MUL, "div" := DIV,
    "mod" := MOD, "lt" := LT, "gt" := GT, "eq" := EQ, "load8" := LOAD8, "store8" := STORE8, "load64" := LOAD64,
    "store64" := STORE64, "ret" := RET]

  const BRANCHES: map<string, byte> := map["jmp" := JMP, "jz" := JZ, "jnz" := JNZ, "call" := CALL]

  const HOSTCALLS: map<string, byte> := map[
    "print_num" := HC_PRINT_NUM, "print_str" := HC_PRINT_STR, "cairn_put" := HC_CAIRN_PUT, "cairn_get" := HC_CAIRN_GET]

  lemma PlainOpcode(m: string)
    requires m in OPS0
    ensures OpSize(OPS0[m]) == Some(1) && SizeOf(m) == 1
  {
  }

  lemma BranchOpcode(m: string)
    requires m in BRANCHES
    ensures IsBranch(BRANCHES[m]) && m != "push"
  {
  }

  lemma HostCallId(m: string)
    requires m in HOSTCALLS
    ensures HOSTCALLS[m] <= HC_CAIRN_GET
  {
  }

  predicate Known(m: string) {
    m in OPS0 || m == "push" || m in BRANCHES || m == "hostcall"
  }

  function SizeOf(m: string): nat {
    if m == "push" then 9 else if m in BRANCHES then 3 else if m == "hostcall" then 2 else 1
  }

  // --- Expansion ---------------------------------------------------------------------------

  /** The stores that put `bytes` into memory from `addr` on. */
  function StringItems(addr: int, bytes: seq<byte>): seq<Item> {
    if bytes == [] then []
    else
      var n := |bytes| - 1;
      StringItems(addr, bytes[..n])
      + [Instr("push", [Number(addr + n)]), Instr("push", [Number(bytes[n])]), Instr("store8", [])]
  }

  function Unquoted(s: string): string {
    if |s| < 2 then "" else s[1..|s| - 1]
  }

  function Tokens(args: seq<string>): (r: seq<Arg>)
    ensures |r| == |args|
  {
    seq(|args|, i requires 0 <= i < |args| => Token(args[i]))
  }

  /** A label is written `name:` or `label name`; a line `label` alone stops the first pass. */
  function ExpandLine(text: Text, line: Line): Asm<seq<Item>> {
    var head := text.lower(line[0]);
    if |head| > 0 && head[|head| - 1] == ':' && |line| == 1 then
      Good([Label(if line[0] == "" then "" else line[0][..|line[0]| - 1])])
    else if head == "string" then
      if |line| != 3 || line[2] == "" || line[2][0] != '"' then Bad(BadUsage)
      else match text.parse(line[1])
           case None => Bad(NotANumber)
           case Some(addr) => Good(StringItems(addr, text.utf8(Unquoted(line[2]))))
    else if head == "prints" then
      if |line| != 3 then Bad(BadUsage)
      else Good([Instr("push", [Token(line[1])]), Instr("push", [Token(line[2])]), Instr("hostcall", [Token("print_str")])])
    else if head == "label" && |line| > 1 then Good([Label(line[1])])
    else Good([Instr(head, Tokens(line[1..]))])
  }

  function Expand(text: Text, lines: seq<Line>, k: nat): Asm<seq<Item>>
    requires k <= |lines|
  {
    if k == 0 then Good([])
    else
      match Expand(text, lines, k - 1)
      case Bad(e) => Bad(e)
      case Good(items) =>
        match ExpandLine(text, lines[k - 1])
        case Bad(e) => Bad(e)
        case Good(more) => Good(items + more)
  }

  // --- Pass 1: label offsets ------------------------------------------------------------------

  datatype Layout = Layout(labels: map<string, nat>, offset: nat)

  function Place(l: Layout, item: Item): Asm<Layout> {
    match item
    case Label(name) => if name in l.labels then Bad(DuplicateLabel) else Good(l.(labels := l.labels[name := l.offset]))
    case Instr(m, _) =>
      if m == "label" then Bad(NamelessLabel)
      else if Known(m) then Good(l.(offset := l.offset + SizeOf(m))) else Bad(UnknownInstruction)
  }

  function Pass1(items: seq<Item>, k: nat): Asm<Layout>
    requires k <= |items|
  {
    if k == 0 then Good(Layout(map[], 0))
    else
      match Pass1(items, k - 1)
      case Bad(e) => Bad(e)
      case Good(l) => Place(l, items[k - 1])
  }

  // --- Pass 2: instructions -------------------------------------------------------------------

  /** An instruction with its operand resolved. */
  datatype Op = PushOp(v: i64) | BranchOp(op: byte, target: nat) | HostOp(f: byte) | PlainOp(op: byte)
  {
    predicate Legal() {
      match this
      case PushOp(_) => true
      case BranchOp(op, t) => IsBranch(op) && t < 0x1_0000
      case HostOp(f) => f <= HC_CAIRN_GET
      case PlainOp(op) => OpSize(op) == Some(1)
    }

    function Encode(): (b: seq<byte>) {
      match this
      case PushOp(v) => [PUSH] + LeBytes(AsUsize(v), 8)
      case BranchOp(op, t) => [op, LeByte(t, 0), LeByte(t, 1)]
      case HostOp(f) => [HOSTCALL, f]
      case PlainOp(op) => [op]
    }
  }

  function Value(text: Text, arg: Arg): Option<int> {
    match arg case Number(n) => Some(n) case Token(t) => text.parse(t)
  }

  function Resolve(text: Text, labels: map<string, nat>, m: string, args: seq<Arg>): Asm<Op>
    requires Known(m)
  {
    if m == "push" then
      if |args| != 1 then Bad(BadOperands)
      else match Value(text, args[0])
           case None => Bad(NotANumber)
           case Some(n) => if -TWO_63 <= n < TWO_63 then Good(PushOp(n)) else Bad(OutOfRange)
    else if m in BRANCHES then
      if |args| != 1 then Bad(BadOperands)
      else if !args[0].Token? || args[0].text !in labels then Bad(UndefinedLabel)
      else if labels[args[0].text] >= 0x1_0000 then Bad(OutOfRange)
      else Good(BranchOp(BRANCHES[m], labels[args[0].text]))
    else if m == "hostcall" then
      if |args| != 1 || !args[0].Token? || args[0].text !in HOSTCALLS then Bad(BadOperands)
      else Good(HostOp(HOSTCALLS[args[0].text]))
    else if args != [] then Bad(BadOperands)
    else Good(PlainOp(OPS0[m]))
  }

  /** The instructions of the first `k` items. */
  function Pass2(text: Text, labels: map<string, nat>, items: seq<Item>, k: nat): Asm<seq<Op>>
    requires k <= |items| && forall i :: 0 <= i < |items| && items[i].Instr? ==> Known(items[i].mnemonic)
  {
    if k == 0 then Good([])
    else
      match Pass2(text, labels, items, k - 1)
      case Bad(e) => Bad(e)
      case Good(ops) =>
        match items[k - 1]
        case Label(_) => Good(ops)
        case Instr(m, args) =>
          match Resolve(text, labels, m, args)
          case Bad(e) => Bad(e)
          case Good(op) => Good(ops + [op])
  }

  function EncodeAll(ops: seq<Op>): seq<byte> {
    if ops == [] then [] else EncodeAll(ops[..|ops| - 1]) + ops[|ops| - 1].Encode()
  }

  lemma {:induction false} Pass1Knows(items: seq<Item>, k: nat, i: nat)
    requires k <= |items| && Pass1(items, k).Good? && i < k && items[i].Instr?
    ensures Known(items[i].mnemonic)
    decreases k
  {
    if i < k - 1 {
      Pass1Knows(items, k - 1, i);
    }
  }

  /** The program as a list of resolved instructions. */
  ghost function Program(text: Text, lines: seq<Line>): Asm<seq<Op>> {
    match Expand(text, lines, |lines|)
    case Bad(e) => Bad(e)
    case Good(items) =>
      match Pass1(items, |items|)
      case Bad(e) => Bad(e)
      case Good(l) =>
        assert forall i :: 0 <= i < |items| && items[i].Instr? ==> Known(items[i].mnemonic) by {
          forall i | 0 <= i < |items| && items[i].Instr?
            ensures Known(items[i].mnemonic)
          {
            Pass1Knows(items, |items|, i);
          }
        }
        Pass2(text, l.labels, items, |items|)
  }

  // --- The passes as loops ------------------------------------------------------------------

  method ExpandString(addr: int, bytes: seq<byte>) returns (items: seq<Item>)
    ensures items == StringItems(addr, bytes)
  {
    items := [];
    var i := 0;
    while i < |bytes|
      invariant i <= |bytes| && items == StringItems(addr, bytes[..i])
    {
      items := items + [Instr("push", [Number(addr + i)]), Instr("push", [Number(bytes[i])]), Instr("store8", [])];
      assert bytes[..i + 1][..i] == bytes[..i];
      i := i + 1;
    }
    assert bytes[..i] == bytes;
  }

  method ExpandSource(text: Text, lines: seq<Line>) returns (r: Asm<seq<Item>>)
    ensures r == Expand(text, lines, |lines|)
  {
    var prog: seq<Item>, k := [], 0;
    while k < |lines|
      invariant k <= |lines| && Expand(text, lines, k) == Good(prog)
    {
      var line := lines[k];
      var head := text.lower(line[0]);
      if |head| > 0 && head[|head| - 1] == ':' && |line| == 1 {
        prog := prog + [Label(if line[0] == "" then "" else line[0][..|line[0]| - 1])];
      } else if head == "string" {
        if |line| != 3 || line[2] == "" || line[2][0] != '"' {
          ExpandStops(text, lines, k + 1, |lines|);
          return Bad(BadUsage);
        }
        var addr := text.parse(line[1]);
        if addr.None? {
          ExpandStops(text, lines, k + 1, |lines|);
          return Bad(NotANumber);
        }
        var items := ExpandString(addr.value, text.utf8(Unquoted(line[2])));
        prog := prog + items;
      } else if head == "prints" {
        if |line| != 3 {
          ExpandStops(text, lines, k + 1, |lines|);
          return Bad(BadUsage);
        }
        prog := prog + [Instr("push", [Token(line[1])]), Instr("push", [Token(line[2])]), Instr("hostcall", [Token("print_str")])];
      } else if head == "label" && |line| > 1 {
        prog := prog + [Label(line[1])];
      } else {
        prog := prog + [Instr(head, Tokens(line[1..]))];
      }
      k := k + 1;
    }
    return Good(prog);
  }

  lemma {:induction false} ExpandStops(text: Text, lines: seq<Line>, k: nat, n: nat)
    requires k <= n <= |lines| && Expand(text, lines, k).Bad?
    ensures Expand(text, lines, n) == Bad(Expand(text, lines, k).error)
    decreases n
  {
    if k < n {
      ExpandStops(text, lines, k, n - 1);
    }
  }

  method PlaceLabels(prog: seq<Item>) returns (r: Asm<map<string, nat>>)
    ensures match Pass1(prog, |prog|) case Good(l) => r == Good(l.labels) case Bad(e) => r == Bad(e)
  {
    var labels: map<string, nat>, offset: nat, k := map[], 0, 0;
    while k < |prog|
      invariant k <= |prog| && Pass1(prog, k) == Good(Layout(labels, offset))
    {
      match prog[k] {
        case Label(name) =>
          if name in labels {
            Pass1Stops(prog, k + 1, |prog|);
            return Bad(DuplicateLabel);
          }
          labels := labels[name := offset];
        case Instr(m, _) =>
          if m == "label" {
            Pass1Stops(prog, k + 1, |prog|);
            return Bad(NamelessLabel);
          } else if m in OPS0 || m == "push" || m in BRANCHES || m == "hostcall" {
            offset := offset + SizeOf(m);
          } else {
            Pass1Stops(prog, k + 1, |prog|);
            return Bad(UnknownInstruction);
          }
      }
      k := k + 1;
    }
    return Good(labels);
  }

  lemma {:induction false} Pass1Stops(items: seq<Item>, k: nat, n: nat)
    requires k <= n <= |items| && Pass1(items, k).Bad?
    ensures Pass1(items, n) == Bad(Pass1(items, k).error)
    decreases n
  {
    if k < n {
      Pass1Stops(items, k, n - 1);
    }
  }

  method EmitInstruction(text: Text, labels: map<string, nat>, m: string, args: seq<Arg>) returns (r: Asm<seq<byte>>)
    requires Known(m)
    ensures match Resolve(text, labels, m, args) case Good(op) => r == Good(op.Encode()) case Bad(e) => r == Bad(e)
  {
    hide LeBytes, LeByte;
    if m == "push" {
      if |args| != 1 {
        return Bad(BadOperands);
      }
      var n := match args[0] case Number(x) => Some(x) case Token(t) => text.parse(t);
      if n.None? {
        return Bad(NotANumber);
      }
      if !(-TWO_63 <= n.value < TWO_63) {
        return Bad(OutOfRange);
      }
      return Good([PUSH] + LeBytes(AsUsize(n.value), 8));
    } else if m in BRANCHES {
      if |args| != 1 {
        return Bad(BadOperands);
      }
      if !args[0].Token? || args[0].text !in labels {
        return Bad(UndefinedLabel);
      }
      var target := labels[args[0].text];
      if target >= 0x1_0000 {
        return Bad(OutOfRange);
      }
      return Good([BRANCHES[m], LeByte(target, 0), LeByte(target, 1)]);
    } else if m == "hostcall" {
      if |args| != 1 || !args[0].Token? || args[0].text !in HOSTCALLS {
        return Bad(BadOperands);
      }
      return Good([HOSTCALL, HOSTCALLS[args[0].text]]);
    } else {
      if args != [] {
        return Bad(BadOperands);
      }
      return Good([OPS0[m]]);
    }
  }

  /** `assemble`: the bytes of the resolved program. */
  method Assemble(text: Text, lines: seq<Line>) returns (r: Asm<seq<byte>>)
    ensures match Program(text, lines) case Good(ops) => r == Good(EncodeAll(ops)) case Bad(e) => r == Bad(e)
  {
    hide Place, Resolve, ExpandLine, Known;
    var expanded := ExpandSource(text, lines);
    if expanded.Bad? {
      return Bad(expanded.error);
    }
    var prog := expanded.value;
    var placed := PlaceLabels(prog);
    if placed.Bad? {
      return Bad(placed.error);
    }
    forall i | 0 <= i < |prog| && prog[i].Instr?
      ensures Known(prog[i].mnemonic)
    {
      Pass1Knows(prog, |prog|, i);
    }
    r := Emit(text, placed.value, prog);
  }

  method Emit(text: Text, labels: map<string, nat>, prog: seq<Item>) returns (r: Asm<seq<byte>>)
    requires forall i :: 0 <= i < |prog| && prog[i].Instr? ==> Known(prog[i].mnemonic)
    ensures match Pass2(text, labels, prog, |prog|) case Good(ops) => r == Good(EncodeAll(ops)) case Bad(e) => r == Bad(e)
  {
    hide Resolve, Known;
    var out: seq<byte>, k := [], 0;
    while k < |prog|
      invariant k <= |prog| && Pass2(text, labels, prog, k).Good? && EncodeAll(Pass2(text, labels, prog, k).value) == out
    {
      if prog[k].Instr? {
        var bytes := EmitInstruction(text, labels, prog[k].mnemonic, prog[k].args);
        if bytes.Bad? {
          Pass2Stops(text, labels, prog, k + 1, |prog|);
          return Bad(bytes.error);
        }
        ghost var ops, op := Pass2(text, labels, prog, k).value, Resolve(text, labels, prog[k].mnemonic, prog[k].args).value;
        assert (ops + [op])[..|ops|] == ops;
        out := out + bytes.value;
      }
      k := k + 1;
    }
    return Good(out);
  }

  lemma {:induction false} Pass2Stops(text: Text, labels: map<string, nat>, items: seq<Item>, k: nat, n: nat)
    requires forall i :: 0 <= i < |items| && items[i].Instr? ==> Known(items[i].mnemonic)
    requires k <= n <= |items| && Pass2(text, labels, items, k).Bad?
    ensures Pass2(text, labels, items, n) == Bad(Pass2(text, labels, items, k).error)
    decreases n
  {
    if k < n {
      Pass2Stops(text, labels, items, k, n - 1);
    }
  }
}

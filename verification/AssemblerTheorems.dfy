/** What assembled code is worth: it decodes back to the program, and it passes the verifier. */
module AssemblerTheorems {
  import opened Bytes
  import opened Ir
  import opened IrVerifier
  import opened Assembler

  // --- Decoding ----------------------------------------------------------------------------

  /** The instruction that starts at `pc`. */
  function DecodeOp(code: seq<byte>, pc: nat): Op
    requires Fits(code, pc)
  {
    var op := code[pc];
    if op == PUSH then PushOp(I64(code[pc + 1..pc + 9]))
    else if IsBranch(op) then BranchOp(op, Target(code, pc))
    else if op == HOSTCALL then HostOp(code[pc + 1])
    else PlainOp(op)
  }

  /** The instructions from `pc` on, if they end exactly at the end of the code. */
  function Decode(code: seq<byte>, pc: nat): Option<seq<Op>>
    decreases |code| - pc
  {
    if pc == |code| then Some([])
    else if !Fits(code, pc) then None
    else
      match Decode(code, Next(code, pc))
      case None => None
      case Some(ops) => Some([DecodeOp(code, pc)] + ops)
  }

  ghost predicate AllLegal(ops: seq<Op>) {
    forall k :: 0 <= k < |ops| ==> ops[k].Legal()
  }

  /** Where instruction `k` starts. */
  ghost function Offset(ops: seq<Op>, k: nat): nat
    requires k <= |ops|
  {
    |EncodeAll(ops[..k])|
  }

  lemma {:induction false} EncodeAppend(a: seq<Op>, b: seq<Op>)
    ensures EncodeAll(a + b) == EncodeAll(a) + EncodeAll(b)
    decreases |b|
  {
    hide Op.Encode;
    if b == [] {
      assert a + b == a;
    } else {
      var n := |b| - 1;
      EncodeAppend(a, b[..n]);
      assert (a + b)[..|a + b| - 1] == a + b[..n] && (a + b)[|a + b| - 1] == b[n];
      Associate(EncodeAll(a), EncodeAll(b[..n]), b[n].Encode());
    }
  }

  lemma Associate(a: seq<byte>, b: seq<byte>, c: seq<byte>)
    ensures a + (b + c) == a + b + c
  {
  }

  /** The code of instruction `k` lies at its offset. */
  lemma OffsetOf(ops: seq<Op>, k: nat)
    requires k < |ops|
    ensures var code, at, b := EncodeAll(ops), Offset(ops, k), ops[k].Encode();
            at + |b| <= |code| && code[at..at + |b|] == b && Offset(ops, k + 1) == at + |b|
  {
    hide EncodeAll, Op.Encode;
    var head, tail := ops[..k], ops[k + 1..];
    EncodeOne(ops[k]);
    EncodeAppend(head, [ops[k]]);
    EncodeAppend(ops[..k + 1], tail);
    assert ops[..k + 1] == head + [ops[k]];
    assert ops == ops[..k + 1] + tail;
    Middle(EncodeAll(head), ops[k].Encode(), EncodeAll(tail));
  }

  lemma Middle(a: seq<byte>, b: seq<byte>, c: seq<byte>)
    ensures (a + b + c)[|a|..|a| + |b|] == b
  {
  }

  lemma EncodeOne(op: Op)
    ensures EncodeAll([op]) == op.Encode()
  {
    assert [op][..0] == [];
  }

  /** An encoded instruction reads back, wherever it stands. */
  lemma OpRoundTrip(code: seq<byte>, at: nat, op: Op)
    requires op.Legal() && at + |op.Encode()| <= |code| && code[at..at + |op.Encode()|] == op.Encode()
    ensures Fits(code, at) && Next(code, at) == at + |op.Encode()| && DecodeOp(code, at) == op
  {
    var b, c := op.Encode(), code[at..at + |op.Encode()|];
    assert code[at] == c[0] == b[0];
    match op
    case PushOp(v) =>
      WordRoundTrip(v);
      hide LeBytes, I64;
      assert code[at + 1..at + 9] == c[1..] == b[1..] == LeBytes(AsUsize(v), 8);
    case BranchOp(_, t) =>
      assert code[at + 1] == c[1] == b[1] && code[at + 2] == c[2] == b[2];
      Le16RoundTrip(t);
    case HostOp(f) =>
      assert code[at + 1] == c[1] == b[1];
    case PlainOp(_) =>
  }

  lemma InstructionAt(ops: seq<Op>, k: nat)
    requires AllLegal(ops) && k < |ops|
    ensures var code, at := EncodeAll(ops), Offset(ops, k);
            Fits(code, at) && Next(code, at) == Offset(ops, k + 1) && DecodeOp(code, at) == ops[k]
  {
    hide EncodeAll, Op.Encode, Fits, DecodeOp;
    OffsetOf(ops, k);
    OpRoundTrip(EncodeAll(ops), Offset(ops, k), ops[k]);
  }

  /** Linear decoding of assembled code gives the program back. */
  lemma {:induction false} DecodeRoundTrip(ops: seq<Op>, k: nat)
    requires AllLegal(ops) && k <= |ops|
    ensures Decode(EncodeAll(ops), Offset(ops, k)) == Some(ops[k..])
    decreases |ops| - k
  {
    hide EncodeAll, Fits, DecodeOp;
    if k == |ops| {
      assert ops[..k] == ops;
    } else {
      InstructionAt(ops, k);
      OffsetsGrow(ops, k + 1);
      DecodeRoundTrip(ops, k + 1);
      assert ops[k..] == [ops[k]] + ops[k + 1..];
    }
  }

  lemma OffsetsGrow(ops: seq<Op>, k: nat)
    requires AllLegal(ops) && k <= |ops|
    ensures Offset(ops, k) <= |EncodeAll(ops)| && (k < |ops| ==> Offset(ops, k) < |EncodeAll(ops)|)
    ensures k > 0 ==> Offset(ops, k - 1) < |EncodeAll(ops)|
  {
    hide EncodeAll, Op.Encode;
    if k < |ops| {
      OffsetOf(ops, k);
      Encoded(ops[k]);
    } else {
      assert ops[..k] == ops;
    }
    if k > 0 {
      OffsetOf(ops, k - 1);
      Encoded(ops[k - 1]);
    }
  }

  lemma Encoded(op: Op)
    ensures |op.Encode()| > 0
  {
  }

  // --- Boundaries ------------------------------------------------------------------------------

  lemma {:induction false} OffsetIsBoundary(ops: seq<Op>, k: nat)
    requires AllLegal(ops) && k <= |ops|
    ensures Boundary(EncodeAll(ops), Offset(ops, k))
    decreases k
  {
    hide EncodeAll, Fits;
    if k == 0 {
      NothingEncoded(ops);
    } else {
      OffsetIsBoundary(ops, k - 1);
      InstructionAt(ops, k - 1);
      ReachesThen(EncodeAll(ops), 0, Offset(ops, k - 1), Offset(ops, k));
    }
  }

  lemma NothingEncoded(ops: seq<Op>)
    ensures Offset(ops, 0) == 0
  {
    assert ops[..0] == [];
  }

  lemma {:induction false} BoundaryIsOffset(ops: seq<Op>, k: nat, p: nat) returns (j: nat)
    requires AllLegal(ops) && k <= |ops| && Reaches(EncodeAll(ops), Offset(ops, k), p)
    ensures j <= |ops| && p == Offset(ops, j)
    decreases |ops| - k
  {
    hide EncodeAll, Fits;
    if p == Offset(ops, k) {
      j := k;
    } else {
      if k < |ops| {
        InstructionAt(ops, k);
        j := BoundaryIsOffset(ops, k + 1, p);
      } else {
        assert ops[..k] == ops;
        PastTheEnd(EncodeAll(ops), p);
        j := k;
      }
    }
  }

  lemma PastTheEnd(code: seq<byte>, p: nat)
    requires Reaches(code, |code|, p)
    ensures p == |code|
  {
  }

  // --- Labels --------------------------------------------------------------------------------

  lemma ResolvedIsLegal(text: Text, labels: map<string, nat>, m: string, args: seq<Arg>)
    requires Known(m) && Resolve(text, labels, m, args).Good?
    ensures var op := Resolve(text, labels, m, args).value;
            op.Legal() && |op.Encode()| == SizeOf(m)
  {
    if m == "push" {
    } else if m in BRANCHES {
      BranchOpcode(m);
      assert args[0].text in labels;
    } else if m == "hostcall" {
      HostCallId(args[0].text);
    } else {
      PlainOpcode(m);
    }
  }

  /** `at` is where some instruction of `ops` starts, or where they end. */
  ghost predicate IsOffset(ops: seq<Op>, at: nat) {
    exists k :: 0 <= k <= |ops| && at == Offset(ops, k)
  }

  /** How many of the first `k` items are instructions. */
  ghost function Count(items: seq<Item>, k: nat): nat
    requires k <= |items|
  {
    if k == 0 then 0 else Count(items, k - 1) + if items[k - 1].Instr? then 1 else 0
  }

  ghost predicate AllKnown(items: seq<Item>) {
    forall i :: 0 <= i < |items| && items[i].Instr? ==> Known(items[i].mnemonic)
  }

  /** The second pass emits one operation per instruction, in order. */
  lemma {:induction false} EmitsInOrder(text: Text, labels: map<string, nat>, items: seq<Item>, i: nat, k: nat)
    requires i <= k <= |items| && AllKnown(items) && Pass2(text, labels, items, k).Good?
    ensures Pass2(text, labels, items, i).Good?
    ensures Pass2(text, labels, items, i).value <= Pass2(text, labels, items, k).value
    ensures |Pass2(text, labels, items, i).value| == Count(items, i)
    decreases k
  {
    hide Resolve, Known;
    if i < k {
      EmitsInOrder(text, labels, items, i, k - 1);
    } else if k > 0 {
      EmitsInOrder(text, labels, items, k - 1, k - 1);
    }
  }

  /** The first pass computes the sizes the second one emits. */
  lemma {:induction false} SizesAgree(text: Text, labels: map<string, nat>, items: seq<Item>, k: nat)
    requires k <= |items| && AllKnown(items) && Pass1(items, k).Good? && Pass2(text, labels, items, k).Good?
    ensures Pass1(items, k).value.offset == |EncodeAll(Pass2(text, labels, items, k).value)|
    ensures AllLegal(Pass2(text, labels, items, k).value)
    decreases k
  {
    hide Resolve, Known, Op.Encode, Op.Legal;
    if k > 0 {
      SizesAgree(text, labels, items, k - 1);
      match items[k - 1]
      case Label(_) =>
      case Instr(m, args) =>
        var ops, op := Pass2(text, labels, items, k - 1).value, Resolve(text, labels, m, args).value;
        ResolvedIsLegal(text, labels, m, args);
        assert (ops + [op])[..|ops|] == ops;
    }
  }

  /** A label has the offset at which it stands, and no label stands twice. */
  lemma {:induction false} LabelStands(items: seq<Item>, j: nat, k: nat)
    requires j < k <= |items| && Pass1(items, k).Good? && items[j].Label?
    ensures Pass1(items, j).Good? && items[j].name in Pass1(items, k).value.labels
    ensures Pass1(items, k).value.labels[items[j].name] == Pass1(items, j).value.offset
    ensures forall i :: j < i < k && items[i].Label? ==> items[i].name != items[j].name
    decreases k
  {
    hide Known, SizeOf;
    if j < k - 1 {
      LabelStands(items, j, k - 1);
    }
  }

  /** Every entry of the table comes from a label of the program. */
  lemma {:induction false} LabelHasPlace(items: seq<Item>, name: string, k: nat) returns (j: nat)
    requires k <= |items| && Pass1(items, k).Good? && name in Pass1(items, k).value.labels
    ensures j < k && items[j] == Label(name)
    decreases k
  {
    hide Known, SizeOf;
    if k > 0 && items[k - 1] == Label(name) {
      j := k - 1;
    } else {
      j := LabelHasPlace(items, name, k - 1);
    }
  }

  /** The label of a program stands where its name occurs: its value is the offset of the next instruction after it. */
  lemma LabelsAreOffsets(text: Text, labels: map<string, nat>, items: seq<Item>, j: nat)
    requires j < |items| && items[j].Label? && AllKnown(items)
    requires Pass1(items, |items|).Good? && labels == Pass1(items, |items|).value.labels
    requires Pass2(text, labels, items, |items|).Good?
    ensures var ops := Pass2(text, labels, items, |items|).value;
            && items[j].name in labels && Count(items, j) <= |ops|
            && labels[items[j].name] == Offset(ops, Count(items, j))
  {
    hide Pass1, Pass2, EncodeAll;
    var ops := Pass2(text, labels, items, |items|).value;
    LabelStands(items, j, |items|);
    EmitsInOrder(text, labels, items, j, |items|);
    SizesAgree(text, labels, items, j);
    assert ops[..Count(items, j)] == Pass2(text, labels, items, j).value;
  }

  /** What item `i` of the program became: its own operation, with a branch going to where the label it names stands. */
  ghost predicate ItemMeans(text: Text, items: seq<Item>, ops: seq<Op>, i: nat)
    requires i < |items| && items[i].Instr? && Count(items, i) < |ops|
  {
    var m, args, op := items[i].mnemonic, items[i].args, ops[Count(items, i)];
    if m == "push" then |args| == 1 && op.PushOp? && Value(text, args[0]) == Some(op.v)
    else if m in BRANCHES then
      && |args| == 1 && args[0].Token? && op.BranchOp? && op.op == BRANCHES[m]
      && exists j :: 0 <= j < |items| && items[j] == Label(args[0].text) && TargetsItem(items, ops, op.target, j)
    else if m == "hostcall" then |args| == 1 && args[0].Token? && args[0].text in HOSTCALLS && op == HostOp(HOSTCALLS[args[0].text])
    else m in OPS0 && args == [] && op == PlainOp(OPS0[m])
  }

  ghost predicate TargetsItem(items: seq<Item>, ops: seq<Op>, target: nat, j: nat)
    requires j < |items|
  {
    Count(items, j) <= |ops| && target == Offset(ops, Count(items, j))
  }

  /** `ops` is the program `items` with every label replaced by the offset at which it stands. */
  ghost predicate Means(text: Text, items: seq<Item>, ops: seq<Op>) {
    && |ops| == Count(items, |items|)
    && (forall i :: 0 <= i < |items| && items[i].Instr? ==> Count(items, i) < |ops| && ItemMeans(text, items, ops, i))
    && (forall i, j :: 0 <= i < j < |items| && items[i].Label? && items[j].Label? ==> items[i].name != items[j].name)
  }

  lemma ItemEmitted(text: Text, labels: map<string, nat>, items: seq<Item>, i: nat)
    requires i < |items| && items[i].Instr? && AllKnown(items)
    requires Pass1(items, |items|).Good? && labels == Pass1(items, |items|).value.labels
    requires Pass2(text, labels, items, |items|).Good?
    ensures var ops := Pass2(text, labels, items, |items|).value;
            Count(items, i) < |ops| && ItemMeans(text, items, ops, i)
  {
    hide Pass1, EncodeAll, Offset;
    var m, args, ops := items[i].mnemonic, items[i].args, Pass2(text, labels, items, |items|).value;
    EmitsInOrder(text, labels, items, i, |items|);
    EmitsInOrder(text, labels, items, i + 1, |items|);
    var op := ops[Count(items, i)];
    assert Resolve(text, labels, m, args) == Good(op);
    if m != "push" && m in BRANCHES {
      var j := LabelHasPlace(items, args[0].text, |items|);
      LabelsAreOffsets(text, labels, items, j);
      assert TargetsItem(items, ops, op.target, j);
    }
  }

  lemma ProgramMeans(text: Text, labels: map<string, nat>, items: seq<Item>)
    requires AllKnown(items)
    requires Pass1(items, |items|).Good? && labels == Pass1(items, |items|).value.labels
    requires Pass2(text, labels, items, |items|).Good?
    ensures AllLegal(Pass2(text, labels, items, |items|).value)
    ensures Means(text, items, Pass2(text, labels, items, |items|).value)
  {
    hide Pass1, Pass2, ItemMeans;
    SizesAgree(text, labels, items, |items|);
    EmitsInOrder(text, labels, items, |items|, |items|);
    forall i | 0 <= i < |items| && items[i].Instr?
      ensures Count(items, i) < |Pass2(text, labels, items, |items|).value|
      ensures ItemMeans(text, items, Pass2(text, labels, items, |items|).value, i)
    {
      ItemEmitted(text, labels, items, i);
    }
    forall i, j | 0 <= i < j < |items| && items[i].Label? && items[j].Label?
      ensures items[i].name != items[j].name
    {
      LabelStands(items, i, |items|);
    }
  }

  /** Every operation comes from an instruction of the program. */
  lemma {:induction false} ItemOf(items: seq<Item>, n: nat, k: nat) returns (i: nat)
    requires k <= |items| && n < Count(items, k)
    ensures i < k && items[i].Instr? && Count(items, i) == n
    decreases k
  {
    if items[k - 1].Instr? && Count(items, k - 1) == n {
      i := k - 1;
    } else {
      i := ItemOf(items, n, k - 1);
    }
  }

  /** Every branch of an assembled program goes to the start of an instruction, or to the end. */
  lemma ProgramTargets(text: Text, lines: seq<Line>)
    requires Program(text, lines).Good?
    ensures var ops := Program(text, lines).value;
            && Expand(text, lines, |lines|).Good? && Means(text, Expand(text, lines, |lines|).value, ops)
            && AllLegal(ops) && forall i :: 0 <= i < |ops| && ops[i].BranchOp? ==> IsOffset(ops, ops[i].target)
  {
    hide Place, Resolve, EncodeAll, Known, Expand;
    var items, ops := Expand(text, lines, |lines|).value, Program(text, lines).value;
    var l := Pass1(items, |items|).value;
    forall i | 0 <= i < |items| && items[i].Instr?
      ensures Known(items[i].mnemonic)
    {
      Pass1Knows(items, |items|, i);
    }
    hide Pass1, Pass2, Program;
    ProgramMeans(text, l.labels, items);
    forall n | 0 <= n < |ops| && ops[n].BranchOp?
      ensures IsOffset(ops, ops[n].target)
    {
      var i := ItemOf(items, n, |items|);
      assert ItemMeans(text, items, ops, i);
      var j :| 0 <= j < |items| && items[j] == Label(items[i].args[0].text) && TargetsItem(items, ops, ops[n].target, j);
    }
  }

  // --- Theorems --------------------------------------------------------------------------------

  /** What the assembler accepts passes the verifier exactly if it is not too long and no branch goes to its end. */
  lemma AssembledCodeVerifies(text: Text, lines: seq<Line>)
    requires Program(text, lines).Good?
    ensures var ops := Program(text, lines).value;
            var code := EncodeAll(ops);
            WellFormed(code) <==>
              |code| <= MAX_PROG && forall i :: 0 <= i < |ops| && ops[i].BranchOp? ==> ops[i].target != |code|
  {
    hide Program, EncodeAll, Fits, Op.Encode, Op.Legal;
    ProgramTargets(text, lines);
    var ops := Program(text, lines).value;
    var code := EncodeAll(ops);
    DecodeRoundTrip(ops, 0);
    NothingEncoded(ops);
    DecodeDecodes(code, 0);
    if |code| <= MAX_PROG {
      forall i | 0 <= i < |ops|
        ensures Fits(code, Offset(ops, i)) && Boundary(code, Offset(ops, i))
        ensures TargetOk(code, Offset(ops, i)) <==> (ops[i].BranchOp? ==> ops[i].target != |code|)
      {
        InstructionAt(ops, i);
        OffsetIsBoundary(ops, i);
        TargetLands(ops, i);
      }
      forall p | 0 <= p < |code| && Boundary(code, p) && Fits(code, p)
        ensures exists i :: 0 <= i < |ops| && p == Offset(ops, i)
      {
        var i := BoundaryIsOffset(ops, 0, p);
        assert ops[..|ops|] == ops;
      }
      forall i | 0 <= i < |ops|
        ensures Offset(ops, i) < |code|
      {
        OffsetsGrow(ops, i);
      }
    }
  }

  lemma TargetLands(ops: seq<Op>, i: nat)
    requires AllLegal(ops) && i < |ops| && (ops[i].BranchOp? ==> IsOffset(ops, ops[i].target))
    ensures Fits(EncodeAll(ops), Offset(ops, i))
    ensures TargetOk(EncodeAll(ops), Offset(ops, i)) <==> (ops[i].BranchOp? ==> ops[i].target != |EncodeAll(ops)|)
  {
    InstructionAt(ops, i);
    if ops[i].BranchOp? {
      var k :| 0 <= k <= |ops| && ops[i].target == Offset(ops, k);
      OffsetIsBoundary(ops, k);
      OffsetsGrow(ops, k);
    }
    hide EncodeAll;
  }

  lemma {:induction false} DecodeDecodes(code: seq<byte>, pc: nat)
    requires Decode(code, pc).Some?
    ensures Decodes(code, pc)
    decreases |code| - pc
  {
    if pc != |code| {
      DecodeDecodes(code, Next(code, pc));
    }
  }

  /** Linear decoding of what the assembler emits gives back the expanded program, each branch going to where its label
      stands. */
  lemma AssembledCodeDecodes(text: Text, lines: seq<Line>)
    requires Program(text, lines).Good?
    ensures var ops := Program(text, lines).value;
            && Decode(EncodeAll(ops), 0) == Some(ops)
            && Expand(text, lines, |lines|).Good? && Means(text, Expand(text, lines, |lines|).value, ops)
  {
    hide Program, EncodeAll, Decode, Means;
    var ops := Program(text, lines).value;
    ProgramTargets(text, lines);
    DecodeRoundTrip(ops, 0);
    NothingEncoded(ops);
    assert ops[0..] == ops;
  }
}

/** Which programs the assembler accepts: exactly those without a mistake. */
module AssemblerAccepts {
  import opened Bytes
  import opened Ir
  import opened Assembler
  import opened AssemblerTheorems

  /** A line that is no misused pseudo-instruction. */
  ghost predicate LineOk(text: Text, line: Line) {
    var head := text.lower(line[0]);
    && (head == "string" ==> |line| == 3 && line[2] != "" && line[2][0] == '"' && text.parse(line[1]).Some?)
    && (head == "prints" ==> |line| == 3)
  }

  /** How many bytes the instructions among the first `k` items take. */
  ghost function Size(items: seq<Item>, k: nat): nat
    requires k <= |items|
  {
    if k == 0 then 0
    else
      Size(items, k - 1) +
      match items[k - 1]
      case Label(_) => 0
      case Instr(m, _) => if m == "push" then 9 else if m in {"jmp", "jz", "jnz", "call"} then 3 else if m == "hostcall" then 2 else 1
  }

  /** Label `j` has this name and stands where a branch can reach it. */
  ghost predicate Reachable(items: seq<Item>, j: nat, name: string) {
    j < |items| && items[j] == Label(name) && Size(items, j) < 0x1_0000
  }

  /** The operands an instruction needs: a word, a label of the program, a host call, or none. */
  ghost predicate OperandsOk(text: Text, items: seq<Item>, m: string, args: seq<Arg>) {
    if m == "push" then |args| == 1 && Value(text, args[0]).Some? && -TWO_63 <= Value(text, args[0]).value < TWO_63
    else if m in {"jmp", "jz", "jnz", "call"} then |args| == 1 && args[0].Token? && exists j :: Reachable(items, j, args[0].text)
    else if m == "hostcall" then |args| == 1 && args[0].Token? && args[0].text in {"print_num", "print_str", "cairn_put", "cairn_get"}
    else args == []
  }

  ghost predicate ItemOk(text: Text, items: seq<Item>, i: nat)
    requires i < |items|
  {
    items[i].Instr? ==> Known(items[i].mnemonic) && OperandsOk(text, items, items[i].mnemonic, items[i].args)
  }

  ghost predicate NoLabelTwice(items: seq<Item>, k: nat)
    requires k <= |items|
  {
    forall i, j :: 0 <= i < j < k && items[i].Label? && items[j].Label? ==> items[i].name != items[j].name
  }

  lemma BranchNames(m: string)
    ensures m in BRANCHES <==> m in {"jmp", "jz", "jnz", "call"}
  {
  }

  lemma HostNames(f: string)
    ensures f in HOSTCALLS <==> f in {"print_num", "print_str", "cairn_put", "cairn_get"}
  {
  }

  lemma LineExpands(text: Text, line: Line)
    ensures ExpandLine(text, line).Good? <==> LineOk(text, line)
  {
    hide StringItems;
  }

  lemma {:induction false} LinesExpand(text: Text, lines: seq<Line>, k: nat)
    requires k <= |lines|
    ensures Expand(text, lines, k).Good? <==> forall i :: 0 <= i < k ==> LineOk(text, lines[i])
    decreases k
  {
    hide ExpandLine, LineOk;
    if k > 0 {
      LinesExpand(text, lines, k - 1);
      LineExpands(text, lines[k - 1]);
    }
  }

  /** The first pass succeeds exactly on known instructions with no label twice, and measures them. */
  lemma {:induction false} FirstPass(items: seq<Item>, k: nat)
    requires k <= |items|
    ensures Pass1(items, k).Good? <==> NoLabelTwice(items, k) && forall i :: 0 <= i < k && items[i].Instr? ==> Known(items[i].mnemonic)
    ensures Pass1(items, k).Good? ==> Pass1(items, k).value.offset == Size(items, k)
    decreases k
  {
    hide Known;
    if k > 0 {
      FirstPass(items, k - 1);
      if Pass1(items, k - 1).Good? {
        match items[k - 1]
        case Label(name) =>
          if name in Pass1(items, k - 1).value.labels {
            var j := LabelHasPlace(items, name, k - 1);
            assert items[j].name == items[k - 1].name;
          } else {
            forall i | 0 <= i < k - 1 && items[i].Label?
              ensures items[i].name != name
            {
              LabelStands(items, i, k - 1);
            }
          }
        case Instr(m, _) =>
          BranchNames(m);
          NoLabelKnown(m);
      }
    }
  }

  lemma NoLabelKnown(m: string)
    ensures Known(m) ==> m != "label"
  {
  }

  /** A name resolves exactly if its label stands within reach. */
  lemma Resolves(items: seq<Item>, name: string)
    requires Pass1(items, |items|).Good?
    ensures var labels := Pass1(items, |items|).value.labels;
            (name in labels && labels[name] < 0x1_0000) <==> exists j :: Reachable(items, j, name)
  {
    hide Pass1, Size;
    var labels := Pass1(items, |items|).value.labels;
    if name in labels {
      var j := LabelHasPlace(items, name, |items|);
      LabelStands(items, j, |items|);
      FirstPass(items, j);
      if labels[name] < 0x1_0000 {
        assert Reachable(items, j, name);
      }
    }
    forall j | Reachable(items, j, name)
      ensures name in labels && labels[name] < 0x1_0000
    {
      LabelStands(items, j, |items|);
      FirstPass(items, j);
    }
  }

  lemma OperandsResolve(text: Text, items: seq<Item>, m: string, args: seq<Arg>)
    requires Pass1(items, |items|).Good? && Known(m)
    ensures Resolve(text, Pass1(items, |items|).value.labels, m, args).Good? <==> OperandsOk(text, items, m, args)
  {
    hide Pass1, Reachable;
    BranchNames(m);
    if |args| == 1 && args[0].Token? {
      Resolves(items, args[0].text);
      HostNames(args[0].text);
    }
  }

  lemma {:induction false} SecondPass(text: Text, items: seq<Item>, k: nat)
    requires Pass1(items, |items|).Good? && AllKnown(items) && k <= |items|
    ensures Pass2(text, Pass1(items, |items|).value.labels, items, k).Good? <==> forall i :: 0 <= i < k ==> ItemOk(text, items, i)
    decreases k
  {
    hide Pass1, Resolve, OperandsOk, Known;
    if k > 0 {
      SecondPass(text, items, k - 1);
      if items[k - 1].Instr? {
        assert Known(items[k - 1].mnemonic);
        OperandsResolve(text, items, items[k - 1].mnemonic, items[k - 1].args);
      }
      assert ItemOk(text, items, k - 1) <==> items[k - 1].Instr? ==>
               Resolve(text, Pass1(items, |items|).value.labels, items[k - 1].mnemonic, items[k - 1].args).Good?;
    }
  }

  /** A program is accepted if and only if no line misuses a pseudo-instruction, every instruction is known and has the
      operands it needs, and no label stands twice. */
  lemma AcceptsExactly(text: Text, lines: seq<Line>)
    ensures Program(text, lines).Good? <==>
              && (forall k :: 0 <= k < |lines| ==> LineOk(text, lines[k]))
              && Expand(text, lines, |lines|).Good?
              && var items := Expand(text, lines, |lines|).value;
                 NoLabelTwice(items, |items|) && forall i :: 0 <= i < |items| ==> ItemOk(text, items, i)
  {
    hide Expand, Pass1, Pass2, LineOk, OperandsOk, Known, NoLabelTwice;
    LinesExpand(text, lines, |lines|);
    if Expand(text, lines, |lines|).Good? {
      var items := Expand(text, lines, |lines|).value;
      FirstPass(items, |items|);
      if Pass1(items, |items|).Good? {
        SecondPass(text, items, |items|);
      } else if NoLabelTwice(items, |items|) {
        var i :| 0 <= i < |items| && items[i].Instr? && !Known(items[i].mnemonic);
        assert !ItemOk(text, items, i);
      }
    }
  }
}

/** A plain receive that times out: an orderly run in which a task takes up the deadline of a receive that is over.
    The task on hart 1 waits for an interrupt and is woken by a message instead, so that it stays marked as waiting. The
    wakeup of an interrupt then wakes it out of a receive with a timeout, whose deadline stays in force. */
module SchedStale {
  import opened Bits
  import opened Bytes
  import opened SchedTable
  import opened SchedSteps
  import opened SchedSafety
  import opened SchedJoin
  import opened SchedTheorems

  const DATA: seq<byte> := Zeros(64)

  function Regs(number: nat, a0: nat, a2: nat, hart: nat): Frame {
    Frame(0, a0, 0, a2, 0, 0, number, hart)
  }

  /** The sender runs on the boot hart; everything but the task under observation is as at the start. */
  predicate Scene(cfg: Config, w: World) {
    && cfg.boot == 0 && w.smpOn && w.tb.ticks == 0
    && w.phase[0] == User(1) && w.tb.current[0] == Some(1) && (forall h: Hart :: h >= 2 ==> w.tb.current[h] == None)
    && w.tb.tasks[1].state == Ready && w.tb.tasks[1].caps == TASK_IPC && w.tb.tasks[1].frame.hart == 0 && w.hist[1].call == None
    && w.tb.tasks[2].state == Unused && w.tb.tasks[3].state == Unused
  }

  /** The task under observation, the call it is in, where hart 1 is, and the interrupts counted and due. */
  predicate At(cfg: Config, w: World, t: Task, call: Option<Call>, p: Phase, irqs: nat, due: nat) {
    && Scene(cfg, w) && w.tb.tasks[0] == t && t.caps == TASK_IPC && t.satp != cfg.kernelSatp
    && w.hist[0].call == call && w.phase[1] == p && w.tb.current[1] == (if p == Console then None else Some(0))
    && w.tb.extIrqs == irqs && w.wakesDue == due
  }

  /** Steps that no caller's discipline restricts. */
  predicate Free(steps: seq<Step>) {
    forall k :: 0 <= k < |steps| ==> !steps[k].Switch? && !steps[k].Join? && !steps[k].ResetRow? && !steps[k].Install? && !steps[k].StartAt?
  }

  lemma IpcBits()
    ensures And(TASK_IPC, TASK_IPC) == TASK_IPC && And(0, TASK_IPC) == 0 && Or(TASK_IPC, 0) == TASK_IPC
  {
    assert And(1, 1) == 1 && And(0, 1) == 0 && Or(1, 0) == 1;
    assert And(2, 2) == 2 && And(0, 2) == 0 && Or(2, 0) == 2;
  }

  // --- Single moves ------------------------------------------------------------------------------------

  /** The task sets up its registers and traps. */
  lemma Traps(cfg: Config, w: World, t: Task, f: Frame, irqs: nat, due: nat) returns (steps: seq<Step>)
    requires At(cfg, w, t, None, User(0), irqs, due) && f.hart == t.frame.hart
    ensures Free(steps) && IsRun(cfg, w, steps)
    ensures At(cfg, After(cfg, w, steps), t.(frame := f.(pc := f.pc + 4)), Some(Call(f, true, 0, None)), Serving(0, TASK_IPC), irqs, due)
  {
    var w1 := Do(cfg, w, UserRun(1, f));
    assert At(cfg, w1, t.(frame := f), None, User(0), irqs, due);
    steps := TrapsAgain(cfg, w1, t.(frame := f), None, irqs, due);
    hide Do, At;
    OneStep(cfg, w, UserRun(1, f));
    RunThen(cfg, w, [UserRun(1, f)], steps);
    steps := [UserRun(1, f)] + steps;
  }

  /** The task traps, for the first time or again. */
  lemma TrapsAgain(cfg: Config, w: World, t: Task, call: Option<Call>, irqs: nat, due: nat) returns (steps: seq<Step>)
    requires At(cfg, w, t, call, User(0), irqs, due)
    ensures Free(steps) && IsRun(cfg, w, steps)
    ensures var c := match call { case None => Call(t.frame, true, 0, None) case Some(c) => c.(advanced := true) };
            At(cfg, After(cfg, w, steps), t.(frame := t.frame.(pc := t.frame.pc + 4)), Some(c), Serving(0, TASK_IPC), irqs, due)
  {
    var w1 := Do(cfg, w, Ecall(1));
    var w2 := Do(cfg, w1, ReadCaps(1));
    OneStep(cfg, w, Ecall(1));
    AndThen(cfg, w, [Ecall(1)], ReadCaps(1));
    steps := [Ecall(1)] + [ReadCaps(1)];
  }

  /** Hart 1 finds nothing to run. */
  lemma Leaves(cfg: Config, w: World, t: Task, call: Option<Call>, irqs: nat, due: nat)
    requires At(cfg, w, t, call, Resched, irqs, due) && t.state == Blocked && (t.recvWaiting ==> t.deadline > 0)
    ensures Enabled(cfg, w, Dispatch(1)) && At(cfg, Do(cfg, w, Dispatch(1)), t, call, Console, irqs, due)
  {
    StillWaiting(w);
    NoneEligible(cfg, w.tb, 1);
    hide Pick, ExpireAll;
  }

  /** Nothing expires: only the task under observation is blocked, and its deadline is ahead. */
  lemma StillWaiting(w: World)
    requires w.tb.ticks == 0 && w.tb.tasks[1].state != Blocked && w.tb.tasks[2].state != Blocked && w.tb.tasks[3].state != Blocked
    requires w.tb.tasks[0].state == Blocked && w.tb.tasks[0].recvWaiting ==> w.tb.tasks[0].deadline > 0
    ensures ExpireAll(w) == w
  {
    assert Expire(w.tb).tasks == w.tb.tasks;
    assert ExpireAll(w).hist == w.hist;
  }

  lemma NoneEligible(cfg: Config, tb: Table, h: Hart)
    requires forall i: Tid :: !Eligible(cfg, tb, h, i)
    ensures Pick(cfg, tb, h) == None
  {
    PickIsEligible(cfg, tb, h);
    hide Eligible, Pick;
  }

  /** Hart 1 comes back in and takes the task. */
  lemma ComesIn(cfg: Config, w: World, t: Task, call: Option<Call>, irqs: nat, due: nat) returns (steps: seq<Step>)
    requires At(cfg, w, t, call, Console, irqs, due) && t.state == Ready
    ensures Free(steps) && IsRun(cfg, w, steps)
    ensures At(cfg, After(cfg, w, steps), t.(frame := t.frame.(hart := 1)), call, User(0), irqs, due)
  {
    hide Do, Enabled, At, IsRun, After;
    TakesIt(cfg, w, t, call, irqs, due);
    OneStep(cfg, w, Invite(1));
    AndThen(cfg, w, [Invite(1)], Enter(1));
    steps := [Invite(1)] + [Enter(1)];
  }

  lemma TakesIt(cfg: Config, w: World, t: Task, call: Option<Call>, irqs: nat, due: nat)
    requires At(cfg, w, t, call, Console, irqs, due) && t.state == Ready
    ensures Enabled(cfg, w, Invite(1)) && Enabled(cfg, Do(cfg, w, Invite(1)), Enter(1))
    ensures At(cfg, Do(cfg, Do(cfg, w, Invite(1)), Enter(1)), t.(frame := t.frame.(hart := 1)), call, User(0), irqs, due)
  {
    var w1 := Do(cfg, w, Invite(1));
    StillWaiting(w1);
    OnlyReady(cfg, w1.tb, 1, 0);
    hide Pick, ExpireAll;
  }

  /** The sender sends the task a message without a grant. */
  lemma Sends(cfg: Config, w: World, t: Task, call: Option<Call>, p: Phase, irqs: nat, due: nat) returns (steps: seq<Step>, m: Message)
    requires At(cfg, w, t, call, p, irqs, due) && (t.state == Ready || t.state == Blocked) && t.mbox == []
    ensures Free(steps) && IsRun(cfg, w, steps) && m.grant == 0
    ensures At(cfg, After(cfg, w, steps), Enqueue(t, m), call, p, irqs, due)
  {
    IpcBits();
    var f := Regs(SYS_SEND, 0, 0, 0);
    m := MessageOf(1, f, TASK_IPC, DATA);
    hide Do, Enabled, At, IsRun, After, And, Or;
    SenderTraps(cfg, w, f, t, call, p, irqs, due);
    var w1 := Do(cfg, w, UserRun(0, f));
    var w2 := Do(cfg, w1, Ecall(0));
    var w3 := Do(cfg, w2, ReadCaps(0));
    Posts(cfg, w3, f, t, call, p, irqs, due);
    OneStep(cfg, w, UserRun(0, f));
    AndThen(cfg, w, [UserRun(0, f)], Ecall(0));
    AndThen(cfg, w, [UserRun(0, f)] + [Ecall(0)], ReadCaps(0));
    AndThen(cfg, w, [UserRun(0, f)] + [Ecall(0)] + [ReadCaps(0)], Serve(0, DATA));
    steps := [UserRun(0, f)] + [Ecall(0)] + [ReadCaps(0)] + [Serve(0, DATA)];
  }

  /** A world in which the sender is being served, with the sender put back to where it trapped. */
  function SenderBack(w: World): World {
    w.(phase := w.phase[0 := User(1)], hist := w.hist[1 := w.hist[1].(call := None)])
  }

  lemma SenderTraps(cfg: Config, w: World, f: Frame, t: Task, call: Option<Call>, p: Phase, irqs: nat, due: nat)
    requires At(cfg, w, t, call, p, irqs, due) && f == Regs(SYS_SEND, 0, 0, 0)
    ensures Enabled(cfg, w, UserRun(0, f)) && Enabled(cfg, Do(cfg, w, UserRun(0, f)), Ecall(0))
    ensures Enabled(cfg, Do(cfg, Do(cfg, w, UserRun(0, f)), Ecall(0)), ReadCaps(0))
    ensures var w' := Do(cfg, Do(cfg, Do(cfg, w, UserRun(0, f)), Ecall(0)), ReadCaps(0));
            && At(cfg, SenderBack(w'), t, call, p, irqs, due)
            && w'.phase[0] == Serving(1, TASK_IPC) && w'.tb.tasks[1].frame == f.(pc := 4) && w'.hist[1].call.Some?
  {
  }

  lemma Posts(cfg: Config, w: World, f: Frame, t: Task, call: Option<Call>, p: Phase, irqs: nat, due: nat)
    requires At(cfg, SenderBack(w), t, call, p, irqs, due)
    requires w.phase[0] == Serving(1, TASK_IPC) && (t.state == Ready || t.state == Blocked) && t.mbox == []
    requires f == Regs(SYS_SEND, 0, 0, 0) && w.tb.tasks[1].frame == f.(pc := 4) && w.hist[1].call.Some?
    ensures Enabled(cfg, w, Serve(0, DATA))
    ensures At(cfg, Do(cfg, w, Serve(0, DATA)), Enqueue(t, MessageOf(1, f, TASK_IPC, DATA)), call, p, irqs, due)
  {
    IpcBits();
    assert SendRefused(w.tb.tasks, w.tb.tasks[1].frame, TASK_IPC) == None;
    assert MessageOf(1, w.tb.tasks[1].frame, TASK_IPC, DATA) == MessageOf(1, f, TASK_IPC, DATA);
    hide And, Or, SendRefused, MessageOf;
  }

  // --- Calls of the task under observation -----------------------------------------------------------

  /** A call that parks the task, and hart 1 leaves. `t` is the task with its flags set. */
  lemma Parks(cfg: Config, w: World, t: Task, u: Task, c: Call, irqs: nat, due: nat) returns (steps: seq<Step>)
    requires At(cfg, w, t, Some(c), Serving(0, TASK_IPC), irqs, due) && ServeCall(w, 1, 0, TASK_IPC, DATA) == Park(w, 1, 0, u)
    requires u.frame == t.frame && u.caps == t.caps && u.satp == t.satp && t.frame.pc == 4 && (u.recvWaiting ==> u.deadline > 0)
    ensures Free(steps) && IsRun(cfg, w, steps)
    ensures At(cfg, After(cfg, w, steps), u.(frame := t.frame.(pc := 0), state := Blocked),
               Some(c.(advanced := false, since := 0, armed := Armed(u))), Console, irqs, due)
  {
    var w1 := Do(cfg, w, Serve(1, DATA));
    assert w1 == Park(w, 1, 0, u);
    var u', c' := u.(frame := t.frame.(pc := 0), state := Blocked), c.(advanced := false, since := 0, armed := Armed(u));
    assert At(cfg, w1, u', Some(c'), Resched, irqs, due);
    Leaves(cfg, w1, u', Some(c'), irqs, due);
    hide ServeCall, Park, Search, At;
    OneStep(cfg, w, Serve(1, DATA));
    AndThen(cfg, w, [Serve(1, DATA)], Dispatch(1));
    steps := [Serve(1, DATA)] + [Dispatch(1)];
  }

  /** A call that returns to the task as `u`. */
  lemma Returns(cfg: Config, w: World, t: Task, u: Task, c: Call, irqs: nat, due: nat) returns (steps: seq<Step>)
    requires At(cfg, w, t, Some(c), Serving(0, TASK_IPC), irqs, due) && u.caps == t.caps && u.satp == t.satp
    requires var w' := ServeCall(w, 1, 0, TASK_IPC, DATA);
             && w'.tb.tasks == w.tb.tasks[0 := u] && w'.phase == w.phase[1 := User(0)] && w'.hist[1] == w.hist[1] && w'.hist[0].call == None
             && w'.tb.current == w.tb.current && w'.tb.extIrqs == irqs && w'.wakesDue == due && w'.smpOn && w'.tb.ticks == 0
    ensures Free(steps) && IsRun(cfg, w, steps)
    ensures At(cfg, After(cfg, w, steps), u, None, User(0), irqs, due)
  {
    hide ServeCall;
    assert Enabled(cfg, w, Serve(1, DATA));
    OneStep(cfg, w, Serve(1, DATA));
    steps := [Serve(1, DATA)];
  }

  lemma Receives(cfg: Config, w: World, t: Task, c: Call, irqs: nat, due: nat) returns (steps: seq<Step>, u: Task)
    requires At(cfg, w, t, Some(c), Serving(0, TASK_IPC), irqs, due) && |t.mbox| == 1 && t.mbox[0].grant == 0
    requires Receiving(t.frame.a7)
    ensures Free(steps) && IsRun(cfg, w, steps) && At(cfg, After(cfg, w, steps), u, None, User(0), irqs, due)
    ensures u == Receive(t) && u.mbox == [] && u.frame.hart == t.frame.hart
  {
    IpcBits();
    u := Receive(t);
    hide And, Or, Receive;
    Delivered(w, t);
    steps := Returns(cfg, w, t, u, c, irqs, due);
  }

  lemma Delivered(w: World, t: Task)
    requires w.tb.tasks[0] == t && |t.mbox| == 1 && Receiving(t.frame.a7) && And(TASK_IPC, TASK_IPC) != 0 && w.hist[0].call.Some?
    ensures var w' := ServeCall(w, 1, 0, TASK_IPC, DATA);
            && w'.tb.tasks == w.tb.tasks[0 := Receive(t)] && w'.phase == w.phase[1 := User(0)] && w'.hist[1] == w.hist[1]
            && w'.hist[0].call == None && w'.tb.current == w.tb.current && w'.tb.extIrqs == w.tb.extIrqs && w'.wakesDue == w.wakesDue
            && w'.smpOn == w.smpOn && w'.tb.ticks == w.tb.ticks
  {
    hide And, Receive;
  }

  // --- The run -----------------------------------------------------------------------------------------

  /** The task is running, with nothing in its mailbox. */
  predicate Running(cfg: Config, w: World, t: Task, irqs: nat, due: nat) {
    At(cfg, w, t, None, User(0), irqs, due) && t.state == Ready && t.mbox == [] && t.frame.hart == 1
  }

  /** It waits for an interrupt, and a message wakes it: it stays marked as waiting. */
  lemma WokenByMessage(cfg: Config, w: World, t: Task, irqs: nat) returns (steps: seq<Step>, u: Task, c: Call)
    requires Running(cfg, w, t, irqs, 0) && !t.recvWaiting
    ensures Free(steps) && IsRun(cfg, w, steps) && At(cfg, After(cfg, w, steps), u, Some(c), Console, irqs, 0)
    ensures u.state == Ready && u.irqWaiting && !u.recvWaiting && |u.mbox| == 1 && u.mbox[0].grant == 0
    ensures u.frame == Regs(SYS_IRQ_WAIT, irqs, 0, 1)
  {
    var f := Regs(SYS_IRQ_WAIT, irqs, 0, 1);
    var trap := Traps(cfg, w, t, f, irqs, 0);
    var w1 := After(cfg, w, trap);
    var t1, c1 := t.(frame := f.(pc := 4)), Call(f, true, 0, None);
    assert ServeCall(w1, 1, 0, TASK_IPC, DATA) == Park(w1, 1, 0, t1.(irqWaiting := true));
    hide At, IsRun, After, ServeCall, Park, Scene, Free;
    var park := Parks(cfg, w1, t1, t1.(irqWaiting := true), c1, irqs, 0);
    Chain(cfg, w, trap, park);
    var w2 := After(cfg, w1, park);
    var t2 := t1.(irqWaiting := true, frame := f, state := Blocked);
    c := c1.(advanced := false, since := 0, armed := None);
    var send, m := Sends(cfg, w2, t2, Some(c), Console, irqs, 0);
    Chain(cfg, w, trap + park, send);
    steps, u := trap + park + send, Enqueue(t2, m);
  }

  /** An interrupt is counted, so the wait returns at once. */
  lemma ReturnsAtOnce(cfg: Config, w: World, t: Task, c: Call, irqs: nat) returns (steps: seq<Step>, u: Task)
    requires At(cfg, w, t, Some(c), Console, irqs, 0) && t.frame == Regs(SYS_IRQ_WAIT, irqs, 0, 1) && t.state == Ready
    ensures Free(steps) && IsRun(cfg, w, steps) && At(cfg, After(cfg, w, steps), u, None, User(0), irqs + 1, 1)
    ensures u == t.(frame := u.frame) && u.frame.hart == 1
  {
    hide At, Scene, IsRun, After, Do, Enabled, Free;
    CountsOne(cfg, w, t, c, irqs);
    var w1 := Do(cfg, w, IrqCounted);
    OneStep(cfg, w, IrqCounted);
    var enter := ComesIn(cfg, w1, t, Some(c), irqs + 1, 1);
    assert t.(frame := t.frame.(hart := 1)) == t;
    var w2 := After(cfg, w1, enter);
    var trap := TrapsAgain(cfg, w2, t, Some(c), irqs + 1, 1);
    var w3 := After(cfg, w2, trap);
    var t3 := t.(frame := t.frame.(pc := 4));
    u := t3.(frame := t3.frame.(a0 := irqs + 1));
    var back := SeesTheCount(cfg, w3, t3, u, c.(advanced := true), irqs + 1);
    JustCounted();
    Chain(cfg, w, [IrqCounted], enter);
    Chain(cfg, w, [IrqCounted] + enter, trap);
    Chain(cfg, w, [IrqCounted] + enter + trap, back);
    steps := [IrqCounted] + enter + trap + back;
  }

  lemma CountsOne(cfg: Config, w: World, t: Task, c: Call, irqs: nat)
    requires At(cfg, w, t, Some(c), Console, irqs, 0)
    ensures Enabled(cfg, w, IrqCounted) && At(cfg, Do(cfg, w, IrqCounted), t, Some(c), Console, irqs + 1, 1)
  {
  }

  lemma SeesTheCount(cfg: Config, w: World, t: Task, u: Task, c: Call, irqs: nat) returns (steps: seq<Step>)
    requires At(cfg, w, t, Some(c), Serving(0, TASK_IPC), irqs, 1) && t.frame.a7 == SYS_IRQ_WAIT && t.frame.a0 != irqs
    requires u == t.(frame := t.frame.(a0 := irqs))
    ensures Free(steps) && IsRun(cfg, w, steps) && At(cfg, After(cfg, w, steps), u, None, User(0), irqs, 1)
  {
    Counted(w, t, irqs);
    hide IsRun, After, ServeCall, Free;
    steps := Returns(cfg, w, t, u, c, irqs, 1);
  }

  lemma JustCounted()
    ensures Free([IrqCounted]) && Free([IrqWakes])
  {
  }

  /** Two stretches of the run, one after the other. */
  lemma Chain(cfg: Config, w: World, a: seq<Step>, b: seq<Step>)
    requires Free(a) && IsRun(cfg, w, a) && Free(b) && IsRun(cfg, After(cfg, w, a), b)
    ensures Free(a + b) && IsRun(cfg, w, a + b) && After(cfg, w, a + b) == After(cfg, After(cfg, w, a), b)
  {
    hide IsRun, After;
    RunThen(cfg, w, a, b);
  }

  /** The message in its mailbox is received. */
  lemma ReceivesNow(cfg: Config, w: World, t: Task, irqs: nat, due: nat) returns (steps: seq<Step>, u: Task)
    requires At(cfg, w, t, None, User(0), irqs, due) && t.state == Ready && t.frame.hart == 1 && |t.mbox| == 1 && t.mbox[0].grant == 0
    ensures Free(steps) && IsRun(cfg, w, steps) && Running(cfg, After(cfg, w, steps), u, irqs, due)
    ensures u.irqWaiting == t.irqWaiting && u.recvWaiting == t.recvWaiting && u.deadline == t.deadline
  {
    hide At, Scene, IsRun, After, Free, Or;
    var f := Regs(SYS_RECV, 0, 0, 1);
    var trap := Traps(cfg, w, t, f, irqs, due);
    var w1 := After(cfg, w, trap);
    var recv;
    recv, u := Receives(cfg, w1, t.(frame := f.(pc := 4)), Call(f, true, 0, None), irqs, due);
    Chain(cfg, w, trap, recv);
    steps := trap + recv;
  }

  lemma LeavesTheWait(cfg: Config, w: World, t: Task, c: Call, irqs: nat) returns (steps: seq<Step>, u: Task)
    requires At(cfg, w, t, Some(c), Console, irqs, 0) && t.frame == Regs(SYS_IRQ_WAIT, irqs, 0, 1)
    requires t.state == Ready && t.irqWaiting && !t.recvWaiting && |t.mbox| == 1 && t.mbox[0].grant == 0
    ensures Free(steps) && IsRun(cfg, w, steps) && Running(cfg, After(cfg, w, steps), u, irqs + 1, 1)
    ensures u.irqWaiting && !u.recvWaiting
  {
    hide At, Scene, IsRun, After, Free, Running;
    var back, t1 := ReturnsAtOnce(cfg, w, t, c, irqs);
    var recv;
    recv, u := ReceivesNow(cfg, After(cfg, w, back), t1, irqs + 1, 1);
    Chain(cfg, w, back, recv);
    steps := back + recv;
  }

  lemma Counted(w: World, t: Task, irqs: nat)
    requires w.tb.tasks[0] == t && t.frame.a7 == SYS_IRQ_WAIT && t.frame.a0 != irqs == w.tb.extIrqs && w.hist[0].call.Some?
    ensures var w' := ServeCall(w, 1, 0, TASK_IPC, DATA);
            && w'.tb.tasks == w.tb.tasks[0 := t.(frame := t.frame.(a0 := irqs))] && w'.phase == w.phase[1 := User(0)] && w'.hist[1] == w.hist[1]
            && w'.hist[0].call == None && w'.tb.current == w.tb.current && w'.tb.extIrqs == w.tb.extIrqs && w'.wakesDue == w.wakesDue
            && w'.smpOn == w.smpOn && w'.tb.ticks == w.tb.ticks
  {
  }

  /** A receive with a timeout of one tick is parked. */
  lemma ParksForATick(cfg: Config, w: World, t: Task, irqs: nat) returns (steps: seq<Step>, u: Task, c: Call)
    requires Running(cfg, w, t, irqs, 1) && t.irqWaiting
    ensures Free(steps) && IsRun(cfg, w, steps) && At(cfg, After(cfg, w, steps), u, Some(c), Console, irqs, 1)
    ensures u.state == Blocked && u.irqWaiting && u.recvWaiting && u.deadline == 1 && u.mbox == []
    ensures u.frame == Regs(SYS_RECV_TIMEOUT, 0, 1, 1)
  {
    IpcBits();
    var f := Regs(SYS_RECV_TIMEOUT, 0, 1, 1);
    var trap := Traps(cfg, w, t, f, irqs, 1);
    var w1 := After(cfg, w, trap);
    var t1, c1 := t.(frame := f.(pc := 4)), Call(f, true, 0, None);
    var t2 := t1.(recvWaiting := true, deadline := 1);
    assert ServeCall(w1, 1, 0, TASK_IPC, DATA) == Park(w1, 1, 0, t2);
    hide IsRun, After, ServeCall, Park, And, Or, Free;
    var park := Parks(cfg, w1, t1, t2, c1, irqs, 1);
    hide At, Scene;
    u, c := t2.(frame := f, state := Blocked), c1.(advanced := false, since := 0, armed := Some(1));
    Chain(cfg, w, trap, park);
    steps := trap + park;
  }

  /** The wakeup of the interrupt ends it early, and the message that then arrives finds the task ready. */
  lemma WokenEarly(cfg: Config, w: World, t: Task, c: Call, irqs: nat) returns (steps: seq<Step>, u: Task)
    requires At(cfg, w, t, Some(c), Console, irqs, 1) && t.state == Blocked && t.irqWaiting && t.mbox == []
    ensures Free(steps) && IsRun(cfg, w, steps) && At(cfg, After(cfg, w, steps), u, Some(c), Console, irqs, 0)
    ensures u.state == Ready && |u.mbox| == 1 && u.mbox[0].grant == 0 && u.recvWaiting == t.recvWaiting && u.deadline == t.deadline
    ensures u.frame == t.frame
  {
    Wakes(cfg, w, t, c, irqs);
    OneStep(cfg, w, IrqWakes);
    hide Do, Scene, At, IsRun, After, Free;
    var t1 := t.(irqWaiting := false, state := Ready);
    var send, m := Sends(cfg, Do(cfg, w, IrqWakes), t1, Some(c), Console, irqs, 0);
    u := Enqueue(t1, m);
    JustCounted();
    Chain(cfg, w, [IrqWakes], send);
    steps := [IrqWakes] + send;
  }

  /** The task traps into its receive again, and gets the message; the deadline stays in force. */
  lemma ReceivesAgain(cfg: Config, w: World, t: Task, c: Call, irqs: nat) returns (steps: seq<Step>, u: Task)
    requires At(cfg, w, t, Some(c), Console, irqs, 0) && t.state == Ready && |t.mbox| == 1 && t.mbox[0].grant == 0
    requires t.frame == Regs(SYS_RECV_TIMEOUT, 0, 1, 1)
    ensures Free(steps) && IsRun(cfg, w, steps) && Running(cfg, After(cfg, w, steps), u, irqs, 0)
    ensures u.recvWaiting == t.recvWaiting && u.deadline == t.deadline
  {
    hide Scene, At, IsRun, After, Free, Or;
    var enter := ComesIn(cfg, w, t, Some(c), irqs, 0);
    assert t.(frame := t.frame.(hart := 1)) == t;
    var w1 := After(cfg, w, enter);
    var trap := TrapsAgain(cfg, w1, t, Some(c), irqs, 0);
    var w2 := After(cfg, w1, trap);
    var recv;
    recv, u := Receives(cfg, w2, t.(frame := t.frame.(pc := 4)), c.(advanced := true), irqs, 0);
    Chain(cfg, w, enter, trap);
    Chain(cfg, w, enter + trap, recv);
    steps := enter + trap + recv;
  }

  lemma KeepsTheDeadline(cfg: Config, w: World, t: Task, irqs: nat) returns (steps: seq<Step>, u: Task)
    requires Running(cfg, w, t, irqs, 1) && t.irqWaiting
    ensures Free(steps) && IsRun(cfg, w, steps) && Running(cfg, After(cfg, w, steps), u, irqs, 0)
    ensures u.recvWaiting && u.deadline == 1
  {
    hide Scene, At, IsRun, After, Free, Running;
    var park, t1, c := ParksForATick(cfg, w, t, irqs);
    var w1 := After(cfg, w, park);
    var wake, t2 := WokenEarly(cfg, w1, t1, c, irqs);
    var w2 := After(cfg, w1, wake);
    var recv;
    recv, u := ReceivesAgain(cfg, w2, t2, c, irqs);
    Chain(cfg, w, park, wake);
    Chain(cfg, w, park + wake, recv);
    steps := park + wake + recv;
  }

  lemma Wakes(cfg: Config, w: World, t: Task, c: Call, irqs: nat)
    requires At(cfg, w, t, Some(c), Console, irqs, 1) && t.state == Blocked && t.irqWaiting
    ensures Enabled(cfg, w, IrqWakes)
    ensures At(cfg, Do(cfg, w, IrqWakes), t.(irqWaiting := false, state := Ready), Some(c), Console, irqs, 0)
  {
  }

  /** A plain receive is parked, the sender is interrupted by the timer, and the receive times out. */
  lemma TimesOut(cfg: Config, w: World, t: Task, irqs: nat) returns (steps: seq<Step>)
    requires Running(cfg, w, t, irqs, 0) && t.recvWaiting && t.deadline == 1
    ensures Free(steps) && IsRun(cfg, w, steps)
    ensures LastTimedOut(After(cfg, w, steps))
  {
    IpcBits();
    var f := Regs(SYS_RECV, 0, 0, 1);
    var trap := Traps(cfg, w, t, f, irqs, 0);
    var w1 := After(cfg, w, trap);
    var t1, c1 := t.(frame := f.(pc := 4)), Call(f, true, 0, None);
    assert ServeCall(w1, 1, 0, TASK_IPC, DATA) == Park(w1, 1, 0, t1);
    hide IsRun, After, And, Or;
    var w2 := Do(cfg, w1, Serve(1, DATA));
    assert w2 == Park(w1, 1, 0, t1);
    GivesUp(cfg, w2, t1.(frame := f, state := Blocked), c1.(advanced := false, since := 0, armed := Some(1)), f, irqs);
    hide ServeCall, Park, Search, Do, Scene, At;
    OneStep(cfg, w1, Serve(1, DATA));
    AndThen(cfg, w1, [Serve(1, DATA)], Timer(0));
    AndThen(cfg, w1, [Serve(1, DATA)] + [Timer(0)], Dispatch(1));
    Chain(cfg, w, trap, [Serve(1, DATA)] + [Timer(0)] + [Dispatch(1)]);
    steps := trap + ([Serve(1, DATA)] + [Timer(0)] + [Dispatch(1)]);
  }

  lemma GivesUp(cfg: Config, w: World, t: Task, c: Call, f: Frame, irqs: nat)
    requires At(cfg, w, t, Some(c), Resched, irqs, 0) && t.state == Blocked && t.mbox == [] && t.recvWaiting && t.deadline == 1
    requires c == Call(f, false, 0, Some(1)) && t.frame == f && f.pc == 0
    ensures Enabled(cfg, w, Timer(0)) && Enabled(cfg, Do(cfg, w, Timer(0)), Dispatch(1))
    ensures var returned := Do(cfg, Do(cfg, w, Timer(0)), Dispatch(1)).hist[0].returned;
            |returned| > 0 && returned[|returned| - 1] == Return(f, 4, Some(Wait(0, Some(1), 1)))
  {
    hide Pick;
  }

  lemma {:induction false} FreeIsOrderly(cfg: Config, w: World, m: Mode, steps: seq<Step>)
    requires IsRun(cfg, w, steps) && Free(steps)
    ensures Orderly(cfg, w, m, steps)
    decreases |steps|
  {
    hide Enabled, Do;
    if steps != [] {
      assert !steps[0].Switch? && !steps[0].Join? && !steps[0].ResetRow? && !steps[0].Install? && !steps[0].StartAt?;
      assert forall k :: 0 <= k < |steps[1..]| ==> steps[1..][k] == steps[k + 1];
      FreeIsOrderly(cfg, Do(cfg, w, steps[0]), NextMode(cfg, w, m, steps[0]), steps[1..]);
    }
  }

  lemma OrderlyStep(cfg: Config, w: World, m: Mode, s: Step, rest: seq<Step>)
    requires Enabled(cfg, w, s) && Allowed(cfg, w, m, s) && Orderly(cfg, Do(cfg, w, s), NextMode(cfg, w, m, s), rest)
    ensures Orderly(cfg, w, m, [s] + rest)
    ensures IsRun(cfg, Do(cfg, w, s), rest) ==> IsRun(cfg, w, [s] + rest) && After(cfg, w, [s] + rest) == After(cfg, Do(cfg, w, s), rest)
  {
    hide Enabled, Do, Allowed;
    assert ([s] + rest)[1..] == rest;
  }

  /** From there on. */
  lemma PlaysOut(cfg: Config, w: World, t: Task, irqs: nat) returns (steps: seq<Step>)
    requires Running(cfg, w, t, irqs, 0) && !t.recvWaiting
    ensures Free(steps) && IsRun(cfg, w, steps) && LastTimedOut(After(cfg, w, steps))
  {
    hide IsRun, After, Running, At, Scene, Free;
    var s1, t1, c1 := WokenByMessage(cfg, w, t, irqs);
    var w1 := After(cfg, w, s1);
    var s2, t2 := LeavesTheWait(cfg, w1, t1, c1, irqs);
    var w2 := After(cfg, w1, s2);
    var s3, t3 := KeepsTheDeadline(cfg, w2, t2, irqs + 1);
    var w3 := After(cfg, w2, s3);
    var s4 := TimesOut(cfg, w3, t3, irqs + 1);
    Chain(cfg, w, s1, s2);
    Chain(cfg, w, s1 + s2, s3);
    Chain(cfg, w, s1 + s2 + s3, s4);
    steps := s1 + s2 + s3 + s4;
  }

  /** The last call of task 0 that returned was a plain receive, and it timed out. */
  predicate LastTimedOut(w: World) {
    var returned := w.hist[0].returned;
    |returned| > 0 && var r := returned[|returned| - 1]; r.call.a7 == SYS_RECV && r.timedOut.Some?
  }

  function Process(cfg: Config, i: Tid): Step {
    Install(i, Regs(0, 0, 0, 0), TASK_IPC, cfg.kernelSatp + 1, false)
  }

  /** The switch is on and the first two rows hold a process each. */
  predicate TwoReady(cfg: Config, w: World) {
    && cfg.boot == 0 && w.smpOn && w.tb.ticks == 0 && w.wakesDue == 0
    && (forall h: Hart :: w.phase[h] == Console && w.tb.current[h] == None)
    && (forall i: Tid :: i < 2 ==>
                           && w.tb.tasks[i].state == Ready && w.tb.tasks[i].caps == TASK_IPC && w.tb.tasks[i].satp == cfg.kernelSatp + 1
                           && w.tb.tasks[i].mbox == [] && !w.tb.tasks[i].recvWaiting && w.hist[i].call == None)
    && (forall i: Tid :: i >= 2 ==> w.tb.tasks[i].state == Unused)
  }

  lemma TwoInstalled(cfg: Config, w: World)
    requires cfg.boot == 0 && Idle(w) && w.tb.ticks == 0 && forall i: Tid :: !w.tb.tasks[i].recvWaiting
    ensures Enabled(cfg, w, Switch(true)) && Allowed(cfg, w, Shut, Switch(true))
    ensures var w1 := Do(cfg, w, Switch(true));
            && Enabled(cfg, w1, Process(cfg, 0)) && Allowed(cfg, w1, Opening, Process(cfg, 0))
            && var w2 := Do(cfg, w1, Process(cfg, 0));
               && Enabled(cfg, w2, Process(cfg, 1)) && Allowed(cfg, w2, Open, Process(cfg, 1))
               && TwoReady(cfg, Do(cfg, w2, Process(cfg, 1)))
  {
    hide Or;
  }

  /** Hart 1 takes the first of them. */
  lemma FirstTaken(cfg: Config, w: World)
    requires TwoReady(cfg, w)
    ensures Enabled(cfg, w, Invite(1)) && Enabled(cfg, Do(cfg, w, Invite(1)), Enter(1))
    ensures var w' := Do(cfg, Do(cfg, w, Invite(1)), Enter(1));
            && w'.tb == Claim(w.tb, 1, 0) && w'.phase == w.phase[1 := User(0)] && w'.hist == w.hist
            && w'.smpOn && w'.wakesDue == 0
  {
    var w1 := Do(cfg, w, Invite(1));
    StillWaiting(w1);
    FirstEligible(cfg, w1.tb, 1);
    hide Pick, ExpireAll;
  }

  lemma FirstEligible(cfg: Config, tb: Table, h: Hart)
    requires tb.current[h] == None && Eligible(cfg, tb, h, 0)
    ensures Pick(cfg, tb, h) == Some(0)
  {
    hide Eligible;
    assert Scanned(tb, h, 0) == 0;
  }

  /** The boot hart takes the other. */
  lemma SecondTaken(cfg: Config, w: World, w': World)
    requires TwoReady(cfg, w) && w'.tb == Claim(w.tb, 1, 0) && w'.phase == w.phase[1 := User(0)] && w'.hist == w.hist
    requires w'.smpOn && w'.wakesDue == 0
    ensures Enabled(cfg, w', Enter(0))
    ensures var w'' := Do(cfg, w', Enter(0));
            Running(cfg, w'', w''.tb.tasks[0], w.tb.extIrqs, 0) && !w''.tb.tasks[0].recvWaiting
  {
    StillWaiting(w');
    assert w'.tb.current[1] == Some(0);
    assert ClaimedElsewhere(w'.tb, 0, 0);
    OnlyReady(cfg, w'.tb, 0, 1);
    hide Pick, ExpireAll;
  }

  lemma BothEnter(cfg: Config, w: World) returns (enter: seq<Step>, t: Task)
    requires TwoReady(cfg, w)
    ensures Free(enter) && IsRun(cfg, w, enter) && Running(cfg, After(cfg, w, enter), t, w.tb.extIrqs, 0) && !t.recvWaiting
  {
    FirstTaken(cfg, w);
    var w1 := Do(cfg, w, Invite(1));
    var w2 := Do(cfg, w1, Enter(1));
    SecondTaken(cfg, w, w2);
    hide Do, Enabled, IsRun, After, TwoReady, Running;
    t := Do(cfg, w2, Enter(0)).tb.tasks[0];
    OneStep(cfg, w, Invite(1));
    AndThen(cfg, w, [Invite(1)], Enter(1));
    AndThen(cfg, w, [Invite(1)] + [Enter(1)], Enter(0));
    enter := [Invite(1)] + [Enter(1)] + [Enter(0)];
  }

  /** An orderly run from an idle machine in which a plain receive times out, against the deadline of an earlier call. */
  lemma PlainReceiveTimesOut(cfg: Config, w: World) returns (steps: seq<Step>)
    requires cfg.boot == 0 && Idle(w) && w.tb.ticks == 0 && forall i: Tid :: !w.tb.tasks[i].recvWaiting
    ensures Orderly(cfg, w, Shut, steps) && LastTimedOut(End(cfg, w, steps))
  {
    TwoInstalled(cfg, w);
    hide Idle, IsRun, After, Do, Enabled, Allowed, Orderly, Running, Free, LastTimedOut, TwoReady;
    var w1 := Do(cfg, w, Switch(true));
    var w2 := Do(cfg, w1, Process(cfg, 0));
    var w3 := Do(cfg, w2, Process(cfg, 1));
    var enter, t := BothEnter(cfg, w3);
    var rest := PlaysOut(cfg, After(cfg, w3, enter), t, w3.tb.extIrqs);
    Chain(cfg, w3, enter, rest);
    rest := enter + rest;
    FreeIsOrderly(cfg, w3, Open, rest);
    OrderlyStep(cfg, w2, Open, Process(cfg, 1), rest);
    OrderlyStep(cfg, w1, Opening, Process(cfg, 0), [Process(cfg, 1)] + rest);
    OrderlyStep(cfg, w, Shut, Switch(true), [Process(cfg, 0)] + ([Process(cfg, 1)] + rest));
    steps := [Switch(true)] + ([Process(cfg, 0)] + ([Process(cfg, 1)] + rest));
  }
}

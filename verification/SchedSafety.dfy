/** What every interleaving of harts keeps. */
module SchedSafety {
  import opened Bytes
  import opened Bits
  import opened SchedTable
  import opened SchedSteps

  // --- One task -----------------------------------------------------------------------------

  function Messages(a: seq<Sent>): (ms: seq<Message>)
    ensures |ms| == |a|
  {
    seq(|a|, i requires 0 <= i < |a| => a[i].msg)
  }

  /** The sender attested exactly what it held, and granted no more. */
  predicate Attested(s: Sent) {
    s.msg.senderCaps == s.held && Within(s.msg.grant, s.held)
  }

  /** The mailbox is a bounded first-in first-out queue of attested messages. */
  ghost predicate MailOk(t: Task, x: History, origin: nat) {
    && |t.mbox| <= MAILBOX_DEPTH
    && Messages(x.accepted) == x.received + t.mbox
    && (forall k :: 0 <= k < |x.accepted| ==> Attested(x.accepted[k]))
    && (forall k :: 0 <= k < |t.mbox| ==> Within(t.mbox[k].grant, origin))
  }

  predicate CapsOk(t: Task, origin: nat) {
    t.state != Unused ==> Within(t.caps, origin)
  }

  predicate Receiving(number: nat) {
    number == SYS_RECV || number == SYS_RECV_TIMEOUT
  }

  /** A parked task has a call to come back to, and what it waits for has not happened unnoticed. */
  predicate Parked(t: Task, call: Option<Call>, irqs: nat, due: nat) {
    && call.Some? && !call.value.advanced
    && var number := call.value.frame.a7;
       && (Receiving(number) || number == SYS_IRQ_WAIT)
       && (Receiving(number) ==> t.mbox == [])
       && (number == SYS_IRQ_WAIT ==> t.irqWaiting && (t.frame.a0 == irqs || due > 0))
       && call.value.armed == Armed(t)
       && (number == SYS_RECV_TIMEOUT ==> call.value.armed == Some(Deadline(call.value.since, call.value.frame.a2)))
  }

  /** The call moved the program counter by 4. If it timed out, a deadline was in force when it was parked, and had passed;
      a receive with a timeout was parked with its own. */
  predicate ReturnOk(r: Return) {
    && r.pc == r.call.pc + 4
    && (r.timedOut.Some? ==>
          var w := r.timedOut.value;
          && w.armed.Some? && w.armed.value <= w.now
          && (r.call.a7 == SYS_RECV_TIMEOUT ==> w.armed.value == Deadline(w.since, r.call.a2)))
  }

  /** The saved frame of a task with a call outstanding is the one the call trapped with, 4 further while it is served. */
  predicate FrameOf(f: Frame, c: Call) {
    f.(hart := 0) == c.frame.(hart := 0, pc := if c.advanced then c.frame.pc + 4 else c.frame.pc)
  }

  predicate CallOk(t: Task, x: History, irqs: nat, due: nat) {
    && (forall k :: 0 <= k < |x.returned| ==> ReturnOk(x.returned[k]))
    && (x.call.Some? ==> FrameOf(t.frame, x.call.value))
    && (t.state == Blocked ==> Parked(t, x.call, irqs, due))
  }

  ghost predicate TaskOk(w: World, i: Tid) {
    && MailOk(w.tb.tasks[i], w.hist[i], w.origin)
    && CapsOk(w.tb.tasks[i], w.origin)
    && CallOk(w.tb.tasks[i], w.hist[i], w.tb.extIrqs, w.wakesDue)
  }

  // --- One hart -------------------------------------------------------------------------------

  predicate Advanced(call: Option<Call>) {
    call.Some? && call.value.advanced
  }

  /** What holds of the task a hart claims: its frame carries the hart's stamp, and a secondary stays out of
      the kernel's address space. */
  predicate OnTask(cfg: Config, h: Hart, i: Tid, p: Phase, t: Task, call: Option<Call>) {
    && t.frame.hart == h && t.state != Unused
    && (h != cfg.boot ==> t.satp != cfg.kernelSatp)
    && match p
       case User(j) => j == i && t.state == Ready && !Advanced(call)
       case Trapped(j) => j == i && t.state == Ready && Advanced(call)
       case Serving(j, caps) => j == i && t.state == Ready && Advanced(call) && caps == t.caps
       case Resched => !Advanced(call)
       case _ => false
  }

  predicate HartOk(cfg: Config, w: World, h: Hart) {
    match w.tb.current[h]
    case None => w.phase[h].Console? || (w.phase[h].Invited? && h != cfg.boot)
    case Some(i) => OnTask(cfg, h, i, w.phase[h], w.tb.tasks[i], w.hist[i].call)
  }

  /** No task is claimed twice. */
  predicate Exclusive(current: Claims) {
    forall g: Hart, h: Hart :: g != h && current[g].Some? ==> current[g] != current[h]
  }

  predicate Claimed(current: Claims, i: Tid) {
    exists h: Hart :: current[h] == Some(i)
  }

  /** A call being served is served by a hart that holds the task. */
  predicate Held(w: World) {
    forall i: Tid :: Advanced(w.hist[i].call) ==> Claimed(w.tb.current, i)
  }

  function Queued(tasks: Tasks): nat {
    |tasks[0].mbox| + |tasks[1].mbox| + |tasks[2].mbox| + |tasks[3].mbox|
  }

  /** No message appears or vanishes unaccounted for. */
  predicate Conserved(w: World) {
    w.tb.sends == w.tb.receives + w.dropped + Queued(w.tb.tasks)
  }

  ghost predicate Inv(cfg: Config, w: World) {
    && cfg.kernelSatp != 0
    && (forall i: Tid :: TaskOk(w, i))
    && (forall h: Hart :: HartOk(cfg, w, h))
    && Exclusive(w.tb.current) && Held(w) && Conserved(w)
  }

  lemma QueuedSet(tasks: Tasks, i: Tid, t: Task)
    ensures Queued(tasks[i := t]) == Queued(tasks) - |tasks[i].mbox| + |t.mbox|
  {
  }

  // --- Frames ------------------------------------------------------------------------------------

  /** `w'` agrees with `w` on everything but task `i` and its history, and the phase of `h`. */
  predicate OnlyAt(w: World, w': World, h: Hart, i: Tid) {
    && w'.tb.current == w.tb.current && w'.tb.extIrqs == w.tb.extIrqs && w'.wakesDue == w.wakesDue && w'.origin == w.origin
    && (forall j: Tid :: j != i ==> w'.tb.tasks[j] == w.tb.tasks[j] && w'.hist[j] == w.hist[j])
    && (forall g: Hart :: g != h ==> w'.phase[g] == w.phase[g])
  }

  /** A hart's step on the task it holds. */
  lemma OwnStep(cfg: Config, w: World, w': World, h: Hart, i: Tid)
    requires Inv(cfg, w) && OnlyAt(w, w', h, i) && w.tb.current[h] == Some(i)
    requires TaskOk(w', i) && HartOk(cfg, w', h) && Conserved(w')
    ensures Inv(cfg, w')
  {
    hide MailOk, CapsOk, CallOk, OnTask, Conserved;
    forall j: Tid
      ensures TaskOk(w', j)
    {
      assert TaskOk(w, j);
    }
    forall g: Hart
      ensures HartOk(cfg, w', g)
    {
      assert HartOk(cfg, w, g);
      assert g != h && w.tb.current[g].Some? ==> w.tb.current[g] != w.tb.current[h];
    }
    forall j: Tid | Advanced(w'.hist[j].call)
      ensures Claimed(w'.tb.current, j)
    {
      assert w'.tb.current[h] == Some(i);
    }
  }

  /** A change to a task that any hart holding it can live with: at most it is woken, or its parked call ends. */
  predicate Gentle(t: Task, x: History, t': Task, x': History) {
    && t'.frame.hart == t.frame.hart && t'.satp == t.satp && t'.caps == t.caps
    && if t.state == Blocked then (t'.state == Blocked && x'.call == x.call) || (t'.state == Ready && !Advanced(x'.call))
       else t'.state == t.state && x'.call == x.call
  }

  /** A step that changes tasks gently and nothing else that the harts rely on. */
  lemma GentleStep(cfg: Config, w: World, w': World)
    requires Inv(cfg, w) && w'.tb.current == w.tb.current && w'.phase == w.phase
    requires forall i: Tid :: TaskOk(w', i) && Gentle(w.tb.tasks[i], w.hist[i], w'.tb.tasks[i], w'.hist[i])
    requires Conserved(w')
    ensures Inv(cfg, w')
  {
    hide MailOk, CapsOk, Conserved;
    forall h: Hart
      ensures HartOk(cfg, w', h)
    {
      assert HartOk(cfg, w, h);
      match w.tb.current[h]
      case None =>
      case Some(i) =>
        assert TaskOk(w, i) && Gentle(w.tb.tasks[i], w.hist[i], w'.tb.tasks[i], w'.hist[i]);
    }
    forall i: Tid | Advanced(w'.hist[i].call)
      ensures Claimed(w'.tb.current, i)
    {
      assert Gentle(w.tb.tasks[i], w.hist[i], w'.tb.tasks[i], w'.hist[i]);
      assert Advanced(w.hist[i].call);
    }
  }

  // --- System calls -----------------------------------------------------------------------------

  /** A call returns: the task may have changed its registers, its mailbox and its capabilities. */
  lemma ResumeKeeps(cfg: Config, w: World, w0: World, h: Hart, i: Tid, t: Task, x: History)
    requires Inv(cfg, w) && w.tb.current[h] == Some(i) && w.phase[h].Serving?
    requires OnlyAt(w, w0, h, i)
    requires t.state == Ready && t.satp == w.tb.tasks[i].satp
    requires t.frame.hart == w.tb.tasks[i].frame.hart && t.frame.pc == w.tb.tasks[i].frame.pc
    requires x.call == w.hist[i].call && x.returned == w.hist[i].returned
    requires MailOk(t, x, w.origin) && CapsOk(t, w.origin)
    requires Conserved(SetTask(w0, i, t))
    ensures Inv(cfg, Resume(w0, h, i, t, x))
  {
    hide MailOk, CapsOk;
    assert TaskOk(w, i) && HartOk(cfg, w, h);
    var w' := Resume(w0, h, i, t, x);
    MailKept(t, x, Ended(x, t.frame.pc), w.origin);
    OwnStep(cfg, w, w', h, i);
  }

  lemma MailKept(t: Task, x: History, x': History, origin: nat)
    requires MailOk(t, x, origin) && x'.accepted == x.accepted && x'.received == x.received
    ensures MailOk(t, x', origin)
  {
  }

  /** A call that only sets the result register. */
  lemma PlainKeeps(cfg: Config, w: World, h: Hart, i: Tid, a0: nat)
    requires Inv(cfg, w) && w.tb.current[h] == Some(i) && w.phase[h].Serving?
    ensures Inv(cfg, Resume(w, h, i, Returning(w.tb.tasks[i], a0), w.hist[i]))
  {
    assert TaskOk(w, i) && HartOk(cfg, w, h);
    QueuedSet(w.tb.tasks, i, Returning(w.tb.tasks[i], a0));
    ResumeKeeps(cfg, w, w, h, i, Returning(w.tb.tasks[i], a0), w.hist[i]);
  }

  lemma ParkKeeps(cfg: Config, w: World, h: Hart, i: Tid, t: Task)
    requires Inv(cfg, w) && w.tb.current[h] == Some(i) && w.phase[h].Serving?
    requires exists rw, dl, iw :: t == w.tb.tasks[i].(recvWaiting := rw, deadline := dl, irqWaiting := iw)
    requires Receiving(t.frame.a7) || t.frame.a7 == SYS_IRQ_WAIT
    requires Receiving(t.frame.a7) ==> t.mbox == []
    requires t.frame.a7 == SYS_IRQ_WAIT ==> t.irqWaiting && t.frame.a0 == w.tb.extIrqs
    requires t.frame.a7 == SYS_RECV_TIMEOUT ==> t.recvWaiting && t.deadline == Deadline(w.tb.ticks, t.frame.a2)
    ensures Inv(cfg, Park(w, h, i, t))
  {
    assert TaskOk(w, i) && HartOk(cfg, w, h);
    var w' := Park(w, h, i, t);
    MailKept(w.tb.tasks[i], w.hist[i], w'.hist[i], w.origin);
    QueuedSet(w.tb.tasks, i, ParkTask(t));
    OwnStep(cfg, w, w', h, i);
  }

  lemma DeliverKeeps(cfg: Config, w: World, h: Hart, i: Tid)
    requires Inv(cfg, w) && w.tb.current[h] == Some(i) && w.phase[h].Serving? && w.tb.tasks[i].mbox != []
    ensures Inv(cfg, Deliver(w, h, i))
  {
    assert TaskOk(w, i) && HartOk(cfg, w, h);
    var t, x := w.tb.tasks[i], w.hist[i];
    var x' := x.(received := x.received + [t.mbox[0]]);
    OrWithin(t.caps, t.mbox[0].grant, w.origin);
    assert x.received + t.mbox == x'.received + t.mbox[1..];
    QueuedSet(w.tb.tasks, i, Receive(t));
    ResumeKeeps(cfg, w, w.(tb := w.tb.(receives := w.tb.receives + 1)), h, i, Receive(t), x');
  }

  lemma RecvKeeps(cfg: Config, w: World, h: Hart, i: Tid, caps: nat)
    requires Inv(cfg, w) && w.tb.current[h] == Some(i) && w.phase[h].Serving? && w.tb.tasks[i].frame.a7 == SYS_RECV
    ensures Inv(cfg, ServeRecv(w, h, i, caps))
  {
    hide Inv, Deliver, Park, Resume;
    var t := w.tb.tasks[i];
    if And(caps, TASK_IPC) == 0 {
      PlainKeeps(cfg, w, h, i, SYS_DENIED);
    } else if t.mbox != [] {
      DeliverKeeps(cfg, w, h, i);
    } else {
      assert t == t.(recvWaiting := t.recvWaiting, deadline := t.deadline, irqWaiting := t.irqWaiting);
      ParkKeeps(cfg, w, h, i, t);
    }
  }

  lemma RecvTimeoutKeeps(cfg: Config, w: World, h: Hart, i: Tid, caps: nat)
    requires Inv(cfg, w) && w.tb.current[h] == Some(i) && w.phase[h].Serving? && w.tb.tasks[i].frame.a7 == SYS_RECV_TIMEOUT
    ensures Inv(cfg, ServeRecvTimeout(w, h, i, caps))
  {
    var t := w.tb.tasks[i];
    assert TaskOk(w, i) && HartOk(cfg, w, h);
    if And(caps, TASK_IPC) == 0 {
      PlainKeeps(cfg, w, h, i, SYS_DENIED);
    } else if t.mbox != [] {
      DeliverKeeps(cfg, w, h, i);
    } else if t.frame.a2 == 0 {
      var t' := t.(frame := TimedOut(t.frame));
      QueuedSet(w.tb.tasks, i, t');
      ResumeKeeps(cfg, w, w, h, i, t', w.hist[i]);
    } else {
      var cut := Deadline(w.tb.ticks, t.frame.a2);
      assert t.(recvWaiting := true, deadline := cut) == t.(recvWaiting := true, deadline := cut, irqWaiting := t.irqWaiting);
      ParkKeeps(cfg, w, h, i, t.(recvWaiting := true, deadline := cut));
    }
  }

  lemma IrqWaitKeeps(cfg: Config, w: World, h: Hart, i: Tid)
    requires Inv(cfg, w) && w.tb.current[h] == Some(i) && w.phase[h].Serving? && w.tb.tasks[i].frame.a7 == SYS_IRQ_WAIT
    ensures Inv(cfg, ServeIrqWait(w, h, i))
  {
    hide Inv, Park, Resume;
    var t := w.tb.tasks[i];
    if w.tb.extIrqs != t.frame.a0 {
      PlainKeeps(cfg, w, h, i, w.tb.extIrqs);
    } else {
      assert t.(irqWaiting := true) == t.(recvWaiting := t.recvWaiting, deadline := t.deadline, irqWaiting := true);
      ParkKeeps(cfg, w, h, i, t.(irqWaiting := true));
    }
  }

  /** The receiving half of a send. */
  lemma EnqueueKeeps(cfg: Config, w: World, to: Tid, s: Sent)
    requires Inv(cfg, w) && Attested(s) && Within(s.held, w.origin)
    requires w.tb.tasks[to].state != Unused && |w.tb.tasks[to].mbox| < MAILBOX_DEPTH
    ensures var w1 := SetTask(w.(tb := w.tb.(sends := w.tb.sends + 1)), to, Enqueue(w.tb.tasks[to], s.msg));
            Inv(cfg, SetHist(w1, to, w.hist[to].(accepted := w.hist[to].accepted + [s])))
  {
    var t, x := w.tb.tasks[to], w.hist[to];
    var t', x' := Enqueue(t, s.msg), x.(accepted := x.accepted + [s]);
    var w' := SetHist(SetTask(w.(tb := w.tb.(sends := w.tb.sends + 1)), to, t'), to, x');
    assert TaskOk(w, to);
    EnqueuedMail(t, x, s, w.origin);
    hide MailOk, CapsOk, Within, Attested;
    forall i: Tid
      ensures TaskOk(w', i) && Gentle(w.tb.tasks[i], w.hist[i], w'.tb.tasks[i], w'.hist[i])
    {
      assert TaskOk(w, i);
    }
    QueuedSet(w.tb.tasks, to, t');
    GentleStep(cfg, w, w');
  }

  lemma EnqueuedMail(t: Task, x: History, s: Sent, origin: nat)
    requires MailOk(t, x, origin) && CapsOk(t, origin) && Attested(s) && Within(s.held, origin)
    requires t.state != Unused && |t.mbox| < MAILBOX_DEPTH
    ensures MailOk(Enqueue(t, s.msg), x.(accepted := x.accepted + [s]), origin) && CapsOk(Enqueue(t, s.msg), origin)
  {
    WithinTrans(s.msg.grant, s.held, origin);
    hide Within, Attested;
    assert Messages(x.accepted + [s]) == Messages(x.accepted) + [s.msg];
    assert x.received + t.mbox + [s.msg] == x.received + (t.mbox + [s.msg]);
  }

  lemma SendKeeps(cfg: Config, w: World, h: Hart, i: Tid, caps: nat, user: seq<byte>)
    requires Inv(cfg, w) && w.tb.current[h] == Some(i) && w.phase[h] == Serving(i, caps) && |user| == 64
    ensures Inv(cfg, ServeSend(w, h, i, caps, user))
  {
    var f := w.tb.tasks[i].frame;
    if SendRefused(w.tb.tasks, f, caps).Some? {
      PlainKeeps(cfg, w, h, i, SYS_DENIED);
    } else {
      assert HartOk(cfg, w, h) && TaskOk(w, i);
      var to: Tid, m := f.a0, MessageOf(i, f, caps, user);
      AndWithin(f.a3, caps);
      assert TaskOk(w, to);
      EnqueueKeeps(cfg, w, to, Sent(m, caps));
      hide Inv, Resume;
      var w1 := SetTask(w.(tb := w.tb.(sends := w.tb.sends + 1)), to, Enqueue(w.tb.tasks[to], m));
      var w2 := SetHist(w1, to, w.hist[to].(accepted := w.hist[to].accepted + [Sent(m, caps)]));
      PlainKeeps(cfg, w2, h, i, 0);
    }
  }

  lemma LeaveKeeps(cfg: Config, w: World, h: Hart, i: Tid, state: TaskState, x: History)
    requires Inv(cfg, w) && w.tb.current[h] == Some(i) && (state == Ready || state == Done) && w.tb.tasks[i].state == Ready
    requires x.accepted == w.hist[i].accepted && x.received == w.hist[i].received
    requires x.call.None? && forall k :: 0 <= k < |x.returned| ==> ReturnOk(x.returned[k])
    ensures Inv(cfg, SetPhase(SetHist(SetTask(w, i, w.tb.tasks[i].(state := state)), i, x), h, Resched))
  {
    assert TaskOk(w, i) && HartOk(cfg, w, h);
    MailKept(w.tb.tasks[i], w.hist[i], x, w.origin);
    QueuedSet(w.tb.tasks, i, w.tb.tasks[i].(state := state));
    OwnStep(cfg, w, SetPhase(SetHist(SetTask(w, i, w.tb.tasks[i].(state := state)), i, x), h, Resched), h, i);
  }

  lemma ServeKeeps(cfg: Config, w: World, h: Hart, user: seq<byte>)
    requires Inv(cfg, w) && w.phase[h].Serving? && |user| == 64
    ensures Inv(cfg, ServeCall(w, h, w.phase[h].task, w.phase[h].caps, user))
  {
    assert HartOk(cfg, w, h);
    var i, caps := w.phase[h].task, w.phase[h].caps;
    var t := w.tb.tasks[i];
    assert TaskOk(w, i);
    var number := t.frame.a7;
    if number == SYS_YIELD {
      LeaveKeeps(cfg, w, h, i, Ready, Ended(w.hist[i], t.frame.pc));
    } else if number == SYS_EXIT {
      LeaveKeeps(cfg, w, h, i, Done, w.hist[i].(call := None));
    } else if number == SYS_SEND {
      SendKeeps(cfg, w, h, i, caps, user);
    } else if number == SYS_RECV {
      RecvKeeps(cfg, w, h, i, caps);
    } else if number == SYS_RECV_TIMEOUT {
      RecvTimeoutKeeps(cfg, w, h, i, caps);
    } else if number == SYS_IRQ_WAIT {
      IrqWaitKeeps(cfg, w, h, i);
    } else {
      PlainKeeps(cfg, w, h, i, PlainResult(t.frame, caps, w.tb.ticks));
    }
  }

  // --- Traps and interrupts -----------------------------------------------------------------------

  lemma UserKeeps(cfg: Config, w: World, h: Hart, f: Frame)
    requires Inv(cfg, w) && Enabled(cfg, w, UserRun(h, f))
    ensures Inv(cfg, Do(cfg, w, UserRun(h, f)))
  {
    hide MailOk, CapsOk;
    assert HartOk(cfg, w, h);
    var i, w' := w.tb.current[h].value, Do(cfg, w, UserRun(h, f));
    assert TaskOk(w, i);
    TaskOnly(w.tb.tasks[i], w'.tb.tasks[i], w.hist[i], w.origin);
    QueuedSet(w.tb.tasks, i, w'.tb.tasks[i]);
    OwnStep(cfg, w, w', h, i);
  }

  lemma EcallKeeps(cfg: Config, w: World, h: Hart)
    requires Inv(cfg, w) && Enabled(cfg, w, Ecall(h))
    ensures Inv(cfg, Do(cfg, w, Ecall(h)))
  {
    hide MailOk, CapsOk;
    assert HartOk(cfg, w, h);
    var i, w' := w.tb.current[h].value, Do(cfg, w, Ecall(h));
    assert TaskOk(w, i);
    TaskOnly(w.tb.tasks[i], w'.tb.tasks[i], w.hist[i], w.origin);
    MailKept(w'.tb.tasks[i], w.hist[i], w'.hist[i], w.origin);
    QueuedSet(w.tb.tasks, i, w'.tb.tasks[i]);
    OwnStep(cfg, w, w', h, i);
  }

  lemma TrapKeeps(cfg: Config, w: World, s: Step)
    requires Inv(cfg, w) && Enabled(cfg, w, s) && (s.ReadCaps? || s.Timer? || s.Fault?)
    ensures Inv(cfg, Do(cfg, w, s))
  {
    hide MailOk, CapsOk, CallOk;
    assert HartOk(cfg, w, s.h);
    var i, w' := w.tb.current[s.h].value, Do(cfg, w, s);
    assert TaskOk(w, i);
    if s.Fault? {
      CallsReturned(w, i);
      LeaveKeeps(cfg, w, s.h, i, Done, w.hist[i].(call := None));
    } else {
      OwnStep(cfg, w, w', s.h, i);
    }
  }

  lemma CallsReturned(w: World, i: Tid)
    requires TaskOk(w, i)
    ensures forall k :: 0 <= k < |w.hist[i].returned| ==> ReturnOk(w.hist[i].returned[k])
  {
  }

  lemma IrqKeeps(cfg: Config, w: World, s: Step)
    requires Inv(cfg, w) && Enabled(cfg, w, s) && (s.Tick? || s.IrqCounted? || s.IrqWakes?)
    ensures Inv(cfg, Do(cfg, w, s))
  {
    hide MailOk, CapsOk;
    var w' := Do(cfg, w, s);
    forall i: Tid
      ensures TaskOk(w', i) && Gentle(w.tb.tasks[i], w.hist[i], w'.tb.tasks[i], w'.hist[i])
    {
      assert TaskOk(w, i);
      TaskOnly(w.tb.tasks[i], w'.tb.tasks[i], w.hist[i], w.origin);
    }
    GentleStep(cfg, w, w');
  }

  /** Mail and capabilities do not depend on a task's flags or on its frame, nor on whether it is blocked. */
  lemma TaskOnly(t: Task, t': Task, x: History, origin: nat)
    requires t'.mbox == t.mbox && t'.caps == t.caps && (t'.state == Unused <==> t.state == Unused)
    ensures MailOk(t, x, origin) ==> MailOk(t', x, origin)
    ensures CapsOk(t, origin) ==> CapsOk(t', origin)
  {
  }

  /** A task whose deadline passed has left its call 4 past where it trapped. */
  lemma ExpireTaskOk(t: Task, x: History, now: nat, irqs: nat, due: nat, origin: nat)
    requires MailOk(t, x, origin) && CapsOk(t, origin) && CallOk(t, x, irqs, due)
    ensures var t', x' := ExpireTask(t, now), ExpireHist(t, x, now);
            && MailOk(t', x', origin) && CapsOk(t', origin) && CallOk(t', x', irqs, due) && Gentle(t, x, t', x')
  {
    TaskOnly(t, ExpireTask(t, now), x, origin);
    MailKept(ExpireTask(t, now), x, ExpireHist(t, x, now), origin);
    hide MailOk, CapsOk;
  }

  lemma ExpireKeeps(cfg: Config, w: World)
    requires Inv(cfg, w)
    ensures Inv(cfg, ExpireAll(w))
  {
    hide MailOk, CapsOk, CallOk, Gentle, ExpireTask, ExpireHist;
    var w' := ExpireAll(w);
    forall i: Tid
      ensures TaskOk(w', i) && Gentle(w.tb.tasks[i], w.hist[i], w'.tb.tasks[i], w'.hist[i])
      ensures |w'.tb.tasks[i].mbox| == |w.tb.tasks[i].mbox|
    {
      assert TaskOk(w, i);
      ExpireTaskOk(w.tb.tasks[i], w.hist[i], w.tb.ticks, w.tb.extIrqs, w.wakesDue, w.origin);
      ExpireMail(w.tb.tasks[i], w.tb.ticks);
    }
    GentleStep(cfg, w, w');
  }

  lemma ExpireMail(t: Task, now: nat)
    ensures ExpireTask(t, now).mbox == t.mbox
  {
  }

  // --- Dispatch --------------------------------------------------------------------------------------

  /** A hart that is between tasks, or outside the scheduler, claims a task no other hart has. */
  lemma ClaimKeeps(cfg: Config, w: World, h: Hart, i: Tid)
    requires Inv(cfg, w) && (w.phase[h].Resched? || w.phase[h].Console? || w.phase[h].Invited?)
    requires Eligible(cfg, w.tb, h, i)
    ensures Inv(cfg, SetPhase(w.(tb := Claim(w.tb, h, i)), h, User(i)))
  {
    hide MailOk, CapsOk;
    var w' := SetPhase(w.(tb := Claim(w.tb, h, i)), h, User(i));
    assert HartOk(cfg, w, h) && TaskOk(w, i);
    assert Advanced(w.hist[i].call) ==> Claimed(w.tb.current, i);
    forall j: Tid
      ensures TaskOk(w', j)
    {
      assert TaskOk(w, j);
      TaskOnly(w.tb.tasks[j], w'.tb.tasks[j], w.hist[j], w.origin);
    }
    forall g: Hart
      ensures HartOk(cfg, w', g)
    {
      assert HartOk(cfg, w, g);
    }
    QueuedSet(w.tb.tasks, i, w'.tb.tasks[i]);
    ClaimHeld(cfg, w, h, Some(i));
  }

  /** Moving a hart's claim off a task whose call is not being served. */
  lemma ClaimHeld(cfg: Config, w: World, h: Hart, claim: Option<Tid>)
    requires Inv(cfg, w) && (w.phase[h].Resched? || w.phase[h].Console? || w.phase[h].Invited?)
    ensures forall j: Tid :: Advanced(w.hist[j].call) ==> Claimed(w.tb.current[h := claim], j)
  {
    hide MailOk, CapsOk, CallOk;
    assert HartOk(cfg, w, h);
    forall j: Tid | Advanced(w.hist[j].call)
      ensures Claimed(w.tb.current[h := claim], j)
    {
      assert Claimed(w.tb.current, j);
      var g: Hart :| w.tb.current[g] == Some(j);
      var current := w.tb.current[h := claim];
      assert current[g] == Some(j);
    }
  }

  lemma LeaveScheduler(cfg: Config, w: World, h: Hart)
    requires Inv(cfg, w) && (w.phase[h].Resched? || w.phase[h].Console? || w.phase[h].Invited?)
    ensures Inv(cfg, SetPhase(w.(tb := w.tb.(current := w.tb.current[h := None])), h, Console))
  {
    hide MailOk, CapsOk, CallOk;
    var w' := SetPhase(w.(tb := w.tb.(current := w.tb.current[h := None])), h, Console);
    forall j: Tid
      ensures TaskOk(w', j)
    {
      assert TaskOk(w, j);
    }
    forall g: Hart
      ensures HartOk(cfg, w', g)
    {
      assert HartOk(cfg, w, g);
    }
    ClaimHeld(cfg, w, h, None);
  }

  lemma SearchKeeps(cfg: Config, w: World, h: Hart)
    requires Inv(cfg, w) && (w.phase[h].Resched? || w.phase[h].Console? || w.phase[h].Invited?)
    ensures Inv(cfg, Search(cfg, w, h))
  {
    hide Inv, Eligible, Claim, Pick;
    ExpireKeeps(cfg, w);
    var w1 := ExpireAll(w);
    match Pick(cfg, w1.tb, h)
    case Some(i) =>
      PickIsEligible(cfg, w1.tb, h);
      ClaimKeeps(cfg, w1, h, i);
    case None =>
      LeaveScheduler(cfg, w1, h);
  }

  lemma PickIsEligible(cfg: Config, tb: Table, h: Hart)
    ensures Pick(cfg, tb, h).Some? ==> Eligible(cfg, tb, h, Pick(cfg, tb, h).value)
  {
  }

  // --- Run entries -------------------------------------------------------------------------------------

  /** Rewriting a row nobody holds. */
  lemma RowKeeps(cfg: Config, w: World, w': World, i: Tid)
    requires Inv(cfg, w) && Unclaimed(w, i)
    requires w'.tb.current == w.tb.current && w'.phase == w.phase && w'.tb.extIrqs == w.tb.extIrqs && w'.wakesDue == w.wakesDue
    requires forall j: Tid :: j != i ==> w'.tb.tasks[j] == w.tb.tasks[j] && w'.hist[j] == w.hist[j]
    requires TaskOk(w', i) && !Advanced(w'.hist[i].call) && Conserved(w') && Within(w.origin, w'.origin)
    ensures Inv(cfg, w')
  {
    hide MailOk, CapsOk, CallOk, Within, Conserved, OnTask;
    forall j: Tid
      ensures TaskOk(w', j)
    {
      assert TaskOk(w, j);
      OriginGrows(w.tb.tasks[j], w.hist[j], w.origin, w'.origin);
    }
    forall g: Hart
      ensures HartOk(cfg, w', g)
    {
      assert HartOk(cfg, w, g);
    }
  }

  lemma OriginGrows(t: Task, x: History, origin: nat, origin': nat)
    requires Within(origin, origin')
    ensures MailOk(t, x, origin) ==> MailOk(t, x, origin')
    ensures CapsOk(t, origin) ==> CapsOk(t, origin')
  {
    if Within(t.caps, origin) {
      WithinTrans(t.caps, origin, origin');
    }
    forall k | 0 <= k < |t.mbox| && Within(t.mbox[k].grant, origin)
      ensures Within(t.mbox[k].grant, origin')
    {
      WithinTrans(t.mbox[k].grant, origin, origin');
    }
    hide Within, Attested;
  }

  lemma ResetKeeps(cfg: Config, w: World, i: Tid, wipeCaps: bool)
    requires Inv(cfg, w) && Enabled(cfg, w, ResetRow(i, wipeCaps)) && Fit(w, ResetRow(i, wipeCaps))
    ensures Inv(cfg, Do(cfg, w, ResetRow(i, wipeCaps)))
  {
    hide Within;
    var w' := Do(cfg, w, ResetRow(i, wipeCaps));
    WithinRefl(w.origin);
    QueuedSet(w.tb.tasks, i, w'.tb.tasks[i]);
    RowKeeps(cfg, w, w', i);
  }

  lemma InstallKeeps(cfg: Config, w: World, i: Tid, f: Frame, caps: nat, satp: nat, clear: bool)
    requires Inv(cfg, w) && Enabled(cfg, w, Install(i, f, caps, satp, clear)) && Fit(w, Install(i, f, caps, satp, clear))
    ensures Inv(cfg, Do(cfg, w, Install(i, f, caps, satp, clear)))
  {
    var w' := Do(cfg, w, Install(i, f, caps, satp, clear));
    assert TaskOk(w, i);
    OrWithin(w.origin, caps, 0);
    OriginGrows(w.tb.tasks[i], w.hist[i], w.origin, w'.origin);
    hide Within, CapsOk;
    QueuedSet(w.tb.tasks, i, w'.tb.tasks[i]);
    if clear {
      NoMail(w'.tb.tasks[i], w'.origin);
    } else {
      hide MailOk;
      MailKept(w.tb.tasks[i], w.hist[i], w'.hist[i], w'.origin);
      MailOnly(w.tb.tasks[i], w'.tb.tasks[i], w'.hist[i], w'.origin);
    }
    Started(w'.tb.tasks[i], w'.origin);
    RowKeeps(cfg, w, w', i);
  }

  lemma Started(t: Task, origin: nat)
    requires Within(t.caps, origin)
    ensures CapsOk(t, origin)
  {
  }

  lemma NoMail(t: Task, origin: nat)
    requires t.mbox == []
    ensures MailOk(t, History(None, [], [], []), origin)
  {
  }

  lemma MailOnly(t: Task, t': Task, x: History, origin: nat)
    requires t'.mbox == t.mbox && MailOk(t, x, origin)
    ensures MailOk(t', x, origin)
  {
  }

  /** A finished task can be reclaimed even while the hart that ran it has not moved on. */
  lemma ReclaimKeeps(cfg: Config, w: World, i: Tid, owned: bool)
    requires Inv(cfg, w) && Enabled(cfg, w, ReclaimRow(i, owned))
    ensures Inv(cfg, Do(cfg, w, ReclaimRow(i, owned)))
  {
    hide Within, MailOk, CallOk;
    var w' := Do(cfg, w, ReclaimRow(i, owned));
    WithinRefl(w.origin);
    QueuedSet(w.tb.tasks, i, w'.tb.tasks[i]);
    forall j: Tid
      ensures TaskOk(w', j)
    {
      assert TaskOk(w, j);
      if j == i {
        ReclaimedOk(w, w', i, owned);
      }
    }
    hide CapsOk;
    forall g: Hart
      ensures HartOk(cfg, w', g)
    {
      assert HartOk(cfg, w, g);
    }
  }

  lemma ReclaimedOk(w: World, w': World, i: Tid, owned: bool)
    requires TaskOk(w, i) && w.tb.tasks[i].state == Done && w'.origin == w.origin && Within(0, w.origin)
    requires if owned then w'.tb.tasks[i] == ClearMailbox(w.tb.tasks[i]).(satp := 0, caps := 0) && w'.hist[i] == History(None, [], [], [])
             else w'.tb.tasks[i] == w.tb.tasks[i].(satp := 0) && w'.hist[i] == w.hist[i]
    ensures TaskOk(w', i)
  {
    hide Within;
    if owned {
      NoMail(w'.tb.tasks[i], w.origin);
    } else {
      MailOnly(w.tb.tasks[i], w'.tb.tasks[i], w.hist[i], w.origin);
    }
    hide MailOk;
  }

  /** A run entry that hits no claimed row, and that resets a row before it fills it in and fills it in before it starts it. */
  predicate Fit(w: World, s: Step) {
    match s
    case ResetRow(i, _) => Unclaimed(w, i)
    case Install(i, _, _, _, clear) => Unclaimed(w, i) && (!clear ==> w.tb.tasks[i].state == Unused)
    case StartAt(i) => Unclaimed(w, i) && w.tb.tasks[i].state == Ready
    case _ => true
  }

  lemma StepKeeps(cfg: Config, w: World, s: Step)
    requires Inv(cfg, w) && Enabled(cfg, w, s) && Fit(w, s)
    ensures Inv(cfg, Do(cfg, w, s))
  {
    hide Inv, Search, ServeCall, ExpireAll, WakeAll;
    match s
    case UserRun(h, f) => UserKeeps(cfg, w, h, f);
    case Ecall(h) => EcallKeeps(cfg, w, h);
    case ReadCaps(_) => TrapKeeps(cfg, w, s);
    case Serve(h, user) => ServeKeeps(cfg, w, h, user);
    case Timer(_) => TrapKeeps(cfg, w, s);
    case Fault(_) => TrapKeeps(cfg, w, s);
    case Tick => IrqKeeps(cfg, w, s);
    case IrqCounted => IrqKeeps(cfg, w, s);
    case IrqWakes => IrqKeeps(cfg, w, s);
    case Recheck(_) => ExpireKeeps(cfg, w);
    case Dispatch(h) => SearchKeeps(cfg, w, h);
    case Invite(h) => SwitchKeeps(cfg, w, s);
    case Enter(h) => SearchKeeps(cfg, w, h);
    case Switch(_) => SwitchKeeps(cfg, w, s);
    case Join =>
    case ResetRow(i, wipeCaps) => ResetKeeps(cfg, w, i, wipeCaps);
    case ReclaimRow(i, owned) => ReclaimKeeps(cfg, w, i, owned);
    case Install(i, f, caps, satp, clear) => InstallKeeps(cfg, w, i, f, caps, satp, clear);
    case StartAt(i) => ClaimKeeps(cfg, w, cfg.boot, i);
  }

  lemma SwitchKeeps(cfg: Config, w: World, s: Step)
    requires Inv(cfg, w) && Enabled(cfg, w, s) && (s.Switch? || s.Invite?)
    ensures Inv(cfg, Do(cfg, w, s))
  {
    hide MailOk, CapsOk, CallOk;
    var w' := Do(cfg, w, s);
    forall j: Tid
      ensures TaskOk(w', j)
    {
      assert TaskOk(w, j);
    }
    forall g: Hart
      ensures HartOk(cfg, w', g)
    {
      assert HartOk(cfg, w, g);
    }
  }

  lemma IdleIsSafe(cfg: Config, w: World)
    requires cfg.kernelSatp != 0 && Idle(w)
    ensures Inv(cfg, w)
  {
    hide Within;
    forall i: Tid
      ensures TaskOk(w, i)
    {
      assert w.hist[i] == History(None, [], [], []);
    }
    forall h: Hart
      ensures HartOk(cfg, w, h)
    {
      assert w.phase[h] == Console;
    }
  }
}

/** Which calls can end by a timeout. A receive with a timeout can, at its deadline. Another call can too, if the task was
    parked with the deadline of an earlier receive still in force. */
module SchedTimeouts {
  import opened Bits
  import opened Bytes
  import opened SchedTable
  import opened SchedSteps
  import opened SchedSafety
  import opened SchedJoin
  import opened SchedTheorems

  // --- Exactly when a parked call times out -------------------------------------------------------

  /** A call is parked with the deadline that the task's flags hold at that moment; a receive with a timeout sets them
      first, the other calls leave them. */
  lemma ParkedWith(cfg: Config, w: World, h: Hart, user: seq<byte>)
    requires Inv(cfg, w) && Enabled(cfg, w, Serve(h, user))
    ensures var i := w.phase[h].task;
            var t := w.tb.tasks[i];
            ParksWith(Do(cfg, w, Serve(h, user)), i, if t.frame.a7 == SYS_RECV_TIMEOUT then Some(Deadline(w.tb.ticks, t.frame.a2)) else Armed(t))
  {
    FreshOwn(cfg, w, h);
    hide Inv, ServeSend, ServeRecv, ServeRecvTimeout, ServeIrqWait, ServeCall;
    var i, caps := w.phase[h].task, w.phase[h].caps;
    ServeCases(w, h, i, caps, user);
    if !Special(w.tb.tasks[i].frame.a7) {
      SimpleCall(w, h, i, caps, user, i);
    }
    SenderStays(w, h, i, caps, user);
    RecvParks(w, h, i, caps);
    RecvTimeoutParks(w, h, i, caps);
    IrqWaitParks(w, h, i);
  }

  /** The calls that are more than a result. */
  predicate Special(number: nat) {
    number == SYS_SEND || Receiving(number) || number == SYS_IRQ_WAIT
  }

  lemma ServeCases(w: World, h: Hart, i: Tid, caps: nat, user: seq<byte>)
    requires |user| == 64
    ensures var number, w' := w.tb.tasks[i].frame.a7, ServeCall(w, h, i, caps, user);
            && (number == SYS_SEND ==> w' == ServeSend(w, h, i, caps, user))
            && (number == SYS_RECV ==> w' == ServeRecv(w, h, i, caps))
            && (number == SYS_RECV_TIMEOUT ==> w' == ServeRecvTimeout(w, h, i, caps))
            && (number == SYS_IRQ_WAIT ==> w' == ServeIrqWait(w, h, i))
  {
    hide ServeSend, ServeRecv, ServeRecvTimeout, ServeIrqWait, Resume, Ended;
  }

  lemma SimpleCall(w: World, h: Hart, i: Tid, caps: nat, user: seq<byte>, j: Tid)
    requires |user| == 64 && w.tb.tasks[i].state == Ready && !Special(w.tb.tasks[i].frame.a7)
    ensures var w' := ServeCall(w, h, i, caps, user);
            w'.tb.tasks[i].state != Blocked && (Fresh(w.tb.tasks[j], w.hist[j]) ==> Fresh(w'.tb.tasks[j], w'.hist[j]))
  {
    hide ServeSend, ServeRecv, ServeRecvTimeout, ServeIrqWait, PlainResult;
  }

  /** If the task is parked, then with this deadline. */
  predicate ParksWith(w: World, i: Tid, armed: Option<nat>) {
    w.tb.tasks[i].state == Blocked ==> w.hist[i].call.Some? && w.hist[i].call.value.armed == armed
  }

  lemma SenderStays(w: World, h: Hart, i: Tid, caps: nat, user: seq<byte>)
    requires |user| == 64 && w.tb.tasks[i].state == Ready
    ensures ServeSend(w, h, i, caps, user).tb.tasks[i].state == Ready
  {
    hide And, MessageOf;
  }

  lemma RecvParks(w: World, h: Hart, i: Tid, caps: nat)
    requires w.tb.tasks[i].state == Ready && w.hist[i].call.Some?
    ensures ParksWith(ServeRecv(w, h, i, caps), i, Armed(w.tb.tasks[i]))
  {
    hide And, Or, Ended;
  }

  lemma RecvTimeoutParks(w: World, h: Hart, i: Tid, caps: nat)
    requires w.tb.tasks[i].state == Ready && w.hist[i].call.Some?
    ensures ParksWith(ServeRecvTimeout(w, h, i, caps), i, Some(Deadline(w.tb.ticks, w.tb.tasks[i].frame.a2)))
  {
    hide And, Or, Ended;
  }

  lemma IrqWaitParks(w: World, h: Hart, i: Tid)
    requires w.tb.tasks[i].state == Ready && w.hist[i].call.Some?
    ensures ParksWith(ServeIrqWait(w, h, i), i, Armed(w.tb.tasks[i]))
  {
    hide Ended;
  }

  /** A task that a hart runs is ready, so no deadline of its own is in force. */
  lemma FreshOwn(cfg: Config, w: World, h: Hart)
    requires Inv(cfg, w) && (w.phase[h].User? || w.phase[h].Trapped? || w.phase[h].Serving?)
    ensures var i := w.phase[h].task;
            && w.tb.tasks[i].state == Ready
            && (w.phase[h].Serving? ==> w.hist[i].call.Some?)
            && (w.hist[i].call.Some? ==> w.hist[i].call.value.frame.a7 == w.tb.tasks[i].frame.a7)
  {
    hide MailOk, CapsOk, Conserved;
    assert HartOk(cfg, w, h);
    assert TaskOk(w, w.phase[h].task);
  }

  /** At a scan for deadlines a parked call times out exactly if it was parked with one, that has passed, and no message is
      there for the task. */
  lemma TimesOutExactly(cfg: Config, w: World, steps: seq<Step>, i: Tid)
    requires cfg.kernelSatp != 0 && Idle(w) && Orderly(cfg, w, Shut, steps)
    requires End(cfg, w, steps).tb.tasks[i].state == Blocked
    ensures var w' := End(cfg, w, steps);
            var x, x' := w'.hist[i], ExpireAll(w').hist[i];
            && x.call.Some?
            && x'.returned == if x.call.value.armed.Some? && x.call.value.armed.value <= w'.tb.ticks && w'.tb.tasks[i].mbox == []
                              then x.returned + [Return(x.call.value.frame, x.call.value.frame.pc + 4,
                                                        Some(Wait(x.call.value.since, x.call.value.armed, w'.tb.ticks)))]
                              else x.returned
  {
    Reached(cfg, w, steps);
    hide Idle, Orderly, End, Inv, CallOk, ExpireAll, ExpireHist;
    var w' := End(cfg, w, steps);
    CallIsOk(cfg, w', i);
    ExpiredAt(w', i);
    ExpiresExactly(w'.tb.tasks[i], w'.hist[i], w'.tb.ticks, w'.tb.extIrqs, w'.wakesDue);
  }

  lemma ExpiredAt(w: World, i: Tid)
    ensures ExpireAll(w).hist[i] == ExpireHist(w.tb.tasks[i], w.hist[i], w.tb.ticks)
  {
    hide Expire, ExpireHist;
  }

  lemma CallIsOk(cfg: Config, w: World, i: Tid)
    requires Inv(cfg, w)
    ensures CallOk(w.tb.tasks[i], w.hist[i], w.tb.extIrqs, w.wakesDue)
  {
    hide MailOk, CapsOk, HartOk, Conserved, CallOk;
    assert TaskOk(w, i);
  }

  lemma ExpiresExactly(t: Task, x: History, now: nat, irqs: nat, due: nat)
    requires CallOk(t, x, irqs, due) && t.state == Blocked
    ensures x.call.Some?
    ensures var c := x.call.value;
            ExpireHist(t, x, now).returned == if c.armed.Some? && c.armed.value <= now && t.mbox == []
                                              then x.returned + [Return(c.frame, c.frame.pc + 4, Some(Wait(c.since, c.armed, now)))]
                                              else x.returned
  {
  }

  // --- Tasks that do not wait for interrupts ---------------------------------------------------------

  /** No deadline is in force but that of the receive the task is parked in, and no other call has timed out. */
  predicate Fresh(t: Task, x: History) {
    && (t.recvWaiting ==> t.state == Blocked && x.call.Some? && x.call.value.frame.a7 == SYS_RECV_TIMEOUT)
    && forall k :: 0 <= k < |x.returned| && x.returned[k].timedOut.Some? ==> x.returned[k].call.a7 == SYS_RECV_TIMEOUT
  }

  lemma FreshStep(cfg: Config, w: World, s: Step, i: Tid)
    requires Inv(cfg, w) && Enabled(cfg, w, s) && Fit(w, s) && Fresh(w.tb.tasks[i], w.hist[i]) && !w.tb.tasks[i].irqWaiting
    ensures Fresh(Do(cfg, w, s).tb.tasks[i], Do(cfg, w, s).hist[i])
  {
    hide Inv, ServeCall, Search, ExpireAll, WakeAll;
    match s
    case Serve(h, user) => FreshServe(cfg, w, h, user, i);
    case Dispatch(h) => FreshSearch(cfg, w, h, i);
    case Enter(h) => FreshSearch(cfg, w, h, i);
    case Recheck(_) => FreshExpiry(w, i);
    case UserRun(h, _) => FreshOwn(cfg, w, h);
    case Ecall(h) => FreshOwn(cfg, w, h);
    case Fault(h) => FreshOwn(cfg, w, h);
    case IrqWakes => WakeSkips(w.tb, i);
    case ResetRow(_, _) => FreshRow(cfg, w, s, i);
    case ReclaimRow(_, _) => FreshRow(cfg, w, s, i);
    case Install(_, _, _, _, _) => FreshRow(cfg, w, s, i);
    case _ =>
  }

  lemma WakeSkips(tb: Table, i: Tid)
    requires !tb.tasks[i].irqWaiting
    ensures WakeAll(tb).tasks[i] == tb.tasks[i]
  {
  }

  lemma FreshRow(cfg: Config, w: World, s: Step, i: Tid)
    requires Enabled(cfg, w, s) && Fit(w, s) && Fresh(w.tb.tasks[i], w.hist[i]) && (s.ResetRow? || s.ReclaimRow? || s.Install?)
    ensures Fresh(Do(cfg, w, s).tb.tasks[i], Do(cfg, w, s).hist[i])
  {
    hide Or;
  }

  lemma FreshExpiry(w: World, i: Tid)
    requires Fresh(w.tb.tasks[i], w.hist[i])
    ensures Fresh(ExpireAll(w).tb.tasks[i], ExpireAll(w).hist[i])
  {
  }

  lemma FreshSearch(cfg: Config, w: World, h: Hart, i: Tid)
    requires Fresh(w.tb.tasks[i], w.hist[i])
    ensures Fresh(Search(cfg, w, h).tb.tasks[i], Search(cfg, w, h).hist[i])
  {
    FreshExpiry(w, i);
    hide ExpireAll, Pick;
  }

  lemma FreshServe(cfg: Config, w: World, h: Hart, user: seq<byte>, i: Tid)
    requires Inv(cfg, w) && w.phase[h].Serving? && |user| == 64 && Fresh(w.tb.tasks[i], w.hist[i])
    ensures var w' := ServeCall(w, h, w.phase[h].task, w.phase[h].caps, user);
            Fresh(w'.tb.tasks[i], w'.hist[i])
  {
    FreshOwn(cfg, w, h);
    var j, caps := w.phase[h].task, w.phase[h].caps;
    if j == i {
      FreshReceives(w, h, i, caps);
    }
    FreshSend(w, h, j, caps, user, i);
    hide Inv, ServeSend, ServeRecv, ServeRecvTimeout, ServeIrqWait, ServeCall, Fresh;
    ServeCases(w, h, j, caps, user);
    if !Special(w.tb.tasks[j].frame.a7) {
      SimpleCall(w, h, j, caps, user, i);
    }
    OthersKeep(w, h, j, caps, i);
  }

  /** Receives and waits touch the caller only. */
  lemma OthersKeep(w: World, h: Hart, j: Tid, caps: nat, i: Tid)
    ensures j != i ==>
              && ServeRecv(w, h, j, caps).tb.tasks[i] == w.tb.tasks[i] && ServeRecv(w, h, j, caps).hist[i] == w.hist[i]
              && ServeRecvTimeout(w, h, j, caps).tb.tasks[i] == w.tb.tasks[i] && ServeRecvTimeout(w, h, j, caps).hist[i] == w.hist[i]
              && ServeIrqWait(w, h, j).tb.tasks[i] == w.tb.tasks[i] && ServeIrqWait(w, h, j).hist[i] == w.hist[i]
  {
    hide And, Or, Ended, Rewound, ParkTask, TimedOut, Receive;
  }

  lemma FreshReceives(w: World, h: Hart, i: Tid, caps: nat)
    requires w.tb.tasks[i].state == Ready && Fresh(w.tb.tasks[i], w.hist[i])
    requires w.hist[i].call.Some? && w.hist[i].call.value.frame.a7 == w.tb.tasks[i].frame.a7
    ensures w.tb.tasks[i].frame.a7 == SYS_RECV ==> Fresh(ServeRecv(w, h, i, caps).tb.tasks[i], ServeRecv(w, h, i, caps).hist[i])
    ensures w.tb.tasks[i].frame.a7 == SYS_RECV_TIMEOUT ==>
              Fresh(ServeRecvTimeout(w, h, i, caps).tb.tasks[i], ServeRecvTimeout(w, h, i, caps).hist[i])
    ensures w.tb.tasks[i].frame.a7 == SYS_IRQ_WAIT ==> Fresh(ServeIrqWait(w, h, i).tb.tasks[i], ServeIrqWait(w, h, i).hist[i])
  {
    hide And, Or, TimedOut;
  }

  lemma FreshSend(w: World, h: Hart, i: Tid, caps: nat, user: seq<byte>, j: Tid)
    requires |user| == 64 && w.tb.tasks[i].state == Ready && Fresh(w.tb.tasks[j], w.hist[j])
    ensures var w' := ServeSend(w, h, i, caps, user);
            Fresh(w'.tb.tasks[j], w'.hist[j])
  {
    hide And, MessageOf;
  }

  /** The task is at no point of the run marked as waiting for an interrupt. */
  predicate NeverIrq(cfg: Config, w: World, steps: seq<Step>, i: Tid)
    requires IsRun(cfg, w, steps)
    decreases |steps|
  {
    !w.tb.tasks[i].irqWaiting && (steps == [] || NeverIrq(cfg, Do(cfg, w, steps[0]), steps[1..], i))
  }

  lemma {:induction false} FreshRun(cfg: Config, w: World, m: Mode, steps: seq<Step>, i: Tid)
    requires Inv(cfg, w) && ModeOk(cfg, w, m) && Orderly(cfg, w, m, steps) && IsRun(cfg, w, steps)
    requires NeverIrq(cfg, w, steps, i) && Fresh(w.tb.tasks[i], w.hist[i])
    ensures Fresh(After(cfg, w, steps).tb.tasks[i], After(cfg, w, steps).hist[i])
    decreases |steps|
  {
    hide Inv, Enabled, Do, ModeOk, Allowed, Fit, NextMode, Fresh;
    if steps != [] {
      OrderlyIsFit(cfg, w, m, steps[0]);
      FreshStep(cfg, w, steps[0], i);
      StepKeeps(cfg, w, steps[0]);
      ModeStep(cfg, w, m, steps[0]);
      FreshRun(cfg, Do(cfg, w, steps[0]), NextMode(cfg, w, m, steps[0]), steps[1..], i);
    }
  }

  /** In a task that is never marked as waiting for an interrupt, only receives with a timeout time out. */
  lemma OnlyTimedReceivesTimeOut(cfg: Config, w: World, steps: seq<Step>, i: Tid, k: nat)
    requires cfg.kernelSatp != 0 && Idle(w) && Orderly(cfg, w, Shut, steps) && IsRun(cfg, w, steps)
    requires NeverIrq(cfg, w, steps, i) && !w.tb.tasks[i].recvWaiting
    requires k < |End(cfg, w, steps).hist[i].returned| && End(cfg, w, steps).hist[i].returned[k].timedOut.Some?
    ensures End(cfg, w, steps).hist[i].returned[k].call.a7 == SYS_RECV_TIMEOUT
  {
    hide Inv, Orderly, IsRun, After, NeverIrq;
    IdleIsSafe(cfg, w);
    FreshRun(cfg, w, Shut, steps, i);
  }
}

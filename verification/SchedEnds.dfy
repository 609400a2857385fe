/** How tasks end: a fault or an exit is final. */
module SchedEnds {
  import opened Bytes
  import opened Bits
  import opened SchedTable
  import opened SchedSteps
  import opened SchedSafety
  import opened SchedJoin
  import opened SchedTheorems

  /** The step fills row `i` anew. */
  predicate Renews(s: Step, i: Tid) {
    (s.Install? || s.ResetRow?) && s.i == i
  }

  lemma ServeSparesTheDead(w: World, h: Hart, j: Tid, caps: nat, user: seq<byte>, i: Tid)
    requires |user| == 64 && w.tb.tasks[i].state == Done && i != j
    ensures ServeCall(w, h, j, caps, user).tb.tasks[i].state == Done
  {
    hide And, MessageOf, Receive, PlainResult, TimedOut;
  }

  lemma SearchSparesTheDead(cfg: Config, w: World, h: Hart, i: Tid)
    requires w.tb.tasks[i].state == Done
    ensures ExpireAll(w).tb.tasks[i].state == Done && Search(cfg, w, h).tb.tasks[i].state == Done
  {
    hide Pick, ExpireHist;
    assert ExpireAll(w).tb.tasks[i] == ExpireTask(w.tb.tasks[i], w.tb.ticks);
  }

  lemma DeadStep(cfg: Config, w: World, s: Step, i: Tid)
    requires Inv(cfg, w) && Enabled(cfg, w, s) && Fit(w, s) && w.tb.tasks[i].state == Done && !Renews(s, i)
    ensures Do(cfg, w, s).tb.tasks[i].state == Done
  {
    match s
    case Serve(h, user) =>
      assert HartOk(cfg, w, h);
      hide Inv, ServeCall;
      ServeSparesTheDead(w, h, w.phase[h].task, w.phase[h].caps, user, i);
    case Dispatch(h) =>
      hide Inv, Search;
      SearchSparesTheDead(cfg, w, h, i);
    case Enter(h) =>
      hide Inv, Search;
      SearchSparesTheDead(cfg, w, h, i);
    case Recheck(h) =>
      hide Inv, ExpireAll;
      SearchSparesTheDead(cfg, w, h, i);
    case _ =>
      hide Inv;
  }

  lemma {:induction false} DeadRun(cfg: Config, w: World, m: Mode, steps: seq<Step>, k: nat, i: Tid)
    requires Inv(cfg, w) && ModeOk(cfg, w, m) && Orderly(cfg, w, m, steps) && IsRun(cfg, w, steps)
    requires k <= |steps| && IsRun(cfg, w, steps[..k]) && After(cfg, w, steps[..k]).tb.tasks[i].state == Done
    requires forall j :: k <= j < |steps| ==> !Renews(steps[j], i)
    ensures After(cfg, w, steps).tb.tasks[i].state == Done
    decreases |steps|
  {
    hide Inv, Enabled, Do, ModeOk, Allowed, Fit, NextMode;
    if steps != [] {
      var s, rest := steps[0], steps[1..];
      OrderlyIsFit(cfg, w, m, s);
      StepKeeps(cfg, w, s);
      ModeStep(cfg, w, m, s);
      if k == 0 {
        DeadStep(cfg, w, s, i);
        assert rest[..0] == [];
        DeadRun(cfg, Do(cfg, w, s), NextMode(cfg, w, m, s), rest, 0, i);
      } else {
        assert steps[..k][0] == s && steps[..k][1..] == rest[..k - 1];
        DeadRun(cfg, Do(cfg, w, s), NextMode(cfg, w, m, s), rest, k - 1, i);
      }
    } else {
      assert steps[..k] == steps;
    }
  }

  /** A task that ended at some point of a run, by a fault or by its own exit, is not runnable at the end of it and on no
      hart, unless its row was filled anew in between. */
  lemma TheDeadStayDead(cfg: Config, w: World, steps: seq<Step>, k: nat, i: Tid, h: Hart)
    requires cfg.kernelSatp != 0 && Idle(w) && Orderly(cfg, w, Shut, steps) && k <= |steps|
    requires IsRun(cfg, w, steps[..k]) && After(cfg, w, steps[..k]).tb.tasks[i].state == Done
    requires forall j :: k <= j < |steps| ==> !Renews(steps[j], i)
    ensures End(cfg, w, steps).tb.tasks[i].state == Done
    ensures End(cfg, w, steps).phase[h] != User(i) && End(cfg, w, steps).phase[h] != Trapped(i)
  {
    OrderlyIsRun(cfg, w, Shut, steps);
    IdleIsSafe(cfg, w);
    Reached(cfg, w, steps);
    DeadRun(cfg, w, Shut, steps, k, i);
    hide Idle, Orderly, IsRun, TaskOk, Conserved;
    assert HartOk(cfg, End(cfg, w, steps), h);
  }

  /** A fault ends the task that caused it and nothing else; a timer interrupt counts a tick and ends nothing. Either way
      the hart looks for a task next. */
  lemma TrapsEnd(cfg: Config, w: World, h: Hart, i: Tid)
    requires w.phase[h] == User(i)
    ensures var w' := Do(cfg, w, Fault(h));
            && w'.tb.tasks[i].state == Done && w'.phase[h] == Resched && w'.tb.ticks == w.tb.ticks
            && forall j: Tid :: j != i ==> w'.tb.tasks[j] == w.tb.tasks[j]
    ensures var w' := Do(cfg, w, Timer(h));
            w'.tb.ticks == w.tb.ticks + 1 && w'.phase[h] == Resched && w'.tb.tasks == w.tb.tasks && w'.tb.current == w.tb.current
  {
  }

  /** The clock counts, a device's interrupt counts and leaves a wakeup due, and the wakeup lets every task that waits for
      a device run, and no other. */
  lemma DevicesAreHeard(cfg: Config, w: World, i: Tid)
    ensures Do(cfg, w, Tick) == w.(tb := w.tb.(ticks := w.tb.ticks + 1))
    ensures Do(cfg, w, IrqCounted) == w.(tb := w.tb.(extIrqs := w.tb.extIrqs + 1), wakesDue := w.wakesDue + 1)
    ensures w.wakesDue > 0 ==>
              var w' := Do(cfg, w, IrqWakes);
              var t, t' := w.tb.tasks[i], w'.tb.tasks[i];
              && w'.wakesDue == w.wakesDue - 1 && w'.tb.extIrqs == w.tb.extIrqs && !t'.irqWaiting
              && t' == t.(irqWaiting := false, state := if t.irqWaiting && t.state == Blocked then Ready else t.state)
  {
  }

  /** A row that is filled starts with exactly the frame, capabilities and address space it is given, without a hart's stamp;
      if it is cleared first, without mail. */
  lemma RowIsFilled(cfg: Config, w: World, i: Tid, frame: Frame, caps: nat, satp: nat, clear: bool)
    requires w.phase[cfg.boot].Console?
    ensures var t := Do(cfg, w, Install(i, frame, caps, satp, clear)).tb.tasks[i];
            && t.state == Ready && t.frame == frame.(hart := 0) && t.caps == caps && t.satp == satp
            && t.mbox == (if clear then [] else w.tb.tasks[i].mbox) && (clear ==> !t.recvWaiting)
  {
    hide Or;
  }

  /** A row that is reset, or taken back with its frames, keeps no mail and no deadline; capabilities go where they are
      wiped, and always with the frames. */
  lemma RowIsCleared(cfg: Config, w: World, i: Tid, wipe: bool)
    requires w.phase[cfg.boot].Console?
    ensures var t := Do(cfg, w, ResetRow(i, wipe)).tb.tasks[i];
            t.state == Unused && t.satp == 0 && t.mbox == [] && !t.recvWaiting && t.caps == if wipe then 0 else w.tb.tasks[i].caps
  {
  }

  lemma RowIsReclaimed(cfg: Config, w: World, i: Tid)
    requires w.phase[cfg.boot].Console? && w.tb.tasks[i].state == Done
    ensures var t := Do(cfg, w, ReclaimRow(i, true)).tb.tasks[i];
            t.state == Done && t.caps == 0 && t.satp == 0 && t.mbox == [] && !t.recvWaiting
  {
  }
}

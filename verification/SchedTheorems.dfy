/** The scheduler's guarantees, over every run from an idle machine. */
module SchedTheorems {
  import opened Bytes
  import opened Bits
  import opened SchedTable
  import opened SchedSteps
  import opened SchedSafety
  import opened SchedJoin

  /** The world at the end of an orderly run. */
  function End(cfg: Config, w: World, steps: seq<Step>): World
    requires Orderly(cfg, w, Shut, steps)
  {
    OrderlyIsRun(cfg, w, Shut, steps);
    After(cfg, w, steps)
  }

  lemma Reached(cfg: Config, w: World, steps: seq<Step>)
    requires cfg.kernelSatp != 0 && Idle(w) && Orderly(cfg, w, Shut, steps)
    ensures Inv(cfg, End(cfg, w, steps))
  {
    hide Inv, IsRun, After, Orderly;
    IdleIsSafe(cfg, w);
    RunKeeps(cfg, w, Shut, steps);
  }

  /** No two harts hold one task. A held task's frame carries the stamp of the hart that holds it, and a secondary never holds
      a task in the kernel's address space. */
  lemma ClaimsAreSound(cfg: Config, w: World, steps: seq<Step>, h: Hart)
    requires cfg.kernelSatp != 0 && Idle(w) && Orderly(cfg, w, Shut, steps)
    ensures var tb := End(cfg, w, steps).tb;
            tb.current[h].Some? ==>
              var i := tb.current[h].value;
              && (forall g: Hart :: g != h ==> tb.current[g] != Some(i))
              && tb.tasks[i].frame.hart == h
              && (h != cfg.boot ==> tb.tasks[i].satp != cfg.kernelSatp)
  {
    Reached(cfg, w, steps);
    hide Idle, Orderly, End, TaskOk, Conserved;
    assert HartOk(cfg, End(cfg, w, steps), h);
  }

  /** No wakeup is lost: a task parked in a receive has no mail, and one parked on interrupts has seen every interrupt
      except those whose wakeup is still due. Either way its frame is where the call trapped. */
  lemma NoLostWakeup(cfg: Config, w: World, steps: seq<Step>, i: Tid)
    requires cfg.kernelSatp != 0 && Idle(w) && Orderly(cfg, w, Shut, steps)
    ensures var w' := End(cfg, w, steps);
            var t, call := w'.tb.tasks[i], w'.hist[i].call;
            t.state == Blocked ==>
              && call.Some? && t.frame.(hart := 0) == call.value.frame.(hart := 0)
              && (Receiving(t.frame.a7) || t.frame.a7 == SYS_IRQ_WAIT)
              && (Receiving(t.frame.a7) ==> t.mbox == [])
              && (t.frame.a7 == SYS_IRQ_WAIT ==> t.irqWaiting && (t.frame.a0 == w'.tb.extIrqs || w'.wakesDue > 0))
  {
    Reached(cfg, w, steps);
    hide Idle, Orderly, End, MailOk, CapsOk, HartOk, Conserved;
    assert TaskOk(End(cfg, w, steps), i);
  }

  /** However a call ends - at once, by a message, by a timeout, after any number of early wakes - the program counter has
      moved by exactly 4 since it trapped. */
  lemma CallsMoveByFour(cfg: Config, w: World, steps: seq<Step>, i: Tid, k: nat)
    requires cfg.kernelSatp != 0 && Idle(w) && Orderly(cfg, w, Shut, steps)
    requires k < |End(cfg, w, steps).hist[i].returned|
    ensures var r := End(cfg, w, steps).hist[i].returned[k];
            r.pc == r.call.pc + 4
  {
    Reached(cfg, w, steps);
    hide Idle, Orderly, End, MailOk, CapsOk, HartOk, Conserved;
    assert TaskOk(End(cfg, w, steps), i);
    assert ReturnOk(End(cfg, w, steps).hist[i].returned[k]);
  }

  /** A parked call that timed out had a deadline when it was parked, and gave up only once that had passed. For a receive
      with a timeout it was its own. */
  lemma TimeoutsAreNotEarly(cfg: Config, w: World, steps: seq<Step>, i: Tid, k: nat)
    requires cfg.kernelSatp != 0 && Idle(w) && Orderly(cfg, w, Shut, steps)
    requires k < |End(cfg, w, steps).hist[i].returned|
    ensures var r := End(cfg, w, steps).hist[i].returned[k];
            r.timedOut.Some? ==>
              var wait := r.timedOut.value;
              && wait.armed.Some? && wait.armed.value <= wait.now
              && (r.call.a7 == SYS_RECV_TIMEOUT ==> wait.now >= wait.since + r.call.a2 || wait.now >= USIZE_MAX)
  {
    Reached(cfg, w, steps);
    hide Idle, Orderly, End, MailOk, CapsOk, HartOk, Conserved;
    assert TaskOk(End(cfg, w, steps), i);
    assert ReturnOk(End(cfg, w, steps).hist[i].returned[k]);
  }

  /** Every capability of a live task, and every one a queued message carries, was in some task's starting set. Every message
      accepted attests exactly what its sender held, and grants no more than that. */
  lemma CapabilitiesAreTraced(cfg: Config, w: World, steps: seq<Step>, i: Tid)
    requires cfg.kernelSatp != 0 && Idle(w) && Orderly(cfg, w, Shut, steps)
    ensures var w' := End(cfg, w, steps);
            && (w'.tb.tasks[i].state != Unused ==> Within(w'.tb.tasks[i].caps, w'.origin))
            && (forall k :: 0 <= k < |w'.tb.tasks[i].mbox| ==> Within(w'.tb.tasks[i].mbox[k].grant, w'.origin))
            && (forall k :: 0 <= k < |w'.hist[i].accepted| ==>
                  var s := w'.hist[i].accepted[k];
                  s.msg.senderCaps == s.held && Within(s.msg.grant, s.held))
  {
    Reached(cfg, w, steps);
    hide Idle, Orderly, End, HartOk, CallOk, Conserved, Within;
    assert TaskOk(End(cfg, w, steps), i);
  }

  /** Each mailbox is a first-in first-out queue of depth at most 4, and no message is lost or made up: what was sent was
      received, is queued, or was in a mailbox that was cleared. */
  lemma MailboxesAreQueues(cfg: Config, w: World, steps: seq<Step>, i: Tid)
    requires cfg.kernelSatp != 0 && Idle(w) && Orderly(cfg, w, Shut, steps)
    ensures var w' := End(cfg, w, steps);
            && |w'.tb.tasks[i].mbox| <= MAILBOX_DEPTH
            && Messages(w'.hist[i].accepted) == w'.hist[i].received + w'.tb.tasks[i].mbox
            && w'.tb.sends == w'.tb.receives + w'.dropped + Queued(w'.tb.tasks)
  {
    Reached(cfg, w, steps);
    hide Idle, Orderly, End, HartOk, CallOk, CapsOk;
    assert TaskOk(End(cfg, w, steps), i);
  }
}

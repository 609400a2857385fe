/** When the run entries may rewrite and name rows without looking at the claims of other harts: what
    `join_secondaries` is for, and exactly when its answer can be relied on. */
module SchedJoin {
  import opened Bits
  import opened Bytes
  import opened SchedTable
  import opened SchedSteps
  import opened SchedSafety

  // --- A clean join -----------------------------------------------------------------------------

  /** The switch is off, and every secondary is in its loop without a task. */
  predicate Closed(cfg: Config, w: World) {
    !w.smpOn && forall h: Hart :: h != cfg.boot ==> w.phase[h] == Console && w.tb.current[h] == None
  }

  /** No secondary is between the switch and the lock. */
  predicate NoneInvited(cfg: Config, w: World) {
    forall h: Hart :: h != cfg.boot ==> !w.phase[h].Invited?
  }

  lemma CleanJoin(cfg: Config, w: World)
    requires Inv(cfg, w) && Joined(cfg, w) && NoneInvited(cfg, w)
    ensures Closed(cfg, w)
  {
    hide TaskOk, Conserved;
    forall h: Hart | h != cfg.boot
      ensures w.phase[h] == Console
    {
      assert HartOk(cfg, w, h);
    }
  }

  /** Only turning the switch on ends it. */
  lemma ClosedStep(cfg: Config, w: World, s: Step)
    requires Closed(cfg, w) && Enabled(cfg, w, s) && s != Switch(true)
    ensures Closed(cfg, Do(cfg, w, s))
  {
    forall g: Hart | g != cfg.boot
      ensures Do(cfg, w, s).phase[g] == Console && Do(cfg, w, s).tb.current[g] == None
    {
      OutsiderStays(cfg, w, s, g);
    }
    SwitchStays(cfg, w, s);
    hide Do, Enabled;
  }

  lemma SwitchStays(cfg: Config, w: World, s: Step)
    requires Enabled(cfg, w, s)
    ensures Do(cfg, w, s).smpOn ==> w.smpOn || s == Switch(true)
  {
    hide Receive, Enqueue, ExpireTask, ExpireHist, WakeTask, SendRefused, PlainResult, MessageOf, PickFrom, Expire, WakeAll, Ended, Rewound;
  }

  /** A hart that is out of the scheduler and not asked in stays out of it. */
  lemma OutsiderStays(cfg: Config, w: World, s: Step, g: Hart)
    requires Enabled(cfg, w, s) && g != cfg.boot && w.phase[g] == Console && s != Invite(g)
    ensures Do(cfg, w, s).phase[g] == w.phase[g] && Do(cfg, w, s).tb.current[g] == w.tb.current[g]
  {
    hide Expire, ExpireHist, Pick, WakeTask, ServeCall, Search;
    match s
    case Serve(h, user) => ServeStaysHome(w, h, w.phase[h].task, w.phase[h].caps, user);
    case Dispatch(h) => ClaimIsOwn(cfg, w, h);
    case Enter(h) => ClaimIsOwn(cfg, w, h);
    case Recheck(_) => ExpiryIsLocal(w);
    case _ =>
  }

  lemma ExpiryIsLocal(w: World)
    ensures ExpireAll(w).tb.current == w.tb.current && ExpireAll(w).phase == w.phase
  {
    hide ExpireTask, ExpireHist;
  }

  lemma ClaimIsOwn(cfg: Config, w: World, h: Hart)
    ensures forall g: Hart :: g != h ==> Search(cfg, w, h).phase[g] == w.phase[g] && Search(cfg, w, h).tb.current[g] == w.tb.current[g]
  {
    hide ExpireTask, ExpireHist, Pick;
  }

  /** What a call leaves alone: claims, address spaces and the other harts; of other tasks it wakes at most one that is
      blocked. */
  predicate Homely(w: World, w': World, h: Hart, i: Tid) {
    && w'.tb.current == w.tb.current && (forall g: Hart :: g != h ==> w'.phase[g] == w.phase[g])
    && forall j: Tid ::
         && w'.tb.tasks[j].satp == w.tb.tasks[j].satp
         && (j != i ==> w'.tb.tasks[j].state == w.tb.tasks[j].state || w.tb.tasks[j].state == Blocked)
  }

  lemma ServeStaysHome(w: World, h: Hart, i: Tid, caps: nat, user: seq<byte>)
    requires |user| == 64
    ensures Homely(w, ServeCall(w, h, i, caps, user), h, i)
  {
    SendStaysHome(w, h, i, caps, user);
    ReceiveStaysHome(w, h, i, caps);
    TimedStaysHome(w, h, i, caps);
    WaitStaysHome(w, h, i);
    hide ServeSend, ServeRecv, ServeRecvTimeout, ServeIrqWait, Homely, Resume, SetPhase, SetHist, SetTask;
    if w.tb.tasks[i].frame.a7 !in {SYS_SEND, SYS_RECV, SYS_RECV_TIMEOUT, SYS_IRQ_WAIT} {
      PlainStaysHome(w, h, i, caps, user);
    }
  }

  lemma PlainStaysHome(w: World, h: Hart, i: Tid, caps: nat, user: seq<byte>)
    requires |user| == 64 && w.tb.tasks[i].frame.a7 !in {SYS_SEND, SYS_RECV, SYS_RECV_TIMEOUT, SYS_IRQ_WAIT}
    ensures Homely(w, ServeCall(w, h, i, caps, user), h, i)
  {
    hide ServeSend, ServeRecv, ServeRecvTimeout, ServeIrqWait, PlainResult, Ended;
  }

  lemma SendStaysHome(w: World, h: Hart, i: Tid, caps: nat, user: seq<byte>)
    requires |user| == 64
    ensures Homely(w, ServeSend(w, h, i, caps, user), h, i)
  {
    hide And, MessageOf, Ended;
  }

  lemma ReceiveStaysHome(w: World, h: Hart, i: Tid, caps: nat)
    ensures Homely(w, ServeRecv(w, h, i, caps), h, i)
  {
    hide And, Or, Ended, Rewound;
  }

  lemma TimedStaysHome(w: World, h: Hart, i: Tid, caps: nat)
    ensures Homely(w, ServeRecvTimeout(w, h, i, caps), h, i)
  {
    hide And, Or, Ended, Rewound, TimedOut, Deadline;
  }

  lemma WaitStaysHome(w: World, h: Hart, i: Tid)
    ensures Homely(w, ServeIrqWait(w, h, i), h, i)
  {
    hide Ended, Rewound;
  }

  predicate NeverOpens(steps: seq<Step>) {
    forall i :: 0 <= i < |steps| ==> steps[i] != Switch(true)
  }

  /** After a clean join, whatever happens until the switch is turned on: no secondary takes a task. */
  lemma {:induction false} StaysClosed(cfg: Config, w: World, steps: seq<Step>)
    requires Closed(cfg, w) && IsRun(cfg, w, steps) && NeverOpens(steps)
    ensures Closed(cfg, After(cfg, w, steps))
    decreases |steps|
  {
    hide Closed, Enabled, Do;
    if steps != [] {
      assert steps[0] != Switch(true);
      ClosedStep(cfg, w, steps[0]);
      assert forall i :: 0 <= i < |steps[1..]| ==> steps[1..][i] == steps[i + 1];
      StaysClosed(cfg, Do(cfg, w, steps[0]), steps[1..]);
    }
  }

  /** No claim of a secondary, none of a boot hart that is in the console: every row is free. */
  lemma ClosedIsFree(cfg: Config, w: World, i: Tid)
    requires Inv(cfg, w) && w.phase[cfg.boot].Console? && forall h: Hart :: h != cfg.boot ==> w.tb.current[h] == None
    ensures Unclaimed(w, i)
  {
    hide TaskOk, Conserved;
    assert HartOk(cfg, w, cfg.boot);
  }

  // --- The answer can be relied on exactly if the join was clean -------------------------------------

  /** One run after another. */
  lemma {:induction false} RunThen(cfg: Config, w: World, a: seq<Step>, b: seq<Step>)
    requires IsRun(cfg, w, a) && IsRun(cfg, After(cfg, w, a), b)
    ensures IsRun(cfg, w, a + b) && After(cfg, w, a + b) == After(cfg, After(cfg, w, a), b)
    decreases |a|
  {
    hide Enabled, Do;
    if a == [] {
      assert a + b == b;
    } else {
      RunThen(cfg, Do(cfg, w, a[0]), a[1..], b);
      assert (a + b)[0] == a[0] && (a + b)[1..] == a[1..] + b;
    }
  }

  lemma OneStep(cfg: Config, w: World, s: Step)
    requires Enabled(cfg, w, s)
    ensures IsRun(cfg, w, [s]) && After(cfg, w, [s]) == Do(cfg, w, s)
  {
    hide Enabled, Do;
    assert [s][1..] == [];
    assert IsRun(cfg, Do(cfg, w, s), []);
  }

  lemma AndThen(cfg: Config, w: World, a: seq<Step>, s: Step)
    requires IsRun(cfg, w, a) && Enabled(cfg, After(cfg, w, a), s)
    ensures IsRun(cfg, w, a + [s]) && After(cfg, w, a + [s]) == Do(cfg, After(cfg, w, a), s)
  {
    hide Enabled, Do;
    OneStep(cfg, After(cfg, w, a), s);
    RunThen(cfg, w, a, [s]);
  }

  /** All rows are reset. */
  lemma AllReset(cfg: Config, w: World) returns (steps: seq<Step>)
    requires w.phase[cfg.boot].Console?
    ensures IsRun(cfg, w, steps) && NeverOpens(steps)
    ensures var w' := After(cfg, w, steps);
            && w'.phase == w.phase && w'.tb.current == w.tb.current && forall j: Tid :: w'.tb.tasks[j].state == Unused
  {
    hide Enabled, Do;
    steps := [];
    var n := 0;
    while n < MAX_TASKS
      invariant n <= MAX_TASKS && IsRun(cfg, w, steps) && NeverOpens(steps)
      invariant var w' := After(cfg, w, steps);
                && w'.phase == w.phase && w'.tb.current == w.tb.current && forall j: Tid :: j < n ==> w'.tb.tasks[j].state == Unused
    {
      RowReset(cfg, After(cfg, w, steps), n);
      AndThen(cfg, w, steps, ResetRow(n, true));
      steps := steps + [ResetRow(n, true)];
      n := n + 1;
    }
  }

  lemma RowReset(cfg: Config, w: World, i: Tid)
    requires w.phase[cfg.boot].Console?
    ensures Enabled(cfg, w, ResetRow(i, true))
    ensures var w' := Do(cfg, w, ResetRow(i, true));
            && w'.phase == w.phase && w'.tb.current == w.tb.current && w'.tb.tasks[i].state == Unused
            && forall j: Tid :: j != i ==> w'.tb.tasks[j] == w.tb.tasks[j]
  {
  }

  /** A join goes stale if a secondary was between the switch and the lock: the next row that is started afresh can be taken
      by it before it is named, and then two harts run one register frame. */
  lemma JoinGoesStale(cfg: Config, w: World, h: Hart, i: Tid, f: Frame, caps: nat, satp: nat) returns (steps: seq<Step>)
    requires Inv(cfg, w) && Joined(cfg, w) && w.phase[cfg.boot].Console?
    requires h != cfg.boot && w.phase[h].Invited? && satp != cfg.kernelSatp
    ensures IsRun(cfg, w, steps) && NeverOpens(steps)
    ensures var current := After(cfg, w, steps).tb.current;
            current[h] == Some(i) && current[cfg.boot] == Some(i) && !Exclusive(current)
  {
    steps := AllReset(cfg, w);
    NothingClaimed(cfg, w);
    hide Inv, Do, Enabled, IsRun, After, Joined, Exclusive;
    var w1, tail := After(cfg, w, steps), [Install(i, f, caps, satp, true), Enter(h), StartAt(i)];
    TakenThenNamed(cfg, w1, h, i, f, caps, satp);
    RunThen(cfg, w, steps, tail);
    steps := steps + tail;
    Shared(After(cfg, w, steps).tb.current, h, cfg.boot);
  }

  lemma TakenThenNamed(cfg: Config, w: World, h: Hart, i: Tid, f: Frame, caps: nat, satp: nat)
    requires w.phase[cfg.boot].Console? && (forall j: Tid :: w.tb.tasks[j].state == Unused)
    requires h != cfg.boot && w.phase[h].Invited? && satp != cfg.kernelSatp && forall g: Hart :: w.tb.current[g] == None
    ensures var tail := [Install(i, f, caps, satp, true), Enter(h), StartAt(i)];
            && IsRun(cfg, w, tail)
            && After(cfg, w, tail).tb.current == w.tb.current[h := Some(i)][cfg.boot := Some(i)]
  {
    hide Do, Enabled, IsRun, After;
    var install := Install(i, f, caps, satp, true);
    OneInstalled(cfg, w, i, f, caps, satp);
    var w2 := Do(cfg, w, install);
    TakesTheOnly(cfg, w2, h, i);
    var w3 := Do(cfg, w2, Enter(h));
    NamedNext(cfg, w3, i);
    OneStep(cfg, w, install);
    AndThen(cfg, w, [install], Enter(h));
    AndThen(cfg, w, [install] + [Enter(h)], StartAt(i));
    assert [install] + [Enter(h)] + [StartAt(i)] == [install, Enter(h), StartAt(i)];
  }

  lemma Shared(current: Claims, g: Hart, h: Hart)
    requires g != h && current[g].Some? && current[g] == current[h]
    ensures !Exclusive(current)
  {
  }

  lemma OneInstalled(cfg: Config, w: World, i: Tid, f: Frame, caps: nat, satp: nat)
    requires w.phase[cfg.boot].Console? && forall j: Tid :: w.tb.tasks[j].state == Unused
    ensures Enabled(cfg, w, Install(i, f, caps, satp, true))
    ensures var w' := Do(cfg, w, Install(i, f, caps, satp, true));
            && w'.phase == w.phase && w'.tb.current == w.tb.current
            && w'.tb.tasks[i].state == Ready && w'.tb.tasks[i].satp == satp
            && forall j: Tid :: j != i ==> w'.tb.tasks[j].state == Unused
  {
  }

  lemma NamedNext(cfg: Config, w: World, i: Tid)
    requires w.phase[cfg.boot].Console?
    ensures Enabled(cfg, w, StartAt(i)) && Do(cfg, w, StartAt(i)).tb.current == w.tb.current[cfg.boot := Some(i)]
  {
  }

  /** A secondary that comes in takes the only task that is ready. */
  lemma TakesTheOnly(cfg: Config, w: World, h: Hart, i: Tid)
    requires w.phase[h].Invited? && (forall g: Hart :: w.tb.current[g] == None)
    requires w.tb.tasks[i].state == Ready && w.tb.tasks[i].satp != cfg.kernelSatp
    requires forall j: Tid :: j != i ==> w.tb.tasks[j].state == Unused
    ensures Enabled(cfg, w, Enter(h))
    ensures var w' := Do(cfg, w, Enter(h));
            w'.tb.current == w.tb.current[h := Some(i)] && w'.phase == w.phase[h := User(i)]
  {
    NothingExpires(w.tb);
    hide Pick, Expire, ExpireHist;
    OnlyReady(cfg, w.tb, h, i);
  }

  lemma NothingClaimed(cfg: Config, w: World)
    requires Inv(cfg, w) && Joined(cfg, w) && w.phase[cfg.boot].Console?
    ensures forall g: Hart :: w.tb.current[g] == None
  {
    hide TaskOk, Conserved;
    assert HartOk(cfg, w, cfg.boot);
  }

  lemma NothingExpires(tb: Table)
    requires forall j: Tid :: tb.tasks[j].state != Blocked
    ensures Expire(tb) == tb
  {
    assert Expire(tb).tasks == tb.tasks;
  }

  /** A search finds the only task that is ready. */
  lemma OnlyReady(cfg: Config, tb: Table, h: Hart, i: Tid)
    requires Eligible(cfg, tb, h, i) && forall j: Tid :: j != i ==> !Eligible(cfg, tb, h, j)
    ensures Pick(cfg, tb, h) == Some(i)
  {
    hide Pick, Eligible;
    if Pick(cfg, tb, h) == None {
      PickIsComplete(cfg, tb, h, i);
    }
    PickIsEligible(cfg, tb, h);
  }

  /** The answer of a join can be relied on, for as long as the switch stays off, exactly if no secondary was between the
      switch and the lock when it was given. */
  lemma JoinIsSafe(cfg: Config, w: World)
    requires Inv(cfg, w) && Joined(cfg, w) && w.phase[cfg.boot].Console?
    ensures NoneInvited(cfg, w) <==>
              forall steps :: IsRun(cfg, w, steps) && NeverOpens(steps) ==> Exclusive(After(cfg, w, steps).tb.current)
  {
    if NoneInvited(cfg, w) {
      CleanJoin(cfg, w);
      hide Inv, IsRun, After;
      forall steps | IsRun(cfg, w, steps) && NeverOpens(steps)
        ensures Exclusive(After(cfg, w, steps).tb.current)
      {
        StaysClosed(cfg, w, steps);
      }
    } else {
      hide IsRun, After;
      var h: Hart :| h != cfg.boot && w.phase[h].Invited?;
      var steps := JoinGoesStale(cfg, w, h, 0, w.tb.tasks[0].frame, 0, cfg.kernelSatp + 1);
    }
  }

  // --- The window before a run fills in its first row --------------------------------------------------

  /** A secondary can get to run the task: at once, or when a device or the clock has woken it. */
  predicate Takeable(cfg: Config, t: Task) {
    t.satp != cfg.kernelSatp && (t.state == Ready || (t.state == Blocked && (t.irqWaiting || t.recvWaiting)))
  }

  predicate NoneTakeable(cfg: Config, w: World) {
    forall i: Tid :: !Takeable(cfg, w.tb.tasks[i])
  }

  /** No secondary holds a task. */
  predicate Vacant(cfg: Config, w: World) {
    forall h: Hart :: h != cfg.boot ==> w.tb.current[h] == None
  }

  /** What can happen from turning the switch on until the console fills in a row or enters the table itself. */
  predicate Window(cfg: Config, s: Step) {
    || s.Switch? || s.Tick? || s.IrqCounted? || s.IrqWakes? || s.Invite? || s.ResetRow? || s.ReclaimRow?
    || (s.Enter? && s.h != cfg.boot)
  }

  /** A table with nothing takeable in it stays one, and no secondary finds a task in it. */
  lemma WindowStep(cfg: Config, w: World, s: Step)
    requires Vacant(cfg, w) && NoneTakeable(cfg, w) && w.phase[cfg.boot].Console? && Enabled(cfg, w, s) && Window(cfg, s)
    ensures var w' := Do(cfg, w, s);
            Vacant(cfg, w') && NoneTakeable(cfg, w') && w'.phase[cfg.boot].Console?
  {
    hide Search, WakeAll, Takeable;
    match s
    case Enter(h) => WindowSearch(cfg, w, h);
    case IrqWakes => WindowWakes(cfg, w);
    case ResetRow(i, wipeCaps) => WindowRow(cfg, w, s, i);
    case ReclaimRow(i, owned) => WindowRow(cfg, w, s, i);
    case _ =>
  }

  lemma WindowRow(cfg: Config, w: World, s: Step, i: Tid)
    requires Enabled(cfg, w, s) && (s.ResetRow? || s.ReclaimRow?) && s.i == i
    ensures var w' := Do(cfg, w, s);
            && w'.tb.current == w.tb.current && w'.phase == w.phase && !Takeable(cfg, w'.tb.tasks[i])
            && forall j: Tid :: j != i ==> w'.tb.tasks[j] == w.tb.tasks[j]
  {
  }

  lemma WindowWakes(cfg: Config, w: World)
    requires NoneTakeable(cfg, w)
    ensures WakeAll(w.tb).current == w.tb.current && forall i: Tid :: !Takeable(cfg, WakeAll(w.tb).tasks[i])
  {
    forall i: Tid
      ensures !Takeable(cfg, WakeAll(w.tb).tasks[i])
    {
      assert !Takeable(cfg, w.tb.tasks[i]);
    }
  }

  lemma WindowSearch(cfg: Config, w: World, h: Hart)
    requires NoneTakeable(cfg, w) && h != cfg.boot
    ensures var w' := Search(cfg, w, h);
            && NoneTakeable(cfg, w') && w'.tb.current == w.tb.current[h := None] && w'.phase == w.phase[h := Console]
  {
    var w1 := ExpireAll(w);
    forall i: Tid
      ensures !Takeable(cfg, w1.tb.tasks[i])
    {
      assert !Takeable(cfg, w.tb.tasks[i]);
    }
    assert w1.tb.current == w.tb.current && w1.phase == w.phase;
    hide ExpireAll;
    PickIsEligible(cfg, w1.tb, h);
    hide Pick;
  }

  // --- Orderly runs --------------------------------------------------------------------------------------

  /** What the console has done about the secondaries: `Shut` since the last clean join, `Opening` from turning the switch on
      until the first row is filled in or the boot hart enters a table that is not drained, `Open` until it is turned off,
      `Closing` until the next join. */
  datatype Mode = Shut | Opening | Open | Closing

  /** There is nothing a secondary could run, whatever the boot hart's tasks do. */
  predicate Drained(cfg: Config, w: World) {
    forall i: Tid :: w.tb.tasks[i].state == Unused || w.tb.tasks[i].state == Done || w.tb.tasks[i].satp == cfg.kernelSatp
  }

  predicate ModeOk(cfg: Config, w: World, m: Mode) {
    match m
    case Shut => Closed(cfg, w)
    case Opening => Vacant(cfg, w) && (Drained(cfg, w) || (NoneTakeable(cfg, w) && w.phase[cfg.boot].Console?))
    case _ => true
  }

  /** The discipline of the callers. The switch is turned on after a join, over a table with nothing takeable in it;
      rows are rewritten or named only after a join or before anything is filled in; joins are clean. Nothing is said
      about claims. */
  predicate Allowed(cfg: Config, w: World, m: Mode, s: Step) {
    match s
    case Switch(on) => on ==> m == Shut && NoneTakeable(cfg, w)
    case Join => NoneInvited(cfg, w)
    case ResetRow(_, _) => m == Shut || m == Opening
    case Install(i, _, _, _, clear) => if clear then m == Shut || m == Opening else w.tb.tasks[i].state == Unused
    case StartAt(i) => (m == Shut || m == Opening) && w.tb.tasks[i].state == Ready
    case _ => true
  }

  function NextMode(cfg: Config, w: World, m: Mode, s: Step): Mode {
    match s
    case Switch(on) => if on then Opening else if m == Shut then Shut else Closing
    case Join => Shut
    case Install(_, _, _, _, _) => if m == Opening then Open else m
    case Enter(h) => if m == Opening && h == cfg.boot && !Drained(cfg, w) then Open else m
    case StartAt(_) => if m == Opening && !Drained(cfg, w) then Open else m
    case _ => m
  }

  predicate Orderly(cfg: Config, w: World, m: Mode, steps: seq<Step>)
    decreases |steps|
  {
    || steps == []
    || (&& Enabled(cfg, w, steps[0]) && Allowed(cfg, w, m, steps[0])
        && Orderly(cfg, Do(cfg, w, steps[0]), NextMode(cfg, w, m, steps[0]), steps[1..]))
  }

  lemma {:induction false} OrderlyIsRun(cfg: Config, w: World, m: Mode, steps: seq<Step>)
    requires Orderly(cfg, w, m, steps)
    ensures IsRun(cfg, w, steps)
    decreases |steps|
  {
    hide Enabled, Do, Allowed;
    if steps != [] {
      OrderlyIsRun(cfg, Do(cfg, w, steps[0]), NextMode(cfg, w, m, steps[0]), steps[1..]);
    }
  }

  /** An orderly run entry hits no claimed row. */
  lemma OrderlyIsFit(cfg: Config, w: World, m: Mode, s: Step)
    requires Inv(cfg, w) && ModeOk(cfg, w, m) && Enabled(cfg, w, s) && Allowed(cfg, w, m, s)
    ensures Fit(w, s)
  {
    match s
    case ResetRow(i, _) => ClosedIsFree(cfg, w, i);
    case Install(i, _, _, _, clear) =>
      if clear {
        ClosedIsFree(cfg, w, i);
      } else {
        UnusedIsFree(cfg, w, i);
      }
    case StartAt(i) => ClosedIsFree(cfg, w, i);
    case _ =>
  }

  lemma UnusedIsFree(cfg: Config, w: World, i: Tid)
    requires Inv(cfg, w) && w.tb.tasks[i].state == Unused
    ensures Unclaimed(w, i)
  {
    hide TaskOk, Conserved;
    forall h: Hart
      ensures w.tb.current[h] != Some(i)
    {
      assert HartOk(cfg, w, h);
    }
  }

  /** A task the secondaries may not run stays one. */
  predicate OffLimits(cfg: Config, t: Task) {
    t.state == Unused || t.state == Done || t.satp == cfg.kernelSatp
  }

  /** Until the first row is filled in, a secondary that comes into a drained table finds nothing. */
  lemma DrainedStep(cfg: Config, w: World, s: Step)
    requires Inv(cfg, w) && Vacant(cfg, w) && Drained(cfg, w) && Enabled(cfg, w, s) && !s.Install?
    ensures Vacant(cfg, Do(cfg, w, s)) && Drained(cfg, Do(cfg, w, s))
  {
    hide Inv, ServeCall, Search, ExpireAll, WakeAll;
    match s
    case Dispatch(h) => OpeningSearch(cfg, w, h);
    case Enter(h) => OpeningSearch(cfg, w, h);
    case Serve(h, user) => OpeningServe(cfg, w, h, user);
    case UserRun(h, _) => OnlyBoot(cfg, w, h);
    case Ecall(h) => OnlyBoot(cfg, w, h);
    case ReadCaps(h) => OnlyBoot(cfg, w, h);
    case Timer(h) => OnlyBoot(cfg, w, h);
    case Fault(h) => OnlyBoot(cfg, w, h);
    case Recheck(_) => ExpiryKeeps(cfg, w);
    case IrqWakes => WakesKeep(cfg, w);
    case _ =>
  }

  lemma OnlyBoot(cfg: Config, w: World, h: Hart)
    requires Inv(cfg, w) && Vacant(cfg, w) && !w.phase[h].Console? && !w.phase[h].Invited?
    ensures h == cfg.boot && w.tb.current[h].Some?
  {
    hide TaskOk, Conserved;
    assert HartOk(cfg, w, h);
  }

  lemma ExpiryKeeps(cfg: Config, w: World)
    requires Drained(cfg, w)
    ensures Drained(cfg, ExpireAll(w)) && ExpireAll(w).tb.current == w.tb.current
  {
    hide ExpireHist;
    forall i: Tid
      ensures OffLimits(cfg, ExpireAll(w).tb.tasks[i])
    {
      assert OffLimits(cfg, w.tb.tasks[i]);
    }
  }

  lemma WakesKeep(cfg: Config, w: World)
    requires Drained(cfg, w)
    ensures WakeAll(w.tb).current == w.tb.current && forall i: Tid :: OffLimits(cfg, WakeAll(w.tb).tasks[i])
  {
    forall i: Tid
      ensures OffLimits(cfg, WakeAll(w.tb).tasks[i])
    {
      assert OffLimits(cfg, w.tb.tasks[i]);
    }
  }

  lemma OpeningSearch(cfg: Config, w: World, h: Hart)
    requires Inv(cfg, w) && Vacant(cfg, w) && Drained(cfg, w)
    ensures Vacant(cfg, Search(cfg, w, h)) && Drained(cfg, Search(cfg, w, h))
  {
    ExpiryKeeps(cfg, w);
    var w1 := ExpireAll(w);
    hide Inv, ExpireAll;
    SecondaryFindsNothing(cfg, w1, h);
    hide Pick;
  }

  lemma SecondaryFindsNothing(cfg: Config, w: World, h: Hart)
    requires Drained(cfg, w)
    ensures h != cfg.boot ==> Pick(cfg, w.tb, h) == None
  {
    PickIsEligible(cfg, w.tb, h);
    hide Pick;
  }

  lemma OpeningServe(cfg: Config, w: World, h: Hart, user: seq<byte>)
    requires Inv(cfg, w) && Vacant(cfg, w) && Drained(cfg, w) && w.phase[h].Serving? && |user| == 64
    ensures var w' := ServeCall(w, h, w.phase[h].task, w.phase[h].caps, user);
            Vacant(cfg, w') && Drained(cfg, w')
  {
    OnlyBoot(cfg, w, h);
    assert HartOk(cfg, w, h);
    var i := w.phase[h].task;
    assert OffLimits(cfg, w.tb.tasks[i]) && w.tb.tasks[i].satp == cfg.kernelSatp;
    hide Inv, ServeCall;
    ServeStaysHome(w, h, i, w.phase[h].caps, user);
    var w' := ServeCall(w, h, i, w.phase[h].caps, user);
    forall j: Tid
      ensures OffLimits(cfg, w'.tb.tasks[j])
    {
      assert OffLimits(cfg, w.tb.tasks[j]);
    }
  }

  lemma ModeStep(cfg: Config, w: World, m: Mode, s: Step)
    requires Inv(cfg, w) && ModeOk(cfg, w, m) && Enabled(cfg, w, s) && Allowed(cfg, w, m, s)
    ensures ModeOk(cfg, Do(cfg, w, s), NextMode(cfg, w, m, s))
  {
    if s == Join {
      CleanJoin(cfg, w);
    } else if s.Switch? {
      SwitchMode(cfg, w, m, s.on);
    } else if m == Shut {
      hide Inv, Enabled, Do, Closed;
      ClosedStep(cfg, w, s);
    } else if m == Opening && !s.Install? {
      hide Inv, Do, Vacant, Drained, NoneTakeable;
      if Drained(cfg, w) {
        hide Enabled;
        DrainedStep(cfg, w, s);
      } else {
        NobodyRuns(cfg, w, s);
        if Window(cfg, s) {
          WindowStep(cfg, w, s);
        }
      }
    }
  }

  /** With the boot hart in the console and no secondary holding a task, only the window's steps and entering are left. */
  lemma NobodyRuns(cfg: Config, w: World, s: Step)
    requires Inv(cfg, w) && Vacant(cfg, w) && w.phase[cfg.boot].Console? && Enabled(cfg, w, s)
    ensures Window(cfg, s) || s.Join? || s.Install? || s.StartAt? || s == Enter(cfg.boot)
  {
    forall h: Hart
      ensures w.phase[h].Console? || w.phase[h].Invited?
    {
      hide Enabled, Window;
      if !w.phase[h].Console? && !w.phase[h].Invited? {
        OnlyBoot(cfg, w, h);
      }
    }
    hide Inv;
  }

  lemma SwitchMode(cfg: Config, w: World, m: Mode, on: bool)
    requires ModeOk(cfg, w, m) && w.phase[cfg.boot].Console? && (on ==> m == Shut && NoneTakeable(cfg, w))
    ensures ModeOk(cfg, w.(smpOn := on), NextMode(cfg, w, m, Switch(on)))
  {
  }

  /** Every orderly run keeps the invariant, and the mode tells the truth. */
  lemma {:induction false} RunKeeps(cfg: Config, w: World, m: Mode, steps: seq<Step>)
    requires Inv(cfg, w) && ModeOk(cfg, w, m) && Orderly(cfg, w, m, steps)
    ensures IsRun(cfg, w, steps) && Inv(cfg, After(cfg, w, steps))
    decreases |steps|
  {
    hide Inv, Enabled, Do, ModeOk, Allowed, Fit, NextMode;
    if steps != [] {
      OrderlyIsFit(cfg, w, m, steps[0]);
      StepKeeps(cfg, w, steps[0]);
      ModeStep(cfg, w, m, steps[0]);
      RunKeeps(cfg, Do(cfg, w, steps[0]), NextMode(cfg, w, m, steps[0]), steps[1..]);
    }
  }
}

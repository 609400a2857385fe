/** When the switch may be turned on, exactly, and how a stale join comes about. */
module SchedOpening {
  import opened Bytes
  import opened SchedTable
  import opened SchedSteps
  import opened SchedSafety
  import opened SchedJoin

  predicate InWindow(cfg: Config, steps: seq<Step>) {
    forall k :: 0 <= k < |steps| ==> Window(cfg, steps[k])
  }

  lemma InWindowThen(cfg: Config, a: seq<Step>, b: seq<Step>)
    requires InWindow(cfg, a) && InWindow(cfg, b)
    ensures InWindow(cfg, a + b)
  {
    hide Window;
  }

  // --- Nothing takeable: safe ---------------------------------------------------------------------------

  /** Whatever happens in the window, no secondary comes by a task and the invariant is kept. */
  lemma {:induction false} WindowKeeps(cfg: Config, w: World, steps: seq<Step>)
    requires Inv(cfg, w) && Vacant(cfg, w) && NoneTakeable(cfg, w) && w.phase[cfg.boot].Console?
    requires IsRun(cfg, w, steps) && InWindow(cfg, steps)
    ensures Inv(cfg, After(cfg, w, steps)) && Vacant(cfg, After(cfg, w, steps)) && NoneTakeable(cfg, After(cfg, w, steps))
    decreases |steps|
  {
    hide Inv, Enabled, Do, Vacant, NoneTakeable, Fit, Window;
    if steps != [] {
      var s := steps[0];
      assert Window(cfg, s);
      WindowIsFit(cfg, w, s);
      StepKeeps(cfg, w, s);
      WindowStep(cfg, w, s);
      assert forall k :: 0 <= k < |steps[1..]| ==> steps[1..][k] == steps[k + 1];
      WindowKeeps(cfg, Do(cfg, w, s), steps[1..]);
    }
  }

  lemma WindowIsFit(cfg: Config, w: World, s: Step)
    requires Inv(cfg, w) && Vacant(cfg, w) && w.phase[cfg.boot].Console? && Window(cfg, s)
    ensures Fit(w, s)
  {
    if s.ResetRow? {
      ClosedIsFree(cfg, w, s.i);
    }
    hide Inv;
  }

  // --- Something takeable: not ----------------------------------------------------------------------------

  /** The task is woken as soon as a search looks for passed deadlines. */
  predicate Awake(w: World, i: Tid) {
    ExpireTask(w.tb.tasks[i], w.tb.ticks).state == Ready
  }

  /** The table and the harts are as before, but for the clock and what interrupts woke. */
  predicate Same(w: World, w': World, i: Tid) {
    && w'.tb.current == w.tb.current && w'.phase == w.phase && w'.smpOn == w.smpOn
    && w'.tb.tasks[i].satp == w.tb.tasks[i].satp
  }

  lemma WakesUp(cfg: Config, w: World, i: Tid) returns (steps: seq<Step>)
    requires Takeable(cfg, w.tb.tasks[i])
    ensures IsRun(cfg, w, steps) && InWindow(cfg, steps)
    ensures Same(w, After(cfg, w, steps), i) && Awake(After(cfg, w, steps), i)
  {
    var t := w.tb.tasks[i];
    if t.state == Ready {
      steps := [];
    } else if t.irqWaiting {
      var w1 := Do(cfg, w, IrqCounted);
      var w2 := Do(cfg, w1, IrqWakes);
      assert w2.tb.tasks[i] == WakeTask(t);
      OneStep(cfg, w, IrqCounted);
      AndThen(cfg, w, [IrqCounted], IrqWakes);
      steps := [IrqCounted] + [IrqWakes];
    } else {
      var n := if t.deadline <= w.tb.ticks then 0 else t.deadline - w.tb.ticks;
      steps := TimePasses(cfg, w, n);
    }
  }

  lemma TimePasses(cfg: Config, w: World, n: nat) returns (steps: seq<Step>)
    ensures IsRun(cfg, w, steps) && InWindow(cfg, steps) && After(cfg, w, steps) == w.(tb := w.tb.(ticks := w.tb.ticks + n))
  {
    steps := [];
    var k := 0;
    while k < n
      invariant k <= n && IsRun(cfg, w, steps) && InWindow(cfg, steps)
      invariant After(cfg, w, steps) == w.(tb := w.tb.(ticks := w.tb.ticks + k))
    {
      AndThen(cfg, w, steps, Tick);
      InWindowThen(cfg, steps, [Tick]);
      steps := steps + [Tick];
      k := k + 1;
    }
  }

  /** A secondary comes in and takes a task, though not necessarily this one. */
  lemma SecondaryTakes(cfg: Config, w: World, h: Hart, i: Tid) returns (steps: seq<Step>, j: Tid)
    requires Inv(cfg, w) && Closed(cfg, w) && w.phase[cfg.boot].Console? && h != cfg.boot && Takeable(cfg, w.tb.tasks[i])
    ensures IsRun(cfg, w, steps) && InWindow(cfg, steps)
    ensures var w' := After(cfg, w, steps);
            w'.tb.current[h] == Some(j) && w'.phase[h] == User(j) && w'.phase[cfg.boot].Console?
  {
    NothingClaimed(cfg, w);
    hide Inv;
    var w1 := Do(cfg, w, Switch(true));
    OneStep(cfg, w, Switch(true));
    var wake := WakesUp(cfg, w1, i);
    hide Awake, IsRun, After;
    var w2 := After(cfg, w1, wake);
    RunThen(cfg, w, [Switch(true)], wake);
    j := ComesIn(cfg, w2, h, i);
    hide Do, Enabled, Closed;
    AndThen(cfg, w, [Switch(true)] + wake, Invite(h));
    AndThen(cfg, w, [Switch(true)] + wake + [Invite(h)], Enter(h));
    InWindowThen(cfg, [Switch(true)], wake);
    InWindowThen(cfg, [Switch(true)] + wake, [Invite(h)]);
    InWindowThen(cfg, [Switch(true)] + wake + [Invite(h)], [Enter(h)]);
    steps := [Switch(true)] + wake + [Invite(h)] + [Enter(h)];
  }

  lemma ComesIn(cfg: Config, w: World, h: Hart, i: Tid) returns (j: Tid)
    requires h != cfg.boot && w.phase[h].Console? && w.smpOn && forall g: Hart :: w.tb.current[g] == None
    requires Awake(w, i) && w.tb.tasks[i].satp != cfg.kernelSatp
    ensures Enabled(cfg, w, Invite(h)) && Enabled(cfg, Do(cfg, w, Invite(h)), Enter(h))
    ensures var w' := Do(cfg, Do(cfg, w, Invite(h)), Enter(h));
            w'.tb.current[h] == Some(j) && w'.phase == w.phase[h := User(j)]
  {
    var w1 := Do(cfg, w, Invite(h));
    var tb := Expire(w1.tb);
    assert Eligible(cfg, tb, h, i);
    hide Pick, Expire, ExpireHist, Eligible;
    if Pick(cfg, tb, h) == None {
      PickIsComplete(cfg, tb, h, i);
    }
    j := Pick(cfg, tb, h).value;
  }

  /** If the switch is turned on over a table with a takeable task in it, the reset that a run entry begins with can wipe a
      row from under the hart that runs it. */
  lemma OpeningTooSoon(cfg: Config, w: World, h: Hart, i: Tid) returns (steps: seq<Step>, j: Tid)
    requires Inv(cfg, w) && Closed(cfg, w) && w.phase[cfg.boot].Console? && h != cfg.boot && Takeable(cfg, w.tb.tasks[i])
    ensures IsRun(cfg, w, steps) && InWindow(cfg, steps)
    ensures var w' := After(cfg, w, steps);
            && w'.tb.current[h] == Some(j) && w'.phase[h] == User(j) && w'.tb.tasks[j].state == Unused
            && !Vacant(cfg, w') && !Inv(cfg, w')
  {
    hide Inv, Do, Enabled, IsRun, After, Closed, InWindow;
    var take;
    take, j := SecondaryTakes(cfg, w, h, i);
    var w1 := After(cfg, w, take);
    RowReset(cfg, w1, j);
    AndThen(cfg, w, take, ResetRow(j, true));
    JustReset(cfg, j);
    InWindowThen(cfg, take, [ResetRow(j, true)]);
    steps := take + [ResetRow(j, true)];
    WipedIsWrong(cfg, After(cfg, w, steps), h, j);
  }

  lemma JustReset(cfg: Config, j: Tid)
    ensures InWindow(cfg, [ResetRow(j, true)])
  {
  }

  lemma WipedIsWrong(cfg: Config, w: World, h: Hart, j: Tid)
    requires w.tb.current[h] == Some(j) && w.tb.tasks[j].state == Unused
    ensures !Inv(cfg, w)
  {
    hide TaskOk, Conserved;
    assert !HartOk(cfg, w, h);
  }

  // --- The exact condition -----------------------------------------------------------------------------

  lemma Secondary(cfg: Config) returns (h: Hart)
    ensures h != cfg.boot
  {
    h := if cfg.boot == 0 then 1 else 0;
  }

  /** After a clean join the switch can be turned on, and rows be reset, with no secondary coming by a task, exactly if no
      task is takeable. */
  lemma OpeningIsSafe(cfg: Config, w: World)
    requires Inv(cfg, w) && Closed(cfg, w) && w.phase[cfg.boot].Console?
    ensures NoneTakeable(cfg, w) <==>
              forall steps :: IsRun(cfg, w, steps) && InWindow(cfg, steps) ==> Vacant(cfg, After(cfg, w, steps))
    ensures NoneTakeable(cfg, w) <==>
              forall steps :: IsRun(cfg, w, steps) && InWindow(cfg, steps) ==> Inv(cfg, After(cfg, w, steps))
  {
    assert Vacant(cfg, w);
    hide Inv, IsRun, After, InWindow, Vacant, Closed, Takeable;
    if NoneTakeable(cfg, w) {
      forall steps | IsRun(cfg, w, steps) && InWindow(cfg, steps)
        ensures Vacant(cfg, After(cfg, w, steps)) && Inv(cfg, After(cfg, w, steps))
      {
        WindowKeeps(cfg, w, steps);
      }
    } else {
      var i: Tid :| Takeable(cfg, w.tb.tasks[i]);
      var h := Secondary(cfg);
      var steps, j := OpeningTooSoon(cfg, w, h, i);
    }
  }

  // --- How a stale join comes about ----------------------------------------------------------------------

  /** From an idle machine: the switch is turned on and off again, with a secondary in between. The join is answered, and the
      next row that is started afresh ends up with two harts in it. */
  lemma StaleFromIdle(cfg: Config, w: World, h: Hart, i: Tid, f: Frame, caps: nat, satp: nat) returns (on: seq<Step>, steps: seq<Step>)
    requires cfg.kernelSatp != 0 && Idle(w) && h != cfg.boot && satp != cfg.kernelSatp
    ensures IsRun(cfg, w, on) && Joined(cfg, After(cfg, w, on)) && Inv(cfg, After(cfg, w, on))
    ensures IsRun(cfg, After(cfg, w, on), steps) && NeverOpens(steps)
    ensures !Exclusive(After(cfg, After(cfg, w, on), steps).tb.current)
  {
    IdleIsSafe(cfg, w);
    var w1 := Do(cfg, w, Switch(true));
    var w2 := Do(cfg, w1, Invite(h));
    var w3 := Do(cfg, w2, Switch(false));
    OneStep(cfg, w, Switch(true));
    AndThen(cfg, w, [Switch(true)], Invite(h));
    AndThen(cfg, w, [Switch(true)] + [Invite(h)], Switch(false));
    on := [Switch(true)] + [Invite(h)] + [Switch(false)];
    assert Joined(cfg, w3) && w3.phase[cfg.boot].Console? && w3.phase[h].Invited?;
    hide Inv, Idle, IsRun, After, Exclusive, NeverOpens;
    StepKeeps(cfg, w, Switch(true));
    StepKeeps(cfg, w1, Invite(h));
    StepKeeps(cfg, w2, Switch(false));
    hide Do, Enabled;
    steps := JoinGoesStale(cfg, w3, h, i, f, caps, satp);
  }
}

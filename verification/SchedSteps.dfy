/** The scheduler as a state machine: every critical section of every hart is one step, and harts interleave freely. */
module SchedSteps {
  import opened Bytes
  import opened Bits
  import opened SchedTable

  /** Where a hart is. Only `Console` and `Invited` are outside the scheduler; an invited secondary has seen
      the switch that lets it in, but has not taken the lock yet. */
  datatype Phase =
    | Console
    | Invited
    | User(task: Tid)
    | Trapped(task: Tid)
    | Serving(task: Tid, caps: nat)
    | Resched

  /** A system call from its first `ecall` until it returns. `frame` is the frame the `ecall` trapped with; `advanced` tells
      whether the saved program counter is currently past it, `since` when it was parked last, and `armed` the deadline
      that was in force when it was. */
  datatype Call = Call(frame: Frame, advanced: bool, since: nat, armed: Option<nat>)

  /** How long a call was parked that timed out, and against which deadline. */
  datatype Wait = Wait(since: nat, armed: Option<nat>, now: nat)

  /** A call that returned, and the program counter it returned to; if it was parked and timed out, its wait. */
  datatype Return = Return(call: Frame, pc: nat, timedOut: Option<Wait>)

  /** A message that was accepted, and the capabilities its sender held at that moment. */
  datatype Sent = Sent(msg: Message, held: nat)

  /** What happened to a task since it was started. */
  datatype History = History(call: Option<Call>, returned: seq<Return>, accepted: seq<Sent>, received: seq<Message>)

  type Histories = s: seq<History> | |s| == MAX_TASKS witness seq(MAX_TASKS, _ => History(None, [], [], []))
  type Phases = s: seq<Phase> | |s| == MAX_HARTS witness seq(MAX_HARTS, _ => Console)

  /** `wakesDue` counts device interrupts that were counted but whose wakeup has not run yet; `origin` is the union of the
      capability sets tasks were started with; `dropped` counts messages lost when mailboxes were cleared. */
  datatype World = World(tb: Table, hist: Histories, phase: Phases, wakesDue: nat, smpOn: bool, origin: nat, dropped: nat)

  datatype Step =
    | UserRun(h: Hart, frame: Frame)
    | Ecall(h: Hart)
    | ReadCaps(h: Hart)
    | Serve(h: Hart, user: seq<byte>)
    | Timer(h: Hart)
    | Fault(h: Hart)
    | Tick
    | IrqCounted
    | IrqWakes
    | Recheck(h: Hart)
    | Dispatch(h: Hart)
    | Invite(h: Hart)
    | Enter(h: Hart)
    | Switch(on: bool)
    | Join
    | ResetRow(i: Tid, wipeCaps: bool)
    | ReclaimRow(i: Tid, owned: bool)
    | Install(i: Tid, frame: Frame, caps: nat, satp: nat, clear: bool)
    | StartAt(i: Tid)

  // --- Helpers --------------------------------------------------------------------------

  function SetTask(w: World, i: Tid, t: Task): World {
    w.(tb := w.tb.(tasks := w.tb.tasks[i := t]))
  }

  function SetPhase(w: World, h: Hart, p: Phase): World {
    w.(phase := w.phase[h := p])
  }

  function SetHist(w: World, i: Tid, x: History): World {
    w.(hist := w.hist[i := x])
  }

  /** The outstanding call is over, with the task's program counter at `pc`. */
  function Ended(x: History, pc: nat): History {
    match x.call
    case None => x
    case Some(c) => x.(call := None, returned := x.returned + [Return(c.frame, pc, None)])
  }

  function Expired(x: History, pc: nat, now: nat): History {
    match x.call
    case None => x
    case Some(c) => x.(call := None, returned := x.returned + [Return(c.frame, pc, Some(Wait(c.since, c.armed, now)))])
  }

  function Rewound(x: History, now: nat, armed: Option<nat>): History {
    match x.call
    case None => x
    case Some(c) => x.(call := Some(c.(advanced := false, since := now, armed := armed)))
  }

  /** The deadline the task's flags keep it to. */
  function Armed(t: Task): Option<nat> {
    if t.recvWaiting then Some(t.deadline) else None
  }

  /** A receive that starts to wait at `now` waits until this tick. */
  function Deadline(now: nat, timeout: nat): nat {
    if now + timeout > USIZE_MAX then USIZE_MAX else now + timeout
  }

  /** The call returns to user mode with the task as `t`. */
  function Resume(w: World, h: Hart, i: Tid, t: Task, x: History): World {
    SetPhase(SetHist(SetTask(w, i, t), i, Ended(x, t.frame.pc)), h, User(i))
  }

  /** The call is parked: the program counter is rewound, so that the `ecall` runs again. */
  function ParkTask(t: Task): Task {
    t.(frame := t.frame.(pc := if t.frame.pc >= 4 then t.frame.pc - 4 else 0), state := Blocked)
  }

  function Park(w: World, h: Hart, i: Tid, t: Task): World {
    SetPhase(SetHist(SetTask(w, i, ParkTask(t)), i, Rewound(w.hist[i], w.tb.ticks, Armed(t))), h, Resched)
  }

  function Returning(t: Task, a0: nat): Task {
    t.(frame := t.frame.(a0 := a0))
  }

  /** Results of the calls that touch no table. */
  function PlainResult(f: Frame, caps: nat, ticks: nat): nat {
    if f.a7 == SYS_PRINT then if And(caps, TASK_PRINT) != 0 then 0 else SYS_DENIED
    else if f.a7 == SYS_UPTIME then if And(caps, TASK_TIME) != 0 then ticks else SYS_DENIED
    else if f.a7 == SYS_NULL then f.a0
    else if f.a7 == SYS_REPORT || f.a7 == SYS_PRINTNUM then 0
    else SYS_DENIED
  }

  // --- System calls -----------------------------------------------------------------------

  function ServeSend(w: World, h: Hart, i: Tid, caps: nat, user: seq<byte>): World
    requires |user| == 64
  {
    var f := w.tb.tasks[i].frame;
    if SendRefused(w.tb.tasks, f, caps).Some? then Resume(w, h, i, Returning(w.tb.tasks[i], SYS_DENIED), w.hist[i])
    else
      var to: Tid, m := f.a0, MessageOf(i, f, caps, user);
      var w1 := SetTask(w.(tb := w.tb.(sends := w.tb.sends + 1)), to, Enqueue(w.tb.tasks[to], m));
      var w2 := SetHist(w1, to, w1.hist[to].(accepted := w1.hist[to].accepted + [Sent(m, w.tb.tasks[i].caps)]));
      Resume(w2, h, i, Returning(w2.tb.tasks[i], 0), w2.hist[i])
  }

  /** The task's oldest message is delivered and its receive call returns. */
  function Deliver(w: World, h: Hart, i: Tid): World
    requires w.tb.tasks[i].mbox != []
  {
    var t, x := w.tb.tasks[i], w.hist[i];
    Resume(w.(tb := w.tb.(receives := w.tb.receives + 1)), h, i, Receive(t), x.(received := x.received + [t.mbox[0]]))
  }

  function ServeRecv(w: World, h: Hart, i: Tid, caps: nat): World {
    var t := w.tb.tasks[i];
    if And(caps, TASK_IPC) == 0 then Resume(w, h, i, Returning(t, SYS_DENIED), w.hist[i])
    else if t.mbox != [] then Deliver(w, h, i)
    else Park(w, h, i, t)
  }

  function ServeRecvTimeout(w: World, h: Hart, i: Tid, caps: nat): World {
    var t := w.tb.tasks[i];
    if And(caps, TASK_IPC) == 0 then Resume(w, h, i, Returning(t, SYS_DENIED), w.hist[i])
    else if t.mbox != [] then Deliver(w, h, i)
    else if t.frame.a2 == 0 then Resume(w, h, i, t.(frame := TimedOut(t.frame)), w.hist[i])
    else
      Park(w, h, i, t.(recvWaiting := true, deadline := Deadline(w.tb.ticks, t.frame.a2)))
  }

  function ServeIrqWait(w: World, h: Hart, i: Tid): World {
    var t := w.tb.tasks[i];
    if w.tb.extIrqs != t.frame.a0 then Resume(w, h, i, Returning(t, w.tb.extIrqs), w.hist[i])
    else Park(w, h, i, t.(irqWaiting := true))
  }

  function ServeCall(w: World, h: Hart, i: Tid, caps: nat, user: seq<byte>): World
    requires |user| == 64
  {
    var t := w.tb.tasks[i];
    var number := t.frame.a7;
    if number == SYS_YIELD then SetPhase(SetHist(SetTask(w, i, t.(state := Ready)), i, Ended(w.hist[i], t.frame.pc)), h, Resched)
    else if number == SYS_EXIT then
      SetPhase(SetHist(SetTask(w, i, t.(state := Done)), i, w.hist[i].(call := None)), h, Resched)
    else if number == SYS_SEND then ServeSend(w, h, i, caps, user)
    else if number == SYS_RECV then ServeRecv(w, h, i, caps)
    else if number == SYS_RECV_TIMEOUT then ServeRecvTimeout(w, h, i, caps)
    else if number == SYS_IRQ_WAIT then ServeIrqWait(w, h, i)
    else Resume(w, h, i, Returning(t, PlainResult(t.frame, caps, w.tb.ticks)), w.hist[i])
  }

  /** Entering a call, or entering a parked one again. */
  function Entered(x: History, f: Frame): History {
    match x.call
    case None => x.(call := Some(Call(f, true, 0, None)))
    case Some(c) => x.(call := Some(c.(advanced := true)))
  }

  // --- Timeouts ------------------------------------------------------------------------------

  function ExpireHist(t: Task, x: History, now: nat): History {
    var t' := ExpireTask(t, now);
    if t'.frame != t.frame then Expired(x, t'.frame.pc, now) else x
  }

  /** The scan for passed deadlines that every search for a task begins with. */
  function ExpireAll(w: World): World {
    w.(tb := Expire(w.tb),
       hist := seq(MAX_TASKS, i requires 0 <= i < MAX_TASKS => ExpireHist(w.tb.tasks[i], w.hist[i], w.tb.ticks)))
  }

  /** Looking for a task to run: claim it and enter user mode, or leave the scheduler. */
  function Search(cfg: Config, w: World, h: Hart): World {
    var w1 := ExpireAll(w);
    match Pick(cfg, w1.tb, h)
    case Some(i) => SetPhase(w1.(tb := Claim(w1.tb, h, i)), h, User(i))
    case None => SetPhase(w1.(tb := w1.tb.(current := w1.tb.current[h := None])), h, Console)
  }

  // --- Run entries ---------------------------------------------------------------------------

  predicate Unclaimed(w: World, i: Tid) {
    forall h: Hart :: w.tb.current[h] != Some(i)
  }

  /** The answer `join_secondaries` waits for: the switch is off and no secondary holds a task. */
  predicate Joined(cfg: Config, w: World) {
    !w.smpOn && forall h: Hart :: h != cfg.boot ==> w.tb.current[h].None?
  }

  function ClearMailbox(t: Task): Task {
    t.(mbox := [], recvWaiting := false, deadline := 0)
  }

  function Cleared(w: World, i: Tid, t: Task): World {
    SetHist(SetTask(w, i, t), i, History(None, [], [], [])).(dropped := w.dropped + |w.tb.tasks[i].mbox|)
  }

  // --- Steps ------------------------------------------------------------------------------------

  /** What the code looks at before it takes the step. The run entries do not look at the claims of other harts. */
  predicate Enabled(cfg: Config, w: World, s: Step) {
    match s
    case UserRun(h, f) => w.phase[h].User? && w.hist[w.phase[h].task].call.None? && f.hart == w.tb.tasks[w.phase[h].task].frame.hart
    case Ecall(h) => w.phase[h].User?
    case ReadCaps(h) => w.phase[h].Trapped?
    case Serve(h, user) => w.phase[h].Serving? && |user| == 64
    case Timer(h) => w.phase[h].User?
    case Fault(h) => w.phase[h].User?
    case Tick => true
    case IrqCounted => true
    case IrqWakes => w.wakesDue > 0
    case Recheck(h) => w.phase[h].Resched? && h == cfg.boot
    case Dispatch(h) => w.phase[h].Resched?
    case Invite(h) => w.phase[h].Console? && h != cfg.boot && w.smpOn
    case Enter(h) => (w.phase[h].Console? && h == cfg.boot) || w.phase[h].Invited?
    case Switch(_) => w.phase[cfg.boot].Console?
    case Join => w.phase[cfg.boot].Console? && Joined(cfg, w)
    case ResetRow(i, _) => w.phase[cfg.boot].Console?
    case ReclaimRow(i, _) => w.phase[cfg.boot].Console? && w.tb.tasks[i].state == Done
    case Install(i, _, _, _, _) => w.phase[cfg.boot].Console?
    case StartAt(i) => w.phase[cfg.boot].Console?
  }

  function Do(cfg: Config, w: World, s: Step): World
    requires Enabled(cfg, w, s)
  {
    match s
    case UserRun(h, f) =>
      var i := w.phase[h].task;
      SetTask(w, i, w.tb.tasks[i].(frame := f))
    case Ecall(h) =>
      var i := w.phase[h].task;
      var t := w.tb.tasks[i];
      SetPhase(SetHist(SetTask(w, i, t.(frame := t.frame.(pc := t.frame.pc + 4))), i, Entered(w.hist[i], t.frame)), h, Trapped(i))
    case ReadCaps(h) => SetPhase(w, h, Serving(w.phase[h].task, w.tb.tasks[w.phase[h].task].caps))
    case Serve(h, user) => ServeCall(w, h, w.phase[h].task, w.phase[h].caps, user)
    case Timer(h) => SetPhase(w.(tb := w.tb.(ticks := w.tb.ticks + 1)), h, Resched)
    case Fault(h) =>
      var i := w.phase[h].task;
      SetPhase(SetHist(SetTask(w, i, w.tb.tasks[i].(state := Done)), i, w.hist[i].(call := None)), h, Resched)
    case Tick => w.(tb := w.tb.(ticks := w.tb.ticks + 1))
    case IrqCounted => w.(tb := w.tb.(extIrqs := w.tb.extIrqs + 1), wakesDue := w.wakesDue + 1)
    case IrqWakes => w.(tb := WakeAll(w.tb), wakesDue := w.wakesDue - 1)
    case Recheck(_) => ExpireAll(w)
    case Dispatch(h) => Search(cfg, w, h)
    case Invite(h) => SetPhase(w, h, Invited)
    case Enter(h) => Search(cfg, w, h)
    case Switch(on) => w.(smpOn := on)
    case Join => w
    case ResetRow(i, wipeCaps) =>
      var t := ClearMailbox(w.tb.tasks[i]).(state := Unused, satp := 0);
      Cleared(w, i, if wipeCaps then t.(caps := 0) else t)
    case ReclaimRow(i, owned) =>
      if owned then Cleared(w, i, ClearMailbox(w.tb.tasks[i]).(satp := 0, caps := 0))
      else SetTask(w, i, w.tb.tasks[i].(satp := 0))
    case Install(i, f, caps, satp, clear) =>
      var t := w.tb.tasks[i];
      var t' := (if clear then ClearMailbox(t) else t).(state := Ready, frame := f.(hart := 0), caps := caps, satp := satp);
      var w' := if clear then Cleared(w, i, t') else SetHist(SetTask(w, i, t'), i, w.hist[i].(call := None, returned := []));
      w'.(origin := Or(w.origin, caps))
    case StartAt(i) => SetPhase(w.(tb := Claim(w.tb, cfg.boot, i)), cfg.boot, User(i))
  }

  /** A run: every step is enabled where it is taken. */
  predicate IsRun(cfg: Config, w: World, steps: seq<Step>)
    decreases |steps|
  {
    steps == [] || (Enabled(cfg, w, steps[0]) && IsRun(cfg, Do(cfg, w, steps[0]), steps[1..]))
  }

  function After(cfg: Config, w: World, steps: seq<Step>): World
    requires IsRun(cfg, w, steps)
    decreases |steps|
  {
    if steps == [] then w else After(cfg, Do(cfg, w, steps[0]), steps[1..])
  }

  /** Nothing is running, nothing is queued and the switch is off; whatever else the tables hold. */
  predicate Idle(w: World) {
    && (forall h: Hart :: w.phase[h] == Console && w.tb.current[h] == None)
    && (forall i: Tid :: w.tb.tasks[i].state == Unused && w.tb.tasks[i].mbox == [] && w.hist[i] == History(None, [], [], []))
    && w.tb.sends == w.tb.receives + w.dropped && w.wakesDue == 0 && !w.smpOn
  }
}

/** The scheduler's code: tables updated in place, mailboxes as rings, scans as loops. Every method that stands for
    a critical section takes the machine of `SchedSteps` through the corresponding step. */
module Scheduler {
  import opened Bytes
  import opened Bits
  import opened SchedTable
  import opened SchedSteps
  import opened SchedSafety

  const EMPTY_MESSAGE: Message := Message(0, 0, 0, 0, [])

  datatype Ring = Ring(head: nat, tail: nat, count: nat, slots: seq<Message>)
  {
    predicate Ok() {
      head < MAILBOX_DEPTH && count <= MAILBOX_DEPTH && |slots| == MAILBOX_DEPTH && tail == (head + count) % MAILBOX_DEPTH
    }

    /** The queued messages, oldest first. */
    function Contents(): (ms: seq<Message>)
      requires Ok()
      ensures |ms| == count
    {
      seq(count, k requires 0 <= k < count => slots[(head + k) % MAILBOX_DEPTH])
    }

    function Pushed(m: Message): (r: Ring)
      requires Ok() && count < MAILBOX_DEPTH
    {
      Ring(head, (tail + 1) % MAILBOX_DEPTH, count + 1, slots[tail := m])
    }

    function Popped(): (r: Ring)
      requires Ok() && count > 0
    {
      Ring((head + 1) % MAILBOX_DEPTH, tail, count - 1, slots[head := EMPTY_MESSAGE])
    }
  }

  lemma RingPushes(r: Ring, m: Message)
    requires r.Ok() && r.count < MAILBOX_DEPTH
    ensures r.Pushed(m).Ok() && r.Pushed(m).Contents() == r.Contents() + [m]
  {
  }

  lemma RingPops(r: Ring)
    requires r.Ok() && r.count > 0
    ensures r.slots[r.head] == r.Contents()[0]
    ensures r.Popped().Ok() && r.Popped().Contents() == r.Contents()[1..]
  {
    assert (r.head + 0) % MAILBOX_DEPTH == r.head;
  }

  const EMPTY_RING: Ring := Ring(0, 0, 0, [EMPTY_MESSAGE, EMPTY_MESSAGE, EMPTY_MESSAGE, EMPTY_MESSAGE])

  datatype Row = Row(state: TaskState, frame: Frame, caps: nat, satp: nat, ring: Ring,
                     recvWaiting: bool, deadline: nat, irqWaiting: bool)

  const EMPTY_ROW: Row := Row(Unused, Frame(0, 0, 0, 0, 0, 0, 0, 0), 0, 0, EMPTY_RING, false, 0, false)

  function TaskOf(r: Row): Task
    requires r.ring.Ok()
  {
    Task(r.state, r.frame, r.caps, r.satp, r.ring.Contents(), r.recvWaiting, r.deadline, r.irqWaiting)
  }

  /** Tasks parked on a device. */
  function Waiting(tasks: seq<Task>, n: nat): nat
    requires n <= |tasks|
  {
    if n == 0 then 0 else Waiting(tasks, n - 1) + if tasks[n - 1].irqWaiting then 1 else 0
  }

  lemma NoClaimYet(cfg: Config, w: World, h: Hart)
    requires Inv(cfg, w) && Enabled(cfg, w, Enter(h))
    ensures w.tb.current[h] == None
  {
    assert HartOk(cfg, w, h);
  }

  /** A send that goes through, on the tables. */
  function Posted(tb: Table, to: Tid, m: Message, i: Tid): Table {
    var tasks := tb.tasks[to := Enqueue(tb.tasks[to], m)];
    tb.(tasks := tasks[i := Returning(tasks[i], 0)], sends := tb.sends + 1)
  }

  lemma SendTables(w: World, h: Hart, i: Tid, caps: nat, user: seq<byte>)
    requires |user| == 64
    ensures var f := w.tb.tasks[i].frame;
            ServeSend(w, h, i, caps, user).tb ==
            if SendRefused(w.tb.tasks, f, caps).Some? then w.tb.(tasks := w.tb.tasks[i := Returning(w.tb.tasks[i], SYS_DENIED)])
            else Posted(w.tb, f.a0, MessageOf(i, f, caps, user), i)
  {
    hide Enqueue, And;
  }

  /** A search, on the tables. */
  function Searched(cfg: Config, tb: Table, h: Hart): Table {
    var tb1 := Expire(tb);
    match Pick(cfg, tb1, h)
    case Some(i) => Claim(tb1, h, i)
    case None => tb1.(current := tb1.current[h := None])
  }

  lemma SearchStep(cfg: Config, w: World, s: Step)
    requires Inv(cfg, w) && Enabled(cfg, w, s) && (s.Dispatch? || s.Enter?)
    ensures Inv(cfg, Do(cfg, w, s)) && Do(cfg, w, s).tb == Searched(cfg, w.tb, s.h)
  {
    hide Inv, Expire, Claim, Pick;
    StepKeeps(cfg, w, s);
  }

  class Tables {
    const cfg: Config
    const rows: array<Row>
    const current: array<Option<Tid>>
    var ticks: nat
    var extIrqs: nat
    var sends: nat
    var receives: nat
    ghost var world: World

    ghost predicate Ok()
      reads this, rows, current
    {
      && rows.Length == MAX_TASKS && current.Length == MAX_HARTS
      && forall i :: 0 <= i < MAX_TASKS ==> rows[i].ring.Ok()
    }

    ghost function Abs(): Table
      requires Ok()
      reads this, rows, current
    {
      Table(seq(MAX_TASKS, i requires 0 <= i < MAX_TASKS reads this, rows, current requires Ok() => TaskOf(rows[i])),
            current[..], ticks, extIrqs, sends, receives)
    }

    /** The tables are those of the machine, and the machine is in a state its runs keep to. */
    ghost predicate Valid()
      reads this, rows, current
    {
      Ok() && Abs() == world.tb && Inv(cfg, world)
    }

    /** The tables at boot. */
    constructor (cfg: Config)
      requires cfg.kernelSatp != 0
      ensures Valid() && this.cfg == cfg && Idle(world) && fresh(rows) && fresh(current)
    {
      this.cfg := cfg;
      rows := new Row[MAX_TASKS](_ => EMPTY_ROW);
      current := new Option<Tid>[MAX_HARTS](_ => None);
      ticks, extIrqs, sends, receives := 0, 0, 0, 0;
      new;
      var none: Histories := seq(MAX_TASKS, _ => History(None, [], [], []));
      world := World(Abs(), none, seq(MAX_HARTS, _ => Console), 0, false, 0, 0);
      IdleIsSafe(cfg, world);
    }

    method SetRow(i: Tid, r: Row)
      requires Ok() && r.ring.Ok()
      modifies rows
      ensures Ok() && Abs() == old(Abs()).(tasks := old(Abs()).tasks[i := TaskOf(r)]) && rows[i] == r
    {
      rows[i] := r;
      assert Abs().tasks == old(Abs()).tasks[i := TaskOf(r)];
    }

    method SetClaim(h: Hart, c: Option<Tid>)
      requires Ok()
      modifies current
      ensures Ok() && Abs() == old(Abs()).(current := old(Abs()).current[h := c]) && current[h] == c
    {
      current[h] := c;
      assert current[..] == old(current[..])[h := c];
      assert Abs().tasks == old(Abs()).tasks;
    }

    /** Claim a task and stamp its frame. */
    method ClaimRow(h: Hart, i: Tid)
      requires Ok()
      modifies rows, current
      ensures Ok() && Abs() == Claim(old(Abs()), h, i) && current[h] == Some(i)
    {
      hide Ring.Contents, Ring.Ok;
      SetClaim(h, Some(i));
      SetRow(i, rows[i].(frame := rows[i].frame.(hart := h)));
    }

    // --- Scans ------------------------------------------------------------------------

    method IsClaimedElsewhere(h: Hart, i: Tid) returns (b: bool)
      requires Ok()
      ensures b == ClaimedElsewhere(Abs(), h, i)
    {
      var g := 0;
      while g < MAX_HARTS
        invariant g <= MAX_HARTS
        invariant forall k: Hart :: k < g && k != h ==> current[k] != Some(i)
      {
        if g != h && current[g] == Some(i) {
          assert Abs().current[g] == Some(i);
          return true;
        }
        g := g + 1;
      }
      return false;
    }

    method ExpireRecvTimeouts()
      requires Ok()
      modifies rows
      ensures Ok() && Abs() == Expire(old(Abs()))
    {
      var now, i := ticks, 0;
      while i < MAX_TASKS
        invariant i <= MAX_TASKS && Ok()
        invariant forall k :: 0 <= k < i ==> TaskOf(rows[k]) == ExpireTask(old(Abs()).tasks[k], now)
        invariant forall k :: i <= k < MAX_TASKS ==> rows[k] == old(rows[k])
      {
        var r := rows[i];
        if r.recvWaiting && r.state == Blocked && r.deadline <= now {
          if r.ring.count > 0 {
            rows[i] := r.(recvWaiting := false, state := Ready);
          } else {
            rows[i] := r.(recvWaiting := false, deadline := 0, frame := TimedOut(r.frame.(pc := r.frame.pc + 4)), state := Ready);
          }
        }
        i := i + 1;
      }
      assert Abs().tasks == Expire(old(Abs())).tasks;
    }

    method IsEligible(h: Hart, i: Tid) returns (b: bool)
      requires Ok()
      ensures b == Eligible(cfg, Abs(), h, i)
    {
      if rows[i].state != Ready {
        return false;
      }
      var claimed := IsClaimedElsewhere(h, i);
      return !claimed && (h == cfg.boot || rows[i].satp != cfg.kernelSatp);
    }

    method PickNext(h: Hart) returns (r: Option<Tid>)
      requires Ok()
      modifies rows
      ensures Ok() && Abs() == Expire(old(Abs())) && r == Pick(cfg, Abs(), h)
    {
      hide Expire, Eligible, Ring.Ok, Ring.Contents;
      ExpireRecvTimeouts();
      r := ScanFrom(h);
    }

    method ScanFrom(h: Hart) returns (r: Option<Tid>)
      requires Ok()
      ensures r == Pick(cfg, Abs(), h)
    {
      hide Eligible, Ring.Ok, Ring.Contents;
      var start: nat := match current[h] case None => 0 case Some(i) => (i as nat) + 1;
      var off := 0;
      while off < MAX_TASKS
        invariant off <= MAX_TASKS && Pick(cfg, Abs(), h) == PickFrom(cfg, Abs(), h, off)
      {
        var i := (start + off) % MAX_TASKS;
        assert i == Scanned(Abs(), h, off);
        var eligible := IsEligible(h, i);
        if eligible {
          return Some(i);
        }
        off := off + 1;
      }
      return None;
    }

    method WakeIrqWaiters() returns (woken: nat)
      requires Ok()
      modifies rows
      ensures Ok() && Abs() == WakeAll(old(Abs()))
      ensures woken == Waiting(old(Abs()).tasks, MAX_TASKS)
    {
      hide Ring.Ok, Ring.Contents, Tables.Ok, Tables.Abs, WakeTask;
      ghost var tb := Abs();
      woken := 0;
      var i := 0;
      while i < MAX_TASKS
        invariant i <= MAX_TASKS && Ok() && woken == Waiting(tb.tasks, i)
        invariant Abs() == tb.(tasks := Abs().tasks)
        invariant forall k: Tid :: Abs().tasks[k] == if k < i then WakeTask(tb.tasks[k]) else tb.tasks[k]
      {
        var waiting := WakeRow(i);
        if waiting {
          woken := woken + 1;
        }
        i := i + 1;
      }
      assert Abs().tasks == WakeAll(tb).tasks;
    }

    method WakeRow(i: Tid) returns (waiting: bool)
      requires Ok()
      modifies rows
      ensures Ok() && waiting == old(Abs()).tasks[i].irqWaiting
      ensures Abs() == old(Abs()).(tasks := old(Abs()).tasks[i := WakeTask(old(Abs()).tasks[i])])
    {
      hide Ring.Ok, Ring.Contents;
      var r := rows[i];
      waiting := r.irqWaiting;
      if waiting {
        SetRow(i, r.(irqWaiting := false, state := if r.state == Blocked then Ready else r.state));
      } else {
        assert old(Abs()).tasks == old(Abs()).tasks[i := WakeTask(old(Abs()).tasks[i])];
      }
    }

    method AnyIrqWaiting() returns (b: bool)
      requires Ok()
      ensures b <==> exists i: Tid :: Abs().tasks[i].irqWaiting && Abs().tasks[i].state == Blocked
    {
      var i := 0;
      while i < MAX_TASKS
        invariant i <= MAX_TASKS
        invariant forall k: Tid :: k < i ==> !(rows[k].irqWaiting && rows[k].state == Blocked)
      {
        if rows[i].irqWaiting && rows[i].state == Blocked {
          assert Abs().tasks[i].irqWaiting;
          return true;
        }
        i := i + 1;
      }
      return false;
    }

    /** What `join_secondaries` waits to become false. */
    method SecondaryClaimsOutstanding() returns (b: bool)
      requires Ok()
      ensures b <==> exists h: Hart :: h != cfg.boot && Abs().current[h].Some?
    {
      var h := 0;
      while h < MAX_HARTS
        invariant h <= MAX_HARTS
        invariant forall k: Hart :: k < h && k != cfg.boot ==> current[k].None?
      {
        if h != cfg.boot && current[h].Some? {
          assert Abs().current[h].Some?;
          return true;
        }
        h := h + 1;
      }
      return false;
    }

    // --- System calls --------------------------------------------------------------------

    method SetResult(i: Tid, a0: nat)
      requires Ok()
      modifies rows
      ensures Ok() && Abs() == old(Abs()).(tasks := old(Abs()).tasks[i := Returning(old(Abs()).tasks[i], a0)])
    {
      SetRow(i, rows[i].(frame := rows[i].frame.(a0 := a0)));
    }

    method RecvMessageInto(i: Tid) returns (got: bool)
      requires Ok()
      modifies rows, `receives
      ensures Ok() && got == (old(Abs()).tasks[i].mbox != [])
      ensures Abs() == if got then old(Abs()).(tasks := old(Abs()).tasks[i := Receive(old(Abs()).tasks[i])], receives := old(receives) + 1)
                       else old(Abs())
      ensures got ==>
                var t, t' := old(Abs()).tasks[i], Abs().tasks[i];
                var m := t.mbox[0];
                && t'.frame.a0 == (if |m.data| <= t.frame.a1 then |m.data| else t.frame.a1)
                && t'.frame.a1 == m.from && t'.frame.a2 == m.word && t'.frame.a3 == m.senderCaps
                && t'.frame.pc == t.frame.pc && t'.frame.a4 == t.frame.a4 && t'.frame.a7 == t.frame.a7 && t'.frame.hart == t.frame.hart
                && t'.caps == Or(t.caps, m.grant) && t'.mbox == t.mbox[1..] && t'.state == t.state
    {
      var r := rows[i];
      if r.ring.count == 0 {
        return false;
      }
      RingPops(r.ring);
      var m := r.ring.slots[r.ring.head];
      var n := if |m.data| < r.frame.a1 then |m.data| else r.frame.a1;
      SetRow(i, r.(caps := Or(r.caps, m.grant), ring := r.ring.Popped(),
                   frame := r.frame.(a0 := n, a1 := m.from, a2 := m.word, a3 := m.senderCaps)));
      receives := receives + 1;
      return true;
    }

    method ParkRow(i: Tid, r: Row)
      requires Ok() && r.ring == rows[i].ring
      modifies rows
      ensures Ok() && Abs() == old(Abs()).(tasks := old(Abs()).tasks[i := ParkTask(TaskOf(r))])
    {
      SetRow(i, r.(frame := r.frame.(pc := if r.frame.pc >= 4 then r.frame.pc - 4 else 0), state := Blocked));
    }

    method EnqueueRow(to: Tid, m: Message)
      requires Ok() && rows[to].ring.count < MAILBOX_DEPTH
      modifies rows
      ensures Ok() && Abs() == old(Abs()).(tasks := old(Abs()).tasks[to := Enqueue(old(Abs()).tasks[to], m)])
    {
      RingPushes(rows[to].ring, m);
      hide Ring.Contents;
      var r := rows[to].(ring := rows[to].ring.Pushed(m));
      SetRow(to, if r.state == Blocked then r.(recvWaiting := false, state := Ready) else r);
    }

    method SendArm(h: Hart, i: Tid, caps: nat, user: seq<byte>)
      requires Ok() && Abs() == world.tb && |user| == 64
      modifies rows, `sends
      ensures Ok() && Abs() == ServeSend(world, h, i, caps, user).tb
    {
      SendTables(world, h, i, caps, user);
      hide Ring.Contents, Enqueue, And, ServeSend;
      var f := rows[i].frame;
      if And(caps, TASK_IPC) == 0 || f.a0 >= MAX_TASKS || rows[f.a0].state == Unused || rows[f.a0].state == Done {
        SetResult(i, SYS_DENIED);
        return;
      }
      if rows[f.a0].ring.count == MAILBOX_DEPTH {
        SetResult(i, SYS_DENIED);
        return;
      }
      PostMessage(f.a0, Message(i, And(f.a3, caps), caps, f.a4, user[..if f.a2 < 64 then f.a2 else 64]), i);
    }

    method PostMessage(to: Tid, m: Message, i: Tid)
      requires Ok() && rows[to].ring.count < MAILBOX_DEPTH
      modifies rows, `sends
      ensures Ok() && Abs() == Posted(old(Abs()), to, m, i)
    {
      hide Ring.Contents, Enqueue;
      EnqueueRow(to, m);
      sends := sends + 1;
      SetResult(i, 0);
    }

    method RecvArm(h: Hart, i: Tid, caps: nat)
      requires Ok() && Abs() == world.tb
      modifies rows, `receives
      ensures Ok() && Abs() == ServeRecv(world, h, i, caps).tb
    {
      hide Ring.Contents, Receive;
      if And(caps, TASK_IPC) == 0 {
        SetResult(i, SYS_DENIED);
        return;
      }
      var got := RecvMessageInto(i);
      if !got {
        ParkRow(i, rows[i]);
      }
    }

    method RecvTimeoutArm(h: Hart, i: Tid, caps: nat)
      requires Ok() && Abs() == world.tb
      modifies rows, `receives
      ensures Ok() && Abs() == ServeRecvTimeout(world, h, i, caps).tb
    {
      hide Ring.Contents, Receive;
      if And(caps, TASK_IPC) == 0 {
        SetResult(i, SYS_DENIED);
        return;
      }
      var timeout := rows[i].frame.a2;
      var got := RecvMessageInto(i);
      if got {
        return;
      }
      if timeout == 0 {
        SetRow(i, rows[i].(frame := TimedOut(rows[i].frame)));
      } else {
        var deadline := ticks + timeout;
        ParkRow(i, rows[i].(recvWaiting := true, deadline := if deadline > USIZE_MAX then USIZE_MAX else deadline));
      }
    }

    method IrqWaitArm(h: Hart, i: Tid)
      requires Ok() && Abs() == world.tb
      modifies rows
      ensures Ok() && Abs() == ServeIrqWait(world, h, i).tb
    {
      hide Ring.Contents;
      if extIrqs != rows[i].frame.a0 {
        SetResult(i, extIrqs);
      } else {
        ParkRow(i, rows[i].(irqWaiting := true));
      }
    }

    /** The sections of one system call, from its dispatch on. */
    method ServeTrap(h: Hart, i: Tid, caps: nat, user: seq<byte>)
      requires Valid() && world.phase[h] == Serving(i, caps) && |user| == 64
      modifies rows, `sends, `receives, `world
      ensures Valid() && world == Do(cfg, old(world), Serve(h, user))
    {
      hide Ring.Contents, Inv, ServeSend, ServeRecv, ServeRecvTimeout, ServeIrqWait;
      var number := rows[i].frame.a7;
      if number == SYS_YIELD {
        SetRow(i, rows[i].(state := Ready));
      } else if number == SYS_EXIT {
        SetRow(i, rows[i].(state := Done));
      } else if number == SYS_SEND {
        SendArm(h, i, caps, user);
      } else if number == SYS_RECV {
        RecvArm(h, i, caps);
      } else if number == SYS_RECV_TIMEOUT {
        RecvTimeoutArm(h, i, caps);
      } else if number == SYS_IRQ_WAIT {
        IrqWaitArm(h, i);
      } else {
        SetResult(i, PlainResult(rows[i].frame, caps, ticks));
      }
      StepKeeps(cfg, world, Serve(h, user));
      world := Do(cfg, world, Serve(h, user));
    }

    /** The last section of `schedule_or_return`: claim the task found and stamp its frame, or give up the claim. */
    method DispatchNext(h: Hart) returns (r: Option<Tid>)
      requires Valid() && Enabled(cfg, world, Dispatch(h))
      modifies rows, current, `world
      ensures Valid() && world == Do(cfg, old(world), Dispatch(h))
      ensures r == Abs().current[h]
    {
      hide Ring.Contents, Ring.Ok, Inv, Expire, Claim, Pick, Enabled, Do;
      SearchStep(cfg, world, Dispatch(h));
      ghost var next := Do(cfg, world, Dispatch(h));
      r := PickNext(h);
      if r.Some? {
        ClaimRow(h, r.value);
      } else {
        SetClaim(h, None);
      }
      world := next;
    }

    /** `secondary_serve` and the entry of `run_processes`: a hart that finds nothing has no claim to give up. */
    method EnterTable(h: Hart) returns (r: Option<Tid>)
      requires Valid() && Enabled(cfg, world, Enter(h))
      modifies rows, current, `world
      ensures Valid() && world == Do(cfg, old(world), Enter(h))
      ensures r == Abs().current[h]
    {
      NoClaimYet(cfg, world, h);
      hide Ring.Contents, Ring.Ok, Inv, Expire, Claim, Pick, Enabled, Do;
      SearchStep(cfg, world, Enter(h));
      ghost var next := Do(cfg, world, Enter(h));
      r := PickNext(h);
      if r.Some? {
        ClaimRow(h, r.value);
      } else {
        assert Abs().current[h := None] == Abs().current;
      }
      world := next;
    }

    /** `run_scheduler_from`: the slot is named, not searched for, whoever holds it. The invariant survives if nobody does. */
    method StartNamed(first: Tid)
      requires Valid() && world.phase[cfg.boot].Console?
      modifies rows, current, `world
      ensures Ok() && Abs() == world.tb && world == Do(cfg, old(world), StartAt(first))
      ensures Fit(old(world), StartAt(first)) ==> Valid()
    {
      hide Ring.Contents, Inv;
      ClaimRow(cfg.boot, first);
      if Fit(world, StartAt(first)) {
        StepKeeps(cfg, world, StartAt(first));
      }
      world := Do(cfg, world, StartAt(first));
    }

    /** The two halves of `plic_handle`: the count is advanced before the lock is taken. */
    method CountIrq()
      requires Valid()
      modifies `extIrqs, `world
      ensures Valid() && world == Do(cfg, old(world), IrqCounted)
    {
      hide Ring.Contents, Inv;
      extIrqs := extIrqs + 1;
      StepKeeps(cfg, world, IrqCounted);
      world := Do(cfg, world, IrqCounted);
    }

    method HandleIrq() returns (woken: nat)
      requires Valid() && world.wakesDue > 0
      modifies rows, `world
      ensures Valid() && world == Do(cfg, old(world), IrqWakes) && woken == Waiting(old(Abs()).tasks, MAX_TASKS)
    {
      hide Ring.Contents, Inv, WakeTask;
      woken := WakeIrqWaiters();
      StepKeeps(cfg, world, IrqWakes);
      world := Do(cfg, world, IrqWakes);
    }
  }
}

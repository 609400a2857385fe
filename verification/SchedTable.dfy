/** The scheduler's tables, and what each critical section does to them. */
module SchedTable {
  import opened Bytes
  import opened Bits

  const MAX_TASKS: nat := 4
  const MAX_HARTS: nat := 8
  const MAILBOX_DEPTH: nat := 4
  const USIZE_MAX: nat := 0xFFFF_FFFF_FFFF_FFFF

  const SYS_EXIT: nat := 0
  const SYS_PRINT: nat := 1
  const SYS_UPTIME: nat := 2
  const SYS_YIELD: nat := 3
  const SYS_NULL: nat := 4
  const SYS_REPORT: nat := 5
  const SYS_SEND: nat := 6
  const SYS_RECV: nat := 7
  const SYS_PRINTNUM: nat := 8
  const SYS_RECV_TIMEOUT: nat := 9
  const SYS_IRQ_WAIT: nat := 10
  const SYS_DENIED: nat := USIZE_MAX

  const TASK_PRINT: nat := 1
  const TASK_TIME: nat := 2
  const TASK_IPC: nat := 4
  const IPC_STATUS_TIMEOUT: nat := 3
  const TIMEOUT_WORD: nat := 0xD100_0200_0003_0000

  type Tid = n: nat | n < MAX_TASKS
  type Hart = n: nat | n < MAX_HARTS

  datatype TaskState = Unused | Ready | Blocked | Done

  /** The saved program counter, the registers a system call uses, and the stamp of the hart that dispatched the task. */
  datatype Frame = Frame(pc: nat, a0: nat, a1: nat, a2: nat, a3: nat, a4: nat, a7: nat, hart: nat)

  /** A queued message; `data` is its payload. */
  datatype Message = Message(from: Tid, grant: nat, senderCaps: nat, word: nat, data: seq<byte>)

  datatype Task = Task(state: TaskState, frame: Frame, caps: nat, satp: nat, mbox: seq<Message>,
                       recvWaiting: bool, deadline: nat, irqWaiting: bool)

  type Tasks = s: seq<Task> | |s| == MAX_TASKS witness seq(MAX_TASKS, _ => Task(Unused, Frame(0, 0, 0, 0, 0, 0, 0, 0), 0, 0, [], false, 0, false))
  type Claims = s: seq<Option<Tid>> | |s| == MAX_HARTS witness seq<Option<Tid>>(MAX_HARTS, _ => None)

  /** `current` is the claim table: the task each hart runs, if any. */
  datatype Table = Table(tasks: Tasks, current: Claims, ticks: nat, extIrqs: nat, sends: nat, receives: nat)

  /** The boot hart, and the address space that tasks baked into the kernel share with it. */
  datatype Config = Config(boot: Hart, kernelSatp: nat)

  // --- Receiving and sending ------------------------------------------------------------

  /** The task's oldest message is delivered: its grant joins the task's capabilities, its fields fill the registers. */
  function Receive(t: Task): Task
    requires t.mbox != []
  {
    var m := t.mbox[0];
    var n := if |m.data| < t.frame.a1 then |m.data| else t.frame.a1;
    t.(caps := Or(t.caps, m.grant), mbox := t.mbox[1..], frame := t.frame.(a0 := n, a1 := m.from, a2 := m.word, a3 := m.senderCaps))
  }

  /** A message arrives: a blocked task becomes runnable. */
  function Enqueue(t: Task, m: Message): Task {
    var t1 := t.(mbox := t.mbox + [m]);
    if t.state == Blocked then t1.(recvWaiting := false, state := Ready) else t1
  }

  datatype Refusal = NoCapability | NoReceiver | QueueFull

  /** Why a send by a task with `caps` and registers `f` is refused, if it is. */
  function SendRefused(tasks: Tasks, f: Frame, caps: nat): Option<Refusal> {
    if And(caps, TASK_IPC) == 0 then Some(NoCapability)
    else if f.a0 >= MAX_TASKS || tasks[f.a0].state == Unused || tasks[f.a0].state == Done then Some(NoReceiver)
    else if |tasks[f.a0].mbox| == MAILBOX_DEPTH then Some(QueueFull)
    else None
  }

  /** `user` is the sender's memory from the buffer it names on. */
  function MessageOf(from: Tid, f: Frame, caps: nat, user: seq<byte>): Message
    requires |user| == 64
  {
    Message(from, And(f.a3, caps), caps, f.a4, user[..if f.a2 < 64 then f.a2 else 64])
  }

  function TimedOut(f: Frame): Frame {
    f.(a0 := IPC_STATUS_TIMEOUT, a1 := USIZE_MAX, a2 := TIMEOUT_WORD)
  }

  // --- Wakeups ----------------------------------------------------------------------------

  /** A blocked task whose deadline has passed leaves its call with a timeout, or is let run if a message is there. */
  function ExpireTask(t: Task, now: nat): Task {
    if t.recvWaiting && t.state == Blocked && t.deadline <= now then
      if |t.mbox| > 0 then t.(recvWaiting := false, state := Ready)
      else t.(recvWaiting := false, deadline := 0, frame := TimedOut(t.frame.(pc := t.frame.pc + 4)), state := Ready)
    else t
  }

  function Expire(tb: Table): Table {
    tb.(tasks := seq(MAX_TASKS, i requires 0 <= i < MAX_TASKS => ExpireTask(tb.tasks[i], tb.ticks)))
  }

  function WakeTask(t: Task): Task {
    if t.irqWaiting then t.(irqWaiting := false, state := if t.state == Blocked then Ready else t.state) else t
  }

  function WakeAll(tb: Table): Table {
    tb.(tasks := seq(MAX_TASKS, i requires 0 <= i < MAX_TASKS => WakeTask(tb.tasks[i])))
  }

  // --- Dispatch ---------------------------------------------------------------------------

  predicate ClaimedElsewhere(tb: Table, h: Hart, i: Tid) {
    exists g: Hart :: g != h && tb.current[g] == Some(i)
  }

  predicate RunnableHere(cfg: Config, tb: Table, h: Hart, i: Tid) {
    h == cfg.boot || tb.tasks[i].satp != cfg.kernelSatp
  }

  predicate Eligible(cfg: Config, tb: Table, h: Hart, i: Tid) {
    tb.tasks[i].state == Ready && !ClaimedElsewhere(tb, h, i) && RunnableHere(cfg, tb, h, i)
  }

  /** The task looked at `off` places into the scan, which starts after the one the hart ran last. */
  function Scanned(tb: Table, h: Hart, off: nat): Tid {
    var start: nat := match tb.current[h] case None => 0 case Some(i) => (i as nat) + 1;
    (start + off) % MAX_TASKS
  }

  /** The first eligible task of the scan. */
  function PickFrom(cfg: Config, tb: Table, h: Hart, off: nat): (r: Option<Tid>)
    requires off <= MAX_TASKS
    ensures r.Some? ==> Eligible(cfg, tb, h, r.value)
    decreases MAX_TASKS - off
  {
    if off == MAX_TASKS then None
    else if Eligible(cfg, tb, h, Scanned(tb, h, off)) then Some(Scanned(tb, h, off))
    else PickFrom(cfg, tb, h, off + 1)
  }

  function Pick(cfg: Config, tb: Table, h: Hart): Option<Tid> {
    PickFrom(cfg, tb, h, 0)
  }

  lemma {:induction false} PickScans(cfg: Config, tb: Table, h: Hart, off: nat, k: nat)
    requires off <= k < MAX_TASKS && PickFrom(cfg, tb, h, off) == None
    ensures !Eligible(cfg, tb, h, Scanned(tb, h, k))
    decreases k - off
  {
    hide Eligible, Scanned;
    if k > off {
      PickScans(cfg, tb, h, off + 1, k);
    }
  }

  /** The scan misses nothing: it fails only if no task is eligible. */
  lemma PickIsComplete(cfg: Config, tb: Table, h: Hart, i: Tid)
    requires Pick(cfg, tb, h) == None
    ensures !Eligible(cfg, tb, h, i)
  {
    hide Eligible, PickFrom;
    forall k | 0 <= k < MAX_TASKS
      ensures !Eligible(cfg, tb, h, Scanned(tb, h, k))
    {
      PickScans(cfg, tb, h, 0, k);
    }
    assert i in {Scanned(tb, h, 0), Scanned(tb, h, 1), Scanned(tb, h, 2), Scanned(tb, h, 3)};
  }

  /** The hart claims the task and stamps its frame. */
  function Claim(tb: Table, h: Hart, i: Tid): Table {
    tb.(current := tb.current[h := Some(i)], tasks := tb.tasks[i := tb.tasks[i].(frame := tb.tasks[i].frame.(hart := h))])
  }
}

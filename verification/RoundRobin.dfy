/** The x86 scheduler: frames on task stacks, and a round-robin that the timer drives. */
module RoundRobin {
  import opened Bytes

  const MAX_TASKS: nat := 8
  const STACK_SIZE: nat := 16384
  const FRAME_QWORDS: nat := 22
  const FRAME_RAX: nat := 14
  const VEC_TIMER: nat := 0x30
  const KERNEL_CS: nat := 0x08
  const USER_CS: nat := 0x23
  const USER_DS: nat := 0x1B

  type Tid = n: nat | n < MAX_TASKS
  type Memory = map<nat, nat>

  /** The 22 words an interrupt saves and a return restores, lowest address first. */
  type Context = c: seq<nat> | |c| == FRAME_QWORDS witness seq(FRAME_QWORDS, _ => 0)

  datatype Task = Task(frame: nat, kstackTop: nat, cr3: nat, caps: nat, runnable: bool)

  /** Where the task stacks and the boot stack lie. */
  datatype Config = Config(stacks: nat, bootLow: nat, bootHigh: nat)

  predicate ConfigOk(cfg: Config) {
    && cfg.bootLow + 8 * FRAME_QWORDS <= cfg.bootHigh
    && (cfg.bootHigh <= cfg.stacks || cfg.stacks + MAX_TASKS * STACK_SIZE <= cfg.bootLow)
  }

  function Low(cfg: Config, i: Tid): nat {
    if i == 0 then cfg.bootLow else cfg.stacks + i * STACK_SIZE
  }

  function High(cfg: Config, i: Tid): nat {
    if i == 0 then cfg.bootHigh else cfg.stacks + i * STACK_SIZE + STACK_SIZE
  }

  /** A whole frame at `f` lies on the stack of task `i`. */
  predicate OnStack(cfg: Config, i: Tid, f: nat) {
    Low(cfg, i) <= f && f + 8 * FRAME_QWORDS <= High(cfg, i)
  }

  lemma StacksApart(cfg: Config, i: Tid, j: Tid)
    requires ConfigOk(cfg) && i != j
    ensures High(cfg, i) <= Low(cfg, j) || High(cfg, j) <= Low(cfg, i)
  {
  }

  lemma FramesApart(cfg: Config, i: Tid, j: Tid, f: nat, g: nat)
    requires ConfigOk(cfg) && i != j && OnStack(cfg, i, f) && OnStack(cfg, j, g)
    ensures f != g
  {
    StacksApart(cfg, i, j);
  }

  function Word(mem: Memory, a: nat): nat {
    if a in mem then mem[a] else 0
  }

  /** The context saved at `f`. */
  function Saved(mem: Memory, f: nat): Context {
    seq(FRAME_QWORDS, k requires 0 <= k < FRAME_QWORDS => Word(mem, f + 8 * k))
  }

  /** `mem'` differs from `mem` only on the stack of task `i`. */
  ghost predicate OnlyStack(cfg: Config, mem: Memory, mem': Memory, i: Tid) {
    forall a: nat :: a < Low(cfg, i) || a >= High(cfg, i) ==> Word(mem', a) == Word(mem, a)
  }

  /** Frames on other stacks are not touched. */
  lemma OtherStack(cfg: Config, mem: Memory, mem': Memory, i: Tid, j: Tid, f: nat)
    requires ConfigOk(cfg) && i != j && OnStack(cfg, j, f) && OnlyStack(cfg, mem, mem', i)
    ensures Saved(mem', f) == Saved(mem, f)
  {
    StacksApart(cfg, i, j);
  }

  // --- Choosing ---------------------------------------------------------------------------

  /** The task `step` places after `cur`. */
  function Place(cur: Tid, step: nat): Tid {
    (cur + step) % MAX_TASKS
  }

  /** The first runnable task from `step` places after `cur` on, or `cur` if there is none. */
  function ChooseFrom(run: seq<bool>, cur: Tid, step: nat): (r: Tid)
    requires |run| == MAX_TASKS && 1 <= step <= MAX_TASKS + 1
    decreases MAX_TASKS + 1 - step
  {
    if step == MAX_TASKS + 1 then cur
    else if run[Place(cur, step)] then Place(cur, step)
    else ChooseFrom(run, cur, step + 1)
  }

  function Choose(run: seq<bool>, cur: Tid): Tid
    requires |run| == MAX_TASKS
  {
    ChooseFrom(run, cur, 1)
  }

  /** How many places after `cur` task `t` comes, 1 to 8. */
  function Distance(cur: Tid, t: Tid): (d: nat)
    ensures 1 <= d <= MAX_TASKS && Place(cur, d) == t
  {
    if t > cur then t - cur else t + MAX_TASKS - cur
  }

  /** The choice is runnable and nobody between is; it is `cur` itself only if nobody else is runnable. */
  lemma {:induction false} ChooseFinds(run: seq<bool>, cur: Tid, step: nat, t: Tid)
    requires |run| == MAX_TASKS && 1 <= step <= MAX_TASKS + 1
    requires forall s :: 1 <= s < step ==> !run[Place(cur, s)]
    ensures var n := ChooseFrom(run, cur, step);
            && (run[t] ==> run[n] && Distance(cur, n) <= Distance(cur, t))
            && (n != cur ==> run[n])
    decreases MAX_TASKS + 1 - step
  {
    var n := ChooseFrom(run, cur, step);
    if step == MAX_TASKS + 1 {
      assert !run[Place(cur, Distance(cur, t))];
    } else if run[Place(cur, step)] {
      assert Distance(cur, n) == step;
      assert Distance(cur, t) < step ==> !run[Place(cur, Distance(cur, t))];
    } else {
      ChooseFinds(run, cur, step + 1, t);
    }
  }

  lemma Chosen(run: seq<bool>, cur: Tid, t: Tid)
    requires |run| == MAX_TASKS
    ensures var n := Choose(run, cur);
            && (run[t] ==> run[n] && Distance(cur, n) <= Distance(cur, t))
            && (n != cur ==> run[n])
  {
    ChooseFinds(run, cur, 1, t);
  }

  /** The task on the CPU after each of a series of reschedules; `runs[k]` says who wants it at the k-th. */
  function Turns(cur: Tid, runs: seq<seq<bool>>): Tid
    requires forall k :: 0 <= k < |runs| ==> |runs[k]| == MAX_TASKS
  {
    if runs == [] then cur else Choose(runs[|runs| - 1], Turns(cur, runs[..|runs| - 1]))
  }

  /** Bounded waiting: a task that stays runnable gets the CPU within 7 reschedules, whatever the others do. */
  lemma {:induction false} BoundedWaiting(cur: Tid, t: Tid, runs: seq<seq<bool>>) returns (k: nat)
    requires forall j :: 0 <= j < |runs| ==> |runs[j]| == MAX_TASKS && runs[j][t]
    requires t != cur && |runs| >= Distance(cur, t)
    ensures 0 < k <= Distance(cur, t) <= MAX_TASKS - 1 && k <= |runs| && Turns(cur, runs[..k]) == t
    decreases Distance(cur, t)
  {
    var next := Choose(runs[0], cur);
    Chosen(runs[0], cur, t);
    assert runs[..1][..0] == [] && runs[..1][0] == runs[0];
    assert Turns(cur, []) == cur;
    assert Turns(cur, runs[..1]) == next;
    if next == t {
      k := 1;
    } else {
      Closer(cur, next, t);
      var rest := runs[1..];
      var k' := BoundedWaiting(next, t, rest);
      k := k' + 1;
      assert runs[..k] == [runs[0]] + rest[..k'];
      TurnsThen(cur, runs[0], rest[..k']);
    }
  }

  lemma Closer(cur: Tid, next: Tid, t: Tid)
    requires next != t && t != cur && Distance(cur, next) <= Distance(cur, t)
    ensures Distance(next, t) < Distance(cur, t)
  {
  }

  lemma {:induction false} TurnsThen(cur: Tid, run: seq<bool>, rest: seq<seq<bool>>)
    requires |run| == MAX_TASKS && forall k :: 0 <= k < |rest| ==> |rest[k]| == MAX_TASKS
    ensures Turns(cur, [run] + rest) == Turns(Choose(run, cur), rest)
    decreases |rest|
  {
    hide Choose;
    var all := [run] + rest;
    if rest == [] {
      assert all == [run] && all[..0] == [];
      assert Turns(cur, []) == cur;
    } else {
      var n := |rest| - 1;
      TurnsThen(cur, run, rest[..n]);
      assert all[..|all| - 1] == [run] + rest[..n];
    }
  }

  // --- The scheduler ---------------------------------------------------------------------------

  class Scheduler {
    const cfg: Config
    const tasks: array<Task>
    const turns: array<nat>
    var mem: Memory
    var current: Tid
    var enabled: bool
    var switches: nat
    var kills: nat
    var cr3: nat
    var kernelStack: nat
    /** For each task, the context it was last seen with: the one it was spawned with, or the one it lost the CPU in. */
    ghost var contexts: seq<Context>

    ghost predicate Ok()
      reads this
    {
      ConfigOk(cfg) && tasks.Length == MAX_TASKS && turns.Length == MAX_TASKS && |contexts| == MAX_TASKS
    }

    function Runnable(): (r: seq<bool>)
      requires tasks.Length == MAX_TASKS
      reads tasks
      ensures |r| == MAX_TASKS
    {
      seq(MAX_TASKS, i requires 0 <= i < MAX_TASKS reads tasks requires tasks.Length == MAX_TASKS => tasks[i].runnable)
    }

    /** The frame of every waiting task is on its own stack and holds the context the task was last seen with. */
    ghost predicate Waits(i: Tid)
      requires Ok()
      reads this, tasks
    {
      OnStack(cfg, i, tasks[i].frame) && Saved(mem, tasks[i].frame) == contexts[i]
    }

    ghost predicate Valid()
      reads this, tasks
    {
      && Ok() && Placed()
      && forall i: Tid :: i != current && tasks[i].runnable ==> Waits(i)
    }

    /** A task that was spawned has its own kernel stack. While it runs, that is where the CPU goes on an interrupt from
        ring 3, and its address space, if it has one, is the one in force. */
    ghost predicate Placed()
      requires tasks.Length == MAX_TASKS
      reads this, tasks
    {
      && (forall i: Tid :: i > 0 && tasks[i].runnable ==> tasks[i].kstackTop == High(cfg, i))
      && (current > 0 ==> kernelStack == High(cfg, current))
      && (tasks[current].cr3 != 0 ==> cr3 == tasks[current].cr3)
    }

    /** Nothing but the boot context, which is not preempted yet. */
    constructor (cfg: Config, mem: Memory, space: nat)
      requires ConfigOk(cfg)
      ensures Valid() && this.cfg == cfg && this.mem == mem && current == 0 && !enabled && cr3 == space
      ensures fresh(tasks) && fresh(turns)
      ensures forall i: Tid :: !tasks[i].runnable
    {
      this.cfg, this.mem, current, enabled, switches, kills := cfg, mem, 0, false, 0, 0;
      cr3, kernelStack := space, 0;
      contexts := seq(MAX_TASKS, _ => seq(FRAME_QWORDS, _ => 0));
      tasks := new Task[MAX_TASKS](_ => Task(0, 0, 0, 0, false));
      turns := new nat[MAX_TASKS](_ => 0);
    }

    /** The boot context becomes task 0, in the space in force, and the timer starts preempting. */
    method Start()
      requires Valid() && (current == 0 || !tasks[current].runnable)
      modifies `current, `enabled, tasks
      ensures Valid() && current == 0 && enabled && tasks[0] == Task(0, 0, cr3, 0, true)
      ensures forall i: Tid :: i > 0 ==> tasks[i] == old(tasks[i])
    {
      tasks[0] := Task(0, 0, cr3, 0, true);
      current, enabled := 0, true;
      forall i: Tid | i != current && tasks[i].runnable
        ensures Waits(i)
      {
        assert old(Waits(i));
      }
    }

    /** Pushes a frame for a task that has not run: the stack grows down from the last 16-byte boundary. */
    method WriteFrame(id: Tid, stackTop: nat, rip: nat, cs: nat, ss: nat, rsp: nat) returns (sp: nat)
      requires Ok() && id > 0 && stackTop == High(cfg, id)
      modifies `mem
      ensures OnStack(cfg, id, sp) && OnlyStack(cfg, old(mem), mem, id)
      ensures Saved(mem, sp) == FirstContext(rip, cs, ss, rsp)
    {
      sp := stackTop - stackTop % 16;
      ghost var top := sp;
      ghost var c := FirstContext(rip, cs, ss, rsp);
      var words := [ss, rsp, 0x202, cs, rip, 0, VEC_TIMER];
      var n := 0;
      while n < FRAME_QWORDS
        invariant n <= FRAME_QWORDS && sp == top - 8 * n
        invariant forall k :: FRAME_QWORDS - n <= k < FRAME_QWORDS ==> Word(mem, top - 8 * (FRAME_QWORDS - k)) == c[k]
        invariant OnlyStack(cfg, old(mem), mem, id)
      {
        sp := sp - 8;
        mem := mem[sp := if n < 7 then words[n] else 0];
        n := n + 1;
      }
      forall k | 0 <= k < FRAME_QWORDS
        ensures Saved(mem, sp)[k] == c[k]
      {
        assert sp + 8 * k == top - 8 * (FRAME_QWORDS - k);
      }
    }

    method Spawn(id: Tid, entry: nat)
      requires Valid() && id > 0 && id != current
      modifies this, tasks
      ensures Valid() && current == old(current) && tasks[id].runnable
      ensures contexts == old(contexts)[id := FirstContext(entry, KERNEL_CS, 0, High(cfg, id) - High(cfg, id) % 16)]
      ensures StartsAt(contexts[id], entry, High(cfg, id)) && Ring(contexts[id]) == 0
      ensures forall i: Tid :: i != id ==> tasks[i] == old(tasks[i])
    {
      var top := cfg.stacks + id * STACK_SIZE + STACK_SIZE;
      var frame := WriteFrame(id, top, entry, KERNEL_CS, 0, top - top % 16);
      Started(id, frame, Task(frame, top, 0, 0, true), FirstContext(entry, KERNEL_CS, 0, top - top % 16), old(mem));
    }

    method SpawnUser(id: Tid, entry: nat, ustackTop: nat, space: nat)
      requires Valid() && id > 0 && id != current
      modifies this, tasks
      ensures Valid() && current == old(current) && tasks[id].runnable && tasks[id].cr3 == space
      ensures contexts == old(contexts)[id := FirstContext(entry, USER_CS, USER_DS, ustackTop - ustackTop % 16)]
      ensures StartsAt(contexts[id], entry, ustackTop) && Ring(contexts[id]) == 3 && contexts[id][21] % 4 == 3
      ensures forall i: Tid :: i != id ==> tasks[i] == old(tasks[i])
    {
      var top := cfg.stacks + id * STACK_SIZE + STACK_SIZE;
      var frame := WriteFrame(id, top, entry, USER_CS, USER_DS, ustackTop - ustackTop % 16);
      Started(id, frame, Task(frame, top, space, 0, true), FirstContext(entry, USER_CS, USER_DS, ustackTop - ustackTop % 16), old(mem));
    }

    method Started(id: Tid, frame: nat, t: Task, ghost c: Context, ghost mem0: Memory)
      requires Ok() && Placed() && id > 0 && id != current && t.frame == frame && t.kstackTop == High(cfg, id)
      requires OnStack(cfg, id, frame) && Saved(mem, frame) == c
      requires OnlyStack(cfg, mem0, mem, id)
      requires forall i: Tid :: i != current && tasks[i].runnable ==> OnStack(cfg, i, tasks[i].frame) && Saved(mem0, tasks[i].frame) == contexts[i]
      modifies `contexts, tasks
      ensures Valid() && tasks[id] == t && contexts == old(contexts)[id := c]
      ensures forall i: Tid :: i != id ==> tasks[i] == old(tasks[i])
    {
      tasks[id] := t;
      contexts := contexts[id := c];
      forall i: Tid | i != current && tasks[i].runnable
        ensures Waits(i)
      {
        if i != id {
          OtherStack(cfg, mem0, mem, id, i, tasks[i].frame);
        }
      }
    }

    /** The next runnable task after the current one, wrapping. */
    method NextRunnable() returns (next: Tid)
      requires Ok()
      ensures next == Choose(Runnable(), current)
    {
      ghost var run := Runnable();
      var cur, step := current, 1;
      next := cur;
      while step <= MAX_TASKS
        invariant 1 <= step <= MAX_TASKS + 1 && Choose(run, cur) == ChooseFrom(run, cur, step)
      {
        var cand := (cur + step) % MAX_TASKS;
        assert cand == Place(cur, step) && run[cand] == tasks[cand].runnable;
        if tasks[cand].runnable {
          return cand;
        }
        step := step + 1;
      }
    }

    /** Saves the frame against the running task and returns the frame to resume: that of the next runnable task, holding
        exactly the context that task was last seen with. The address space goes with the task; a task without one of its
        own runs in whatever space was in force, that of the last task that had one. */
    method Reschedule(frame: nat) returns (r: nat)
      requires Valid() && OnStack(cfg, current, frame) && Saved(mem, frame) == contexts[current]
      modifies `current, `switches, `cr3, `kernelStack, tasks, turns
      ensures Valid() && current == Choose(old(Runnable()), old(current)) && Runnable() == old(Runnable())
      ensures OnStack(cfg, current, r) && Saved(mem, r) == contexts[current]
      ensures r == frame <==> current == old(current)
      ensures cr3 == if current != old(current) && tasks[current].cr3 != 0 then tasks[current].cr3 else old(cr3)
      ensures kernelStack == if current != old(current) && tasks[current].kstackTop != 0 then tasks[current].kstackTop else old(kernelStack)
      ensures forall i: Tid :: i != old(current) ==> tasks[i] == old(tasks[i])
    {
      hide Choose, Saved, OnStack;
      var cur := current;
      SaveFrame(frame);
      var next := NextRunnable();
      if next == cur {
        return frame;
      }
      Chosen(Runnable(), cur, cur);
      assert tasks[next].runnable;
      if tasks[next].cr3 != 0 && tasks[next].cr3 != cr3 {
        cr3 := tasks[next].cr3;
      }
      if tasks[next].kstackTop != 0 {
        kernelStack := tasks[next].kstackTop;
      }
      r := tasks[next].frame;
      Handover(cur, next);
      FramesApart(cfg, cur, next, frame, r);
      switches := switches + 1;
      turns[next] := turns[next] + 1;
    }

    method SaveFrame(frame: nat)
      requires Valid()
      modifies tasks
      ensures Valid() && Runnable() == old(Runnable()) && tasks[current] == old(tasks[current]).(frame := frame)
      ensures forall i: Tid :: i != current ==> tasks[i] == old(tasks[i])
    {
      tasks[current] := tasks[current].(frame := frame);
      assert Runnable() == old(Runnable());
      forall i: Tid | i != current && tasks[i].runnable
        ensures Waits(i)
      {
        assert old(Waits(i));
      }
    }

    method Handover(ghost cur: Tid, next: Tid)
      requires Ok() && cur == current && next != current && tasks[next].runnable
      requires forall i: Tid :: i != current && tasks[i].runnable ==> Waits(i)
      requires forall i: Tid :: i > 0 && tasks[i].runnable ==> tasks[i].kstackTop == High(cfg, i)
      requires tasks[next].kstackTop != 0 ==> kernelStack == tasks[next].kstackTop
      requires tasks[next].cr3 != 0 ==> cr3 == tasks[next].cr3
      requires OnStack(cfg, current, tasks[current].frame) && Saved(mem, tasks[current].frame) == contexts[current]
      modifies `current
      ensures Valid() && current == next
      ensures OnStack(cfg, next, tasks[next].frame) && Saved(mem, tasks[next].frame) == contexts[next]
    {
      assert Waits(next);
      current := next;
      forall i: Tid | i != current && tasks[i].runnable
        ensures Waits(i)
      {
        assert i != cur ==> old(Waits(i));
      }
    }

    method OnTick(frame: nat) returns (r: nat)
      requires Valid() && OnStack(cfg, current, frame) && Saved(mem, frame) == contexts[current]
      modifies `current, `switches, `cr3, `kernelStack, tasks, turns
      ensures Valid() && current == if enabled then Choose(old(Runnable()), old(current)) else old(current)
      ensures OnStack(cfg, current, r) && Saved(mem, r) == contexts[current] && Runnable() == old(Runnable())
    {
      if !enabled {
        return frame;
      }
      r := Reschedule(frame);
    }

    /** A timer interrupt as the running task sees it: its context is pushed on its stack, and some task's context is
        popped. Each task gets back exactly what it lost. */
    method TimerInterrupt(context: Context, frame: nat) returns (resumed: Context)
      requires Valid() && OnStack(cfg, current, frame)
      modifies this, tasks, turns
      ensures Valid() && current == if enabled then Choose(old(Runnable()), old(current)) else old(current)
      ensures contexts == old(contexts)[old(current) := context] && enabled == old(enabled)
      ensures resumed == contexts[current]
    {
      PushContext(context, frame);
      var r := OnTick(frame);
      return Saved(mem, r);
    }

    /** The same from ring 3, where the CPU pushes onto the stack it was told: it is the task's own, because every switch
        moved it along. */
    method UserTimerInterrupt(context: Context) returns (resumed: Context)
      requires Valid() && current > 0
      modifies this, tasks, turns
      ensures Valid() && current == if enabled then Choose(old(Runnable()), old(current)) else old(current)
      ensures contexts == old(contexts)[old(current) := context] && enabled == old(enabled)
      ensures resumed == contexts[current]
    {
      var frame := kernelStack - kernelStack % 16 - 8 * FRAME_QWORDS;
      hide Choose, Saved;
      resumed := TimerInterrupt(context, frame);
    }

    method PushContext(context: Context, frame: nat)
      requires Valid() && OnStack(cfg, current, frame)
      modifies `mem, `contexts
      ensures Valid() && contexts == old(contexts)[current := context] && Saved(mem, frame) == context
    {
      ghost var mem0 := mem;
      var k := 0;
      while k < FRAME_QWORDS
        invariant k <= FRAME_QWORDS && OnlyStack(cfg, mem0, mem, current)
        invariant forall j :: 0 <= j < k ==> Word(mem, frame + 8 * j) == context[j]
        invariant contexts == old(contexts)
      {
        mem := mem[frame + 8 * k := context[k]];
        k := k + 1;
      }
      assert Saved(mem, frame) == context;
      contexts := contexts[current := context];
      OthersWait(mem0, contexts);
    }

    /** What happens on the current task's stack does not disturb the tasks that wait. */
    lemma OthersWait(mem0: Memory, was: seq<Context>)
      requires Ok() && Placed() && |was| == MAX_TASKS && OnlyStack(cfg, mem0, mem, current)
      requires forall i: Tid :: i != current ==> was[i] == contexts[i]
      requires forall i: Tid :: i != current && tasks[i].runnable ==>
                 OnStack(cfg, i, tasks[i].frame) && Saved(mem0, tasks[i].frame) == was[i]
      ensures Valid()
    {
      forall i: Tid | i != current && tasks[i].runnable
        ensures Waits(i)
      {
        OtherStack(cfg, mem0, mem, current, i, tasks[i].frame);
      }
    }

    /** The running task computes: it may change any memory but the stacks of the other tasks. */
    method RunTask(after: Memory)
      requires Valid()
      requires forall i: Tid, a: nat :: i != current && Low(cfg, i) <= a < High(cfg, i) ==> Word(after, a) == Word(mem, a)
      modifies `mem
      ensures Valid() && mem == after
    {
      ghost var mem0 := mem;
      mem := after;
      forall i: Tid | i != current && tasks[i].runnable
        ensures Waits(i)
      {
        assert old(Waits(i));
        assert Saved(mem, tasks[i].frame) == Saved(mem0, tasks[i].frame);
      }
    }

    method ExitCurrent()
      requires Valid()
      modifies tasks
      ensures Valid() && Runnable() == old(Runnable())[current := false]
      ensures forall i: Tid :: i != current ==> tasks[i] == old(tasks[i])
    {
      tasks[current] := tasks[current].(runnable := false);
      assert Runnable() == old(Runnable())[current := false];
      forall i: Tid | i != current && tasks[i].runnable
        ensures Waits(i)
      {
        assert old(Waits(i));
      }
    }

    /** Ends the running task. It is never resumed: the machine halts exactly if nothing else is runnable, which the frame
        address tells because no two tasks share a stack. */
    method KillCurrent(frame: nat) returns (r: Option<nat>)
      requires Valid() && OnStack(cfg, current, frame) && Saved(mem, frame) == contexts[current]
      modifies this, tasks, turns
      ensures Valid() && contexts == old(contexts) && mem == old(mem)
      ensures r.None? <==> forall i: Tid :: i != old(current) ==> !old(tasks[i]).runnable
      ensures r.Some? ==> current != old(current) && old(Runnable())[current] && Saved(mem, r.value) == contexts[current]
      ensures !tasks[old(current)].runnable
    {
      hide Choose, Saved;
      kills := kills + 1;
      ExitCurrent();
      ghost var run, cur := Runnable(), current;
      assert forall i: Tid :: run[i] == (i != cur && old(tasks[i]).runnable);
      var next := Reschedule(frame);
      forall i: Tid
        ensures run[i] ==> current != cur
        ensures current != cur ==> run[current]
      {
        Chosen(run, cur, i);
      }
      assert !Runnable()[cur];
      if next == frame {
        return None;
      }
      return Some(next);
    }

    /** A system call; `exits` and `ret` are what the handler decided. A task that asked to exit is resumed all the same
        exactly if nothing else is runnable. */
    method OnSyscall(frame: nat, exits: bool, ret: nat) returns (r: nat)
      requires Valid() && tasks[current].runnable && OnStack(cfg, current, frame) && Saved(mem, frame) == contexts[current]
      modifies this, tasks, turns
      ensures Valid() && contexts == old(contexts)[old(current) := old(contexts)[old(current)][FRAME_RAX := ret]]
      ensures OnStack(cfg, current, r) && Saved(mem, r) == contexts[current]
      ensures current == old(current) <==> !exits || forall i: Tid :: i != old(current) ==> !old(tasks[i]).runnable
    {
      SetResult(frame, ret);
      if !exits {
        return frame;
      }
      hide Choose, Saved;
      ExitCurrent();
      ghost var run, cur := Runnable(), current;
      assert forall i: Tid :: run[i] == (i != cur && old(tasks[i]).runnable);
      r := Reschedule(frame);
      forall i: Tid
        ensures run[i] ==> current != cur
        ensures current != cur ==> run[current]
      {
        Chosen(run, cur, i);
      }
    }

    method SetResult(frame: nat, ret: nat)
      requires Valid() && OnStack(cfg, current, frame) && Saved(mem, frame) == contexts[current]
      modifies `mem, `contexts
      ensures Valid() && contexts == old(contexts)[current := old(contexts)[current][FRAME_RAX := ret]]
      ensures Saved(mem, frame) == contexts[current]
    {
      ghost var mem0 := mem;
      mem := mem[frame + 8 * FRAME_RAX := ret];
      contexts := contexts[current := contexts[current][FRAME_RAX := ret]];
      forall k | 0 <= k < FRAME_QWORDS
        ensures Saved(mem, frame)[k] == contexts[current][k]
      {
        assert Saved(mem0, frame)[k] == old(contexts)[current][k];
      }
      OthersWait(mem0, contexts);
    }
  }

  /** The processor returns to `entry` with interrupts on, registers zero, and the stack at the last 16-byte boundary up to
      `top`. */
  predicate StartsAt(c: Context, entry: nat, top: nat) {
    && c[17] == entry && c[19] / 0x200 % 2 == 1 && c[19] / 2 % 2 == 1
    && c[20] % 16 == 0 && c[20] <= top < c[20] + 16
    && forall k :: 0 <= k < 15 ==> c[k] == 0
  }

  /** The privilege level of the code segment in the frame. */
  function Ring(c: Context): nat {
    c[18] % 4
  }

  /** The context a fresh task starts with: registers zero, interrupts on. */
  function FirstContext(rip: nat, cs: nat, ss: nat, rsp: nat): Context {
    seq(15, _ => 0) + [VEC_TIMER, 0, rip, cs, 0x202, rsp, ss]
  }
}

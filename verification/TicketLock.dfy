/** The ticket lock guarding the shared run queue: every memory access is a step, and any number of harts interleave.
    Both counters are 32 bits and wrap. */
module TicketLock {
  import opened Bytes
  import opened RunQueue

  const WRAP: nat := 0x1_0000_0000

  function Inc(n: u32): u32 {
    if n == WRAP - 1 then 0 else n + 1
  }

  datatype Job = PushJob(v: u32) | PopJob

  /** Where a hart is inside its critical section. */
  datatype Spot =
    | Begun(job: Job)
    | Stored(v: u32)
    | Fetched(v: u32)
    | Over(got: Option<u32>)

  /** `Leaving` is between the two halves of the release; `Working` runs the job that was popped. */
  datatype Phase =
    | Outside
    | Waiting(ticket: u32, job: Job)
    | Inside(ticket: u32, spot: Spot)
    | Leaving(ticket: u32, served: u32, got: Option<u32>)
    | Working(v: u32)

  /** The lock's counters, the ring's fields, and one phase per hart. The rest records what happened: tickets in the order
      they were taken, harts in the order they got in, values in the order they were pushed, popped and run. */
  datatype World = World(
    next: u32, serving: u32, buf: seq<u32>, head: nat, tail: nat, phase: seq<Phase>,
    taken: seq<nat>, served: nat, accepted: seq<u32>, popped: seq<u32>, ran: seq<u32>)

  datatype Step =
    | Take(t: nat, job: Job)
    | Poll(t: nat)
    | Work(t: nat)
    | ReadServing(t: nat)
    | WriteServing(t: nat)
    | RunJob(t: nat)

  predicate Enabled(w: World, s: Step) {
    && s.t < |w.phase|
    && match s
       case Take(t, _) => w.phase[t].Outside?
       case Poll(t) => w.phase[t].Waiting?
       case Work(t) => w.phase[t].Inside? && !w.phase[t].spot.Over?
       case ReadServing(t) => w.phase[t].Inside? && w.phase[t].spot.Over?
       case WriteServing(t) => w.phase[t].Leaving?
       case RunJob(t) => w.phase[t].Working?
  }

  /** The accesses of `push` and `pop`, one at a time. */
  function Worked(w: World, t: nat, spot: Spot): World
    requires t < |w.phase| && w.phase[t].Inside?
  {
    var ticket := w.phase[t].ticket;
    match spot
    case Begun(PushJob(v)) =>
      if |w.buf| == 0 || w.tail >= w.head + |w.buf| then w.(phase := w.phase[t := Inside(ticket, Over(None))])
      else w.(buf := w.buf[Slot(|w.buf|, w.tail) := v], phase := w.phase[t := Inside(ticket, Stored(v))])
    case Begun(PopJob) =>
      if w.head == w.tail || |w.buf| == 0 then w.(phase := w.phase[t := Inside(ticket, Over(None))])
      else w.(phase := w.phase[t := Inside(ticket, Fetched(w.buf[Slot(|w.buf|, w.head)]))])
    case Stored(v) => w.(tail := w.tail + 1, accepted := w.accepted + [v], phase := w.phase[t := Inside(ticket, Over(None))])
    case Fetched(v) => w.(head := w.head + 1, popped := w.popped + [v], phase := w.phase[t := Inside(ticket, Over(Some(v)))])
    case Over(_) => w
  }

  function Do(w: World, s: Step): World
    requires Enabled(w, s)
  {
    var t := s.t;
    var p := w.phase[t];
    match s
    case Take(_, job) => w.(next := Inc(w.next), taken := w.taken + [t], phase := w.phase[t := Waiting(w.next, job)])
    case Poll(_) =>
      if w.serving == p.ticket then w.(phase := w.phase[t := Inside(p.ticket, Begun(p.job))]) else w
    case Work(_) => Worked(w, t, p.spot)
    case ReadServing(_) => w.(phase := w.phase[t := Leaving(p.ticket, w.serving, p.spot.got)])
    case WriteServing(_) =>
      w.(serving := Inc(p.served), served := w.served + 1,
         phase := w.phase[t := if p.got.Some? then Working(p.got.value) else Outside])
    case RunJob(_) => w.(ran := w.ran + [p.v], phase := w.phase[t := Outside])
  }

  // --- The invariant --------------------------------------------------------------------------

  /** The hart is between taking a ticket and giving the lock back. */
  predicate Queued(p: Phase) {
    p.Waiting? || p.Inside? || p.Leaving?
  }

  predicate Holding(p: Phase) {
    p.Inside? || p.Leaving?
  }

  /** The harts that hold a ticket, in ticket order: the first is the one being served. */
  function Line(w: World): seq<nat>
    requires w.served <= |w.taken|
  {
    w.taken[w.served..]
  }

  ghost predicate Distinct(s: seq<nat>) {
    forall i, j :: 0 <= i < j < |s| ==> s[i] != s[j]
  }

  /** Where a hart stands in the line decides its ticket; only the first can be inside. */
  ghost predicate InLine(w: World, k: nat)
    requires w.served <= |w.taken| && k < |Line(w)|
  {
    var t := Line(w)[k];
    && t < |w.phase| && Queued(w.phase[t])
    && w.phase[t].ticket == (w.served + k) % WRAP
    && (Holding(w.phase[t]) ==> k == 0)
    && (w.phase[t].Leaving? ==> w.phase[t].served == w.serving)
  }

  ghost predicate LockOk(w: World) {
    && w.served <= |w.taken|
    && w.serving == w.served % WRAP && w.next == |w.taken| % WRAP
    && Distinct(Line(w))
    && (forall k :: 0 <= k < |Line(w)| ==> InLine(w, k))
    && (forall t :: 0 <= t < |w.phase| && Queued(w.phase[t]) ==> t in Line(w))
  }

  /** The ring's items, oldest first. */
  function Contents(w: World): seq<u32>
    requires w.head <= w.tail && (w.head < w.tail ==> |w.buf| > 0)
  {
    seq(w.tail - w.head, k requires 0 <= k < w.tail - w.head => w.buf[Slot(|w.buf|, w.head + k)])
  }

  /** What the hart in the critical section has found out about the ring still holds. */
  predicate SpotOk(w: World, p: Phase) {
    p.Inside? ==>
      match p.spot
      case Stored(v) => |w.buf| > 0 && w.tail < w.head + |w.buf| && w.buf[Slot(|w.buf|, w.tail)] == v
      case Fetched(v) => w.head < w.tail && |w.buf| > 0 && w.buf[Slot(|w.buf|, w.head)] == v
      case _ => true
  }

  ghost predicate RingOk(w: World) {
    && w.head <= w.tail && w.tail <= w.head + |w.buf|
    && w.popped + Contents(w) == w.accepted
    && forall t :: 0 <= t < |w.phase| ==> SpotOk(w, w.phase[t])
  }

  /** The value a hart has popped and not run yet. */
  function Carried(p: Phase): Option<u32> {
    match p
    case Inside(_, Over(got)) => got
    case Leaving(_, _, got) => got
    case Working(v) => Some(v)
    case _ => None
  }

  /** How many harts carry `v`. */
  function Carriers(phase: seq<Phase>, v: u32): nat {
    if phase == [] then 0
    else Carriers(phase[..|phase| - 1], v) + if Carried(phase[|phase| - 1]) == Some(v) then 1 else 0
  }

  function Count(s: seq<u32>, v: u32): nat {
    if s == [] then 0 else Count(s[..|s| - 1], v) + if s[|s| - 1] == v then 1 else 0
  }

  /** Every time `v` was popped it has been run or is carried by some hart. */
  ghost predicate JobsOk(w: World, v: u32) {
    Count(w.ran, v) + Carriers(w.phase, v) == Count(w.popped, v)
  }

  ghost predicate Inv(w: World) {
    LockOk(w) && RingOk(w) && forall v: u32 :: JobsOk(w, v)
  }

  // --- Counting -----------------------------------------------------------------------------------

  /** A line of distinct harts is no longer than the number of harts. */
  lemma {:induction false} Pigeonhole(s: seq<nat>, n: nat)
    requires Distinct(s) && forall i :: 0 <= i < |s| ==> s[i] < n
    ensures |s| <= n
    decreases n
  {
    if s == [] {
      return;
    }
    assert s[0] < n;
    if k :| 0 <= k < |s| && s[k] == n - 1 {
      var r := s[..k] + s[k + 1..];
      forall i, j | 0 <= i < j < |r|
        ensures r[i] != r[j]
      {
        var i', j' := if i < k then i else i + 1, if j < k then j else j + 1;
        assert s[i'] != s[j'];
      }
      forall i | 0 <= i < |r|
        ensures r[i] < n - 1
      {
        var i' := if i < k then i else i + 1;
        assert s[i'] < n && s[i'] != n - 1;
      }
      Pigeonhole(r, n - 1);
    } else {
      Pigeonhole(s, n - 1);
    }
  }

  lemma {:induction false} CarriersSet(phase: seq<Phase>, t: nat, p: Phase, v: u32)
    requires t < |phase|
    ensures Carriers(phase[t := p], v) + (if Carried(phase[t]) == Some(v) then 1 else 0)
         == Carriers(phase, v) + (if Carried(p) == Some(v) then 1 else 0)
    decreases |phase|
  {
    hide Carried;
    var n := |phase| - 1;
    if t == n {
      assert phase[t := p][..n] == phase[..n];
    } else {
      CarriersSet(phase[..n], t, p, v);
      assert phase[t := p][..n] == phase[..n][t := p];
    }
  }

  lemma Counted(s: seq<u32>, x: u32, v: u32)
    ensures Count(s + [x], v) == Count(s, v) + if x == v then 1 else 0
  {
    assert (s + [x])[..|s|] == s;
  }

  lemma IncWraps(n: nat)
    ensures Inc(n % WRAP) == (n + 1) % WRAP
  {
  }

  // --- Steps keep the invariant ---------------------------------------------------------------------

  /** Only the hart at the head of the line is inside. */
  lemma HolderIsFirst(w: World, t: nat)
    requires LockOk(w) && t < |w.phase| && Holding(w.phase[t])
    ensures |Line(w)| > 0 && Line(w)[0] == t
  {
    var k :| 0 <= k < |Line(w)| && Line(w)[k] == t;
    assert InLine(w, k);
  }

  /** With no more harts than tickets there are, tickets in use are distinct, so the one served is the first of the line. */
  lemma ServedIsFirst(w: World, k: nat)
    requires LockOk(w) && |w.phase| <= WRAP && k < |Line(w)| && InLine(w, k) && w.phase[Line(w)[k]].ticket == w.serving
    ensures k == 0
  {
    forall i | 0 <= i < |Line(w)|
      ensures Line(w)[i] < |w.phase|
    {
      assert InLine(w, i);
    }
    Pigeonhole(Line(w), |w.phase|);
    assert InLine(w, k);
    Congruent(w.served, k);
  }

  lemma Congruent(a: nat, k: nat)
    requires k < WRAP && (a + k) % WRAP == a % WRAP
    ensures k == 0
  {
  }

  lemma TakeKeeps(w: World, t: nat, job: Job)
    requires LockOk(w) && Enabled(w, Take(t, job))
    ensures LockOk(Do(w, Take(t, job)))
  {
    var w' := Do(w, Take(t, job));
    IncWraps(|w.taken|);
    assert Line(w') == Line(w) + [t];
    forall k | 0 <= k < |Line(w')|
      ensures InLine(w', k)
    {
      if k < |Line(w)| {
        assert InLine(w, k);
      }
    }
    forall i | 0 <= i < |Line(w)|
      ensures Line(w)[i] != t
    {
      assert InLine(w, i);
    }
    forall u | 0 <= u < |w'.phase| && Queued(w'.phase[u])
      ensures u in Line(w')
    {
      if u == t {
        assert Line(w')[|Line(w)|] == t;
      }
    }
  }

  /** A hart in the line moves from one phase to another without leaving it. */
  lemma MoveKeeps(w: World, w': World, t: nat)
    requires LockOk(w) && t < |w.phase| == |w'.phase| && Queued(w.phase[t])
    requires w'.served == w.served && w'.taken == w.taken && w'.serving == w.serving && w'.next == w.next
    requires forall u :: 0 <= u < |w.phase| && u != t ==> w'.phase[u] == w.phase[u]
    requires Queued(w'.phase[t]) && w'.phase[t].ticket == w.phase[t].ticket
    requires Holding(w'.phase[t]) ==> Line(w)[0] == t || Holding(w.phase[t])
    requires w'.phase[t].Leaving? ==> w'.phase[t].served == w.serving
    ensures LockOk(w')
  {
    forall k | 0 <= k < |Line(w')|
      ensures InLine(w', k)
    {
      assert InLine(w, k);
    }
  }

  lemma ReleaseKeeps(w: World, t: nat)
    requires LockOk(w) && Enabled(w, WriteServing(t))
    ensures LockOk(Do(w, WriteServing(t)))
  {
    var w' := Do(w, WriteServing(t));
    HolderIsFirst(w, t);
    assert InLine(w, 0);
    IncWraps(w.served);
    assert Line(w') == Line(w)[1..];
    forall k | 0 <= k < |Line(w')|
      ensures InLine(w', k)
    {
      assert InLine(w, k + 1);
    }
    forall u | 0 <= u < |w'.phase| && Queued(w'.phase[u])
      ensures u in Line(w')
    {
      var k :| 0 <= k < |Line(w)| && Line(w)[k] == u;
      assert k != 0;
      assert Line(w')[k - 1] == u;
    }
  }

  lemma OutsideKeeps(w: World, t: nat)
    requires LockOk(w) && Enabled(w, RunJob(t))
    ensures LockOk(Do(w, RunJob(t)))
  {
    var w' := Do(w, RunJob(t));
    forall k | 0 <= k < |Line(w')|
      ensures InLine(w', k)
    {
      assert InLine(w, k);
    }
  }

  lemma LockKeeps(w: World, s: Step)
    requires LockOk(w) && Enabled(w, s) && |w.phase| <= WRAP
    ensures LockOk(Do(w, s))
  {
    match s
    case Take(t, job) => TakeKeeps(w, t, job);
    case Poll(t) =>
      if w.serving == w.phase[t].ticket {
        var k :| 0 <= k < |Line(w)| && Line(w)[k] == t;
        ServedIsFirst(w, k);
        hide LockOk;
        MoveKeeps(w, Do(w, s), t);
      }
    case Work(t) =>
      hide LockOk;
      MoveKeeps(w, Do(w, s), t);
    case ReadServing(t) =>
      hide LockOk;
      MoveKeeps(w, Do(w, s), t);
    case WriteServing(t) => ReleaseKeeps(w, t);
    case RunJob(t) => OutsideKeeps(w, t);
  }

  /** While a hart works on the ring no other hart is inside. */
  lemma Alone(w: World, t: nat, u: nat)
    requires LockOk(w) && t < |w.phase| && u < |w.phase| && Holding(w.phase[t]) && Holding(w.phase[u])
    ensures t == u
  {
    HolderIsFirst(w, t);
    HolderIsFirst(w, u);
  }

  lemma WorkKeepsRing(w: World, t: nat)
    requires LockOk(w) && RingOk(w) && Enabled(w, Work(t))
    ensures RingOk(Do(w, Work(t)))
  {
    hide Slot, LockOk;
    var w' := Do(w, Work(t));
    assert SpotOk(w, w.phase[t]);
    RingContents(w, w', t);
    forall u | 0 <= u < |w'.phase|
      ensures SpotOk(w', w'.phase[u])
    {
      assert SpotOk(w, w.phase[u]);
      if u != t && w.phase[u].Inside? {
        Alone(w, t, u);
      }
    }
  }

  /** Popped values followed by the ring's contents stay the accepted values, at every access. */
  lemma RingContents(w: World, w': World, t: nat)
    requires RingOk(w) && Enabled(w, Work(t)) && w' == Do(w, Work(t))
    ensures w'.head <= w'.tail && w'.tail <= w'.head + |w'.buf| && w'.popped + Contents(w') == w'.accepted
  {
    hide Slot;
    assert SpotOk(w, w.phase[t]);
    match w.phase[t].spot
    case Begun(PushJob(v)) =>
      StoredContents(w, w', v);
    case Begun(PopJob) =>
      assert Contents(w') == Contents(w);
    case Stored(v) =>
      assert Contents(w') == Contents(w) + [v];
      assert w'.popped + (Contents(w) + [v]) == w.popped + Contents(w) + [v];
    case Fetched(v) =>
      FetchedContents(w, w', v);
      assert w.popped + [v] + Contents(w') == w.popped + ([v] + Contents(w'));
  }

  /** A value stored past the last item is not seen until the tail moves. */
  lemma StoredContents(w: World, w': World, v: u32)
    requires w.head <= w.tail <= w.head + |w.buf| && w'.head == w.head && w'.tail == w.tail
    requires w'.buf == if |w.buf| == 0 || w.tail >= w.head + |w.buf| then w.buf else w.buf[Slot(|w.buf|, w.tail) := v]
    ensures Contents(w') == Contents(w)
  {
    hide Slot;
    forall k | 0 <= k < w.tail - w.head
      ensures Contents(w')[k] == Contents(w)[k]
    {
      if w.tail < w.head + |w.buf| {
        SlotsApart(|w.buf|, w.head + k, w.tail);
      }
    }
  }

  lemma FetchedContents(w: World, w': World, v: u32)
    requires w.head < w.tail <= w.head + |w.buf| && w.buf[Slot(|w.buf|, w.head)] == v
    requires w'.buf == w.buf && w'.head == w.head + 1 && w'.tail == w.tail
    ensures Contents(w) == [v] + Contents(w')
  {
    hide Slot;
    assert Contents(w)[0] == w.buf[Slot(|w.buf|, w.head + 0)] == v;
    forall k | 0 <= k < w'.tail - w'.head
      ensures Contents(w')[k] == Contents(w)[k + 1]
    {
      assert w'.head + k == w.head + (k + 1);
    }
  }

  lemma RingKeeps(w: World, s: Step)
    requires LockOk(w) && RingOk(w) && Enabled(w, s)
    ensures RingOk(Do(w, s))
  {
    if s.Work? {
      WorkKeepsRing(w, s.t);
    } else {
      hide LockOk;
      var w' := Do(w, s);
      assert Contents(w') == Contents(w);
      forall u | 0 <= u < |w'.phase|
        ensures SpotOk(w', w'.phase[u])
      {
        assert SpotOk(w, w.phase[u]);
      }
    }
  }

  lemma JobsKeep(w: World, s: Step, v: u32)
    requires JobsOk(w, v) && Enabled(w, s)
    ensures JobsOk(Do(w, s), v)
  {
    hide Slot, Count, Carriers;
    var w', t := Do(w, s), s.t;
    assert w'.phase == w.phase[t := w'.phase[t]];
    CarriersSet(w.phase, t, w'.phase[t], v);
    if s.Work? && w.phase[t].spot.Fetched? {
      Counted(w.popped, w.phase[t].spot.v, v);
    } else if s.RunJob? {
      Counted(w.ran, w.phase[t].v, v);
    }
  }

  lemma StepKeeps(w: World, s: Step)
    requires Inv(w) && Enabled(w, s) && |w.phase| <= WRAP
    ensures Inv(Do(w, s)) && |Do(w, s).phase| == |w.phase|
  {
    hide LockOk, RingOk, JobsOk;
    LockKeeps(w, s);
    RingKeeps(w, s);
    forall v: u32
      ensures JobsOk(Do(w, s), v)
    {
      JobsKeep(w, s, v);
    }
  }

  // --- Every run ----------------------------------------------------------------------------------------

  predicate IsRun(w: World, steps: seq<Step>)
    decreases |steps|
  {
    steps == [] || (Enabled(w, steps[0]) && IsRun(Do(w, steps[0]), steps[1..]))
  }

  function After(w: World, steps: seq<Step>): World
    requires IsRun(w, steps)
    decreases |steps|
  {
    if steps == [] then w else After(Do(w, steps[0]), steps[1..])
  }

  /** A fresh ring behind a lock whose counters may stand anywhere, with `n` harts outside. */
  predicate Fresh(w: World) {
    && w.serving == w.next == |w.taken| % WRAP && w.served == |w.taken|
    && w.head == w.tail && w.accepted == w.popped == w.ran
    && forall t :: 0 <= t < |w.phase| ==> w.phase[t] == Outside
  }

  lemma {:induction false} NothingCarried(phase: seq<Phase>, v: u32)
    requires forall t :: 0 <= t < |phase| ==> phase[t] == Outside
    ensures Carriers(phase, v) == 0
    decreases |phase|
  {
    if phase != [] {
      NothingCarried(phase[..|phase| - 1], v);
    }
  }

  lemma {:induction false} RunKeeps(w: World, steps: seq<Step>)
    requires Inv(w) && IsRun(w, steps) && |w.phase| <= WRAP
    ensures Inv(After(w, steps))
    decreases |steps|
  {
    hide Inv, Do, Enabled;
    if steps != [] {
      StepKeeps(w, steps[0]);
      RunKeeps(Do(w, steps[0]), steps[1..]);
    }
  }

  lemma Reached(w: World, steps: seq<Step>)
    requires Fresh(w) && IsRun(w, steps) && |w.phase| <= WRAP
    ensures Inv(After(w, steps))
  {
    hide IsRun, After;
    forall v: u32
      ensures JobsOk(w, v)
    {
      NothingCarried(w.phase, v);
    }
    RunKeeps(w, steps);
  }

  /** Mutual exclusion and fairness: at most one hart is inside, and it is the one whose turn it is: as many harts have
      been served as took a ticket before it, across any number of wraps of the counters. */
  lemma LockIsFair(w: World, steps: seq<Step>, t: nat)
    requires Fresh(w) && IsRun(w, steps) && |w.phase| <= WRAP
    requires t < |After(w, steps).phase| && Holding(After(w, steps).phase[t])
    ensures var w' := After(w, steps);
            && w'.served < |w'.taken| && w'.taken[w'.served] == t
            && forall u :: 0 <= u < |w'.phase| && Holding(w'.phase[u]) ==> u == t
  {
    Reached(w, steps);
    hide IsRun, After, Fresh, RingOk, JobsOk;
    var w' := After(w, steps);
    HolderIsFirst(w', t);
    forall u | 0 <= u < |w'.phase| && Holding(w'.phase[u])
      ensures u == t
    {
      Alone(w', t, u);
    }
  }

  /** The shared ring is a queue: values popped so far, then the ring's contents, are the accepted values in order. Every
      value popped has been run once for each time it was popped, or is in the hands of the hart that will run it. */
  lemma QueueIsSequential(w: World, steps: seq<Step>, v: u32)
    requires Fresh(w) && IsRun(w, steps) && |w.phase| <= WRAP
    ensures var w' := After(w, steps);
            && w'.head <= w'.tail && w'.tail - w'.head <= |w'.buf|
            && w'.popped + Contents(w') == w'.accepted
            && Count(w'.ran, v) + Carriers(w'.phase, v) == Count(w'.popped, v)
  {
    Reached(w, steps);
    hide IsRun, After, Fresh, LockOk, Count, Carriers;
    assert JobsOk(After(w, steps), v);
  }

  /** Once the ring is empty and every hart is outside, every accepted job has run exactly as often as it was queued. */
  lemma EveryJobRunsOnce(w: World, steps: seq<Step>, v: u32)
    requires Fresh(w) && IsRun(w, steps) && |w.phase| <= WRAP
    requires var w' := After(w, steps);
             w'.head == w'.tail && forall t :: 0 <= t < |w'.phase| ==> w'.phase[t] == Outside
    ensures Count(After(w, steps).ran, v) == Count(After(w, steps).accepted, v)
  {
    var w' := After(w, steps);
    QueueIsSequential(w, steps, v);
    hide IsRun, After, Fresh, Count;
    NothingCarried(w'.phase, v);
    assert Contents(w') == [];
    assert w'.popped + [] == w'.popped;
  }
}

/** The ticket lock makes progress: whoever waits gets in, after a number of steps that its place in the line bounds. */
module TicketProgress {
  import opened Bytes
  import opened RunQueue
  import opened TicketLock

  /** The one step a hart in the line can take. */
  function Own(w: World, t: nat): Step
    requires t < |w.phase| && Queued(w.phase[t])
  {
    match w.phase[t]
    case Waiting(_, _) => Poll(t)
    case Inside(_, Over(_)) => ReadServing(t)
    case Inside(_, _) => Work(t)
    case Leaving(_, _, _) => WriteServing(t)
  }

  /** At most how many steps a hart whose turn it is takes before it has given the lock back. */
  function Left(p: Phase): nat {
    match p
    case Waiting(_, _) => 5
    case Inside(_, Begun(_)) => 4
    case Inside(_, Stored(_)) => 3
    case Inside(_, Fetched(_)) => 3
    case Inside(_, Over(_)) => 2
    case Leaving(_, _, _) => 1
    case _ => 0
  }

  /** Hart `t` waits at place `k` of the line. */
  ghost predicate WaitsAt(w: World, t: nat, k: nat) {
    && w.served + k < |w.taken| && w.taken[w.served + k] == t && t < |w.phase| && w.phase[t].Waiting?
  }

  /** The hart whose turn it is takes the step. */
  predicate HeadStep(w: World, s: Step) {
    w.served < |w.taken| && w.taken[w.served] == s.t
  }

  /** How many steps of harts whose turn it is separate `t`, at place `k`, from the lock, at most. */
  function Distance(w: World, k: nat): nat
    requires w.served < |w.taken| && w.taken[w.served] < |w.phase|
  {
    if k == 0 then 0 else Left(w.phase[w.taken[w.served]]) + 5 * (k - 1)
  }

  // --- One step -----------------------------------------------------------------------------

  lemma LineAt(w: World, k: nat)
    requires LockOk(w) && w.served + k < |w.taken|
    ensures var t := w.taken[w.served + k];
            && t < |w.phase| && Queued(w.phase[t]) && w.phase[t].ticket == (w.served + k) % WRAP
            && (Holding(w.phase[t]) ==> k == 0) && (k > 0 ==> t != w.taken[w.served])
  {
    assert InLine(w, k);
    assert Line(w)[k] == w.taken[w.served + k] && Line(w)[0] == w.taken[w.served];
  }

  /** A hart in the line can take its own step and no other. */
  lemma OnlyOwn(w: World, s: Step)
    requires Enabled(w, s) && Queued(w.phase[s.t])
    ensures s == Own(w, s.t)
  {
  }

  lemma OwnEnabled(w: World, t: nat)
    requires t < |w.phase| && Queued(w.phase[t])
    ensures Enabled(w, Own(w, t)) && Own(w, t).t == t
  {
  }

  /** The first in the line, polling, gets in. */
  lemma FirstPollsIn(w: World, t: nat)
    requires LockOk(w) && WaitsAt(w, t, 0)
    ensures Enabled(w, Poll(t)) && Do(w, Poll(t)).phase[t] == Inside(w.phase[t].ticket, Begun(w.phase[t].job))
  {
    LineAt(w, 0);
  }

  lemma HeadStepMoves(w: World, s: Step, t: nat, k: nat, k': nat)
    requires WaitsAt(w, t, k) && k > 0 && Enabled(w, s) && HeadStep(w, s) && s.t != t && Queued(w.phase[s.t])
    requires s.Poll? ==> w.serving == w.phase[s.t].ticket
    requires k' == if s.WriteServing? then k - 1 else k
    ensures WaitsAt(Do(w, s), t, k') && Do(w, s).phase[t] == w.phase[t] && Do(w, s).taken == w.taken
    ensures Do(w, s).served == if s.WriteServing? then w.served + 1 else w.served
    ensures !s.WriteServing? ==> Left(Do(w, s).phase[s.t]) < Left(w.phase[s.t])
    ensures |Do(w, s).phase| == |w.phase|
  {
    OnlyOwn(w, s);
    hide Slot;
  }

  /** A step of the hart being served brings whoever waits behind it nearer. */
  lemma HeadStepAdvances(w: World, s: Step, t: nat, k: nat) returns (k': nat)
    requires LockOk(w) && |w.phase| <= WRAP && WaitsAt(w, t, k) && k > 0 && Enabled(w, s) && HeadStep(w, s)
    ensures k' <= k && WaitsAt(Do(w, s), t, k') && Do(w, s).phase[t] == w.phase[t] && LockOk(Do(w, s))
    ensures Do(w, s).taken[Do(w, s).served] < |w.phase| && w.taken[w.served] < |w.phase|
    ensures Distance(Do(w, s), k') < Distance(w, k)
    ensures k' == if s.WriteServing? then k - 1 else k
  {
    LineAt(w, 0);
    LineAt(w, k);
    LockKeeps(w, s);
    k' := if s.WriteServing? then k - 1 else k;
    assert s.Poll? ==> w.serving == w.phase[s.t].ticket;
    hide LockOk, Do;
    HeadStepMoves(w, s, t, k, k');
    LineAt(Do(w, s), 0);
  }

  /** Any other step leaves it where it is. */
  lemma OtherStepKeeps(w: World, s: Step, t: nat, k: nat)
    requires LockOk(w) && |w.phase| <= WRAP && WaitsAt(w, t, k) && Enabled(w, s) && !HeadStep(w, s)
    ensures WaitsAt(Do(w, s), t, k) && Do(w, s).phase[t] == w.phase[t] && LockOk(Do(w, s))
    ensures Do(w, s).taken[Do(w, s).served] < |w.phase| && w.taken[w.served] < |w.phase|
    ensures Distance(Do(w, s), k) == Distance(w, k)
  {
    LineAt(w, 0);
    LineAt(w, k);
    LockKeeps(w, s);
    if Holding(w.phase[s.t]) {
      HolderIsFirst(w, s.t);
    }
    if s.t == t {
      assert Line(w)[k] == t && InLine(w, k);
      if w.serving == w.phase[t].ticket {
        ServedIsFirst(w, k);
      }
    }
  }

  // --- Runs -----------------------------------------------------------------------------------

  /** Only harts up to place `k` of the line take a step, and none takes a new ticket. */
  ghost predicate OwnSteps(w: World, k: nat, steps: seq<Step>) {
    forall i :: 0 <= i < |steps| ==>
      !steps[i].Take? && exists j :: w.served <= j <= w.served + k && j < |w.taken| && w.taken[j] == steps[i].t
  }

  /** If the harts ahead of it just go on, a waiting hart gets in. */
  lemma {:induction false} DrainsTo(w: World, t: nat, k: nat) returns (steps: seq<Step>)
    requires LockOk(w) && |w.phase| <= WRAP && WaitsAt(w, t, k)
    ensures w.taken[w.served] < |w.phase| && |steps| <= Distance(w, k) + 1 && IsRun(w, steps) && OwnSteps(w, k, steps)
    ensures t < |After(w, steps).phase|
    ensures After(w, steps).phase[t] == Inside(w.phase[t].ticket, Begun(w.phase[t].job))
    decreases if w.served < |w.taken| && w.taken[w.served] < |w.phase| then Distance(w, k) else 0
  {
    LineAt(w, 0);
    var u := w.taken[w.served];
    OwnEnabled(w, u);
    var s := Own(w, u);
    if k == 0 {
      FirstPollsIn(w, t);
      steps := [s];
      assert steps[1..] == [];
      assert w.taken[w.served] == s.t;
    } else {
      var k' := HeadStepAdvances(w, s, t, k);
      hide LockOk, Own, Do;
      var rest := DrainsTo(Do(w, s), t, k');
      steps := [s] + rest;
      assert steps[1..] == rest;
      StepsBy(w, s, k, k', rest);
    }
  }

  lemma StepsBy(w: World, s: Step, k: nat, k': nat, rest: seq<Step>)
    requires w.served + k < |w.taken| && w.taken[w.served] == s.t && Enabled(w, s) && !s.Take? && k >= k'
    requires k' == (if s.WriteServing? then k - 1 else k) && OwnSteps(Do(w, s), k', rest)
    ensures OwnSteps(w, k, [s] + rest)
  {
    var w', steps := Do(w, s), [s] + rest;
    assert w'.taken == w.taken && w'.served + k' == w.served + k && w.served <= w'.served;
    forall i | 0 <= i < |steps|
      ensures !steps[i].Take? && exists j :: w.served <= j <= w.served + k && j < |w.taken| && w.taken[j] == steps[i].t
    {
      if i == 0 {
        assert w.taken[w.served] == steps[i].t;
      } else {
        assert steps[i] == rest[i - 1];
        var j :| w'.served <= j <= w'.served + k' && j < |w'.taken| && w'.taken[j] == rest[i - 1].t;
        assert w.taken[j] == steps[i].t;
      }
    }
  }

  /** How many steps of the run were taken by the hart whose turn it was. */
  ghost function HeadSteps(w: World, steps: seq<Step>): nat
    requires IsRun(w, steps)
    decreases |steps|
  {
    if steps == [] then 0 else HeadSteps(Do(w, steps[0]), steps[1..]) + if HeadStep(w, steps[0]) then 1 else 0
  }

  /** `t` waits all through the run. */
  ghost predicate KeepsWaiting(w: World, steps: seq<Step>, t: nat)
    requires IsRun(w, steps)
    decreases |steps|
  {
    && t < |w.phase| && w.phase[t].Waiting?
    && (steps != [] ==> KeepsWaiting(Do(w, steps[0]), steps[1..], t))
  }

  lemma {:induction false} HeadStepsBounded(w: World, steps: seq<Step>, t: nat, k: nat)
    requires LockOk(w) && |w.phase| <= WRAP && WaitsAt(w, t, k) && IsRun(w, steps) && KeepsWaiting(w, steps, t)
    ensures w.taken[w.served] < |w.phase| && HeadSteps(w, steps) <= Distance(w, k)
    decreases |steps|
  {
    LineAt(w, 0);
    if steps != [] {
      var s, w' := steps[0], Do(w, steps[0]);
      if !HeadStep(w, s) {
        OtherStepKeeps(w, s, t, k);
        SameHarts(w, s);
        hide LockOk, Do;
        HeadStepsBounded(w', steps[1..], t, k);
      } else if k == 0 {
        OnlyOwn(w, s);
        FirstPollsIn(w, t);
      } else {
        var k' := HeadStepAdvances(w, s, t, k);
        SameHarts(w, s);
        hide LockOk, Do;
        HeadStepsBounded(w', steps[1..], t, k');
      }
    }
  }

  lemma SameHarts(w: World, s: Step)
    requires Enabled(w, s)
    ensures |Do(w, s).phase| == |w.phase|
  {
  }

  lemma {:induction false} HartsStay(w: World, steps: seq<Step>)
    requires IsRun(w, steps)
    ensures |After(w, steps).phase| == |w.phase|
    decreases |steps|
  {
    hide Do, Enabled;
    if steps != [] {
      SameHarts(w, steps[0]);
      HartsStay(Do(w, steps[0]), steps[1..]);
    }
  }

  // --- Theorems ---------------------------------------------------------------------------------

  /** In every reachable world with a line, the first in it holds the lock or is let in by its next poll; nobody behind it
      is let in by polling. */
  lemma FirstGetsIn(w: World, steps: seq<Step>)
    requires Fresh(w) && IsRun(w, steps) && |w.phase| <= WRAP
    ensures var w' := After(w, steps);
            && w'.served <= |w'.taken|
            && (w'.served < |w'.taken| ==>
                  var t := w'.taken[w'.served];
                  && t < |w'.phase|
                  && (Holding(w'.phase[t]) || (w'.phase[t].Waiting? && Do(w', Poll(t)).phase[t].Inside?)))
            && forall k: nat, t: nat :: k > 0 && WaitsAt(w', t, k) ==> Do(w', Poll(t)) == w'
  {
    Reached(w, steps);
    HartsStay(w, steps);
    hide IsRun, After, Fresh, RingOk, JobsOk;
    var w' := After(w, steps);
    if w'.served < |w'.taken| {
      LineAt(w', 0);
      if w'.phase[w'.taken[w'.served]].Waiting? {
        FirstPollsIn(w', w'.taken[w'.served]);
      }
    }
    forall k: nat, t: nat | k > 0 && WaitsAt(w', t, k)
      ensures Do(w', Poll(t)) == w'
    {
      assert Line(w')[k] == t && InLine(w', k);
      if w'.serving == w'.phase[t].ticket {
        ServedIsFirst(w', k);
      }
    }
  }

  /** From every reachable world a waiting hart gets the lock if the harts ahead of it go on: there is a run of at most
      5k + 1 of their steps and its own, where `k` is how many are ahead. */
  lemma EveryHartGetsIn(w: World, run: seq<Step>, t: nat) returns (k: nat, steps: seq<Step>)
    requires Fresh(w) && IsRun(w, run) && |w.phase| <= WRAP
    requires t < |After(w, run).phase| && After(w, run).phase[t].Waiting?
    ensures var w' := After(w, run);
            && WaitsAt(w', t, k) && k < |w.phase| && |steps| <= 5 * k + 1 && IsRun(w', steps) && OwnSteps(w', k, steps)
            && t < |After(w', steps).phase|
            && After(w', steps).phase[t] == Inside(w'.phase[t].ticket, Begun(w'.phase[t].job))
  {
    Reached(w, run);
    HartsStay(w, run);
    var w' := After(w, run);
    k := PlaceOf(w', t);
    hide IsRun, After, Fresh, LockOk, RingOk, JobsOk, Own, Do;
    assert LockOk(w');
    steps := DrainsTo(w', t, k);
  }

  lemma PlaceOf(w: World, t: nat) returns (k: nat)
    requires LockOk(w) && t < |w.phase| && w.phase[t].Waiting?
    ensures WaitsAt(w, t, k) && k < |w.phase|
  {
    k :| 0 <= k < |Line(w)| && Line(w)[k] == t;
    forall i | 0 <= i < |Line(w)|
      ensures Line(w)[i] < |w.phase|
    {
      assert InLine(w, i);
    }
    Pigeonhole(Line(w), |w.phase|);
  }

  /** However the harts interleave, a hart with `k` ahead of it does not wait through more than 5k steps of the harts whose
      turn it is. */
  lemma NobodyWaitsLonger(w: World, run: seq<Step>, steps: seq<Step>, t: nat, k: nat)
    requires Fresh(w) && IsRun(w, run) && |w.phase| <= WRAP && WaitsAt(After(w, run), t, k)
    requires IsRun(After(w, run), steps) && KeepsWaiting(After(w, run), steps, t)
    ensures HeadSteps(After(w, run), steps) <= 5 * k
  {
    Reached(w, run);
    HartsStay(w, run);
    var w' := After(w, run);
    hide IsRun, After, Fresh, LockOk, RingOk, JobsOk, Do;
    assert LockOk(w');
    HeadStepsBounded(w', steps, t, k);
  }

  // --- What the holder finds -----------------------------------------------------------------------

  /** What a push that has just got in finds: refused exactly if the ring is full, and otherwise appended. */
  ghost predicate PushAnswered(w: World, t: nat, v: u32) {
    && t < |w.phase| && w.phase[t].Inside? && w.phase[t].spot == Begun(PushJob(v))
    && w.head <= w.tail <= w.head + |w.buf|
    && var w2 := Do(w, Work(t));
       if |Contents(w)| == |w.buf| then w2 == w.(phase := w.phase[t := Inside(w.phase[t].ticket, Over(None))])
       else
         && w2.phase[t] == Inside(w.phase[t].ticket, Stored(v))
         && var w3 := Do(w2, Work(t));
            && w3.phase[t] == Inside(w.phase[t].ticket, Over(None)) && w3.accepted == w.accepted + [v]
            && w3.head <= w3.tail <= w3.head + |w3.buf| && Contents(w3) == Contents(w) + [v]
  }

  /** A pop finds nothing exactly if the ring is empty, and otherwise takes the oldest value. */
  ghost predicate PopAnswered(w: World, t: nat) {
    && t < |w.phase| && w.phase[t].Inside? && w.phase[t].spot == Begun(PopJob)
    && w.head <= w.tail <= w.head + |w.buf|
    && var w2 := Do(w, Work(t));
       if Contents(w) == [] then w2 == w.(phase := w.phase[t := Inside(w.phase[t].ticket, Over(None))])
       else
         && w2.phase[t] == Inside(w.phase[t].ticket, Fetched(Contents(w)[0]))
         && var w3 := Do(w2, Work(t));
            && w3.phase[t] == Inside(w.phase[t].ticket, Over(Some(Contents(w)[0])))
            && w3.popped == w.popped + [Contents(w)[0]]
            && w3.head <= w3.tail <= w3.head + |w3.buf| && Contents(w3) == Contents(w)[1..]
  }

  lemma PushIsAnswered(w: World, t: nat, v: u32)
    requires RingOk(w) && t < |w.phase| && w.phase[t].Inside? && w.phase[t].spot == Begun(PushJob(v))
    ensures PushAnswered(w, t, v)
  {
    hide Slot;
    var w2 := Do(w, Work(t));
    if w.tail < w.head + |w.buf| {
      StoredContents(w, w2, v);
      var w3 := Do(w2, Work(t));
      assert Contents(w3) == Contents(w2) + [v];
    }
  }

  lemma PopIsAnswered(w: World, t: nat)
    requires RingOk(w) && t < |w.phase| && w.phase[t].Inside? && w.phase[t].spot == Begun(PopJob)
    ensures PopAnswered(w, t)
  {
    hide Slot;
    var w2 := Do(w, Work(t));
    if w.head < w.tail {
      assert Contents(w)[0] == w.buf[Slot(|w.buf|, w.head + 0)];
      assert Contents(w2) == Contents(w);
      var w3 := Do(w2, Work(t));
      FetchedContents(w2, w3, Contents(w)[0]);
      assert Contents(w3) == Contents(w)[1..];
    }
  }

  /** In every reachable world. */
  lemma HolderIsAnswered(w: World, run: seq<Step>, t: nat)
    requires Fresh(w) && IsRun(w, run) && |w.phase| <= WRAP
    requires t < |After(w, run).phase| && After(w, run).phase[t].Inside? && After(w, run).phase[t].spot.Begun?
    ensures match After(w, run).phase[t].spot.job
            case PushJob(v) => PushAnswered(After(w, run), t, v)
            case PopJob => PopAnswered(After(w, run), t)
  {
    Reached(w, run);
    hide IsRun, After, Fresh, JobsOk, LockOk, RingOk, PushAnswered, PopAnswered;
    match After(w, run).phase[t].spot.job
    case PushJob(v) => PushIsAnswered(After(w, run), t, v);
    case PopJob => PopIsAnswered(After(w, run), t);
  }
}

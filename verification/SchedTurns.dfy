/** Round robin: a task that could run is not passed over for long. */
module SchedTurns {
  import opened Bytes
  import opened SchedTable
  import opened SchedSteps

  /** How many tasks come before `i` if one starts after the task the hart ran last. */
  function Gap(current: Option<Tid>, i: Tid): (n: nat)
    ensures n < MAX_TASKS
  {
    match current
    case None => i
    case Some(c) => if i > c then i - c - 1 else i + MAX_TASKS - c - 1
  }

  lemma GapScanned(tb: Table, h: Hart, k: nat)
    requires k < MAX_TASKS
    ensures Gap(tb.current[h], Scanned(tb, h, k)) == k
  {
  }

  lemma {:induction false} PickFromIsFirst(cfg: Config, tb: Table, h: Hart, off: nat, k: nat)
    requires off <= k < MAX_TASKS && Eligible(cfg, tb, h, Scanned(tb, h, k))
    ensures PickFrom(cfg, tb, h, off).Some? && Gap(tb.current[h], PickFrom(cfg, tb, h, off).value) <= k
    decreases k - off
  {
    hide Eligible, Scanned, Gap;
    GapScanned(tb, h, off);
    if !Eligible(cfg, tb, h, Scanned(tb, h, off)) {
      PickFromIsFirst(cfg, tb, h, off + 1, k);
    }
  }

  /** The search takes the first eligible task after the one the hart ran last. */
  lemma PickIsNearest(cfg: Config, tb: Table, h: Hart, i: Tid)
    requires Eligible(cfg, tb, h, i)
    ensures Pick(cfg, tb, h).Some? && Gap(tb.current[h], Pick(cfg, tb, h).value) <= Gap(tb.current[h], i)
  {
    hide Eligible, PickFrom;
    var k := Gap(tb.current[h], i);
    assert Scanned(tb, h, k) == i;
    PickFromIsFirst(cfg, tb, h, 0, k);
  }

  /** Whoever is passed over is nearer when the hart searches again after running the task it took instead. */
  lemma PassedOverIsNearer(current: Option<Tid>, i: Tid, j: Tid)
    requires i != j && Gap(current, j) <= Gap(current, i)
    ensures Gap(Some(j), i) < Gap(current, i)
  {
  }

  /** So no task is taken twice in a row while another is eligible. */
  lemma NotTwiceInARow(cfg: Config, tb: Table, h: Hart, i: Tid, j: Tid)
    requires tb.current[h] == Some(j) && i != j && Eligible(cfg, tb, h, i)
    ensures Pick(cfg, tb, h) != Some(j)
  {
    hide Eligible, Pick;
    PickIsNearest(cfg, tb, h, i);
  }

  // --- Over runs ------------------------------------------------------------------------------

  predicate SearchStep(s: Step, h: Hart) {
    s == Dispatch(h) || s == Enter(h)
  }

  /** Whenever hart `h` looks for a task, `i` could run there; and it is never the one taken. */
  ghost predicate PassedOver(cfg: Config, w: World, steps: seq<Step>, h: Hart, i: Tid)
    requires IsRun(cfg, w, steps)
    decreases |steps|
  {
    steps != [] ==>
      && (SearchStep(steps[0], h) ==>
            Eligible(cfg, ExpireAll(w).tb, h, i) && Do(cfg, w, steps[0]).tb.current[h] != Some(i))
      && PassedOver(cfg, Do(cfg, w, steps[0]), steps[1..], h, i)
  }

  ghost function Searches(steps: seq<Step>, h: Hart): nat {
    if steps == [] then 0 else Searches(steps[1..], h) + if SearchStep(steps[0], h) then 1 else 0
  }

  /** Only a search of its own changes what a hart ran last; the console may start a task on the boot hart. */
  lemma ClaimStays(cfg: Config, w: World, s: Step, h: Hart)
    requires Enabled(cfg, w, s) && !SearchStep(s, h) && !s.StartAt?
    ensures Do(cfg, w, s).tb.current[h] == w.tb.current[h]
  {
    hide ServeCall, Pick, ClearMailbox;
    if s.Serve? {
      ServeKeepsClaims(w, s.h, w.phase[s.h].task, w.phase[s.h].caps, s.user);
    }
  }

  lemma ServeKeepsClaims(w: World, h: Hart, i: Tid, caps: nat, user: seq<byte>)
    requires |user| == 64
    ensures ServeCall(w, h, i, caps, user).tb.current == w.tb.current
  {
    hide SendRefused, MessageOf, Enqueue, Receive, PlainResult;
  }

  lemma SearchTakes(cfg: Config, w: World, s: Step, h: Hart, i: Tid)
    requires Enabled(cfg, w, s) && SearchStep(s, h) && Eligible(cfg, ExpireAll(w).tb, h, i)
    requires Do(cfg, w, s).tb.current[h] != Some(i)
    ensures Gap(Do(cfg, w, s).tb.current[h], i) < Gap(w.tb.current[h], i)
  {
    hide Eligible, PickFrom, Gap, Expire;
    var tb := ExpireAll(w).tb;
    assert tb.current == w.tb.current by { ExpireKeepsClaims(w.tb); }
    PickIsNearest(cfg, tb, h, i);
    PassedOverIsNearer(w.tb.current[h], i, Pick(cfg, tb, h).value);
  }

  lemma ExpireKeepsClaims(tb: Table)
    ensures Expire(tb).current == tb.current
  {
  }

  lemma {:induction false} SearchesBounded(cfg: Config, w: World, steps: seq<Step>, h: Hart, i: Tid)
    requires IsRun(cfg, w, steps) && PassedOver(cfg, w, steps, h, i)
    requires forall k :: 0 <= k < |steps| ==> !steps[k].StartAt?
    ensures Searches(steps, h) <= Gap(w.tb.current[h], i)
    decreases |steps|
  {
    hide Do, Enabled, Eligible, Gap, ExpireAll;
    if steps != [] {
      var s := steps[0];
      if SearchStep(s, h) {
        SearchTakes(cfg, w, s, h, i);
      } else {
        ClaimStays(cfg, w, s, h);
      }
      SearchesBounded(cfg, Do(cfg, w, s), steps[1..], h, i);
    }
  }

  /** A task that hart `h` could run every time it looks for one is taken by its fourth search at the latest, whatever the
      other harts do, unless the console starts a run in between. */
  lemma NobodyStarves(cfg: Config, w: World, steps: seq<Step>, h: Hart, i: Tid)
    requires IsRun(cfg, w, steps) && PassedOver(cfg, w, steps, h, i)
    requires forall k :: 0 <= k < |steps| ==> !steps[k].StartAt?
    ensures Searches(steps, h) < MAX_TASKS
  {
    hide IsRun, PassedOver, Searches;
    SearchesBounded(cfg, w, steps, h, i);
  }
}

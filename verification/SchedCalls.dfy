/** What a system call answers: the registers a task finds when its call returns, in every reachable state. Call numbers
    and capability bits are given by value. */
module SchedCalls {
  import opened Bytes
  import opened Bits
  import opened SchedTable
  import opened SchedSteps
  import opened SchedSafety
  import opened SchedJoin
  import opened SchedTheorems

  predicate MayPrint(caps: nat) {
    caps % 2 == 1
  }

  predicate MayReadTime(caps: nat) {
    caps / 2 % 2 == 1
  }

  predicate MayTalk(caps: nat) {
    caps / 4 % 2 == 1
  }

  /** Hart `h` is about to carry out call `number` of task `i`. */
  predicate Calls(w: World, h: Hart, i: Tid, number: nat) {
    w.phase[h].Serving? && w.phase[h].task == i && w.tb.tasks[i].frame.a7 == number
  }

  /** No other task changes, nor what has been sent to it. */
  ghost predicate OthersKeep(w: World, w': World, i: Tid) {
    && (forall j: Tid :: j != i ==> w'.tb.tasks[j] == w.tb.tasks[j] && w'.hist[j] == w.hist[j])
    && w'.tb.current == w.tb.current && w'.tb.ticks == w.tb.ticks && w'.tb.extIrqs == w.tb.extIrqs
  }

  /** The call returns with `frame` and the rest of the task as it was. */
  ghost predicate Answers(w: World, w': World, h: Hart, i: Tid, frame: Frame) {
    w'.phase[h] == User(i) && w'.tb.tasks[i] == w.tb.tasks[i].(frame := frame) && OthersKeep(w, w', i)
  }

  lemma CapsInForce(cfg: Config, w: World, h: Hart)
    requires Inv(cfg, w) && w.phase[h].Serving?
    ensures w.phase[h].caps == w.tb.tasks[w.phase[h].task].caps
  {
    assert HartOk(cfg, w, h);
  }

  lemma NextMessage(x: History, t: Task, origin: nat)
    requires MailOk(t, x, origin) && t.mbox != []
    ensures |x.received| < |x.accepted| && x.accepted[|x.received|].msg == t.mbox[0]
    ensures x.accepted[|x.received|].held == t.mbox[0].senderCaps
  {
    hide Within;
    var n := |x.received|;
    assert Messages(x.accepted)[n] == (x.received + t.mbox)[n] == t.mbox[0];
    assert Attested(x.accepted[n]);
  }

  /** A receive by a task with mail, in every reachable state: it returns with the oldest message not yet received. The
      registers hold how much of it fits the buffer, who sent it, its word, and the capabilities its sender held when it
      sent it; the receiver gains exactly the capabilities granted. */
  lemma ReceiveDelivers(cfg: Config, w: World, steps: seq<Step>, h: Hart, i: Tid, number: nat, user: seq<byte>)
    requires cfg.kernelSatp != 0 && Idle(w) && Orderly(cfg, w, Shut, steps)
    requires Calls(End(cfg, w, steps), h, i, number) && (number == 7 || number == 9) && |user| == 64
    requires MayTalk(End(cfg, w, steps).tb.tasks[i].caps) && End(cfg, w, steps).tb.tasks[i].mbox != []
    ensures var w1 := End(cfg, w, steps);
            var w2 := Do(cfg, w1, Serve(h, user));
            var t, x := w1.tb.tasks[i], w1.hist[i];
            && |x.received| < |x.accepted|
            && var sent := x.accepted[|x.received|];
               var t' := w2.tb.tasks[i];
               && t'.frame.a0 == (if |sent.msg.data| <= t.frame.a1 then |sent.msg.data| else t.frame.a1)
               && t'.frame.a1 == sent.msg.from && t'.frame.a2 == sent.msg.word && t'.frame.a3 == sent.held
               && t'.frame.(a0 := 0, a1 := 0, a2 := 0, a3 := 0) == t.frame.(a0 := 0, a1 := 0, a2 := 0, a3 := 0)
               && t'.caps == Or(t.caps, sent.msg.grant) && t'.mbox == t.mbox[1..]
               && t' == t.(frame := t'.frame, caps := t'.caps, mbox := t'.mbox)
               && w2.hist[i].received == x.received + [sent.msg] && w2.hist[i].accepted == x.accepted
               && w2.phase[h] == User(i) && OthersKeep(w1, w2, i)
  {
    Reached(cfg, w, steps);
    hide Idle, Orderly, End, Conserved, Within, And, Or, CallOk, CapsOk;
    var w1 := End(cfg, w, steps);
    CapsInForce(cfg, w1, h);
    assert TaskOk(w1, i);
    NextMessage(w1.hist[i], w1.tb.tasks[i], w1.origin);
    BitHeld(w1.tb.tasks[i].caps);
  }

  /** A receive without the capability is refused. With it and without mail a plain one parks; one with a timeout parks
      until that has passed, and one whose timeout is 0 says so at once. */
  lemma ReceiveWaits(cfg: Config, w: World, steps: seq<Step>, h: Hart, i: Tid, number: nat, user: seq<byte>)
    requires cfg.kernelSatp != 0 && Idle(w) && Orderly(cfg, w, Shut, steps)
    requires Calls(End(cfg, w, steps), h, i, number) && (number == 7 || number == 9) && |user| == 64
    ensures var w1 := End(cfg, w, steps);
            var w2 := Do(cfg, w1, Serve(h, user));
            var t, t' := w1.tb.tasks[i], w2.tb.tasks[i];
            && (!MayTalk(t.caps) ==> Answers(w1, w2, h, i, t.frame.(a0 := 0xFFFF_FFFF_FFFF_FFFF)))
            && (MayTalk(t.caps) && t.mbox == [] ==>
                  if number == 9 && t.frame.a2 == 0 then Answers(w1, w2, h, i, t'.frame) && TimedOutFrame(t'.frame, t.frame)
                  else
                    && t'.state == Blocked && t'.frame == t.frame.(pc := t'.frame.pc) && t'.frame.pc + 4 == t.frame.pc
                    && w2.phase[h] == Resched && OthersKeep(w1, w2, i)
                    && w2.hist[i].call.Some? && w2.hist[i].call.value.since == w1.tb.ticks
                    && (number == 9 ==> t'.recvWaiting && Soonest(t'.deadline, w1.tb.ticks + t.frame.a2)))
  {
    Reached(cfg, w, steps);
    hide Idle, Orderly, End, Conserved, Within, And, Or, MailOk, CapsOk;
    var w1 := End(cfg, w, steps);
    CapsInForce(cfg, w1, h);
    assert HartOk(cfg, w1, h);
    assert TaskOk(w1, i);
    BitHeld(w1.tb.tasks[i].caps);
  }

  /** The lesser of `n` and the largest machine word. */
  predicate Soonest(x: nat, n: nat) {
    x <= n && x <= 0xFFFF_FFFF_FFFF_FFFF && (x == n || x == 0xFFFF_FFFF_FFFF_FFFF)
  }

  /** `f` with a timeout reported: status 3, no sender, and a word of protocol 0xD1 that says operation 2 of service 0 ended
      with that status. */
  predicate TimedOutFrame(f: Frame, was: Frame) {
    && f.a0 == 3 && f.a1 == 0xFFFF_FFFF_FFFF_FFFF
    && f.a2 == 0xD1 * 0x100_0000_0000_0000 + 0 * 0x1_0000_0000_0000 + 2 * 0x100_0000_0000 + 0 * 0x100_0000 + 3 * 0x1_0000 + 0
    && f.(a0 := 0, a1 := 0, a2 := 0, pc := 0) == was.(a0 := 0, a1 := 0, a2 := 0, pc := 0)
  }

  /** A receive parked with a timeout, at a scan for deadlines: once the ticks it asked for have gone by since it was
      parked, it returns and reports the timeout; before that the scan leaves it alone. */
  lemma TimeoutIsReported(cfg: Config, w: World, steps: seq<Step>, i: Tid)
    requires cfg.kernelSatp != 0 && Idle(w) && Orderly(cfg, w, Shut, steps)
    requires var w1 := End(cfg, w, steps); w1.tb.tasks[i].state == Blocked && w1.tb.tasks[i].frame.a7 == 9
    ensures var w1 := End(cfg, w, steps);
            var t, t', call := w1.tb.tasks[i], ExpireAll(w1).tb.tasks[i], w1.hist[i].call;
            && call.Some?
            && if call.value.since + t.frame.a2 <= w1.tb.ticks || 0xFFFF_FFFF_FFFF_FFFF <= w1.tb.ticks
               then t'.state == Ready && TimedOutFrame(t'.frame, t.frame) && t'.frame.pc == t.frame.pc + 4 && t'.caps == t.caps
               else t' == t
  {
    Reached(cfg, w, steps);
    hide Idle, Orderly, End, Conserved, MailOk, CapsOk, HartOk;
    assert TaskOk(End(cfg, w, steps), i);
  }

  predicate Alive(s: TaskState) {
    s == Ready || s == Blocked
  }

  /** `i` has sent `sent` to `to`, which may be itself. */
  ghost predicate Posts(w: World, w': World, h: Hart, i: Tid, to: Tid, sent: Sent) {
    var t, t' := w.tb.tasks[to], w'.tb.tasks[to];
    && w'.hist[to].accepted == w.hist[to].accepted + [sent] && t'.mbox == t.mbox + [sent.msg]
    && t'.state == (if t.state == Blocked then Ready else t.state) && t'.caps == t.caps
    && (t.state == Blocked ==> !t'.recvWaiting) && (to != i ==> t'.frame == t.frame)
    && w'.tb.tasks[i].frame == w.tb.tasks[i].frame.(a0 := 0) && w'.tb.tasks[i].state == w.tb.tasks[i].state
    && w'.phase[h] == User(i)
    && (forall j: Tid :: j != i && j != to ==> w'.tb.tasks[j] == w.tb.tasks[j] && w'.hist[j] == w.hist[j])
  }

  lemma SendRefuses(w: World, h: Hart, i: Tid, caps: nat, user: seq<byte>)
    requires |user| == 64 && SendRefused(w.tb.tasks, w.tb.tasks[i].frame, caps).Some?
    ensures var w' := ServeSend(w, h, i, caps, user);
            && Answers(w, w', h, i, w.tb.tasks[i].frame.(a0 := 0xFFFF_FFFF_FFFF_FFFF))
            && w'.hist[i].accepted == w.hist[i].accepted
  {
    hide And, SendRefused;
  }

  lemma SendGoesThrough(w: World, h: Hart, i: Tid, caps: nat, user: seq<byte>)
    requires |user| == 64 && SendRefused(w.tb.tasks, w.tb.tasks[i].frame, caps).None?
    requires w.tb.tasks[i].state == Ready && caps == w.tb.tasks[i].caps
    ensures w.tb.tasks[i].frame.a0 < MAX_TASKS
    ensures Posts(w, ServeSend(w, h, i, caps, user), h, i, w.tb.tasks[i].frame.a0,
                  Sent(MessageOf(i, w.tb.tasks[i].frame, caps, user), caps))
  {
    hide And, MessageOf;
    if w.tb.tasks[i].frame.a0 == i {
      assert w.tb.tasks[i].state != Blocked;
    }
  }

  /** A send is refused without the capability, to a task that is not alive, or to one whose mailbox is full, and then
      nothing is sent. Otherwise the receiver's queue gains one message that says who sent it, with what word, bytes and
      capabilities; it grants what the sender asked to grant and itself holds; and a receiver that was parked can run. */
  lemma SendPosts(cfg: Config, w: World, steps: seq<Step>, h: Hart, i: Tid, user: seq<byte>)
    requires cfg.kernelSatp != 0 && Idle(w) && Orderly(cfg, w, Shut, steps)
    requires Calls(End(cfg, w, steps), h, i, 6) && |user| == 64
    ensures var w1 := End(cfg, w, steps);
            var w2 := Do(cfg, w1, Serve(h, user));
            var f, caps := w1.tb.tasks[i].frame, w1.tb.tasks[i].caps;
            if !MayTalk(caps) || f.a0 >= 4 || !Alive(w1.tb.tasks[f.a0].state) || |w1.tb.tasks[f.a0].mbox| == 4
            then Answers(w1, w2, h, i, f.(a0 := 0xFFFF_FFFF_FFFF_FFFF)) && w2.hist[i].accepted == w1.hist[i].accepted
            else
              var m := Message(i, And(f.a3, caps), caps, f.a4, if f.a2 < 64 then user[..f.a2] else user);
              Posts(w1, w2, h, i, f.a0, Sent(m, caps))
  {
    Reached(cfg, w, steps);
    hide Idle, Orderly, End, Conserved, Within, And, Or, MailOk, CapsOk, CallOk, ServeSend, Resume;
    var w1 := End(cfg, w, steps);
    CapsInForce(cfg, w1, h);
    assert HartOk(cfg, w1, h);
    BitHeld(w1.tb.tasks[i].caps);
    assert user[..64] == user;
    hide Posts, OthersKeep, Inv;
    if SendRefused(w1.tb.tasks, w1.tb.tasks[i].frame, w1.tb.tasks[i].caps).Some? {
      SendRefuses(w1, h, i, w1.tb.tasks[i].caps, user);
    } else {
      SendGoesThrough(w1, h, i, w1.tb.tasks[i].caps, user);
    }
  }

  /** The calls that only answer, by number: print (1), uptime (2), null (4), report (5), print a number (8), and every
      number that is no call. */
  lemma PlainCallsAnswer(cfg: Config, w: World, steps: seq<Step>, h: Hart, i: Tid, number: nat, user: seq<byte>)
    requires cfg.kernelSatp != 0 && Idle(w) && Orderly(cfg, w, Shut, steps)
    requires Calls(End(cfg, w, steps), h, i, number) && |user| == 64
    requires number in {1, 2, 4, 5, 8} || number > 10
    ensures var w1 := End(cfg, w, steps);
            var t := w1.tb.tasks[i];
            Answers(w1, Do(cfg, w1, Serve(h, user)), h, i, t.frame.(a0 :=
              if number == 1 && MayPrint(t.caps) then 0
              else if number == 2 && MayReadTime(t.caps) then w1.tb.ticks
              else if number == 4 then t.frame.a0
              else if number == 5 || number == 8 then 0
              else 0xFFFF_FFFF_FFFF_FFFF))
  {
    Reached(cfg, w, steps);
    hide Idle, Orderly, End, Conserved, Within, And, Or, MailOk, CapsOk, CallOk;
    var w1 := End(cfg, w, steps);
    CapsInForce(cfg, w1, h);
    BitHeld(w1.tb.tasks[i].caps);
  }

  /** Yield (3) gives the hart up and leaves the task runnable; exit (0) ends it; waiting for an interrupt (10) returns the
      count if it is not the one the task has seen, and parks otherwise. */
  lemma ControlCallsAnswer(cfg: Config, w: World, steps: seq<Step>, h: Hart, i: Tid, number: nat, user: seq<byte>)
    requires cfg.kernelSatp != 0 && Idle(w) && Orderly(cfg, w, Shut, steps)
    requires Calls(End(cfg, w, steps), h, i, number) && |user| == 64 && number in {0, 3, 10}
    ensures var w1 := End(cfg, w, steps);
            var w2 := Do(cfg, w1, Serve(h, user));
            var t, t' := w1.tb.tasks[i], w2.tb.tasks[i];
            && OthersKeep(w1, w2, i)
            && if number == 10 && w1.tb.extIrqs != t.frame.a0 then Answers(w1, w2, h, i, t.frame.(a0 := w1.tb.extIrqs))
               else
                 && w2.phase[h] == Resched
                 && if number == 10 then t' == t.(frame := t.frame.(pc := t'.frame.pc), state := Blocked, irqWaiting := true)
                                      && t'.frame.pc + 4 == t.frame.pc
                    else t' == t.(state := if number == 0 then Done else Ready)
  {
    Reached(cfg, w, steps);
    hide Idle, Orderly, End, Conserved, Within, And, Or, MailOk, CapsOk;
    var w1 := End(cfg, w, steps);
    CapsInForce(cfg, w1, h);
    assert HartOk(cfg, w1, h);
    assert TaskOk(w1, i);
  }
}

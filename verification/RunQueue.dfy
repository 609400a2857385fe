/** The bounded ring, as code, and the loop that drains it. */
module RunQueue {
  import opened Bytes
  import opened Arithmetic

  type u32 = n: nat | n < 0x1_0000_0000

  class Ring {
    const buf: array<u32>
    var head: nat
    var tail: nat

    ghost predicate Valid()
      reads this
    {
      head <= tail && tail - head <= buf.Length
    }

    /** The items waiting to be popped, oldest first. */
    ghost function Contents(): (s: seq<u32>)
      requires Valid()
      reads this, buf
      ensures |s| == tail - head
    {
      seq(tail - head, k requires 0 <= k < tail - head && Valid() reads this, buf => buf[Slot(buf.Length, head + k)])
    }

    constructor (n: nat)
      ensures Valid() && fresh(buf) && buf.Length == n && Contents() == []
    {
      buf := new u32[n](_ => 0);
      head, tail := 0, 0;
    }

    method Len() returns (n: nat)
      requires Valid()
      ensures n == |Contents()|
    {
      return tail - head;
    }

    method IsEmpty() returns (b: bool)
      requires Valid()
      ensures b <==> Contents() == []
    {
      return head == tail;
    }

    method IsFull() returns (b: bool)
      requires Valid()
      ensures b <==> |Contents()| == buf.Length
    {
      var n := Len();
      return n >= buf.Length;
    }

    /** Nothing is overwritten: a full ring refuses. */
    method Push(value: u32) returns (ok: bool)
      requires Valid()
      modifies buf, `tail
      ensures Valid() && (ok <==> |old(Contents())| < buf.Length)
      ensures Contents() == if ok then old(Contents()) + [value] else old(Contents())
    {
      var full := IsFull();
      if full {
        return false;
      }
      hide Slot;
      buf[Slot(buf.Length, tail)] := value;
      tail := tail + 1;
      forall k | 0 <= k < old(tail) - head
        ensures Contents()[k] == old(Contents())[k]
      {
        SlotsApart(buf.Length, head + k, old(tail));
      }
      return true;
    }

    method Pop() returns (r: Option<u32>)
      requires Valid()
      modifies `head
      ensures Valid()
      ensures if old(Contents()) == [] then r == None && Contents() == []
              else r == Some(old(Contents())[0]) && Contents() == old(Contents())[1..]
    {
      if head == tail {
        return None;
      }
      hide Slot;
      var value := buf[Slot(buf.Length, head)];
      assert Contents()[0] == buf[Slot(buf.Length, head + 0)];
      head := head + 1;
      forall k | 0 <= k < tail - head
        ensures Contents()[k] == old(Contents())[1..][k]
      {
        assert head + k == old(head) + (k + 1);
      }
      return Some(value);
    }
  }

  /** Where item number `i` goes in a ring of `n`. */
  function Slot(n: nat, i: nat): (k: nat)
    requires n > 0
    ensures k < n
  {
    i % n
  }

  /** Items fewer than `n` apart have different slots. */
  lemma SlotsApart(n: nat, i: nat, j: nat)
    requires i < j < i + n
    ensures Slot(n, i) != Slot(n, j)
  {
    var q, q' := i / n, j / n;
    if i % n == j % n {
      assert n * (q' - q) == j - i;
      Multiple(n, q' - q);
    }
  }

  const NJOBS: nat := 48

  /** `drain_runq` on one hart: every queued job is counted once, and those with a counter run once. */
  method Drain(q: Ring, runs: array<nat>, done: nat) returns (done': nat)
    requires q.Valid() && runs.Length == NJOBS
    modifies q`head, runs
    ensures q.Valid() && q.Contents() == []
    ensures done' == done + |old(q.Contents())|
    ensures forall i :: 0 <= i < NJOBS ==> runs[i] == old(runs[i]) + multiset(old(q.Contents()))[i]
  {
    done' := done;
    ghost var all := q.Contents();
    ghost var k := 0;
    var next := q.Pop();
    while next.Some?
      invariant q.Valid() && k <= |all|
      invariant if next.Some? then k < |all| && next.value == all[k] && q.Contents() == all[k + 1..] else k == |all| && q.Contents() == []
      invariant done' == done + k
      invariant forall i :: 0 <= i < NJOBS ==> runs[i] == old(runs[i]) + multiset(all[..k])[i]
      decreases |all| - k
    {
      assert all[..k + 1] == all[..k] + [next.value];
      if next.value < NJOBS {
        runs[next.value] := runs[next.value] + 1;
      }
      done' := done' + 1;
      k := k + 1;
      next := q.Pop();
    }
    assert all[..k] == all;
  }
}

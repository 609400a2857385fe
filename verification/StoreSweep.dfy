/** What a load writes: the registry, once for every active slot it cannot keep. */
module StoreSweep {
  import opened Bytes
  import opened Disk
  import opened StoreFormat
  import opened StoreWrites
  import opened StoreBlocks
  import opened StoreRecovery
  import opened StoreLoading

  /** The loader gives up on the slot. */
  predicate Marks(env: Env, d: Image, reg: Registry, slot: Slot) {
    StateOf(reg, slot) == STATE_ACTIVE && !Keeps(env, d, reg, slot)
  }

  /** The writes of a load of the first `k` slots. */
  function SweepWrites(env: Env, d: Image, reg: Registry, k: nat): (ws: seq<Write>)
    requires k <= MAX_PKGS
  {
    if k == 0 then []
    else SweepWrites(env, d, reg, k - 1) + if Marks(env, d, reg, k - 1) then RegistryWrites(Swept(env, d, reg, k)) else []
  }

  /** No slot is pending, and an empty slot is blank. */
  ghost predicate Calm(e: Entry) {
    && e[0] != STATE_PENDING_INSTALL && e[0] != STATE_PENDING_REMOVE
    && (e[0] == STATE_EMPTY ==> e == Zeros(ENTRY_SIZE))
  }

  /** At rest, except that an active slot may fail the loader's checks. */
  ghost predicate Quiescent(env: Env, d: Image) {
    && ZeroTail(d) && Journal(env, d) == Empty
    && forall s: Slot :: Calm(EntryOf(RegistryOf(d), s))
  }

  lemma RestIsQuiescent(env: Env, d: Image)
    requires StoreOk(env, d)
    ensures Quiescent(env, d)
  {
    hide DecodeJournal, RegistryOf, JournalOf, EntryOf, ZeroTail, Loadable;
    forall s: Slot
      ensures Calm(EntryOf(RegistryOf(d), s))
    {
      assert Settled(env, d, s);
    }
  }

  // --- A load cut anywhere ------------------------------------------------------------------------

  /** A load cut after `j` writes has swept the registry up to some slot, and touched nothing else. */
  lemma {:induction false} SweepSees(env: Env, d: Image, k: nat, j: nat) returns (i: nat)
    requires k <= MAX_PKGS && j <= |SweepWrites(env, d, RegistryOf(d), k)|
    ensures i <= k && (j == |SweepWrites(env, d, RegistryOf(d), k)| ==> i == k)
    ensures var d' := Apply(d, SweepWrites(env, d, RegistryOf(d), k)[..j]);
            && RegistryOf(d') == Swept(env, d, RegistryOf(d), i)
            && JournalOf(d') == JournalOf(d) && SameBlobs(d, d') && (ZeroTail(d) ==> ZeroTail(d'))
    decreases k
  {
    hide RegistryOf, JournalOf, Apply, SameBlobs, ZeroTail, Keeps, RegistryWrites, StateOf, WithState, OnlySlot;
    var reg := RegistryOf(d);
    if k == 0 {
      i := 0;
      assert SweepWrites(env, d, reg, k)[..j] == [];
      NoWrites(d);
    } else {
      var front := SweepWrites(env, d, reg, k - 1);
      var last := if Marks(env, d, reg, k - 1) then RegistryWrites(Swept(env, d, reg, k)) else [];
      ApplyPrefix(d, front, last, j);
      if j <= |front| {
        i := SweepSees(env, d, k - 1, j);
        if j == |front| && !Marks(env, d, reg, k - 1) {
          i := k;
        }
      } else {
        i := SweepSees(env, d, k - 1, |front|);
        assert front[..|front|] == front;
        var d1 := Apply(d, front);
        EntryWithState(Swept(env, d, reg, k - 1), k - 1, STATE_CORRUPT);
        RegistryBlock(d1, Swept(env, d, reg, k), k - 1, j - |front|);
        SameTwice(d, d1, Apply(d1, last[..j - |front|]));
        i := if j - |front| <= (k - 1) / 4 then k - 1 else k;
      }
    }
  }

  lemma NoWrites(d: Image)
    ensures Apply(d, []) == d && SameBlobs(d, d)
  {
  }

  lemma SameTwice(d0: Image, d1: Image, d2: Image)
    requires SameBlobs(d0, d1) && SameBlobs(d1, d2)
    ensures SameBlobs(d0, d2)
  {
  }

  /** A load that is cut can be started again. */
  lemma CutLoadIsQuiescent(env: Env, d: Image, j: nat)
    requires Quiescent(env, d) && j <= |SweepWrites(env, d, RegistryOf(d), MAX_PKGS)|
    ensures var d' := Apply(d, SweepWrites(env, d, RegistryOf(d), MAX_PKGS)[..j]);
            Quiescent(env, d') && SameBlobs(d, d') && forall s: Slot :: SweptOrKept(d, d', s)
  {
    hide RegistryOf, JournalOf, DecodeJournal, Apply, SameBlobs, ZeroTail, Keeps, SweepWrites, Swept, EntryOf, Calm;
    var i := SweepSees(env, d, MAX_PKGS, j);
    var d' := Apply(d, SweepWrites(env, d, RegistryOf(d), MAX_PKGS)[..j]);
    forall s: Slot
      ensures SweptOrKept(d, d', s) && Calm(EntryOf(RegistryOf(d'), s))
    {
      SweptEntries(env, d, RegistryOf(d), i, s);
      StateIsFirstByte(RegistryOf(d), s);
      CorruptIsCalm(EntryOf(RegistryOf(d), s));
    }
  }

  lemma CorruptIsCalm(e: Entry)
    ensures Calm(e[0 := STATE_CORRUPT])
  {
  }

  /** The slot's entry is as it was, or was active and is now corrupt. */
  ghost predicate SweptOrKept(d: Image, d': Image, s: Slot) {
    var e := EntryOf(RegistryOf(d), s);
    EntryOf(RegistryOf(d'), s) == e || (e[0] == STATE_ACTIVE && EntryOf(RegistryOf(d'), s) == e[0 := STATE_CORRUPT])
  }

  // --- A load that completes ----------------------------------------------------------------------

  ghost function LoadedDisk(env: Env, d: Image): Image {
    Apply(d, SweepWrites(env, d, RegistryOf(d), MAX_PKGS))
  }

  /** From any quiescent disk, a completed load leaves a store at rest: the defence against a blob that does not match its
      entry. Exactly the active slots that are not accepted, or do not fit, are corrupt. */
  lemma LoadRests(env: Env, d: Image)
    requires Quiescent(env, d)
    ensures var d' := LoadedDisk(env, d);
            && StoreOk(env, d') && SameBlobs(d, d')
            && RegistryOf(d') == Swept(env, d, RegistryOf(d), MAX_PKGS)
            && forall s: Slot :: EntryOf(RegistryOf(d'), s) ==
                                 if Marks(env, d, RegistryOf(d), s) then EntryOf(RegistryOf(d), s)[0 := STATE_CORRUPT]
                                 else EntryOf(RegistryOf(d), s)
  {
    hide RegistryOf, JournalOf, DecodeJournal, Apply, SameBlobs, ZeroTail, SweepWrites, Swept, EntryOf, Calm, Settled, Keeps, StateOf;
    var ws := SweepWrites(env, d, RegistryOf(d), MAX_PKGS);
    assert ws[..|ws|] == ws;
    var i := SweepSees(env, d, MAX_PKGS, |ws|);
    var d' := Apply(d, ws);
    forall s: Slot
      ensures Settled(env, d', s)
      ensures EntryOf(RegistryOf(d'), s) ==
              if Marks(env, d, RegistryOf(d), s) then EntryOf(RegistryOf(d), s)[0 := STATE_CORRUPT] else EntryOf(RegistryOf(d), s)
    {
      SweptEntries(env, d, RegistryOf(d), MAX_PKGS, s);
      SweptSettles(env, d, d', s);
    }
  }

  lemma SweptSettles(env: Env, d: Image, d': Image, s: Slot)
    requires SameBlobs(d, d') && RegistryOf(d') == Swept(env, d, RegistryOf(d), MAX_PKGS) && Calm(EntryOf(RegistryOf(d), s))
    ensures Settled(env, d', s)
  {
    hide RegistryOf, SameBlobs, Swept, EntryOf, Keeps, Loadable, Accepted;
    var reg, reg' := RegistryOf(d), RegistryOf(d');
    SweptEntries(env, d, reg, MAX_PKGS, s);
    SweptSlot(env, d, reg, s);
    StateIsFirstByte(reg', s);
    StateIsFirstByte(reg, s);
    if Keeps(env, d, reg, s) {
      KeptIsAccepted(env, d, reg, s);
      AcceptedSame(env, d, reg, d', reg', s);
      AcceptedIsLoadable(env, d', s);
    }
  }

  lemma KeptIsAccepted(env: Env, d: Image, reg: Registry, s: Slot)
    requires Keeps(env, d, reg, s)
    ensures Accepted(env, d, reg, s).Some?
  {
    hide Accepted, ArenaAfter;
  }

  // --- A load that is started again ------------------------------------------------------------------

  /** Having given up on some slots already changes nothing for the others. */
  lemma {:induction false} KeepsAgain(env: Env, d: Image, d': Image, i: nat, s: nat)
    requires SameBlobs(d, d') && i <= MAX_PKGS && s <= MAX_PKGS && RegistryOf(d') == Swept(env, d, RegistryOf(d), i)
    ensures ArenaAfter(env, d', RegistryOf(d'), s) == ArenaAfter(env, d, RegistryOf(d), s)
    ensures s < MAX_PKGS ==> Keeps(env, d', RegistryOf(d'), s) == Keeps(env, d, RegistryOf(d), s)
    decreases s
  {
    hide RegistryOf, SameBlobs, Swept, EntryOf;
    if s > 0 {
      KeepsAgain(env, d, d', i, s - 1);
      AcceptedAgain(env, d, d', i, s - 1);
    }
    if s < MAX_PKGS {
      AcceptedAgain(env, d, d', i, s);
    }
    hide Accepted;
  }

  lemma AcceptedAgain(env: Env, d: Image, d': Image, i: nat, s: Slot)
    requires SameBlobs(d, d') && i <= MAX_PKGS && RegistryOf(d') == Swept(env, d, RegistryOf(d), i)
    ensures if s < i && Marks(env, d, RegistryOf(d), s) then Accepted(env, d', RegistryOf(d'), s).None?
            else Accepted(env, d', RegistryOf(d'), s) == Accepted(env, d, RegistryOf(d), s)
  {
    hide RegistryOf, SameBlobs, Swept, Keeps, BlobAt;
    SweptEntries(env, d, RegistryOf(d), i, s);
    hide EntryOf;
    if !(s < i && Marks(env, d, RegistryOf(d), s)) {
      AcceptedSame(env, d, RegistryOf(d), d', RegistryOf(d'), s);
    }
  }

  lemma SameEntries(r: Registry, r': Registry)
    requires forall s: Slot :: EntryOf(r, s) == EntryOf(r', s)
    ensures r == r'
  {
    forall i | 0 <= i < REGISTRY_SIZE
      ensures r[i] == r'[i]
    {
      var s: Slot := i / ENTRY_SIZE;
      assert EntryOf(r, s)[i - s * ENTRY_SIZE] == r[i] && EntryOf(r', s)[i - s * ENTRY_SIZE] == r'[i];
    }
  }

  /** However often a load is cut and started again, it ends in the registry it would have ended in at once. */
  lemma LoadResumes(env: Env, d: Image, j: nat)
    requires Quiescent(env, d) && j <= |SweepWrites(env, d, RegistryOf(d), MAX_PKGS)|
    ensures var d' := Apply(d, SweepWrites(env, d, RegistryOf(d), MAX_PKGS)[..j]);
            RegistryOf(LoadedDisk(env, d')) == RegistryOf(LoadedDisk(env, d))
  {
    hide RegistryOf, JournalOf, DecodeJournal, Apply, SameBlobs, ZeroTail, SweepWrites, Swept, EntryOf, Keeps, StateOf, Quiescent;
    var i := SweepSees(env, d, MAX_PKGS, j);
    CutLoadIsQuiescent(env, d, j);
    var d' := Apply(d, SweepWrites(env, d, RegistryOf(d), MAX_PKGS)[..j]);
    LoadRests(env, d);
    LoadRests(env, d');
    var r, r' := RegistryOf(LoadedDisk(env, d)), RegistryOf(LoadedDisk(env, d'));
    hide LoadedDisk;
    forall s: Slot
      ensures EntryOf(r, s) == EntryOf(r', s)
    {
      KeepsAgain(env, d, d', i, s);
      SweptEntries(env, d, RegistryOf(d), i, s);
      StateIsFirstByte(RegistryOf(d), s);
      StateIsFirstByte(RegistryOf(d'), s);
      MarkedTwice(EntryOf(RegistryOf(d), s));
    }
    SameEntries(r, r');
  }

  lemma MarkedTwice(e: Entry)
    ensures e[0 := STATE_CORRUPT][0 := STATE_CORRUPT] == e[0 := STATE_CORRUPT] && e[0 := STATE_CORRUPT][0] == STATE_CORRUPT
  {
  }
}

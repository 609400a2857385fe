/** The whole life of a store: any series of commands, power failures, recoveries and loads, each cut anywhere. */
module StoreHistory {
  import opened Bytes
  import opened Disk
  import opened StoreFormat
  import opened StoreWrites
  import opened StoreBlocks
  import opened StoreRecovery
  import opened StoreTheorems
  import opened StoreOutcomes
  import opened StoreRollback
  import opened StoreLoading
  import opened StoreSweep

  /** A blob the loader accepts. */
  ghost predicate Sound(env: Env, raw: seq<byte>) {
    && 0 < |raw| <= MAX_RAW_BYTES
    && env.inspect(raw).Some?
    && |env.inspect(raw).value.name| <= NAME_MAX && |env.inspect(raw).value.version| <= VER_MAX
  }

  /** Whether a rollback cut after `k` writes ends well, from what is on the disk before it starts. */
  ghost predicate RollsBackSoundly(env: Env, d: Image, slot: Slot, k: nat)
    requires CanRollback(env, d, slot)
  {
    if k > 8 + slot / 4 then Sound(env, Preserved(d, slot))
    else
      ActiveIsLoadable(env, d, slot);
      env.crc(Mixed(d, slot)) == RawCrc(EntryOf(RegistryOf(d), slot)) && Sound(env, Mixed(d, slot))
  }

  /** A blank disk is a store at rest. */
  lemma BlankRests(env: Env, d: Image)
    requires forall j: SectorNo :: d[j] == ZERO_SECTOR
    ensures StoreOk(env, d) && RegistryOf(d) == Zeros(REGISTRY_SIZE)
  {
    hide DecodeJournal;
    assert JournalOf(d) == Zeros(JOURNAL_SIZE);
    BlankJournalIsEmpty(env);
    assert RegistryOf(d) == Zeros(REGISTRY_SIZE);
    forall s: Slot
      ensures EntryOf(RegistryOf(d), s) == Zeros(ENTRY_SIZE)
    {
    }
  }

  /** Any package that was checked can be installed in any slot of a blank disk. */
  lemma BlankDiskRests(env: Env, d: Image, slot: Slot, m: Meta, raw: seq<byte>)
    requires (forall j: SectorNo :: d[j] == ZERO_SECTOR) && Checked(env, m, raw)
    ensures StoreOk(env, d) && CanInstall(env, d, slot, m, raw)
  {
    hide StoreOk, RegistryOf;
    BlankRests(env, d);
  }

  /** A store that differs from one at rest in one slot only is at rest if that slot is. */
  lemma RestsBut(env: Env, d: Image, d2: Image, slot: Slot)
    requires StoreOk(env, d) && Untouched(d, d2, slot) && ZeroTail(d2) && Journal(env, d2) == Empty
    ensures StoreOk(env, d2) <==> Settled(env, d2, slot)
  {
    hide ZeroTail, DecodeJournal, RegistryOf, JournalOf, EntryOf, Settled;
    if Settled(env, d2, slot) {
      forall s: Slot
        ensures Settled(env, d2, s)
      {
        if s != slot {
          SettledSame(env, d, d2, s);
        }
      }
    }
  }

  /** A rollback, cut anywhere, leaves a store at rest exactly when its end was sound on the disk it started from. */
  lemma RollbackRests(env: Env, d: Image, slot: Slot, name: Name, k: nat, cuts: seq<nat>)
    requires CanRollback(env, d, slot) && 0 < k
    ensures var d2 := Recovered(env, AfterCuts(env, RollbackCut(env, d, slot, name, k), cuts));
            && Untouched(d, d2, slot)
            && (StoreOk(env, d2) <==> RollsBackSoundly(env, d, slot, k))
  {
    hide DecodeJournal, JournalOf, RegistryOf, EntryOf, Joined, Chunks, AfterCuts, RollbackCut, Recovered, StoreOk, Untouched, RolledTo,
      ZeroTail, Settled;
    var d2, prev := Recovered(env, AfterCuts(env, RollbackCut(env, d, slot, name, k), cuts)), Preserved(d, slot);
    var e := EntryOf(RegistryOf(d), slot);
    ActiveIsLoadable(env, d, slot);
    StateIsFirstByte(RegistryOf(d), slot);
    RollbackOutcome(env, d, slot, name, k, cuts);
    RestsBut(env, d, d2, slot);
    ActiveSettles(env, d2, slot);
    if k > 8 + slot / 4 {
      RolledEntry(d, slot, name);
      WrittenBlobReadsBack(d2, SlotBlobSector(slot), prev);
    } else {
      SplicedArea(d, d2, slot, prev, RawLen(e));
    }
  }

  lemma ActiveSettles(env: Env, d: Image, slot: Slot)
    ensures EntryOf(RegistryOf(d), slot)[0] == STATE_ACTIVE ==> (Settled(env, d, slot) <==> Loadable(env, d, slot))
  {
    hide EntryOf, RegistryOf, Loadable;
  }

  // --- A rollback, then a load -----------------------------------------------------------------

  lemma QuiescentBut(env: Env, d: Image, d2: Image, slot: Slot)
    requires StoreOk(env, d) && Untouched(d, d2, slot) && ZeroTail(d2) && Journal(env, d2) == Empty
    requires EntryOf(RegistryOf(d2), slot)[0] == STATE_ACTIVE
    ensures Quiescent(env, d2)
  {
    hide ZeroTail, DecodeJournal, RegistryOf, JournalOf, EntryOf, Loadable;
    forall s: Slot
      ensures Calm(EntryOf(RegistryOf(d2), s))
    {
      assert Settled(env, d, s);
    }
  }

  /** A rollback cut anywhere, any number of interrupted recoveries, a recovery and a load leave a store at rest. The load
      gives up on the slot for its contents exactly if the rollback did not end soundly, and keeps it exactly if it did and
      its payload fits. Every other slot keeps its entry, unless there is no room for its payload. */
  lemma RollbackThenLoad(env: Env, d: Image, slot: Slot, name: Name, k: nat, cuts: seq<nat>)
    requires CanRollback(env, d, slot) && 0 < k
    ensures var d2 := Recovered(env, AfterCuts(env, RollbackCut(env, d, slot, name, k), cuts));
            var d3 := LoadedDisk(env, d2);
            && Quiescent(env, d2) && StoreOk(env, d3)
            && (Accepted(env, d2, RegistryOf(d2), slot).Some? <==> RollsBackSoundly(env, d, slot, k))
            && (StateOf(RegistryOf(d3), slot) == STATE_ACTIVE <==> RollsBackSoundly(env, d, slot, k) && Fits(env, d2, slot))
            && (StateOf(RegistryOf(d3), slot) == STATE_CORRUPT <==> !RollsBackSoundly(env, d, slot, k) || !Fits(env, d2, slot))
            && forall s: Slot :: s != slot ==>
                                   && SlotBlob(d3, s) == SlotBlob(d, s)
                                   && EntryOf(RegistryOf(d3), s) ==
                                      if StateOf(RegistryOf(d), s) == STATE_ACTIVE && !Fits(env, d2, s)
                                      then EntryOf(RegistryOf(d), s)[0 := STATE_CORRUPT] else EntryOf(RegistryOf(d), s)
  {
    hide DecodeJournal, JournalOf, RegistryOf, EntryOf, AfterCuts, RollbackCut, Recovered, StoreOk, RolledTo, ZeroTail, LoadedDisk,
      Swept, RollsBackSoundly, Accepted, ArenaAfter, Quiescent, StateOf, CanRollback, Loadable, SlotBlob, SameBlobs;
    var d2 := Recovered(env, AfterCuts(env, RollbackCut(env, d, slot, name, k), cuts));
    var d3 := LoadedDisk(env, d2);
    RollbackEndsActive(env, d, slot, name, k, cuts);
    RollbackRests(env, d, slot, name, k, cuts);
    LoadRests(env, d2);
    SameBlobsSlot(d2, d3);
    SoundIsAccepted(env, d, slot, d2);
    StateIsFirstByte(RegistryOf(d2), slot);
    StateIsFirstByte(RegistryOf(d3), slot);
    RollbackIsAtRest(env, d, slot);
    forall s: Slot | s != slot
      ensures SlotBlob(d3, s) == SlotBlob(d, s)
      ensures EntryOf(RegistryOf(d3), s) ==
              if StateOf(RegistryOf(d), s) == STATE_ACTIVE && !Fits(env, d2, s)
              then EntryOf(RegistryOf(d), s)[0 := STATE_CORRUPT] else EntryOf(RegistryOf(d), s)
    {
      OtherStaysAccepted(env, d, d2, slot, s);
    }
  }

  /** The payload of the slot, if it is accepted, has room behind those of the slots before it. */
  predicate Fits(env: Env, d: Image, slot: Slot) {
    Accepted(env, d, RegistryOf(d), slot).Some? ==>
      ArenaAfter(env, d, RegistryOf(d), slot) + |Accepted(env, d, RegistryOf(d), slot).value.payload| <= ARENA_SIZE
  }

  lemma RollbackIsAtRest(env: Env, d: Image, slot: Slot)
    requires CanRollback(env, d, slot)
    ensures StoreOk(env, d)
  {
  }

  lemma OtherStaysAccepted(env: Env, d: Image, d2: Image, slot: Slot, s: Slot)
    requires StoreOk(env, d) && Untouched(d, d2, slot) && s != slot
    ensures StateOf(RegistryOf(d2), s) == StateOf(RegistryOf(d), s)
    ensures StateOf(RegistryOf(d), s) == STATE_ACTIVE ==> Accepted(env, d2, RegistryOf(d2), s).Some?
  {
    hide ZeroTail, DecodeJournal, RegistryOf, JournalOf, EntryOf, Accepted, Loadable;
    assert Settled(env, d, s);
    SettledSame(env, d, d2, s);
    AcceptedIsLoadable(env, d2, s);
    StateIsFirstByte(RegistryOf(d), s);
    StateIsFirstByte(RegistryOf(d2), s);
  }

  lemma SoundIsAccepted(env: Env, d: Image, slot: Slot, d2: Image)
    requires StateOf(RegistryOf(d2), slot) == STATE_ACTIVE && Quiescent(env, d2)
    requires CanRollback(env, d, slot) && Untouched(d, d2, slot)
    ensures StoreOk(env, d2) <==> Accepted(env, d2, RegistryOf(d2), slot).Some?
  {
    hide DecodeJournal, RegistryOf, JournalOf, EntryOf, Accepted, Loadable, ZeroTail, Untouched;
    AcceptedIsLoadable(env, d2, slot);
    StateIsFirstByte(RegistryOf(d2), slot);
    ActiveSettles(env, d2, slot);
    RestsBut(env, d, d2, slot);
  }

  lemma RollbackEndsActive(env: Env, d: Image, slot: Slot, name: Name, k: nat, cuts: seq<nat>)
    requires CanRollback(env, d, slot) && 0 < k
    ensures var d2 := Recovered(env, AfterCuts(env, RollbackCut(env, d, slot, name, k), cuts));
            Quiescent(env, d2) && StateOf(RegistryOf(d2), slot) == STATE_ACTIVE
  {
    hide DecodeJournal, JournalOf, RegistryOf, EntryOf, AfterCuts, RollbackCut, Recovered, StoreOk, Untouched, RolledTo, ZeroTail, Quiescent;
    var d2 := Recovered(env, AfterCuts(env, RollbackCut(env, d, slot, name, k), cuts));
    RollbackOutcome(env, d, slot, name, k, cuts);
    RolledEntry(d, slot, name);
    StateIsFirstByte(RegistryOf(d), slot);
    StateIsFirstByte(RegistryOf(d2), slot);
    QuiescentBut(env, d, d2, slot);
  }

  // --- The store as a machine ---------------------------------------------------------------------

  /** `Down`: the power failed, or a command is over and the store is to be loaded again. */
  datatype Phase = Down | Replayed | Loaded

  /** How a store that is down got its disk. */
  datatype Origin =
    | Quiet
    | Command(d0: Image, slot: Slot)
    | Rollback(d0: Image, slot: Slot, name: Name, landed: bool)

  datatype Life = Life(disk: Image, phase: Phase, origin: Origin)

  /** Each event but `Restart` issues writes, of which `k` reach the disk. */
  datatype Event =
    | Transact(slot: Slot, tx: Transaction, k: nat)
    | RollBack(slot: Slot, name: Name, k: nat)
    | Recover(k: nat)
    | Load(k: nat)
    | Restart

  /** What the commands check of their slot and package; that the store is at rest they take for granted. */
  ghost predicate MayStart(env: Env, d: Image, slot: Slot, tx: Transaction) {
    var state := StateOf(RegistryOf(d), slot);
    match tx
    case Install(m, raw) => Checked(env, m, raw) && state != STATE_ACTIVE && state != STATE_CORRUPT && state != STATE_QUARANTINED
    case Update(m, raw) => Checked(env, m, raw) && state == STATE_ACTIVE
    case Remove => state == STATE_ACTIVE
  }

  ghost predicate CanHappen(env: Env, w: Life, e: Event) {
    match e
    case Transact(slot, tx, _) => w.phase == Loaded && CanStart(env, w.disk, slot, tx)
    case RollBack(slot, _, _) => w.phase == Loaded && CanRollback(env, w.disk, slot)
    case Recover(_) => w.phase == Down
    case Load(_) => w.phase == Replayed
    case Restart => true
  }

  ghost function Happened(env: Env, w: Life, e: Event): Life
    requires CanHappen(env, w, e)
  {
    match e
    case Transact(slot, tx, k) => Life(Cut(env, w.disk, slot, tx, k), Down, Command(w.disk, slot))
    case RollBack(slot, name, k) =>
      if k == 0 then Life(w.disk, Down, Quiet)
      else Life(RollbackCut(env, w.disk, slot, name, k), Down, Rollback(w.disk, slot, name, k > 8 + slot / 4))
    case Recover(k) =>
      (match RecoveryWrites(env, w.disk, false)
       case None => w
       case Some(ws) =>
         if k < |ws| then w.(disk := Apply(w.disk, ws[..k])) else Life(Apply(w.disk, ws), Replayed, Quiet))
    case Load(k) =>
      var ws := SweepWrites(env, w.disk, RegistryOf(w.disk), MAX_PKGS);
      if k < |ws| then Life(Apply(w.disk, ws[..k]), Down, Quiet) else Life(LoadedDisk(env, w.disk), Loaded, Quiet)
    case Restart => if w.phase == Down then w else Life(w.disk, Down, Quiet)
  }

  /** `o` accounts for the disk `d` of a store that is down. */
  ghost predicate Explains(env: Env, o: Origin, d: Image) {
    match o
    case Quiet => Quiescent(env, d)
    case Command(d0, slot) => StoreOk(env, d0) && CrashInv(env, d0, slot, d)
    case Rollback(d0, slot, name, landed) => CanRollback(env, d0, slot) && RollbackUnderWay(env, d0, slot, name, landed, d)
  }

  /** A disk that recovery and a load can make sense of. */
  ghost predicate Possible(env: Env, d: Image) {
    exists o :: Explains(env, o, d)
  }

  ghost predicate Safe(env: Env, w: Life) {
    match w.phase
    case Down => Explains(env, w.origin, w.disk)
    case Replayed => Quiescent(env, w.disk)
    case Loaded => StoreOk(env, w.disk)
  }

  /** Under the invariant the commands' own checks are all that is needed. */
  lemma ChecksSuffice(env: Env, w: Life, slot: Slot, tx: Transaction)
    requires Safe(env, w) && w.phase == Loaded
    ensures CanHappen(env, w, Transact(slot, tx, 0)) <==> MayStart(env, w.disk, slot, tx)
  {
    hide StoreOk, RegistryOf, Checked;
  }

  lemma RollbackAccountsFor(env: Env, d: Image, slot: Slot, name: Name, k: nat)
    requires CanRollback(env, d, slot) && 0 < k
    ensures Explains(env, Rollback(d, slot, name, k > 8 + slot / 4), RollbackCut(env, d, slot, name, k))
  {
    hide RollbackUnderWay, RollbackCut, CanRollback;
    CutIsUnderWay(env, d, slot, name, k);
  }

  lemma CommandAccountsFor(env: Env, d: Image, slot: Slot, tx: Transaction, k: nat)
    requires CanStart(env, d, slot, tx)
    ensures Explains(env, Command(d, slot), Cut(env, d, slot, tx, k))
  {
    hide Cut, CrashInv, StoreOk, Checked, StateOf, RegistryOf;
    CutIsCrashSafe(env, d, slot, tx, k);
  }

  /** Recovery of an accounted-for disk always knows what to do; cut short it is still accounted for, and complete it is
      quiescent. */
  lemma RecoveryIsSafe(env: Env, o: Origin, d: Image, k: nat)
    requires Explains(env, o, d)
    ensures RecoveryWrites(env, d, false).Some?
    ensures var ws := RecoveryWrites(env, d, false).value;
            && (k <= |ws| ==> Explains(env, o, Apply(d, ws[..k])))
            && Quiescent(env, Apply(d, ws))
  {
    match o
    case Quiet => QuietRecovery(env, d, k);
    case Command(d0, slot) => CommandRecovery(env, d0, slot, d, k);
    case Rollback(d0, slot, name, landed) => RollbackRecovery(env, d0, slot, name, landed, d, k);
  }

  lemma QuietRecovery(env: Env, d: Image, k: nat)
    requires Quiescent(env, d)
    ensures RecoveryWrites(env, d, false) == Some([]) && Apply(d, []) == d && (k == 0 ==> Apply(d, [][..k]) == d)
  {
    hide RegistryOf, JournalOf, DecodeJournal, EntryOf, ZeroTail;
    var none: seq<Write> := [];
    if k == 0 {
      assert none[..k] == none;
    }
  }

  lemma CommandRecovery(env: Env, d0: Image, slot: Slot, d: Image, k: nat)
    requires StoreOk(env, d0) && CrashInv(env, d0, slot, d)
    ensures RecoveryWrites(env, d, false).Some?
    ensures var ws := RecoveryWrites(env, d, false).value;
            && (k <= |ws| ==> CrashInv(env, d0, slot, Apply(d, ws[..k])))
            && Quiescent(env, Apply(d, ws))
  {
    hide RegistryOf, JournalOf, DecodeJournal, CrashInv, StoreOk, RecoveryWrites, Apply, Quiescent;
    RecoveryKeepsInv(env, d0, slot, d, k);
    RecoveryRestoresTheStore(env, d0, slot, d, []);
    RestIsQuiescent(env, Apply(d, RecoveryWrites(env, d, false).value));
  }

  lemma RollbackRecovery(env: Env, d0: Image, slot: Slot, name: Name, landed: bool, d: Image, k: nat)
    requires CanRollback(env, d0, slot) && RollbackUnderWay(env, d0, slot, name, landed, d)
    ensures RecoveryWrites(env, d, false).Some?
    ensures var ws := RecoveryWrites(env, d, false).value;
            && (k <= |ws| ==> RollbackUnderWay(env, d0, slot, name, landed, Apply(d, ws[..k])))
            && Quiescent(env, Apply(d, ws))
  {
    hide RegistryOf, JournalOf, DecodeJournal, RecoveryWrites, Apply, Quiescent, RollbackUnderWay, CanRollback;
    RollbackStaysUnderWay(env, d0, slot, name, landed, d, k);
    var ws := RecoveryWrites(env, d, false).value;
    RollbackStaysUnderWay(env, d0, slot, name, landed, d, |ws|);
    assert ws[..|ws|] == ws;
    FinishedRollback(env, d0, slot, name, landed, Apply(d, ws));
  }

  lemma FinishedRollback(env: Env, d0: Image, slot: Slot, name: Name, landed: bool, d: Image)
    requires CanRollback(env, d0, slot) && RollbackUnderWay(env, d0, slot, name, landed, d) && Journal(env, d) == Empty
    ensures Quiescent(env, d)
  {
    hide RegistryOf, JournalOf, DecodeJournal, EntryOf, StoreOk, Untouched, ZeroTail, RolledTo, Holds, Beyond, Quiescent;
    RolledEntry(d0, slot, name);
    StateIsFirstByte(RegistryOf(d0), slot);
    QuiescentBut(env, d0, d, slot);
  }

  lemma EventIsSafe(env: Env, w: Life, e: Event)
    requires Safe(env, w) && CanHappen(env, w, e)
    ensures Safe(env, Happened(env, w, e))
  {
    hide StoreOk, Quiescent, CanStart, CanRollback, Cut, RollbackCut, CrashInv, RollbackUnderWay, Apply, RegistryOf, SweepWrites,
      LoadedDisk, RecoveryWrites;
    match e
    case Transact(slot, tx, k) => CommandAccountsFor(env, w.disk, slot, tx, k);
    case RollBack(slot, name, k) =>
      if k == 0 {
        RestIsQuiescent(env, w.disk);
      } else {
        RollbackAccountsFor(env, w.disk, slot, name, k);
      }
    case Recover(k) => RecoveryIsSafe(env, w.origin, w.disk, k);
    case Load(k) =>
      LoadRests(env, w.disk);
      if k < |SweepWrites(env, w.disk, RegistryOf(w.disk), MAX_PKGS)| {
        CutLoadIsQuiescent(env, w.disk, k);
      }
    case Restart =>
      if w.phase == Loaded {
        RestIsQuiescent(env, w.disk);
      }
  }

  ghost predicate IsHistory(env: Env, w: Life, events: seq<Event>)
    decreases |events|
  {
    events == [] || (CanHappen(env, w, events[0]) && IsHistory(env, Happened(env, w, events[0]), events[1..]))
  }

  ghost function AtEnd(env: Env, w: Life, events: seq<Event>): Life
    requires IsHistory(env, w, events)
    decreases |events|
  {
    if events == [] then w else AtEnd(env, Happened(env, w, events[0]), events[1..])
  }

  // --- What no event touches --------------------------------------------------------------------------

  /** The slot has its blob, and its entry unless a load gave up on it. */
  ghost predicate Intact(d: Image, d': Image, s: Slot) {
    SlotBlob(d', s) == SlotBlob(d, s) && SweptOrKept(d, d', s)
  }

  ghost predicate IntactSince(d: Image, w: Life, s: Slot) {
    && Intact(d, w.disk, s)
    && (w.phase == Down && w.origin != Quiet ==> s != w.origin.slot && Intact(d, w.origin.d0, s))
  }

  lemma UntouchedStaysIntact(d: Image, d0: Image, d': Image, slot: Slot, s: Slot)
    requires Intact(d, d0, s) && Untouched(d0, d', slot) && s != slot
    ensures Intact(d, d', s)
  {
    hide RegistryOf, EntryOf, SlotBlob;
  }

  lemma SweptStaysIntact(d: Image, d0: Image, d': Image, s: Slot)
    requires Intact(d, d0, s) && SameBlobs(d0, d') && SweptOrKept(d0, d', s)
    ensures Intact(d, d', s)
  {
    SameBlobsSlot(d0, d');
    hide RegistryOf, EntryOf, SlotBlob;
  }

  /** A disk that is accounted for differs from the one before the command in the command's slot only. */
  lemma ExplainedIsUntouched(env: Env, o: Origin, d: Image)
    requires Explains(env, o, d) && o != Quiet
    ensures Untouched(o.d0, d, o.slot)
  {
    hide Untouched, RegistryOf, JournalOf, DecodeJournal, Recoverable, ZeroTail, StoreOk;
  }

  lemma EventLeavesIntact(env: Env, d: Image, w: Life, e: Event, s: Slot)
    requires Safe(env, w) && CanHappen(env, w, e) && IntactSince(d, w, s)
    requires (e.Transact? || e.RollBack?) ==> e.slot != s
    ensures IntactSince(d, Happened(env, w, e), s)
  {
    hide StoreOk, Quiescent, CanStart, CanRollback, Cut, RollbackCut, CrashInv, RollbackUnderWay, Apply, RegistryOf, SweepWrites,
      LoadedDisk, RecoveryWrites, Untouched, Intact, SweptOrKept, Explains;
    match e
    case Transact(slot, tx, k) =>
      CommandAccountsFor(env, w.disk, slot, tx, k);
      ExplainedIsUntouched(env, Command(w.disk, slot), Cut(env, w.disk, slot, tx, k));
      UntouchedStaysIntact(d, w.disk, Cut(env, w.disk, slot, tx, k), slot, s);
    case RollBack(slot, name, k) =>
      if k > 0 {
        RollbackAccountsFor(env, w.disk, slot, name, k);
        ExplainedIsUntouched(env, Rollback(w.disk, slot, name, k > 8 + slot / 4), RollbackCut(env, w.disk, slot, name, k));
        UntouchedStaysIntact(d, w.disk, RollbackCut(env, w.disk, slot, name, k), slot, s);
      }
    case Recover(k) => RecoveryLeavesIntact(env, d, w, k, s);
    case Load(k) => LoadLeavesIntact(env, d, w, k, s);
    case Restart =>
  }

  lemma RecoveryLeavesIntact(env: Env, d: Image, w: Life, k: nat, s: Slot)
    requires Safe(env, w) && w.phase == Down && IntactSince(d, w, s)
    ensures IntactSince(d, Happened(env, w, Recover(k)), s)
  {
    hide Quiescent, Apply, RegistryOf, RecoveryWrites, Untouched, Intact, Explains;
    RecoveryIsSafe(env, w.origin, w.disk, k);
    var ws := RecoveryWrites(env, w.disk, false).value;
    RecoveryIsSafe(env, w.origin, w.disk, |ws|);
    assert ws[..|ws|] == ws;
    var d' := Happened(env, w, Recover(k)).disk;
    if w.origin == Quiet {
      NothingReplayed(env, w.disk);
    } else {
      ExplainedIsUntouched(env, w.origin, d');
      UntouchedStaysIntact(d, w.origin.d0, d', w.origin.slot, s);
    }
  }

  lemma NothingReplayed(env: Env, d: Image)
    requires Explains(env, Quiet, d)
    ensures RecoveryWrites(env, d, false) == Some([]) && Apply(d, []) == d
  {
    QuietRecovery(env, d, 0);
  }

  lemma LoadLeavesIntact(env: Env, d: Image, w: Life, k: nat, s: Slot)
    requires Safe(env, w) && w.phase == Replayed && IntactSince(d, w, s)
    ensures IntactSince(d, Happened(env, w, Load(k)), s)
  {
    hide Quiescent, Apply, RegistryOf, SweepWrites, Intact, SweptOrKept, SameBlobs;
    var ws := SweepWrites(env, w.disk, RegistryOf(w.disk), MAX_PKGS);
    var j := if k < |ws| then k else |ws|;
    assert ws[..|ws|] == ws;
    CutLoadIsQuiescent(env, w.disk, j);
    SweptStaysIntact(d, w.disk, Apply(w.disk, ws[..j]), s);
  }

  ghost predicate Names(events: seq<Event>, s: Slot) {
    exists i :: 0 <= i < |events| && (events[i].Transact? || events[i].RollBack?) && events[i].slot == s
  }

  /** Over the whole life of a store, whatever is cut short: recovery always knows what to do, a completed recovery is
      quiescent, a completed load leaves a store at rest, and a slot no command names has its blob, and its entry unless a
      load gave up on it. */
  lemma {:induction false} HistoryIsSafe(env: Env, d: Image, w: Life, events: seq<Event>, s: Slot)
    requires Safe(env, w) && IsHistory(env, w, events)
    ensures Safe(env, AtEnd(env, w, events))
    ensures IntactSince(d, w, s) && !Names(events, s) ==> IntactSince(d, AtEnd(env, w, events), s)
    decreases |events|
  {
    hide Safe, CanHappen, Happened, IntactSince;
    if events != [] {
      var e, rest := events[0], events[1..];
      EventIsSafe(env, w, e);
      if IntactSince(d, w, s) && !Names(events, s) {
        EventLeavesIntact(env, d, w, e, s);
        assert !Names(rest, s) by {
          assert forall i :: 0 <= i < |rest| ==> rest[i] == events[i + 1];
        }
      }
      HistoryIsSafe(env, d, Happened(env, w, e), rest, s);
    }
  }

  /** From a blank disk: at every point of every history, the commands' own checks are enough for them to start, recovery has
      an answer, and a loaded store is at rest. */
  lemma EveryHistory(env: Env, d: Image, events: seq<Event>, slot: Slot, tx: Transaction)
    requires forall j: SectorNo :: d[j] == ZERO_SECTOR
    requires IsHistory(env, Life(d, Down, Quiet), events)
    ensures var w := AtEnd(env, Life(d, Down, Quiet), events);
            && (w.phase == Loaded ==> StoreOk(env, w.disk))
            && (w.phase == Loaded ==> (CanHappen(env, w, Transact(slot, tx, 0)) <==> MayStart(env, w.disk, slot, tx)))
            && (w.phase == Down ==> RecoveryWrites(env, w.disk, false).Some?)
            && (!Names(events, slot) ==> SlotBlob(w.disk, slot) == SlotBlob(d, slot))
  {
    hide StoreOk, Quiescent, RecoveryWrites, CanHappen, Happened, MayStart, SweptOrKept, Names;
    var w0 := Life(d, Down, Quiet);
    BlankRests(env, d);
    RestIsQuiescent(env, d);
    assert Safe(env, w0);
    assert Intact(d, d, slot) by {
      NoSweep(d, slot);
    }
    HistoryIsSafe(env, d, w0, events, slot);
    var w := AtEnd(env, w0, events);
    if w.phase == Loaded {
      ChecksSuffice(env, w, slot, tx);
    } else if w.phase == Down {
      RecoveryIsSafe(env, w.origin, w.disk, 0);
    }
  }

  lemma NoSweep(d: Image, s: Slot)
    ensures SweptOrKept(d, d, s)
  {
  }
}

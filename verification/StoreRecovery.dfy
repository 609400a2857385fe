/** Recovery after a crash, including crashes of recovery itself: the invariant every crash point satisfies
    and recovery keeps. */
module StoreRecovery {
  import opened Bytes
  import opened Disk
  import opened StoreFormat
  import opened StoreWrites
  import opened StoreBlocks

  /** The sectors that hold a slot's active blob. */
  function SlotBlob(d: Image, slot: Slot): seq<Sector> {
    d[SlotBlobSector(slot)..SlotBlobSector(slot) + SLOT_SECTORS]
  }

  /** The blob agrees with the entry's length and checksum, and passes every check the loader makes. */
  ghost predicate Loadable(env: Env, d: Image, slot: Slot) {
    var e := EntryOf(RegistryOf(d), slot);
    && e[1..5] == REG_MAGIC
    && 0 < RawLen(e) <= MAX_RAW_BYTES
    && var raw := BlobAt(d, SlotBlobSector(slot), RawLen(e));
       && env.crc(raw) == RawCrc(e)
       && env.inspect(raw).Some?
       && |env.inspect(raw).value.name| <= NAME_MAX
       && |env.inspect(raw).value.version| <= VER_MAX
  }

  /** A slot no transaction is in the middle of. */
  ghost predicate Settled(env: Env, d: Image, slot: Slot) {
    var e := EntryOf(RegistryOf(d), slot);
    && e[0] != STATE_PENDING_INSTALL && e[0] != STATE_PENDING_REMOVE
    && (e[0] == STATE_ACTIVE ==> Loadable(env, d, slot))
    && (e[0] == STATE_EMPTY ==> e == Zeros(ENTRY_SIZE))
  }

  /** A store at rest: empty journal, nothing pending, every active slot backed by its blob. */
  ghost predicate StoreOk(env: Env, d: Image) {
    && ZeroTail(d)
    && Journal(env, d) == Empty
    && forall s: Slot :: Settled(env, d, s)
  }

  /** Every other slot keeps its entry and its active blob, byte for byte. */
  ghost predicate Untouched(d0: Image, d: Image, slot: Slot) {
    forall s: Slot :: s != slot ==>
                        && EntryOf(RegistryOf(d), s) == EntryOf(RegistryOf(d0), s)
                        && SlotBlob(d, s) == SlotBlob(d0, s)
  }

  /** Where recovery finds the bytes a pending install or update is to make active. */
  function SourceSector(rec: JournalRecord): nat {
    if rec.op == OP_REPLACE then StageBlobSector(rec.slot) else SlotBlobSector(rec.slot)
  }

  ghost predicate Promotable(env: Env, d: Image, rec: JournalRecord) {
    var e := EntryOf(RegistryOf(d), rec.slot);
    && VerifiedAt(env, d, SourceSector(rec), rec)
    && e[1..5] == REG_MAGIC && RawLen(e) == rec.rawLen && RawCrc(e) == rec.rawCrc
  }

  /** What holds of the journalled slot while an install, an update or a remove is under way. */
  ghost predicate RecordFits(env: Env, d: Image, rec: JournalRecord) {
    var e := EntryOf(RegistryOf(d), rec.slot);
    if rec.op == OP_INSTALL || rec.op == OP_REPLACE then
      if rec.phase == PHASE_STARTED || rec.phase == PHASE_BLOB_WRITTEN then
        e[0] == rec.oldState && Settled(env, d, rec.slot)
      else
        rec.phase == PHASE_REGISTRY_PENDING && (e[0] == STATE_PENDING_INSTALL ==> Promotable(env, d, rec))
    else
      rec.op == OP_REMOVE
  }

  ghost predicate Recoverable(env: Env, d: Image, slot: Slot) {
    match Journal(env, d)
    case Empty => Settled(env, d, slot)
    case Corrupt => false
    case Valid(rec) => rec.slot == slot && RecordFits(env, d, rec)
  }

  /** Holds at every crash point of an install, update or remove of `slot` on `d0`, and of its recovery. */
  ghost predicate CrashInv(env: Env, d0: Image, slot: Slot, d: Image) {
    ZeroTail(d) && Untouched(d0, d, slot) && Recoverable(env, d, slot)
  }

  // --- Entries under registry updates -------------------------------------------

  lemma EntriesElsewhere(r: Registry, r': Registry, slot: Slot)
    requires OnlySlot(r, r', slot)
    ensures forall s: Slot :: s != slot ==> EntryOf(r', s) == EntryOf(r, s)
  {
  }

  lemma EntryWithState(r: Registry, slot: Slot, state: byte)
    ensures OnlySlot(r, WithState(r, slot, state), slot)
    ensures EntryOf(WithState(r, slot, state), slot) == EntryOf(r, slot)[0 := state]
    ensures WithState(r, slot, StateOf(r, slot)) == r
  {
  }

  lemma EntryWithEntry(r: Registry, slot: Slot, e: Entry)
    ensures OnlySlot(r, WithEntry(r, slot, e), slot)
    ensures EntryOf(WithEntry(r, slot, e), slot) == e
    ensures WithEntry(r, slot, EntryOf(r, slot)) == r
  {
  }

  lemma StateIsFirstByte(r: Registry, slot: Slot)
    ensures StateOf(r, slot) == EntryOf(r, slot)[0]
  {
  }

  /** Changing the state byte leaves the fields the checks read. */
  lemma StateOnly(e: Entry, state: byte)
    ensures var f := e[0 := state];
            f[1..5] == e[1..5] && RawLen(f) == RawLen(e) && RawCrc(f) == RawCrc(e)
  {
  }

  // --- Frames -------------------------------------------------------------------------

  lemma BlobFromSlot(d: Image, d': Image, slot: Slot, len: nat)
    requires SlotBlob(d, slot) == SlotBlob(d', slot) && len <= MAX_RAW_BYTES
    ensures BlobAt(d, SlotBlobSector(slot), len) == BlobAt(d', SlotBlobSector(slot), len)
  {
    var base := SlotBlobSector(slot);
    forall j | base <= j < base + SectorsFor(len)
      ensures d[j] == d'[j]
    {
      assert SlotBlob(d, slot)[j - base] == SlotBlob(d', slot)[j - base];
    }
    BlobSame(d, d', base, len);
  }

  lemma SettledSame(env: Env, d: Image, d': Image, slot: Slot)
    requires EntryOf(RegistryOf(d), slot) == EntryOf(RegistryOf(d'), slot) && SlotBlob(d, slot) == SlotBlob(d', slot)
    requires Settled(env, d, slot)
    ensures Settled(env, d', slot)
  {
    var e := EntryOf(RegistryOf(d), slot);
    if e[0] == STATE_ACTIVE {
      BlobFromSlot(d, d', slot, RawLen(e));
    }
  }

  lemma SameBlobsAt(d: Image, d': Image, base: nat, len: nat)
    requires SameBlobs(d, d') && BLOB_FIRST_SECTOR <= base && base + SectorsFor(len) <= DISK_SECTORS
    ensures BlobAt(d, base, len) == BlobAt(d', base, len)
  {
    forall j | base <= j < base + SectorsFor(len)
      ensures d[j] == d'[j]
    {
      assert d[BLOB_FIRST_SECTOR..][j - BLOB_FIRST_SECTOR] == d'[BLOB_FIRST_SECTOR..][j - BLOB_FIRST_SECTOR];
    }
    BlobSame(d, d', base, len);
  }

  lemma SameBlobsSlot(d: Image, d': Image)
    requires SameBlobs(d, d')
    ensures forall s: Slot :: SlotBlob(d, s) == SlotBlob(d', s)
  {
    forall s: Slot
      ensures SlotBlob(d, s) == SlotBlob(d', s)
    {
      SliceFrom(d, BLOB_FIRST_SECTOR, SlotBlobSector(s), SLOT_SECTORS);
      SliceFrom(d', BLOB_FIRST_SECTOR, SlotBlobSector(s), SLOT_SECTORS);
    }
  }

  lemma SliceFrom(d: seq<Sector>, from: nat, at: nat, n: nat)
    requires from <= at && at + n <= |d|
    ensures d[from..][at - from..at - from + n] == d[at..at + n]
  {
  }

  /** Writing sectors of one slot's area from `base` on leaves every other slot's active blob alone. */
  lemma SpliceElsewhere(d: Image, slot: Slot, base: nat, ss: seq<Sector>)
    requires |ss| <= SLOT_SECTORS
    requires base == SlotBlobSector(slot) || base == PreviousBlobSector(slot) || base == StageBlobSector(slot)
    ensures forall s: Slot :: s != slot || base != SlotBlobSector(slot) ==> SlotBlob(Splice(d, base, ss), s) == SlotBlob(d, s)
  {
    forall s: Slot | s != slot || base != SlotBlobSector(slot)
      ensures SlotBlob(Splice(d, base, ss), s) == SlotBlob(d, s)
    {
      var b := SlotBlobSector(s);
      assert b + SLOT_SECTORS <= base || base + |ss| <= b;
      SpliceOutside(d, base, ss, b);
    }
  }

  lemma SpliceOutside(d: Image, base: nat, ss: seq<Sector>, from: nat)
    requires base + |ss| <= DISK_SECTORS && from + SLOT_SECTORS <= DISK_SECTORS
    requires from + SLOT_SECTORS <= base || base + |ss| <= from
    ensures Splice(d, base, ss)[from..from + SLOT_SECTORS] == d[from..from + SLOT_SECTORS]
  {
  }

  /** The verdict on a blob depends on the bytes of its area only. */
  lemma VerifiedSame(env: Env, d: Image, d': Image, base: nat, rec: JournalRecord)
    requires base + SLOT_SECTORS <= DISK_SECTORS && VerifiedAt(env, d, base, rec)
    requires BlobAt(d, base, rec.rawLen) == BlobAt(d', base, rec.rawLen)
    ensures VerifiedAt(env, d', base, rec)
  {
  }

  // --- Recovery keeps the invariant -----------------------------------------------------

  /** A commit whose registry differs in `slot` only touches no other slot. */
  lemma CommitElsewhere(d0: Image, d: Image, slot: Slot, reg: Registry, k: nat)
    requires ZeroTail(d) && Untouched(d0, d, slot) && OnlySlot(RegistryOf(d), reg, slot) && k <= 11
    ensures var d' := Apply(d, CommitWrites(reg)[..k]);
            && ZeroTail(d') && Untouched(d0, d', slot) && SameBlobs(d, d')
            && RegistryOf(d') == (if k <= slot / 4 then RegistryOf(d) else reg)
            && JournalOf(d') == (if k <= 3 then JournalOf(d) else Zeros(JOURNAL_SIZE))
  {
    CommitBlock(d, reg, slot, k);
    var d' := Apply(d, CommitWrites(reg)[..k]);
    EntriesElsewhere(RegistryOf(d), reg, slot);
    SameBlobsSlot(d, d');
  }

  /** The part of the invariant that survives a change outside the registry and the journal. */
  lemma RecordFitsSame(env: Env, d: Image, d': Image, rec: JournalRecord)
    requires RegistryOf(d) == RegistryOf(d') && SameBlobs(d, d') && RecordFits(env, d, rec)
    ensures RecordFits(env, d', rec)
  {
    SameBlobsSlot(d, d');
    var e := EntryOf(RegistryOf(d), rec.slot);
    if rec.op == OP_INSTALL || rec.op == OP_REPLACE {
      if rec.phase == PHASE_STARTED || rec.phase == PHASE_BLOB_WRITTEN {
        SettledSame(env, d, d', rec.slot);
      } else if e[0] == STATE_PENDING_INSTALL {
        SameBlobsAt(d, d', SourceSector(rec), rec.rawLen);
        VerifiedSame(env, d, d', SourceSector(rec), rec);
      }
    }
  }

  /** A commit that replaces the state byte, seen at any of its crash points. */
  lemma CommitState(env: Env, d0: Image, d: Image, rec: JournalRecord, state: byte, k: nat)
    requires ZeroTail(d) && Untouched(d0, d, rec.slot) && Journal(env, d) == Valid(rec) && RecordFits(env, d, rec) && k <= 11
    requires state != STATE_EMPTY && state != STATE_PENDING_INSTALL && state != STATE_PENDING_REMOVE
    requires state == STATE_ACTIVE ==>
               var e := EntryOf(RegistryOf(d), rec.slot)[0 := STATE_ACTIVE];
               && e[1..5] == REG_MAGIC && 0 < RawLen(e) <= MAX_RAW_BYTES
               && var raw := BlobAt(d, SlotBlobSector(rec.slot), RawLen(e));
                  && env.crc(raw) == RawCrc(e) && env.inspect(raw).Some?
                  && |env.inspect(raw).value.name| <= NAME_MAX && |env.inspect(raw).value.version| <= VER_MAX
    requires rec.op == OP_REMOVE || rec.phase == PHASE_REGISTRY_PENDING
    ensures var reg := WithState(RegistryOf(d), rec.slot, state);
            var d' := Apply(d, CommitWrites(reg)[..k]);
            CrashInv(env, d0, rec.slot, d') && (k > 3 ==> Journal(env, d') == Empty)
  {
    hide DecodeJournal, RegistryOf, JournalOf, SlotBlob, Apply;
    var slot := rec.slot;
    var reg := WithState(RegistryOf(d), slot, state);
    var d' := Apply(d, CommitWrites(reg)[..k]);
    EntryWithState(RegistryOf(d), slot, state);
    CommitElsewhere(d0, d, slot, reg, k);
    if k <= slot / 4 {
      RecordFitsSame(env, d, d', rec);
    } else if k > 3 {
      BlankJournalIsEmpty(env);
      if state == STATE_ACTIVE {
        SameBlobsAt(d, d', SlotBlobSector(slot), RawLen(EntryOf(reg, slot)));
      }
    }
  }

  /** Recovery of a transaction that had not reached its pending journal record changes nothing. */
  lemma RollsBackInPlace(env: Env, d: Image, rec: JournalRecord)
    requires rec.op == OP_INSTALL || rec.op == OP_REPLACE
    requires rec.phase == PHASE_STARTED || rec.phase == PHASE_BLOB_WRITTEN
    requires RecordFits(env, d, rec)
    ensures RolledBack(RegistryOf(d), rec) == RegistryOf(d)
  {
    StateIsFirstByte(RegistryOf(d), rec.slot);
    EntryWithState(RegistryOf(d), rec.slot, rec.oldState);
    EntryWithEntry(RegistryOf(d), rec.slot, Zeros(ENTRY_SIZE));
  }

  lemma RecoverStarted(env: Env, d0: Image, d: Image, rec: JournalRecord, k: nat)
    requires CrashInv(env, d0, rec.slot, d) && Journal(env, d) == Valid(rec) && k <= 11
    requires rec.op == OP_INSTALL || rec.op == OP_REPLACE
    requires rec.phase == PHASE_STARTED || rec.phase == PHASE_BLOB_WRITTEN
    ensures var d' := Apply(d, CommitWrites(RolledBack(RegistryOf(d), rec))[..k]);
            CrashInv(env, d0, rec.slot, d') && (k > 3 ==> Journal(env, d') == Empty)
  {
    hide Apply, RegistryOf, JournalOf, DecodeJournal, EntryOf, ZeroTail, Untouched, Settled, RolledBack, CommitWrites;
    RollsBackInPlace(env, d, rec);
    var d' := Apply(d, CommitWrites(RegistryOf(d))[..k]);
    CommitElsewhere(d0, d, rec.slot, RegistryOf(d), k);
    if k <= 3 {
      RecordFitsSame(env, d, d', rec);
    } else {
      BlankJournalIsEmpty(env);
      SameBlobsSlot(d, d');
      SettledSame(env, d, d', rec.slot);
    }
  }

  /** A verified source makes the pending entry loadable once its bytes are in the slot. */
  lemma PromotedIsLoadable(env: Env, d: Image, d': Image, rec: JournalRecord)
    requires Promotable(env, d, rec)
    requires RegistryOf(d') == RegistryOf(d)
    requires BlobAt(d', SlotBlobSector(rec.slot), rec.rawLen) == BlobAt(d, SourceSector(rec), rec.rawLen)
    ensures var e := EntryOf(RegistryOf(d'), rec.slot)[0 := STATE_ACTIVE];
            && e[1..5] == REG_MAGIC && 0 < RawLen(e) <= MAX_RAW_BYTES
            && var raw := BlobAt(d', SlotBlobSector(rec.slot), RawLen(e));
               && env.crc(raw) == RawCrc(e) && env.inspect(raw).Some?
               && |env.inspect(raw).value.name| <= NAME_MAX && |env.inspect(raw).value.version| <= VER_MAX
  {
    StateOnly(EntryOf(RegistryOf(d), rec.slot), STATE_ACTIVE);
  }

  /** Any crash point while recovery copies a verified update into place. */
  lemma RecoverCopy(env: Env, d0: Image, d: Image, rec: JournalRecord, k: nat)
    requires CrashInv(env, d0, rec.slot, d) && Journal(env, d) == Valid(rec)
    requires rec.op == OP_REPLACE && rec.phase == PHASE_REGISTRY_PENDING
    requires StateOf(RegistryOf(d), rec.slot) == STATE_PENDING_INSTALL && k <= SectorsFor(rec.rawLen)
    ensures Promotable(env, d, rec)
    ensures var raw := BlobAt(d, StageBlobSector(rec.slot), rec.rawLen);
            var d' := Apply(d, BlobWrites(SlotBlobSector(rec.slot), raw)[..k]);
            && CrashInv(env, d0, rec.slot, d') && Journal(env, d') == Valid(rec) && RegistryOf(d') == RegistryOf(d)
            && (k == SectorsFor(rec.rawLen) ==> BlobAt(d', SlotBlobSector(rec.slot), rec.rawLen) == raw)
  {
    hide DecodeJournal, RegistryOf, JournalOf, Chunks, BlobWrites, EntryOf;
    StateIsFirstByte(RegistryOf(d), rec.slot);
    var base, stage := SlotBlobSector(rec.slot), StageBlobSector(rec.slot);
    var raw := BlobAt(d, stage, rec.rawLen);
    BlobBlock(d, base, raw, k);
    var d' := Apply(d, BlobWrites(base, raw)[..k]);
    SpliceElsewhere(d, rec.slot, base, Chunks(raw)[..k]);
    assert forall j :: stage <= j < stage + SectorsFor(rec.rawLen) ==> d[j] == d'[j];
    BlobSame(d, d', stage, rec.rawLen);
    VerifiedSame(env, d, d', stage, rec);
  }

  /** Any crash point of the commit that follows the copy. */
  lemma RecoverPromoted(env: Env, d0: Image, d: Image, d1: Image, rec: JournalRecord, k: nat)
    requires Promotable(env, d, rec) && RegistryOf(d1) == RegistryOf(d) && k <= 11
    requires BlobAt(d1, SlotBlobSector(rec.slot), rec.rawLen) == BlobAt(d, SourceSector(rec), rec.rawLen)
    requires CrashInv(env, d0, rec.slot, d1) && Journal(env, d1) == Valid(rec) && rec.phase == PHASE_REGISTRY_PENDING
    ensures var d' := Apply(d1, CommitWrites(WithState(RegistryOf(d), rec.slot, STATE_ACTIVE))[..k]);
            CrashInv(env, d0, rec.slot, d') && (k > 3 ==> Journal(env, d') == Empty)
  {
    PromotedIsLoadable(env, d, d1, rec);
    CommitState(env, d0, d1, rec, STATE_ACTIVE, k);
  }

  lemma RecoverPendingUpdate(env: Env, d0: Image, d: Image, rec: JournalRecord, k: nat)
    requires CrashInv(env, d0, rec.slot, d) && Journal(env, d) == Valid(rec)
    requires rec.op == OP_REPLACE && rec.phase == PHASE_REGISTRY_PENDING && rec.rawLen <= MAX_RAW_BYTES
    requires StateOf(RegistryOf(d), rec.slot) == STATE_PENDING_INSTALL && k <= SectorsFor(rec.rawLen) + 11
    ensures var d' := Apply(d, PromoteWrites(d, rec, StageBlobSector(rec.slot))[..k]);
            CrashInv(env, d0, rec.slot, d') && (k > SectorsFor(rec.rawLen) + 3 ==> Journal(env, d') == Empty)
  {
    var n := SectorsFor(rec.rawLen);
    if k <= n {
      PromotePrefix(d, rec, StageBlobSector(rec.slot), k);
      RecoverCopy(env, d0, d, rec, k);
    } else {
      RecoverPromotedUpdate(env, d0, d, rec, k);
    }
  }

  lemma PromotePrefix(d: Image, rec: JournalRecord, from: nat, k: nat)
    requires rec.rawLen <= MAX_RAW_BYTES && from + SLOT_SECTORS <= DISK_SECTORS && k <= SectorsFor(rec.rawLen) + 11
    ensures var n := SectorsFor(rec.rawLen);
            var a := BlobWrites(SlotBlobSector(rec.slot), BlobAt(d, from, rec.rawLen));
            Apply(d, PromoteWrites(d, rec, from)[..k])
            == if k <= n then Apply(d, a[..k])
               else Apply(Apply(d, a[..n]), CommitWrites(WithState(RegistryOf(d), rec.slot, STATE_ACTIVE))[..k - n])
  {
    var a := BlobWrites(SlotBlobSector(rec.slot), BlobAt(d, from, rec.rawLen));
    assert a[..SectorsFor(rec.rawLen)] == a;
    ApplyPrefix(d, a, CommitWrites(WithState(RegistryOf(d), rec.slot, STATE_ACTIVE)), k);
  }

  lemma RecoverPromotedUpdate(env: Env, d0: Image, d: Image, rec: JournalRecord, k: nat)
    requires CrashInv(env, d0, rec.slot, d) && Journal(env, d) == Valid(rec)
    requires rec.op == OP_REPLACE && rec.phase == PHASE_REGISTRY_PENDING && rec.rawLen <= MAX_RAW_BYTES
    requires StateOf(RegistryOf(d), rec.slot) == STATE_PENDING_INSTALL
    requires SectorsFor(rec.rawLen) < k <= SectorsFor(rec.rawLen) + 11
    ensures var d' := Apply(d, PromoteWrites(d, rec, StageBlobSector(rec.slot))[..k]);
            CrashInv(env, d0, rec.slot, d') && (k > SectorsFor(rec.rawLen) + 3 ==> Journal(env, d') == Empty)
  {
    hide JournalOf;
    var n := SectorsFor(rec.rawLen);
    PromotePrefix(d, rec, StageBlobSector(rec.slot), k);
    RecoverCopy(env, d0, d, rec, n);
    var d1 := Apply(d, BlobWrites(SlotBlobSector(rec.slot), BlobAt(d, StageBlobSector(rec.slot), rec.rawLen))[..n]);
    RecoverPromoted(env, d0, d, d1, rec, k - n);
  }

  /** Any prefix of recovery's writes keeps the invariant; all of them empty the journal. */
  lemma RecoveryKeepsInv(env: Env, d0: Image, slot: Slot, d: Image, k: nat)
    requires CrashInv(env, d0, slot, d)
    ensures RecoveryWrites(env, d, false).Some?
    ensures var ws := RecoveryWrites(env, d, false).value;
            k <= |ws| ==> CrashInv(env, d0, slot, Apply(d, ws[..k])) && (k == |ws| ==> Journal(env, Apply(d, ws[..k])) == Empty)
  {
    hide DecodeJournal, SectorsFor, EntryOf;
    var ws := RecoveryWrites(env, d, false);
    match Journal(env, d)
    case Empty =>
      assert ws.value == [];
    case Corrupt =>
    case Valid(rec) =>
      var reg := RegistryOf(d);
      StateIsFirstByte(reg, slot);
      if ws.Some? && k <= |ws.value| {
        if rec.op == OP_REMOVE {
          CommitState(env, d0, d, rec, STATE_REMOVED, k);
        } else if rec.phase != PHASE_REGISTRY_PENDING {
          RecoverStarted(env, d0, d, rec, k);
        } else if StateOf(reg, slot) != STATE_PENDING_INSTALL {
          CommitState(env, d0, d, rec, STATE_QUARANTINED, k);
        } else if rec.op == OP_REPLACE {
          RecoverPendingUpdate(env, d0, d, rec, k);
        } else {
          PromotedIsLoadable(env, d, d, rec);
          CommitState(env, d0, d, rec, STATE_ACTIVE, k);
        }
      }
  }

  /** The disk when power fails after the first `k` writes of recovery. */
  ghost function CutShort(env: Env, d: Image, k: nat): Image {
    match RecoveryWrites(env, d, false)
    case None => d
    case Some(ws) => Apply(d, if k <= |ws| then ws[..k] else ws)
  }

  /** The disk after recovery was cut short once for each element of `cuts`, by that many writes. */
  ghost function AfterCuts(env: Env, d: Image, cuts: seq<nat>): Image
    decreases |cuts|
  {
    if cuts == [] then d else AfterCuts(env, CutShort(env, d, cuts[0]), cuts[1..])
  }

  lemma CutShortKeepsInv(env: Env, d0: Image, slot: Slot, d: Image, k: nat)
    requires CrashInv(env, d0, slot, d)
    ensures CrashInv(env, d0, slot, CutShort(env, d, k))
  {
    RecoveryKeepsInv(env, d0, slot, d, k);
    var ws := RecoveryWrites(env, d, false).value;
    RecoveryKeepsInv(env, d0, slot, d, |ws|);
    assert ws[..|ws|] == ws;
  }

  lemma {:induction false} CutsKeepInv(env: Env, d0: Image, slot: Slot, d: Image, cuts: seq<nat>)
    requires CrashInv(env, d0, slot, d)
    ensures CrashInv(env, d0, slot, AfterCuts(env, d, cuts))
    decreases |cuts|
  {
    if cuts != [] {
      CutShortKeepsInv(env, d0, slot, d, cuts[0]);
      CutsKeepInv(env, d0, slot, CutShort(env, d, cuts[0]), cuts[1..]);
    }
  }

  /** From any crash point and through any number of interrupted recoveries, the first recovery that
      completes leaves a store at rest with every other slot as it was. */
  lemma RecoveryRestoresTheStore(env: Env, d0: Image, slot: Slot, d: Image, cuts: seq<nat>)
    requires StoreOk(env, d0) && CrashInv(env, d0, slot, d)
    ensures var d1 := AfterCuts(env, d, cuts);
            && RecoveryWrites(env, d1, false).Some?
            && var d2 := Apply(d1, RecoveryWrites(env, d1, false).value);
               StoreOk(env, d2) && Untouched(d0, d2, slot)
  {
    hide DecodeJournal, RegistryOf, JournalOf, SlotBlob, ZeroTail, Loadable, RecoveryWrites, Apply;
    CutsKeepInv(env, d0, slot, d, cuts);
    var d1 := AfterCuts(env, d, cuts);
    RecoveryKeepsInv(env, d0, slot, d1, 0);
    var ws := RecoveryWrites(env, d1, false).value;
    RecoveryKeepsInv(env, d0, slot, d1, |ws|);
    assert ws[..|ws|] == ws;
    var d2 := Apply(d1, ws);
    forall s: Slot
      ensures Settled(env, d2, s)
    {
      if s != slot {
        SettledSame(env, d0, d2, s);
      }
    }
  }
}

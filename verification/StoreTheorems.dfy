/** Crash safety of the package store: what every crash point of every transaction recovers to. */
module StoreTheorems {
  import opened Bytes
  import opened Disk
  import opened StoreFormat
  import opened StoreWrites
  import opened StoreBlocks
  import opened StoreRecovery
  import opened StoreTransactions

  // --- Reading a snapshot off the disk ------------------------------------------------

  /** The sectors of one area of a slot. */
  ghost function Area(blobs: Areas, t: Target, slot: Slot): seq<Sector> {
    var at := TargetSector(t, slot) - BLOB_FIRST_SECTOR;
    blobs[at..at + SLOT_SECTORS]
  }

  lemma PatchedOutside(blobs: Areas, base: nat, ss: seq<Sector>, from: nat)
    requires BLOB_FIRST_SECTOR <= base && base + |ss| <= DISK_SECTORS
    requires BLOB_FIRST_SECTOR <= from && from + SLOT_SECTORS <= DISK_SECTORS
    requires from + SLOT_SECTORS <= base || base + |ss| <= from
    ensures var a := from - BLOB_FIRST_SECTOR;
            Patched(blobs, base, ss)[a..a + SLOT_SECTORS] == blobs[a..a + SLOT_SECTORS]
  {
  }

  lemma OverlaidElsewhere(blobs: Areas, t: Target, slot: Slot, p: Part, u: Target, s: Slot)
    requires p.Fits() && (t != u || slot != s)
    ensures Area(Overlaid(blobs, t, slot, p), u, s) == Area(blobs, u, s)
  {
    PatchedOutside(blobs, TargetSector(t, slot), Chunks(p.raw)[..p.n], TargetSector(u, s));
  }

  lemma AreaElsewhere(d0: Image, slot: Slot, s: Snapshot, other: Slot)
    requires s.Fits() && other != slot
    ensures Area(AreasOf(d0, slot, s), Active, other) == Area(d0[BLOB_FIRST_SECTOR..], Active, other)
  {
    var b0 := d0[BLOB_FIRST_SECTOR..];
    var b1 := Overlaid(b0, Stage, slot, s.stage);
    var b2 := Overlaid(b1, Previous, slot, s.previous);
    OverlaidElsewhere(b0, Stage, slot, s.stage, Active, other);
    OverlaidElsewhere(b1, Previous, slot, s.previous, Active, other);
    OverlaidElsewhere(b2, Active, slot, s.active, Active, other);
  }

  /** Each area shows its own part over what it held. */
  lemma AreaShows(d0: Image, slot: Slot, s: Snapshot, t: Target)
    requires s.Fits()
    ensures Area(AreasOf(d0, slot, s), t, slot) == Area(Overlaid(d0[BLOB_FIRST_SECTOR..], t, slot, PartOf(s, t)), t, slot)
  {
    var b0 := d0[BLOB_FIRST_SECTOR..];
    var b1 := Overlaid(b0, Stage, slot, s.stage);
    var b2 := Overlaid(b1, Previous, slot, s.previous);
    match t
    case Stage =>
      OverlaidElsewhere(b1, Previous, slot, s.previous, Stage, slot);
      OverlaidElsewhere(b2, Active, slot, s.active, Stage, slot);
    case Previous =>
      OverlaidElsewhere(b2, Active, slot, s.active, Previous, slot);
      OverlayCommutes(b0, Stage, Previous, slot, s.stage, s.previous);
      OverlaidElsewhere(Overlaid(b0, Previous, slot, s.previous), Stage, slot, s.stage, Previous, slot);
    case Active =>
      OverlayCommutes(b1, Previous, Active, slot, s.previous, s.active);
      OverlaidElsewhere(Overlaid(b1, Active, slot, s.active), Previous, slot, s.previous, Active, slot);
      OverlayCommutes(b0, Stage, Active, slot, s.stage, s.active);
      OverlaidElsewhere(Overlaid(b0, Active, slot, s.active), Stage, slot, s.stage, Active, slot);
  }

  lemma AreaOfDisk(d: Image, t: Target, slot: Slot)
    ensures Area(d[BLOB_FIRST_SECTOR..], t, slot) == d[TargetSector(t, slot)..TargetSector(t, slot) + SLOT_SECTORS]
  {
  }

  lemma ShowsElsewhere(env: Env, d0: Image, slot: Slot, s: Snapshot, d: Image)
    requires Shows(env, d0, slot, s, d) && OnlySlot(RegistryOf(d0), s.reg, slot)
    ensures Untouched(d0, d, slot)
  {
    EntriesElsewhere(RegistryOf(d0), RegistryOf(d), slot);
    forall other: Slot | other != slot
      ensures SlotBlob(d, other) == SlotBlob(d0, other)
    {
      AreaElsewhere(d0, slot, s, other);
      AreaOfDisk(d, Active, other);
      AreaOfDisk(d0, Active, other);
    }
  }

  /** An area nothing was written to is as it was. */
  lemma ShowsKept(env: Env, d0: Image, slot: Slot, s: Snapshot, d: Image, t: Target)
    requires Shows(env, d0, slot, s, d) && PartOf(s, t) == NOTHING
    ensures var base := TargetSector(t, slot);
            d[base..base + SLOT_SECTORS] == d0[base..base + SLOT_SECTORS]
    ensures t == Active ==> SlotBlob(d, slot) == SlotBlob(d0, slot)
  {
    AreaShows(d0, slot, s, t);
    NoOverlay(d0[BLOB_FIRST_SECTOR..], t, slot);
    AreaOfDisk(d, t, slot);
    AreaOfDisk(d0, t, slot);
  }

  lemma PatchedHere(blobs: Areas, base: nat, ss: seq<Sector>)
    requires BLOB_FIRST_SECTOR <= base && base + |ss| <= DISK_SECTORS
    ensures var a := base - BLOB_FIRST_SECTOR;
            Patched(blobs, base, ss)[a..a + |ss|] == ss
  {
  }

  /** An area a whole blob was written to reads back as that blob. */
  lemma ShowsWritten(env: Env, d0: Image, slot: Slot, s: Snapshot, d: Image, t: Target, raw: seq<byte>)
    requires Shows(env, d0, slot, s, d) && PartOf(s, t) == Part(raw, SectorsFor(|raw|))
    ensures d[TargetSector(t, slot)..TargetSector(t, slot) + SectorsFor(|raw|)] == Chunks(raw)
    ensures BlobAt(d, TargetSector(t, slot), |raw|) == raw
  {
    hide AreasOf, DecodeJournal, RegistryOf, JournalOf, Chunks, Overlaid, ZeroTail;
    var base, n := TargetSector(t, slot), SectorsFor(|raw|);
    var area := Area(AreasOf(d0, slot, s), t, slot);
    AreaShows(d0, slot, s, t);
    AreaOfDisk(d, t, slot);
    OverlaidHere(d0[BLOB_FIRST_SECTOR..], t, slot, raw);
    assert area[..n] == d[base..base + n];
    WrittenBlobReadsBack(d, base, raw);
  }

  lemma OverlaidHere(blobs: Areas, t: Target, slot: Slot, raw: seq<byte>)
    requires |raw| <= MAX_RAW_BYTES
    ensures Area(Overlaid(blobs, t, slot, Part(raw, SectorsFor(|raw|))), t, slot)[..SectorsFor(|raw|)] == Chunks(raw)
  {
    hide Patched;
    var n, a := SectorsFor(|raw|), TargetSector(t, slot) - BLOB_FIRST_SECTOR;
    assert Chunks(raw)[..n] == Chunks(raw);
    PatchedHere(blobs, TargetSector(t, slot), Chunks(raw));
    var b := Overlaid(blobs, t, slot, Part(raw, n));
    assert b[a..a + SLOT_SECTORS][..n] == b[a..a + n];
  }

  // --- When a disk is recoverable -----------------------------------------------------

  /** No journal record yet: the slot is as it was. */
  lemma RecoverableBefore(env: Env, d: Image, slot: Slot, d': Image)
    requires StoreOk(env, d) && RegistryOf(d') == RegistryOf(d) && Journal(env, d') == Empty
    requires StateOf(RegistryOf(d), slot) == STATE_ACTIVE ==> SlotBlob(d', slot) == SlotBlob(d, slot)
    ensures Recoverable(env, d', slot)
  {
    assert Settled(env, d, slot);
    StateIsFirstByte(RegistryOf(d), slot);
    if StateOf(RegistryOf(d), slot) == STATE_ACTIVE {
      SettledSame(env, d, d', slot);
    }
  }

  /** An early journal record over an entry and a blob that are as they were. */
  lemma RecoverableEarly(env: Env, d: Image, rec: JournalRecord, d': Image)
    requires StoreOk(env, d) && RegistryOf(d') == RegistryOf(d) && Journal(env, d') == Valid(rec)
    requires rec.op == OP_INSTALL || rec.op == OP_REPLACE
    requires rec.phase == PHASE_STARTED || rec.phase == PHASE_BLOB_WRITTEN
    requires rec.oldState == StateOf(RegistryOf(d), rec.slot)
    requires rec.oldState == STATE_ACTIVE ==> SlotBlob(d', rec.slot) == SlotBlob(d, rec.slot)
    ensures Recoverable(env, d', rec.slot)
  {
    assert Settled(env, d, rec.slot);
    StateIsFirstByte(RegistryOf(d), rec.slot);
    if rec.oldState == STATE_ACTIVE {
      SettledSame(env, d, d', rec.slot);
    }
  }

  /** The pending journal record: a pending entry has to be backed by verified bytes. */
  lemma RecoverablePending(env: Env, rec: JournalRecord, m: Meta, raw: seq<byte>, d': Image)
    requires Journal(env, d') == Valid(rec) && rec.phase == PHASE_REGISTRY_PENDING
    requires rec.op == OP_INSTALL || rec.op == OP_REPLACE
    requires StateOf(RegistryOf(d'), rec.slot) == STATE_PENDING_INSTALL ==>
               && Checked(env, m, raw)
               && BlobAt(d', SourceSector(rec), |raw|) == raw
               && var e := EntryOf(RegistryOf(d'), rec.slot);
                  e[1..5] == REG_MAGIC && RawLen(e) == m.rawLen && RawCrc(e) == m.rawCrc
    requires rec.name == m.name && rec.version == m.version && rec.mcaps == m.mcaps && rec.rawLen == m.rawLen
             && rec.rawCrc == m.rawCrc && rec.blobCount == SectorsFor(m.rawLen)
    ensures Recoverable(env, d', rec.slot)
  {
    StateIsFirstByte(RegistryOf(d'), rec.slot);
  }

  /** The journal is empty again and the slot holds the new version. */
  lemma RecoverableDone(env: Env, slot: Slot, m: Meta, raw: seq<byte>, d': Image)
    requires Journal(env, d') == Empty && Checked(env, m, raw) && BlobAt(d', SlotBlobSector(slot), |raw|) == raw
    requires var e := EntryOf(RegistryOf(d'), slot);
             e[0] == STATE_ACTIVE && e[1..5] == REG_MAGIC && RawLen(e) == m.rawLen && RawCrc(e) == m.rawCrc
    ensures Recoverable(env, d', slot)
  {
  }

  // --- Install --------------------------------------------------------------------------

  /** What `pkg_recv` has established when its transaction starts. */
  ghost predicate CanInstall(env: Env, d: Image, slot: Slot, m: Meta, raw: seq<byte>) {
    && StoreOk(env, d)
    && Checked(env, m, raw)
    && var state := StateOf(RegistryOf(d), slot);
       state != STATE_ACTIVE && state != STATE_CORRUPT && state != STATE_QUARANTINED
  }

  ghost function InstallCut(env: Env, d: Image, slot: Slot, m: Meta, raw: seq<byte>, k: nat): Image
    requires |raw| <= MAX_RAW_BYTES && k <= TotalSize(InstallBlocks(env, RegistryOf(d), slot, m, raw))
  {
    Apply(d, Flat(env, slot, InstallBlocks(env, RegistryOf(d), slot, m, raw))[..k])
  }

  lemma InstallSize(env: Env, reg: Registry, slot: Slot, m: Meta, raw: seq<byte>)
    requires |raw| <= MAX_RAW_BYTES
    ensures TotalSize(InstallBlocks(env, reg, slot, m, raw)) == 37 + SectorsFor(|raw|)
  {
    var pending := InstallPending(reg, slot, m);
    InstallReached(slot, Snapshot(Empty, reg, NOTHING, NOTHING, NOTHING),
                   InstallRecord(env, reg, slot, m, PHASE_STARTED), raw, InstallRecord(env, reg, slot, m, PHASE_BLOB_WRITTEN),
                   InstallRecord(env, reg, slot, m, PHASE_REGISTRY_PENDING), pending, WithState(pending, slot, STATE_ACTIVE));
  }

  ghost function InstallShot(env: Env, d: Image, slot: Slot, m: Meta, raw: seq<byte>, k: nat): Snapshot {
    var reg := RegistryOf(d);
    var pending := InstallPending(reg, slot, m);
    InstallAt(slot, Start(env, d), InstallRecord(env, reg, slot, m, PHASE_STARTED), raw,
              InstallRecord(env, reg, slot, m, PHASE_BLOB_WRITTEN), InstallRecord(env, reg, slot, m, PHASE_REGISTRY_PENDING),
              pending, WithState(pending, slot, STATE_ACTIVE), k)
  }

  lemma PendingOnlySlot(reg: Registry, slot: Slot, e: Entry)
    ensures OnlySlot(reg, WithEntry(reg, slot, e), slot)
    ensures OnlySlot(reg, WithState(WithEntry(reg, slot, e), slot, STATE_ACTIVE), slot)
  {
    EntryWithEntry(reg, slot, e);
    EntryWithState(WithEntry(reg, slot, e), slot, STATE_ACTIVE);
  }

  /** The disk after any number of an install's writes. */
  lemma InstallShows(env: Env, d: Image, slot: Slot, m: Meta, raw: seq<byte>, k: nat)
    requires ZeroTail(d) && |raw| <= MAX_RAW_BYTES && k <= 37 + SectorsFor(|raw|)
    ensures TotalSize(InstallBlocks(env, RegistryOf(d), slot, m, raw)) == 37 + SectorsFor(|raw|)
    ensures Shows(env, d, slot, InstallShot(env, d, slot, m, raw, k), InstallCut(env, d, slot, m, raw, k))
    ensures Untouched(d, InstallCut(env, d, slot, m, raw, k), slot)
  {
    hide AreasOf, DecodeJournal, RegistryOf, JournalOf, Apply, SectorsFor, WithState, EncodeEntry, EntryOf, SlotBlob;
    var reg, s := RegistryOf(d), Start(env, d);
    var pending := InstallPending(reg, slot, m);
    var active := WithState(pending, slot, STATE_ACTIVE);
    var r1 := InstallRecord(env, reg, slot, m, PHASE_STARTED);
    var r2 := InstallRecord(env, reg, slot, m, PHASE_BLOB_WRITTEN);
    var r3 := InstallRecord(env, reg, slot, m, PHASE_REGISTRY_PENDING);
    PendingOnlySlot(reg, slot, EncodeEntry(slot, STATE_PENDING_INSTALL, m));
    InstallRun(slot, s, r1, raw, r2, r3, pending, active, k);
    RunShows(env, d, slot, InstallList(r1, raw, r2, r3, pending, active), k);
    ShowsElsewhere(env, d, slot, InstallShot(env, d, slot, m, raw, k), InstallCut(env, d, slot, m, raw, k));
  }

  /** The entries an install writes. */
  lemma InstallEntries(reg: Registry, slot: Slot, m: Meta)
    ensures var pending := InstallPending(reg, slot, m);
            && EntryOf(pending, slot) == EncodeEntry(slot, STATE_PENDING_INSTALL, m)
            && EntryOf(WithState(pending, slot, STATE_ACTIVE), slot) == EncodeEntry(slot, STATE_ACTIVE, m)
  {
    var pending := InstallPending(reg, slot, m);
    EntryWithEntry(reg, slot, EncodeEntry(slot, STATE_PENDING_INSTALL, m));
    EntryWithState(pending, slot, STATE_ACTIVE);
    EntryStateOnly(slot, m, STATE_PENDING_INSTALL, STATE_ACTIVE);
  }

  lemma EntryStateOnly(slot: Slot, m: Meta, from: byte, to: byte)
    ensures EncodeEntry(slot, from, m)[0 := to] == EncodeEntry(slot, to, m)
  {
  }

  /** What the first `k` writes of an install leave, field by field. */
  lemma InstallSees(env: Env, d: Image, slot: Slot, m: Meta, raw: seq<byte>, k: nat)
    requires StoreOk(env, d) && |raw| <= MAX_RAW_BYTES && k <= 37 + SectorsFor(|raw|)
    ensures TotalSize(InstallBlocks(env, RegistryOf(d), slot, m, raw)) == 37 + SectorsFor(|raw|)
    ensures var n, r, reg, d' := SectorsFor(|raw|), slot / 4, RegistryOf(d), InstallCut(env, d, slot, m, raw, k);
            var pending := InstallPending(reg, slot, m);
            && ZeroTail(d') && Untouched(d, d', slot)
            && Journal(env, d') == (if k == 0 then Empty
                                    else if k <= 8 + n then Valid(InstallRecord(env, reg, slot, m, PHASE_STARTED))
                                    else if k <= 16 + n then Valid(InstallRecord(env, reg, slot, m, PHASE_BLOB_WRITTEN))
                                    else if k <= 29 + n then Valid(InstallRecord(env, reg, slot, m, PHASE_REGISTRY_PENDING))
                                    else Empty)
            && RegistryOf(d') == (if k <= 24 + n + r then reg
                                  else if k <= 26 + n + r then pending else WithState(pending, slot, STATE_ACTIVE))
            && (0 < |raw| && 8 + n < k ==> BlobAt(d', SlotBlobSector(slot), |raw|) == raw)
  {
    InstallShows(env, d, slot, m, raw, k);
    if 0 < |raw| && 8 + SectorsFor(|raw|) < k {
      ShowsWritten(env, d, slot, InstallShot(env, d, slot, m, raw, k), InstallCut(env, d, slot, m, raw, k), Active, raw);
    }
  }

  /** Every crash point of an install is recoverable. */
  lemma InstallIsCrashSafe(env: Env, d: Image, slot: Slot, m: Meta, raw: seq<byte>, k: nat)
    requires CanInstall(env, d, slot, m, raw) && k <= 37 + SectorsFor(|raw|)
    ensures k <= TotalSize(InstallBlocks(env, RegistryOf(d), slot, m, raw))
    ensures CrashInv(env, d, slot, InstallCut(env, d, slot, m, raw, k))
  {
    var reg, n := RegistryOf(d), SectorsFor(|raw|);
    InstallSees(env, d, slot, m, raw, k);
    var d' := InstallCut(env, d, slot, m, raw, k);
    InstallEntries(reg, slot, m);
    EntryFields(slot, STATE_PENDING_INSTALL, m);
    EntryFields(slot, STATE_ACTIVE, m);
    if k == 0 {
      RecoverableBefore(env, d, slot, d');
    } else if k <= 16 + n {
      RecoverableEarly(env, d, Journal(env, d').rec, d');
    } else if k <= 29 + n {
      InstallNotPending(env, d, slot);
      StateIsFirstByte(RegistryOf(d'), slot);
      RecoverablePending(env, Journal(env, d').rec, m, raw, d');
    } else {
      RecoverableDone(env, slot, m, raw, d');
    }
  }

  lemma InstallNotPending(env: Env, d: Image, slot: Slot)
    requires StoreOk(env, d)
    ensures StateOf(RegistryOf(d), slot) != STATE_PENDING_INSTALL && StateOf(RegistryOf(d), slot) != STATE_PENDING_REMOVE
  {
    assert Settled(env, d, slot);
    StateIsFirstByte(RegistryOf(d), slot);
  }

  // --- Update -----------------------------------------------------------------------------

  /** What `pkg_update` has established when its transaction starts. */
  ghost predicate CanUpdate(env: Env, d: Image, slot: Slot, m: Meta, raw: seq<byte>) {
    StoreOk(env, d) && Checked(env, m, raw) && StateOf(RegistryOf(d), slot) == STATE_ACTIVE
  }

  /** The blob of the version an update replaces. */
  ghost function ActiveBlob(d: Image, slot: Slot): seq<byte>
    requires RawLen(EntryOf(RegistryOf(d), slot)) <= MAX_RAW_BYTES
  {
    BlobAt(d, SlotBlobSector(slot), RawLen(EntryOf(RegistryOf(d), slot)))
  }

  lemma ActiveIsLoadable(env: Env, d: Image, slot: Slot)
    requires StoreOk(env, d) && StateOf(RegistryOf(d), slot) == STATE_ACTIVE
    ensures Loadable(env, d, slot)
  {
    assert Settled(env, d, slot);
    StateIsFirstByte(RegistryOf(d), slot);
  }

  ghost function UpdateCut(env: Env, d: Image, slot: Slot, m: Meta, raw: seq<byte>, kept: seq<byte>, k: nat): Image
    requires |raw| <= MAX_RAW_BYTES && |kept| <= MAX_RAW_BYTES
    requires k <= TotalSize(UpdateBlocks(env, RegistryOf(d), slot, m, raw, kept))
  {
    Apply(d, Flat(env, slot, UpdateBlocks(env, RegistryOf(d), slot, m, raw, kept))[..k])
  }

  ghost function UpdateShot(env: Env, d: Image, slot: Slot, m: Meta, raw: seq<byte>, kept: seq<byte>, k: nat): Snapshot {
    var reg := RegistryOf(d);
    var pending := UpdatePending(reg, slot, m);
    UpdateAt(slot, Start(env, d), UpdateRecord(env, reg, slot, m, PHASE_STARTED), raw,
             UpdateRecord(env, reg, slot, m, PHASE_BLOB_WRITTEN), kept, UpdateRecord(env, reg, slot, m, PHASE_REGISTRY_PENDING),
             pending, WithState(pending, slot, STATE_ACTIVE), k)
  }

  lemma UpdateSize(env: Env, reg: Registry, slot: Slot, m: Meta, raw: seq<byte>, kept: seq<byte>)
    requires |raw| <= MAX_RAW_BYTES && |kept| <= MAX_RAW_BYTES
    ensures TotalSize(UpdateBlocks(env, reg, slot, m, raw, kept)) == 37 + 2 * SectorsFor(|raw|) + SectorsFor(|kept|)
  {
    var pending := UpdatePending(reg, slot, m);
    UpdateRun(slot, Snapshot(Empty, reg, NOTHING, NOTHING, NOTHING),
              UpdateRecord(env, reg, slot, m, PHASE_STARTED), raw, UpdateRecord(env, reg, slot, m, PHASE_BLOB_WRITTEN), kept,
              UpdateRecord(env, reg, slot, m, PHASE_REGISTRY_PENDING), pending, WithState(pending, slot, STATE_ACTIVE), 0);
  }

  /** The disk after any number of an update's writes. */
  lemma UpdateShows(env: Env, d: Image, slot: Slot, m: Meta, raw: seq<byte>, kept: seq<byte>, k: nat)
    requires ZeroTail(d) && |raw| <= MAX_RAW_BYTES && |kept| <= MAX_RAW_BYTES
    requires k <= 37 + 2 * SectorsFor(|raw|) + SectorsFor(|kept|)
    ensures TotalSize(UpdateBlocks(env, RegistryOf(d), slot, m, raw, kept)) == 37 + 2 * SectorsFor(|raw|) + SectorsFor(|kept|)
    ensures Shows(env, d, slot, UpdateShot(env, d, slot, m, raw, kept, k), UpdateCut(env, d, slot, m, raw, kept, k))
    ensures Untouched(d, UpdateCut(env, d, slot, m, raw, kept, k), slot)
  {
    hide AreasOf, DecodeJournal, RegistryOf, JournalOf, Apply, SectorsFor, WithState, ActiveMeta, EncodeEntry, WithPrevious, EntryOf, OnlySlot;
    var reg, s := RegistryOf(d), Start(env, d);
    var pending := UpdatePending(reg, slot, m);
    var active := WithState(pending, slot, STATE_ACTIVE);
    var r1 := UpdateRecord(env, reg, slot, m, PHASE_STARTED);
    var r2 := UpdateRecord(env, reg, slot, m, PHASE_BLOB_WRITTEN);
    var r3 := UpdateRecord(env, reg, slot, m, PHASE_REGISTRY_PENDING);
    PendingOnlySlot(reg, slot, WithPrevious(EncodeEntry(slot, STATE_PENDING_INSTALL, m), slot, ActiveMeta(EntryOf(reg, slot))));
    UpdateRun(slot, s, r1, raw, r2, kept, r3, pending, active, k);
    RunShows(env, d, slot, UpdateList(r1, raw, r2, kept, r3, pending, active), k);
    ShowsElsewhere(env, d, slot, UpdateShot(env, d, slot, m, raw, kept, k), UpdateCut(env, d, slot, m, raw, kept, k));
  }

  /** The entries an update writes carry the new version's length and checksum. */
  lemma UpdateEntries(reg: Registry, slot: Slot, m: Meta)
    ensures var pending := UpdatePending(reg, slot, m);
            var e, f := EntryOf(pending, slot), EntryOf(WithState(pending, slot, STATE_ACTIVE), slot);
            && e[0] == STATE_PENDING_INSTALL && e[1..5] == REG_MAGIC && RawLen(e) == m.rawLen && RawCrc(e) == m.rawCrc
            && f == e[0 := STATE_ACTIVE] && f[1..5] == REG_MAGIC && RawLen(f) == m.rawLen && RawCrc(f) == m.rawCrc
  {
    hide EncodeEntry, WithPrevious, WithEntry, WithState, U32At, EntryName, EntryVersion, Flags, U16At;
    var fresh' := EncodeEntry(slot, STATE_PENDING_INSTALL, m);
    var e := WithPrevious(fresh', slot, ActiveMeta(EntryOf(reg, slot)));
    EntryFields(slot, STATE_PENDING_INSTALL, m);
    PreviousKeepsActive(fresh', slot, ActiveMeta(EntryOf(reg, slot)));
    assert e[0] == e[0..28][0] && e[1..5] == e[0..28][1..5] && fresh'[1..5] == fresh'[0..28][1..5];
    EntryWithEntry(reg, slot, e);
    EntryWithState(WithEntry(reg, slot, e), slot, STATE_ACTIVE);
    StateOnly(e, STATE_ACTIVE);
  }

  /** What the first `k` writes of an update leave, field by field. */
  lemma UpdateSees(env: Env, d: Image, slot: Slot, m: Meta, raw: seq<byte>, kept: seq<byte>, k: nat)
    requires StoreOk(env, d) && 0 < |raw| <= MAX_RAW_BYTES && 0 < |kept| <= MAX_RAW_BYTES
    requires k <= 37 + 2 * SectorsFor(|raw|) + SectorsFor(|kept|)
    ensures TotalSize(UpdateBlocks(env, RegistryOf(d), slot, m, raw, kept)) == 37 + 2 * SectorsFor(|raw|) + SectorsFor(|kept|)
    ensures var n, p, r, reg := SectorsFor(|raw|), SectorsFor(|kept|), slot / 4, RegistryOf(d);
            var d' := UpdateCut(env, d, slot, m, raw, kept, k);
            var pending := UpdatePending(reg, slot, m);
            && ZeroTail(d') && Untouched(d, d', slot)
            && Journal(env, d') == (if k == 0 then Empty
                                    else if k <= 8 + n then Valid(UpdateRecord(env, reg, slot, m, PHASE_STARTED))
                                    else if k <= 16 + n + p then Valid(UpdateRecord(env, reg, slot, m, PHASE_BLOB_WRITTEN))
                                    else if k <= 29 + 2 * n + p then Valid(UpdateRecord(env, reg, slot, m, PHASE_REGISTRY_PENDING))
                                    else Empty)
            && RegistryOf(d') == (if k <= 24 + n + p + r then reg
                                  else if k <= 26 + 2 * n + p + r then pending else WithState(pending, slot, STATE_ACTIVE))
            && (k <= 26 + n + p ==> SlotBlob(d', slot) == SlotBlob(d, slot))
            && (8 + n < k ==> BlobAt(d', StageBlobSector(slot), |raw|) == raw)
            && (16 + n + p <= k ==> BlobAt(d', PreviousBlobSector(slot), |kept|) == kept)
            && (26 + 2 * n + p <= k ==> BlobAt(d', SlotBlobSector(slot), |raw|) == raw)
  {
    hide AreasOf, DecodeJournal, RegistryOf, JournalOf, Apply, EntryOf, SlotBlob, WithState, UpdatePending, UpdateBlocks;
    var n, p := SectorsFor(|raw|), SectorsFor(|kept|);
    UpdateShows(env, d, slot, m, raw, kept, k);
    var s, d' := UpdateShot(env, d, slot, m, raw, kept, k), UpdateCut(env, d, slot, m, raw, kept, k);
    if k <= 26 + n + p {
      ShowsKept(env, d, slot, s, d', Active);
    }
    if 8 + n < k {
      ShowsWritten(env, d, slot, s, d', Stage, raw);
    }
    if 16 + n + p <= k {
      ShowsWritten(env, d, slot, s, d', Previous, kept);
    }
    if 26 + 2 * n + p <= k {
      ShowsWritten(env, d, slot, s, d', Active, raw);
    }
  }

  /** Every crash point of an update is recoverable. */
  lemma UpdateIsCrashSafe(env: Env, d: Image, slot: Slot, m: Meta, raw: seq<byte>, k: nat)
    requires CanUpdate(env, d, slot, m, raw)
    ensures RawLen(EntryOf(RegistryOf(d), slot)) <= MAX_RAW_BYTES
    ensures var kept := ActiveBlob(d, slot);
            k <= TotalSize(UpdateBlocks(env, RegistryOf(d), slot, m, raw, kept)) ==>
              CrashInv(env, d, slot, UpdateCut(env, d, slot, m, raw, kept, k))
  {
    ActiveIsLoadable(env, d, slot);
    var reg, kept := RegistryOf(d), ActiveBlob(d, slot);
    var n, p := SectorsFor(|raw|), SectorsFor(|kept|);
    UpdateSees(env, d, slot, m, raw, kept, 0);
    if k <= 37 + 2 * n + p {
      UpdateSees(env, d, slot, m, raw, kept, k);
      var d' := UpdateCut(env, d, slot, m, raw, kept, k);
      UpdateEntries(reg, slot, m);
      if k == 0 {
        RecoverableBefore(env, d, slot, d');
      } else if k <= 16 + n + p {
        RecoverableEarly(env, d, Journal(env, d').rec, d');
      } else if k <= 29 + 2 * n + p {
        StateIsFirstByte(RegistryOf(d'), slot);
        RecoverablePending(env, Journal(env, d').rec, m, raw, d');
      } else {
        RecoverableDone(env, slot, m, raw, d');
      }
    }
  }

  // --- Remove -----------------------------------------------------------------------------

  ghost function RemoveCut(env: Env, d: Image, slot: Slot, k: nat): Image
    requires k <= TotalSize(RemoveBlocks(env, RegistryOf(d), slot))
  {
    Apply(d, Flat(env, slot, RemoveBlocks(env, RegistryOf(d), slot))[..k])
  }

  /** What the first `k` writes of a remove leave. */
  lemma RemoveSees(env: Env, d: Image, slot: Slot, k: nat)
    requires StoreOk(env, d) && k <= 21
    ensures TotalSize(RemoveBlocks(env, RegistryOf(d), slot)) == 21
    ensures var r, reg, d' := slot / 4, RegistryOf(d), RemoveCut(env, d, slot, k);
            && ZeroTail(d') && Untouched(d, d', slot) && SlotBlob(d', slot) == SlotBlob(d, slot)
            && Journal(env, d') == (if k == 0 || 13 < k then Empty else Valid(RemoveRecord(env, reg, slot)))
            && RegistryOf(d') == if k <= 8 + r then reg
                                 else WithState(reg, slot, if k <= 10 + r then STATE_PENDING_REMOVE else STATE_REMOVED)
  {
    hide AreasOf, DecodeJournal, RegistryOf, JournalOf, Apply, WithState, SlotBlob, SectorsFor, EntryOf, BlobAt, OnlySlot;
    var reg, s := RegistryOf(d), Start(env, d);
    var rec := RemoveRecord(env, reg, slot);
    var pending, removed := WithState(reg, slot, STATE_PENDING_REMOVE), WithState(reg, slot, STATE_REMOVED);
    EntryWithState(reg, slot, STATE_PENDING_REMOVE);
    EntryWithState(reg, slot, STATE_REMOVED);
    RemoveRun(slot, s, rec, pending, removed, k);
    RunShows(env, d, slot, [Note(rec), Reg(pending), Commit(removed)], k);
    ShowsElsewhere(env, d, slot, RemoveAt(slot, s, rec, pending, removed, k), RemoveCut(env, d, slot, k));
    ShowsKept(env, d, slot, RemoveAt(slot, s, rec, pending, removed, k), RemoveCut(env, d, slot, k), Active);
  }

  /** Every crash point of a remove is recoverable. */
  lemma RemoveIsCrashSafe(env: Env, d: Image, slot: Slot, k: nat)
    requires StoreOk(env, d) && k <= 21
    ensures k <= TotalSize(RemoveBlocks(env, RegistryOf(d), slot))
    ensures CrashInv(env, d, slot, RemoveCut(env, d, slot, k))
  {
    RemoveSees(env, d, slot, k);
    var d' := RemoveCut(env, d, slot, k);
    EntryWithState(RegistryOf(d), slot, STATE_REMOVED);
    if k == 0 {
      RecoverableBefore(env, d, slot, d');
    }
  }
}

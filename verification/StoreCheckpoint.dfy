/** The checkpoint a rollback goes back to, when the update that was to replace it is abandoned. */
module StoreCheckpoint {
  import opened Bytes
  import opened Disk
  import opened StoreFormat
  import opened StoreWrites
  import opened StoreBlocks
  import opened StoreRecovery
  import opened StoreTransactions
  import opened StoreTheorems
  import opened StoreOutcomes
  import opened StoreRollback
  import opened StoreRoundTrip

  /** How many sectors of the active version an update cut after `k` writes has put over the checkpoint; the new version
      has `n` sectors. */
  ghost function Overwritten(k: nat, n: nat): nat {
    if k <= 16 + n then 0 else k - 16 - n
  }

  /** The preserved area with the first `j` sectors of the active version over it, read at the checkpoint's length. */
  ghost function Checkpoint(d: Image, slot: Slot, j: nat): seq<byte>
    requires RawLen(EntryOf(RegistryOf(d), slot)) <= MAX_RAW_BYTES && PreviousLen(EntryOf(RegistryOf(d), slot)) <= MAX_RAW_BYTES
    requires j <= SectorsFor(RawLen(EntryOf(RegistryOf(d), slot)))
  {
    BlobAt(Splice(d, PreviousBlobSector(slot), Chunks(ActiveBlob(d, slot))[..j]), PreviousBlobSector(slot),
           PreviousLen(EntryOf(RegistryOf(d), slot)))
  }

  lemma PreviousPart(env: Env, d: Image, slot: Slot, m: Meta, raw: seq<byte>, kept: seq<byte>, k: nat)
    requires ZeroTail(d) && |raw| <= MAX_RAW_BYTES && |kept| <= MAX_RAW_BYTES && k <= 16 + SectorsFor(|raw|) + SectorsFor(|kept|)
    ensures k <= TotalSize(UpdateBlocks(env, RegistryOf(d), slot, m, raw, kept))
    ensures var base, j := PreviousBlobSector(slot), Overwritten(k, SectorsFor(|raw|));
            UpdateCut(env, d, slot, m, raw, kept, k)[base..base + SLOT_SECTORS]
            == Splice(d, base, Chunks(kept)[..j])[base..base + SLOT_SECTORS]
  {
    hide AreasOf, DecodeJournal, RegistryOf, JournalOf, Apply, WithState, UpdatePending, UpdateBlocks, SectorsFor, Chunks, Splice, Overlaid,
      ZeroTail, OnlySlot, Untouched;
    UpdateShows(env, d, slot, m, raw, kept, k);
    var s, d1, base := UpdateShot(env, d, slot, m, raw, kept, k), UpdateCut(env, d, slot, m, raw, kept, k), PreviousBlobSector(slot);
    AreaShows(d, slot, s, Previous);
    AreaOfDisk(d1, Previous, slot);
    PartOverlaid(d, slot, kept, Overwritten(k, SectorsFor(|raw|)));
    assert s.previous == if Overwritten(k, SectorsFor(|raw|)) == 0 then NOTHING else Part(kept, Overwritten(k, SectorsFor(|raw|)));
  }

  /** Part of a blob over the preserved area, seen on the disk. */
  lemma PartOverlaid(d: Image, slot: Slot, kept: seq<byte>, j: nat)
    requires |kept| <= MAX_RAW_BYTES && j <= SectorsFor(|kept|)
    ensures var base, p := PreviousBlobSector(slot), if j == 0 then NOTHING else Part(kept, j);
            && p.Fits()
            && Area(Overlaid(d[BLOB_FIRST_SECTOR..], Previous, slot, p), Previous, slot)
               == Splice(d, base, Chunks(kept)[..j])[base..base + SLOT_SECTORS]
  {
    hide Chunks, Splice, Patched;
    var base := PreviousBlobSector(slot);
    AreaOfDisk(Splice(d, base, Chunks(kept)[..j]), Previous, slot);
    PatchIsSplice(d, base, Chunks(kept)[..j]);
    if j == 0 {
      NoOverlay(d[BLOB_FIRST_SECTOR..], Previous, slot);
      NothingSpliced(d, base, Chunks(kept));
    }
  }

  lemma NothingSpliced(d: Image, base: nat, ss: seq<Sector>)
    requires base <= DISK_SECTORS
    ensures Splice(d, base, ss[..0]) == d
  {
  }

  /** Blobs that start in equal areas are equal. */
  lemma SameArea(d: Image, d': Image, base: nat, len: nat)
    requires base + SLOT_SECTORS <= DISK_SECTORS && len <= MAX_RAW_BYTES
    requires d[base..base + SLOT_SECTORS] == d'[base..base + SLOT_SECTORS]
    ensures BlobAt(d, base, len) == BlobAt(d', base, len)
  {
    hide Joined;
    forall j | base <= j < base + SectorsFor(len)
      ensures d[j] == d'[j]
    {
      assert d[base..base + SLOT_SECTORS][j - base] == d[j] && d'[base..base + SLOT_SECTORS][j - base] == d'[j];
    }
    BlobSame(d, d', base, len);
  }

  /** An update abandoned anywhere before its pending journal record leaves the entry as it was, and behind its record of
      the version before whatever the update had made of the preserved area. So the slot can be rolled back exactly if
      that still has the recorded checksum. */
  lemma AbandonedUpdate(env: Env, d: Image, slot: Slot, m: Meta, raw: seq<byte>, k: nat, cuts: seq<nat>)
    requires CanUpdate(env, d, slot, m, raw) && PreviousLen(EntryOf(RegistryOf(d), slot)) <= MAX_RAW_BYTES
    requires k <= 16 + SectorsFor(|raw|) + SectorsFor(RawLen(EntryOf(RegistryOf(d), slot)))
    ensures RawLen(EntryOf(RegistryOf(d), slot)) <= MAX_RAW_BYTES
    ensures var d2 := Recovered(env, AfterCuts(env, Cut(env, d, slot, Update(m, raw), k), cuts));
            var e := EntryOf(RegistryOf(d), slot);
            && RegistryOf(d2) == RegistryOf(d)
            && Preserved(d2, slot) == Checkpoint(d, slot, Overwritten(k, SectorsFor(|raw|)))
            && (CanRollback(env, d2, slot) <==>
                  PreviousValid(e) && env.crc(Checkpoint(d, slot, Overwritten(k, SectorsFor(|raw|)))) == PreviousCrc(e))
  {
    hide RecoveryWrites, EntryOf, Loadable, RegistryOf, Recovered, AfterCuts, BlobAt, Chunks, SectorsFor, Untouched, StoreOk, Splice, Cut,
      U32At;
    ActiveIsPresent(env, d, slot);
    var kept, base := ActiveBlob(d, slot), PreviousBlobSector(slot);
    var d2 := Recovered(env, AfterCuts(env, Cut(env, d, slot, Update(m, raw), k), cuts));
    CrashSafety(env, d, slot, Update(m, raw), k, cuts);
    AbandonedArea(env, d, slot, m, raw, k, cuts);
    FitsSlot(|kept|);
    SameArea(d2, Splice(d, base, Chunks(kept)[..Overwritten(k, SectorsFor(|raw|))]), base, PreviousLen(EntryOf(RegistryOf(d), slot)));
  }

  lemma FitsSlot(len: nat)
    requires len <= MAX_RAW_BYTES
    ensures SectorsFor(len) <= SLOT_SECTORS
  {
  }

  /** The registry and the preserved area of an update abandoned there. */
  lemma AbandonedArea(env: Env, d: Image, slot: Slot, m: Meta, raw: seq<byte>, k: nat, cuts: seq<nat>)
    requires CanUpdate(env, d, slot, m, raw) && RawLen(EntryOf(RegistryOf(d), slot)) <= MAX_RAW_BYTES
    requires k <= 16 + SectorsFor(|raw|) + SectorsFor(RawLen(EntryOf(RegistryOf(d), slot)))
    ensures var d2 := Recovered(env, AfterCuts(env, Cut(env, d, slot, Update(m, raw), k), cuts));
            var base, j := PreviousBlobSector(slot), Overwritten(k, SectorsFor(|raw|));
            && RegistryOf(d2) == RegistryOf(d)
            && d2[base..base + SLOT_SECTORS] == Splice(d, base, Chunks(ActiveBlob(d, slot))[..j])[base..base + SLOT_SECTORS]
  {
    hide Apply, RecoveryWrites, UpdatePending, UpdateBlocks, EntryOf, WithState, SlotBlob, Loadable, RegistryOf, JournalOf, DecodeJournal,
      Recovered, AfterCuts, BlobAt, Chunks, SectorsFor, Untouched, Splice;
    ActiveIsPresent(env, d, slot);
    var kept := ActiveBlob(d, slot);
    var d1 := Cut(env, d, slot, Update(m, raw), k);
    UpdateSees(env, d, slot, m, raw, kept, k);
    PreviousPart(env, d, slot, m, raw, kept, k);
    hide StoreOk;
    if k == 0 {
      NothingToRecover(env, d1, cuts);
    } else {
      UpdateIsCrashSafe(env, d, slot, m, raw, k);
      EarlyEnds(env, d1, Journal(env, d1).rec, cuts);
      PreviousArea(d1, Recovered(env, AfterCuts(env, d1, cuts)), slot);
    }
  }

  lemma PreviousArea(d: Image, d': Image, slot: Slot)
    requires SameBlobs(d, d')
    ensures var base := PreviousBlobSector(slot);
            d'[base..base + SLOT_SECTORS] == d[base..base + SLOT_SECTORS]
  {
    SliceFrom(d, BLOB_FIRST_SECTOR, PreviousBlobSector(slot), SLOT_SECTORS);
    SliceFrom(d', BLOB_FIRST_SECTOR, PreviousBlobSector(slot), SLOT_SECTORS);
  }

  /** Until it starts to preserve the active version, an abandoned update leaves the checkpoint usable. */
  lemma AbandonedEarly(env: Env, d: Image, slot: Slot, m: Meta, raw: seq<byte>, k: nat, cuts: seq<nat>)
    requires CanUpdate(env, d, slot, m, raw) && CanRollback(env, d, slot) && k <= 16 + SectorsFor(|raw|)
    ensures var d2 := Recovered(env, AfterCuts(env, Cut(env, d, slot, Update(m, raw), k), cuts));
            CanRollback(env, d2, slot) && Preserved(d2, slot) == Preserved(d, slot)
  {
    hide RegistryOf, EntryOf, StoreOk, Recovered, AfterCuts, Cut, BlobAt, SectorsFor, Chunks;
    ActiveIsPresent(env, d, slot);
    AbandonedUpdate(env, d, slot, m, raw, k, cuts);
    NothingSpliced(d, PreviousBlobSector(slot), Chunks(ActiveBlob(d, slot)));
  }

  /** The window: once the active version has been preserved in full, the checkpoint is lost if the active version has its
      length but not its checksum: the entry still offers what cannot be restored. */
  lemma CheckpointWindow(env: Env, d: Image, slot: Slot, m: Meta, raw: seq<byte>, k: nat, cuts: seq<nat>)
    requires CanUpdate(env, d, slot, m, raw)
    requires var e := EntryOf(RegistryOf(d), slot);
             && k == 16 + SectorsFor(|raw|) + SectorsFor(RawLen(e))
             && RawLen(e) == PreviousLen(e) && RawCrc(e) != PreviousCrc(e)
    ensures var d2 := Recovered(env, AfterCuts(env, Cut(env, d, slot, Update(m, raw), k), cuts));
            && EntryOf(RegistryOf(d2), slot) == EntryOf(RegistryOf(d), slot) && !CanRollback(env, d2, slot)
  {
    hide RegistryOf, EntryOf, StoreOk, Recovered, AfterCuts, Cut, BlobAt, SectorsFor, Chunks, Splice, CanRollback, PreviousValid, U32At,
      Checkpoint;
    ActiveIsLoadable(env, d, slot);
    AbandonedUpdate(env, d, slot, m, raw, k, cuts);
    WholeCheckpoint(d, slot);
  }

  /** From a store at rest: the first update gives the slot a checkpoint that it can be rolled back to; the second one, between
      versions of one length, is abandoned and leaves it without. */
  lemma SecondUpdateLosesTheCheckpoint(env: Env, d: Image, slot: Slot, m: Meta, raw: seq<byte>, m2: Meta, raw2: seq<byte>, k: nat,
                                       cuts: seq<nat>)
    requires CanUpdate(env, d, slot, m, raw) && Checked(env, m2, raw2)
    requires RawLen(EntryOf(RegistryOf(d), slot)) == |raw| && RawCrc(EntryOf(RegistryOf(d), slot)) != env.crc(raw)
    requires k == 16 + SectorsFor(|raw2|) + SectorsFor(|raw|)
    ensures var d1 := Updated(env, d, slot, m, raw);
            && CanRollback(env, d1, slot) && CanUpdate(env, d1, slot, m2, raw2)
            && var d2 := Recovered(env, AfterCuts(env, Cut(env, d1, slot, Update(m2, raw2), k), cuts));
               && StoreOk(env, d2) && EntryOf(RegistryOf(d2), slot) == EntryOf(RegistryOf(d1), slot)
               && PreviousValid(EntryOf(RegistryOf(d2), slot)) && !CanRollback(env, d2, slot)
  {
    hide RegistryOf, EntryOf, StoreOk, Recovered, AfterCuts, Cut, SectorsFor, Updated, UpdatePending, WithState, U32At, BlobAt,
      UpdateBlocks, Preserved, Untouched;
    UpdateEnablesRollback(env, d, slot, m, raw);
    UpdatedEntry(RegistryOf(d), slot, m);
    var d1 := Updated(env, d, slot, m, raw);
    CheckpointWindow(env, d1, slot, m2, raw2, k, cuts);
    CrashSafety(env, d1, slot, Update(m2, raw2), k, cuts);
  }

  lemma WholeCheckpoint(d: Image, slot: Slot)
    requires RawLen(EntryOf(RegistryOf(d), slot)) == PreviousLen(EntryOf(RegistryOf(d), slot)) <= MAX_RAW_BYTES
    ensures Checkpoint(d, slot, SectorsFor(RawLen(EntryOf(RegistryOf(d), slot)))) == ActiveBlob(d, slot)
  {
    hide RegistryOf, EntryOf, BlobAt, Chunks, Splice, U32At;
    var kept := ActiveBlob(d, slot);
    var n := SectorsFor(|kept|);
    assert n <= SLOT_SECTORS;
    assert Chunks(kept)[..n] == Chunks(kept);
    SplicedReadsBack(d, PreviousBlobSector(slot), kept);
  }

  lemma SplicedReadsBack(d: Image, base: nat, raw: seq<byte>)
    requires base + SectorsFor(|raw|) <= DISK_SECTORS
    ensures BlobAt(Splice(d, base, Chunks(raw)), base, |raw|) == raw
  {
    var d' := Splice(d, base, Chunks(raw));
    assert d'[base..base + SectorsFor(|raw|)] == Chunks(raw);
    WrittenBlobReadsBack(d', base, raw);
  }
}

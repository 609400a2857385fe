/** Rollback to the preserved version. Unlike the other transactions it leaves one window in which recovery
    puts the preserved blob under the metadata of the version it replaced. */
module StoreRollback {
  import opened Bytes
  import opened Disk
  import opened StoreFormat
  import opened StoreWrites
  import opened StoreBlocks
  import opened StoreRecovery
  import opened StoreTransactions
  import opened StoreTheorems
  import opened StoreOutcomes

  /** What `pkg_rollback` has established when its transaction starts. */
  ghost predicate CanRollback(env: Env, d: Image, slot: Slot) {
    var e := EntryOf(RegistryOf(d), slot);
    && StoreOk(env, d)
    && StateOf(RegistryOf(d), slot) == STATE_ACTIVE
    && PreviousValid(e) && PreviousLen(e) <= MAX_RAW_BYTES
    && env.crc(BlobAt(d, PreviousBlobSector(slot), PreviousLen(e))) == PreviousCrc(e)
  }

  /** The preserved blob. */
  ghost function Preserved(d: Image, slot: Slot): seq<byte>
    requires PreviousLen(EntryOf(RegistryOf(d), slot)) <= MAX_RAW_BYTES
  {
    BlobAt(d, PreviousBlobSector(slot), PreviousLen(EntryOf(RegistryOf(d), slot)))
  }

  ghost function RollbackCut(env: Env, d: Image, slot: Slot, name: Name, k: nat): Image
    requires CanRollback(env, d, slot)
  {
    var ws := Flat(env, slot, RollbackBlocks(env, RegistryOf(d), slot, name, Preserved(d, slot)));
    Apply(d, if k <= |ws| then ws[..k] else ws)
  }

  /** The registry once the rollback has committed. */
  ghost function RolledTo(d: Image, slot: Slot, name: Name): Registry {
    WithState(RollbackPending(RegistryOf(d), slot, name), slot, STATE_ACTIVE)
  }

  /** The sectors of an area beyond the ones a blob of `len` bytes needs. */
  ghost function Beyond(d: Image, slot: Slot, len: nat): seq<Sector>
    requires len <= MAX_RAW_BYTES
  {
    d[SlotBlobSector(slot) + SectorsFor(len)..SlotBlobSector(slot) + SLOT_SECTORS]
  }

  /** The slot's area begins with exactly the sectors of `raw`. */
  ghost predicate Holds(d: Image, slot: Slot, raw: seq<byte>)
    requires |raw| <= MAX_RAW_BYTES
  {
    d[SlotBlobSector(slot)..SlotBlobSector(slot) + SectorsFor(|raw|)] == Chunks(raw)
  }

  lemma ShowsBeyond(env: Env, d0: Image, slot: Slot, s: Snapshot, d: Image, raw: seq<byte>)
    requires Shows(env, d0, slot, s, d) && |raw| <= MAX_RAW_BYTES && (s.active == NOTHING || s.active.raw == raw)
    ensures Beyond(d, slot, |raw|) == Beyond(d0, slot, |raw|)
  {
    hide DecodeJournal, RegistryOf, JournalOf;
    var n, base := SectorsFor(|raw|), SlotBlobSector(slot);
    AreaShows(d0, slot, s, Active);
    AreaOfDisk(d, Active, slot);
    AreaOfDisk(d0, Active, slot);
    OverlaidBeyond(d0[BLOB_FIRST_SECTOR..], slot, s.active, n);
    assert Beyond(d, slot, |raw|) == d[base..base + SLOT_SECTORS][n..];
    assert Beyond(d0, slot, |raw|) == d0[base..base + SLOT_SECTORS][n..];
  }

  lemma OverlaidBeyond(blobs: Areas, slot: Slot, p: Part, n: nat)
    requires p.Fits() && p.n <= n <= SLOT_SECTORS
    ensures Area(Overlaid(blobs, Active, slot, p), Active, slot)[n..] == Area(blobs, Active, slot)[n..]
  {
    PatchedBeyond(blobs, SlotBlobSector(slot), Chunks(p.raw)[..p.n], n);
  }

  lemma PatchedBeyond(blobs: Areas, base: nat, ss: seq<Sector>, n: nat)
    requires BLOB_FIRST_SECTOR <= base && base + SLOT_SECTORS <= DISK_SECTORS && |ss| <= n <= SLOT_SECTORS
    ensures var a := base - BLOB_FIRST_SECTOR;
            Patched(blobs, base, ss)[a..a + SLOT_SECTORS][n..] == blobs[a..a + SLOT_SECTORS][n..]
  {
  }

  ghost function RollbackShot(env: Env, d: Image, slot: Slot, name: Name, prev: seq<byte>, k: nat): Snapshot {
    RollbackAt(slot, Start(env, d), RollbackRecord(env, RegistryOf(d), slot, name), RollbackPending(RegistryOf(d), slot, name),
               prev, RolledTo(d, slot, name), k)
  }

  lemma RollbackShows(env: Env, d: Image, slot: Slot, name: Name, prev: seq<byte>, k: nat)
    requires ZeroTail(d) && |prev| <= MAX_RAW_BYTES && k <= 21 + SectorsFor(|prev|)
    ensures var bs := RollbackBlocks(env, RegistryOf(d), slot, name, prev);
            && |Flat(env, slot, bs)| == 21 + SectorsFor(|prev|)
            && Shows(env, d, slot, RollbackShot(env, d, slot, name, prev, k), Apply(d, Flat(env, slot, bs)[..k]))
            && Untouched(d, Apply(d, Flat(env, slot, bs)[..k]), slot)
  {
    hide AreasOf, DecodeJournal, RegistryOf, JournalOf, Apply, SectorsFor, WithState, EncodeEntry, WithFlags, EntryOf;
    var reg, s := RegistryOf(d), Start(env, d);
    var rec, pending, active := RollbackRecord(env, reg, slot, name), RollbackPending(reg, slot, name), RolledTo(d, slot, name);
    var e := EncodeEntry(slot, STATE_PENDING_INSTALL, PreviousMeta(EntryOf(reg, slot), name));
    PendingOnlySlot(reg, slot, if Pinned(EntryOf(reg, slot)) then WithFlags(e, 1) else e);
    RollbackRun(slot, s, rec, pending, prev, active, k);
    RunShows(env, d, slot, RollbackList(rec, pending, prev, active), k);
    ShowsElsewhere(env, d, slot, RollbackShot(env, d, slot, name, prev, k),
                   Apply(d, Flat(env, slot, RollbackList(rec, pending, prev, active))[..k]));
  }

  /** What a rollback that was cut after `k` writes left of the fields recovery reads. */
  ghost predicate RollbackView(env: Env, d: Image, slot: Slot, name: Name, prev: seq<byte>, k: nat, d': Image)
    requires |prev| <= MAX_RAW_BYTES
  {
    var p, r, reg := SectorsFor(|prev|), slot / 4, RegistryOf(d);
    && RollbackFrame(d, slot, prev, d')
    && (10 + p <= k ==> Holds(d', slot, prev))
    && Journal(env, d') == (if k == 0 || k > 13 + p then Empty else Valid(RollbackRecord(env, reg, slot, name)))
    && RegistryOf(d') == if k <= 8 + r then reg
                         else if k <= 10 + p + r then RollbackPending(reg, slot, name) else RolledTo(d, slot, name)
  }

  lemma RollbackSees(env: Env, d: Image, slot: Slot, name: Name, prev: seq<byte>, k: nat)
    requires StoreOk(env, d) && |prev| <= MAX_RAW_BYTES && k <= 21 + SectorsFor(|prev|)
    ensures var ws := Flat(env, slot, RollbackBlocks(env, RegistryOf(d), slot, name, prev));
            |ws| == 21 + SectorsFor(|prev|) && RollbackView(env, d, slot, name, prev, k, Apply(d, ws[..k]))
  {
    hide AreasOf, DecodeJournal, RegistryOf, JournalOf, Apply, WithState, EntryOf, RollbackPending, RollbackRecord, RollbackBlocks;
    RollbackShows(env, d, slot, name, prev, k);
    var shot := RollbackShot(env, d, slot, name, prev, k);
    var d' := Apply(d, Flat(env, slot, RollbackBlocks(env, RegistryOf(d), slot, name, prev))[..k]);
    ShowsKept(env, d, slot, shot, d', Previous);
    ShowsBeyond(env, d, slot, shot, d', prev);
    if 10 + SectorsFor(|prev|) <= k && |prev| > 0 {
      ShowsWritten(env, d, slot, shot, d', Active, prev);
    }
  }

  // --- Recovery ---------------------------------------------------------------------------

  /** What a rollback and its recovery never touch. */
  ghost predicate RollbackFrame(d: Image, slot: Slot, prev: seq<byte>, d': Image)
    requires |prev| <= MAX_RAW_BYTES
  {
    && ZeroTail(d') && Untouched(d, d', slot)
    && d'[PreviousBlobSector(slot)..PreviousBlobSector(slot) + SLOT_SECTORS]
       == d[PreviousBlobSector(slot)..PreviousBlobSector(slot) + SLOT_SECTORS]
    && Beyond(d', slot, |prev|) == Beyond(d, slot, |prev|)
  }

  /** The registry a rollback ends with; `landed` tells whether its pending entry reached the disk before the crash. */
  ghost function RollbackEnd(d: Image, slot: Slot, name: Name, landed: bool): Registry {
    if landed then RolledTo(d, slot, name) else RegistryOf(d)
  }

  ghost predicate RollbackProgress(env: Env, d: Image, slot: Slot, name: Name, landed: bool, prev: seq<byte>, d': Image)
    requires |prev| <= MAX_RAW_BYTES
  {
    && WithState(RegistryOf(d'), slot, STATE_ACTIVE) == RollbackEnd(d, slot, name, landed)
    && (Journal(env, d') == Valid(RollbackRecord(env, RegistryOf(d), slot, name))
        || (&& Journal(env, d') == Empty && RegistryOf(d') == RollbackEnd(d, slot, name, landed)
            && Holds(d', slot, prev)))
  }

  /** A rollback under way, or finished. */
  ghost predicate RollbackUnderWay(env: Env, d: Image, slot: Slot, name: Name, landed: bool, d': Image)
    requires CanRollback(env, d, slot)
  {
    RollbackFrame(d, slot, Preserved(d, slot), d') && RollbackProgress(env, d, slot, name, landed, Preserved(d, slot), d')
  }

  lemma ViewIsUnderWay(env: Env, d: Image, slot: Slot, name: Name, prev: seq<byte>, k: nat, d': Image)
    requires |prev| <= MAX_RAW_BYTES && 0 < k && RollbackView(env, d, slot, name, prev, k, d')
    requires StateOf(RegistryOf(d), slot) == STATE_ACTIVE
    ensures RollbackFrame(d, slot, prev, d') && RollbackProgress(env, d, slot, name, k > 8 + slot / 4, prev, d')
  {
    hide DecodeJournal, RegistryOf, JournalOf, RollbackFrame, RollbackPending, RollbackRecord, SectorsFor, BlobAt;
    StateKept(RegistryOf(d), slot);
    ActiveTwice(RollbackPending(RegistryOf(d), slot, name), slot);
  }

  lemma CutIsUnderWay(env: Env, d: Image, slot: Slot, name: Name, k: nat)
    requires CanRollback(env, d, slot) && 0 < k
    ensures RollbackUnderWay(env, d, slot, name, k > 8 + slot / 4, RollbackCut(env, d, slot, name, k))
  {
    hide StoreOk, DecodeJournal, RegistryOf, JournalOf, Apply, EntryOf, SectorsFor, RollbackFrame, RollbackProgress, RollbackView;
    var prev := Preserved(d, slot);
    var n := 21 + SectorsFor(|prev|);
    var j := if k <= n then k else n;
    RollbackSees(env, d, slot, name, prev, j);
    var ws := Flat(env, slot, RollbackBlocks(env, RegistryOf(d), slot, name, prev));
    assert ws[..|ws|] == ws;
    ViewIsUnderWay(env, d, slot, name, prev, j, Apply(d, ws[..j]));
  }

  lemma StateKept(reg: Registry, slot: Slot)
    requires StateOf(reg, slot) == STATE_ACTIVE
    ensures WithState(reg, slot, STATE_ACTIVE) == reg
  {
  }

  lemma ActiveTwice(reg: Registry, slot: Slot)
    ensures WithState(WithState(reg, slot, STATE_ACTIVE), slot, STATE_ACTIVE) == WithState(reg, slot, STATE_ACTIVE)
  {
  }

  /** What recovery writes while the rollback's record is in the journal. */
  lemma RollbackReplays(env: Env, d: Image, slot: Slot, name: Name, landed: bool, d': Image)
    requires CanRollback(env, d, slot) && RollbackUnderWay(env, d, slot, name, landed, d') && Journal(env, d') != Empty
    ensures var rec := RollbackRecord(env, RegistryOf(d), slot, name);
            && rec.rawLen <= MAX_RAW_BYTES
            && BlobAt(d', PreviousBlobSector(slot), rec.rawLen) == Preserved(d, slot)
            && RecoveryWrites(env, d', false) == Some(PromoteWrites(d', rec, PreviousBlobSector(slot)))
  {
    hide DecodeJournal, RegistryOf, JournalOf, EntryOf, PromoteWrites, Untouched;
    var rec := RollbackRecord(env, RegistryOf(d), slot, name);
    var base := PreviousBlobSector(slot);
    forall j | base <= j < base + SectorsFor(rec.rawLen)
      ensures d[j] == d'[j]
    {
      assert d[base..base + SLOT_SECTORS][j - base] == d'[base..base + SLOT_SECTORS][j - base];
    }
    BlobSame(d, d', base, rec.rawLen);
  }

  /** While recovery copies the preserved blob back. */
  lemma RestoreCopy(env: Env, d: Image, slot: Slot, name: Name, landed: bool, d': Image, k: nat)
    requires CanRollback(env, d, slot) && RollbackUnderWay(env, d, slot, name, landed, d') && Journal(env, d') != Empty
    requires k <= SectorsFor(|Preserved(d, slot)|)
    ensures var prev := Preserved(d, slot);
            var d1 := Apply(d', BlobWrites(SlotBlobSector(slot), prev)[..k]);
            && RollbackUnderWay(env, d, slot, name, landed, d1) && Journal(env, d1) == Journal(env, d')
            && RegistryOf(d1) == RegistryOf(d')
            && (k == SectorsFor(|prev|) ==> Holds(d1, slot, prev))
  {
    hide DecodeJournal, RegistryOf, JournalOf, EntryOf, WithState, RollbackPending, RollbackRecord;
    var prev, base := Preserved(d, slot), SlotBlobSector(slot);
    BlobBlock(d', base, prev, k);
    var d1 := Splice(d', base, Chunks(prev)[..k]);
    SpliceElsewhere(d', slot, base, Chunks(prev)[..k]);
    SpliceOutside(d', base, Chunks(prev)[..k], PreviousBlobSector(slot));
    SpliceBeyond(d', slot, Chunks(prev)[..k], |prev|);
  }

  lemma SpliceBeyond(d: Image, slot: Slot, ss: seq<Sector>, len: nat)
    requires len <= MAX_RAW_BYTES && |ss| <= SectorsFor(len)
    ensures Beyond(Splice(d, SlotBlobSector(slot), ss), slot, len) == Beyond(d, slot, len)
  {
  }

  lemma CommitKeepsFrame(d: Image, slot: Slot, prev: seq<byte>, d': Image, reg: Registry, k: nat)
    requires |prev| <= MAX_RAW_BYTES && RollbackFrame(d, slot, prev, d') && OnlySlot(RegistryOf(d'), reg, slot) && k <= 11
    ensures RollbackFrame(d, slot, prev, Apply(d', CommitWrites(reg)[..k]))
  {
    hide Beyond, Untouched, RegistryOf, ZeroTail, OnlySlot, Apply;
    CommitElsewhere(d, d', slot, reg, k);
    var d2 := Apply(d', CommitWrites(reg)[..k]);
    SameBlobsSlice(d', d2, PreviousBlobSector(slot), PreviousBlobSector(slot) + SLOT_SECTORS);
    BeyondSame(d', d2, slot, |prev|);
  }

  /** While recovery commits. */
  lemma RestoreCommit(env: Env, d: Image, slot: Slot, name: Name, landed: bool, prev: seq<byte>, d': Image, k: nat)
    requires |prev| <= MAX_RAW_BYTES && ZeroTail(d') && RollbackProgress(env, d, slot, name, landed, prev, d') && k <= 11
    requires Holds(d', slot, prev)
    ensures var reg := WithState(RegistryOf(d'), slot, STATE_ACTIVE);
            var d2 := Apply(d', CommitWrites(reg)[..k]);
            && OnlySlot(RegistryOf(d'), reg, slot)
            && RollbackProgress(env, d, slot, name, landed, prev, d2) && (k == 11 ==> Journal(env, d2) == Empty)
  {
    var reg := WithState(RegistryOf(d'), slot, STATE_ACTIVE);
    EntryWithState(RegistryOf(d'), slot, STATE_ACTIVE);
    ActiveTwice(RegistryOf(d'), slot);
    hide DecodeJournal, RegistryOf, JournalOf, WithState, RollbackRecord, RollbackEnd, Apply, ZeroTail, OnlySlot, CommitWrites;
    CommitBlock(d', reg, slot, k);
    BlankJournalIsEmpty(env);
    SameBlobsSlice(d', Apply(d', CommitWrites(reg)[..k]), SlotBlobSector(slot), SlotBlobSector(slot) + SectorsFor(|prev|));
  }

  lemma RestoreCommitted(env: Env, d: Image, slot: Slot, name: Name, landed: bool, d': Image, k: nat)
    requires CanRollback(env, d, slot) && RollbackUnderWay(env, d, slot, name, landed, d') && k <= 11
    requires Holds(d', slot, Preserved(d, slot))
    ensures var d2 := Apply(d', CommitWrites(WithState(RegistryOf(d'), slot, STATE_ACTIVE))[..k]);
            RollbackUnderWay(env, d, slot, name, landed, d2) && (k == 11 ==> Journal(env, d2) == Empty)
  {
    hide StoreOk, DecodeJournal, RegistryOf, JournalOf, WithState, RollbackProgress, Apply, OnlySlot, Untouched, Beyond;
    var reg, prev := WithState(RegistryOf(d'), slot, STATE_ACTIVE), Preserved(d, slot);
    RestoreCommit(env, d, slot, name, landed, prev, d', k);
    CommitKeepsFrame(d, slot, prev, d', reg, k);
  }

  lemma SameBlobsSlice(d: Image, d': Image, lo: nat, hi: nat)
    requires SameBlobs(d, d') && BLOB_FIRST_SECTOR <= lo <= hi <= DISK_SECTORS
    ensures d[lo..hi] == d'[lo..hi]
  {
    assert d[lo..hi] == d[BLOB_FIRST_SECTOR..][lo - BLOB_FIRST_SECTOR..hi - BLOB_FIRST_SECTOR];
    assert d'[lo..hi] == d'[BLOB_FIRST_SECTOR..][lo - BLOB_FIRST_SECTOR..hi - BLOB_FIRST_SECTOR];
  }

  lemma BeyondSame(d: Image, d': Image, slot: Slot, len: nat)
    requires SameBlobs(d, d') && len <= MAX_RAW_BYTES
    ensures Beyond(d, slot, len) == Beyond(d', slot, len)
  {
    SameBlobsSlice(d, d', SlotBlobSector(slot) + SectorsFor(len), SlotBlobSector(slot) + SLOT_SECTORS);
  }

  lemma RollbackStaysUnderWay(env: Env, d: Image, slot: Slot, name: Name, landed: bool, d': Image, k: nat)
    requires CanRollback(env, d, slot) && RollbackUnderWay(env, d, slot, name, landed, d')
    ensures RecoveryWrites(env, d', false).Some?
    ensures var ws := RecoveryWrites(env, d', false).value;
            k <= |ws| ==> && RollbackUnderWay(env, d, slot, name, landed, Apply(d', ws[..k]))
                          && (k == |ws| ==> Journal(env, Apply(d', ws[..k])) == Empty)
  {
    hide DecodeJournal, RegistryOf, JournalOf, EntryOf, WithState, RollbackUnderWay;
    if Journal(env, d') == Empty {
      assert RecoveryWrites(env, d', false).value == [];
    } else {
      RollbackReplays(env, d, slot, name, landed, d');
      var rec, prev := RollbackRecord(env, RegistryOf(d), slot, name), Preserved(d, slot);
      var n := SectorsFor(rec.rawLen);
      if k <= n + 11 {
        PromotePrefix(d', rec, PreviousBlobSector(slot), k);
        RestoreCopy(env, d, slot, name, landed, d', if k <= n then k else n);
        if k > n {
          RestoreCommitted(env, d, slot, name, landed, Apply(d', BlobWrites(SlotBlobSector(slot), prev)[..n]), k - n);
        }
      }
    }
  }

  lemma RollbackCutShort(env: Env, d: Image, slot: Slot, name: Name, landed: bool, d': Image, k: nat)
    requires CanRollback(env, d, slot) && RollbackUnderWay(env, d, slot, name, landed, d')
    ensures RollbackUnderWay(env, d, slot, name, landed, CutShort(env, d', k))
  {
    hide DecodeJournal, RegistryOf, JournalOf, RollbackUnderWay, CanRollback;
    RollbackStaysUnderWay(env, d, slot, name, landed, d', k);
    var ws := RecoveryWrites(env, d', false).value;
    RollbackStaysUnderWay(env, d, slot, name, landed, d', |ws|);
    assert ws[..|ws|] == ws;
  }

  lemma {:induction false} CutsKeepRollback(env: Env, d: Image, slot: Slot, name: Name, landed: bool, d': Image, cuts: seq<nat>)
    requires CanRollback(env, d, slot) && RollbackUnderWay(env, d, slot, name, landed, d')
    ensures RollbackUnderWay(env, d, slot, name, landed, AfterCuts(env, d', cuts))
    decreases |cuts|
  {
    hide RollbackUnderWay, CutShort, CanRollback;
    if cuts != [] {
      RollbackCutShort(env, d, slot, name, landed, d', cuts[0]);
      CutsKeepRollback(env, d, slot, name, landed, CutShort(env, d', cuts[0]), cuts[1..]);
    }
  }

  /** A rollback that lost power after its journal record, through any number of interrupted recoveries: the journal is
      empty, other slots are as before, and the slot's blob is the preserved one. Its entry is the preserved version's if
      the pending entry had reached the disk, and is still the replaced version's if not. */
  lemma RollbackOutcome(env: Env, d: Image, slot: Slot, name: Name, k: nat, cuts: seq<nat>)
    requires CanRollback(env, d, slot) && 0 < k
    ensures var d2, prev := Recovered(env, AfterCuts(env, RollbackCut(env, d, slot, name, k), cuts)), Preserved(d, slot);
            && ZeroTail(d2) && Journal(env, d2) == Empty && Untouched(d, d2, slot)
            && Holds(d2, slot, prev) && Beyond(d2, slot, |prev|) == Beyond(d, slot, |prev|)
            && RegistryOf(d2) == if k > 8 + slot / 4 then RolledTo(d, slot, name) else RegistryOf(d)
  {
    hide DecodeJournal, RegistryOf, JournalOf, EntryOf, WithState, CanRollback, RecoveryWrites;
    var landed, d0 := k > 8 + slot / 4, RollbackCut(env, d, slot, name, k);
    CutIsUnderWay(env, d, slot, name, k);
    CutsKeepRollback(env, d, slot, name, landed, d0, cuts);
    var d1 := AfterCuts(env, d0, cuts);
    RollbackStaysUnderWay(env, d, slot, name, landed, d1, 0);
    var ws := RecoveryWrites(env, d1, false).value;
    RollbackStaysUnderWay(env, d, slot, name, landed, d1, |ws|);
    assert ws[..|ws|] == ws;
  }

  /** What `verify_blob_record_at` finds of the slot's active entry: its blob has the entry's length and checksum. */
  ghost predicate Matches(env: Env, d: Image, slot: Slot) {
    var e := EntryOf(RegistryOf(d), slot);
    && RawLen(e) <= MAX_RAW_BYTES
    && env.crc(BlobAt(d, SlotBlobSector(slot), RawLen(e))) == RawCrc(e)
  }

  /** The slot's area with the preserved blob copied over its start, read at the replaced version's length. */
  ghost function Mixed(d: Image, slot: Slot): seq<byte>
    requires PreviousLen(EntryOf(RegistryOf(d), slot)) <= MAX_RAW_BYTES && RawLen(EntryOf(RegistryOf(d), slot)) <= MAX_RAW_BYTES
  {
    BlobAt(Splice(d, SlotBlobSector(slot), Chunks(Preserved(d, slot))), SlotBlobSector(slot), RawLen(EntryOf(RegistryOf(d), slot)))
  }

  lemma SplicedArea(d: Image, d2: Image, slot: Slot, raw: seq<byte>, len: nat)
    requires |raw| <= MAX_RAW_BYTES && len <= MAX_RAW_BYTES
    requires Holds(d2, slot, raw) && Beyond(d2, slot, |raw|) == Beyond(d, slot, |raw|)
    ensures BlobAt(d2, SlotBlobSector(slot), len) == BlobAt(Splice(d, SlotBlobSector(slot), Chunks(raw)), SlotBlobSector(slot), len)
  {
    hide Joined, Chunks;
    var base, n := SlotBlobSector(slot), SectorsFor(|raw|);
    var d1 := Splice(d, base, Chunks(raw));
    forall j | base <= j < base + SectorsFor(len)
      ensures d1[j] == d2[j]
    {
      if j < base + n {
        assert d2[base..base + n][j - base] == d2[j];
      } else {
        assert Beyond(d2, slot, |raw|)[j - base - n] == d2[j];
        assert Beyond(d, slot, |raw|)[j - base - n] == d[j];
      }
    }
    BlobSame(d1, d2, base, len);
  }

  /** The entry a rollback commits: the preserved version's metadata under the same name and pin, with no version preserved. */
  lemma RolledEntry(d: Image, slot: Slot, name: Name)
    ensures var e, f := EntryOf(RegistryOf(d), slot), EntryOf(RolledTo(d, slot, name), slot);
            && f[0] == STATE_ACTIVE && f[1..5] == REG_MAGIC
            && RawLen(f) == PreviousLen(e) && RawCrc(f) == PreviousCrc(e)
            && EntryName(f) == name && EntryVersion(f) == PreviousVersion(e)
            && Kind(f) == PreviousKind(e) && Mcaps(f) == PreviousMcaps(e)
            && Pinned(f) == Pinned(e) && !PreviousValid(f)
  {
    hide RegistryOf, EncodeEntry, WithFlags, WithEntry, WithState, U32At, U16At, EntryName, EntryVersion;
    var reg := RegistryOf(d);
    var e := EntryOf(reg, slot);
    var m := PreviousMeta(e, name);
    var p := EncodeEntry(slot, STATE_PENDING_INSTALL, m);
    var q := if Pinned(e) then WithFlags(p, 1) else p;
    EntryFields(slot, STATE_PENDING_INSTALL, m);
    FlagsOnly(p, 1);
    hide EntryOf, PreviousMeta;
    EntryWithEntry(reg, slot, q);
    EntryWithState(WithEntry(reg, slot, q), slot, STATE_ACTIVE);
    SameFields(p, q[0 := STATE_ACTIVE]);
    SameFlags(q, STATE_ACTIVE);
  }

  lemma FlagsOnly(e: Entry, flags: u32)
    ensures var f := WithFlags(e, flags);
            && Flags(f) == flags && f[..28] == e[..28] && f[32..] == e[32..]
  {
    ReadField32(WithFlags(e, flags), 28, flags);
  }

  /** The metadata lies outside the state byte and the flags. */
  lemma SameFields(e: Entry, f: Entry)
    requires e[1..28] == f[1..28] && e[32..] == f[32..]
    ensures f[1..5] == e[1..5] && RawLen(f) == RawLen(e) && RawCrc(f) == RawCrc(e)
    ensures EntryName(f) == EntryName(e) && EntryVersion(f) == EntryVersion(e)
    ensures Kind(f) == Kind(e) && Mcaps(f) == Mcaps(e)
  {
    hide U32;
    assert forall i :: 1 <= i < 28 ==> e[1..28][i - 1] == e[i] && f[1..28][i - 1] == f[i];
    assert forall i :: 32 <= i < ENTRY_SIZE ==> e[32..][i - 32] == e[i] && f[32..][i - 32] == f[i];
  }

  lemma SameFlags(e: Entry, state: byte)
    ensures Flags(e[0 := state]) == Flags(e)
  {
  }

  /** After recovery from a rollback cut after `k` writes the slot's entry describes its blob exactly when the pending entry
      had landed, or the preserved blob laid over the replaced one happens to have the replaced one's checksum. */
  lemma RollbackMatches(env: Env, d: Image, slot: Slot, name: Name, k: nat, cuts: seq<nat>)
    requires CanRollback(env, d, slot) && 0 < k
    ensures var d2, e := Recovered(env, AfterCuts(env, RollbackCut(env, d, slot, name, k), cuts)), EntryOf(RegistryOf(d), slot);
            && RawLen(e) <= MAX_RAW_BYTES
            && (Matches(env, d2, slot) <==> k > 8 + slot / 4 || env.crc(Mixed(d, slot)) == RawCrc(e))
  {
    hide DecodeJournal, JournalOf, RegistryOf, EntryOf, Joined, Chunks, AfterCuts, RollbackCut, Recovered, StoreOk, Untouched, RolledTo;
    var d2, prev := Recovered(env, AfterCuts(env, RollbackCut(env, d, slot, name, k), cuts)), Preserved(d, slot);
    var e := EntryOf(RegistryOf(d), slot);
    ActiveIsLoadable(env, d, slot);
    RollbackOutcome(env, d, slot, name, k, cuts);
    if k > 8 + slot / 4 {
      RolledEntry(d, slot, name);
      WrittenBlobReadsBack(d2, SlotBlobSector(slot), prev);
    } else {
      SplicedArea(d, d2, slot, prev, RawLen(e));
    }
  }
}

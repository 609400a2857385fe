/** Update followed by rollback: the round trip the preserved version exists for, and the window in which it fails. */
module StoreRoundTrip {
  import opened Bytes
  import opened Disk
  import opened StoreFormat
  import opened StoreWrites
  import opened StoreBlocks
  import opened StoreRecovery
  import opened StoreTheorems
  import opened StoreOutcomes
  import opened StoreRollback

  /** The disk once an update has committed. */
  ghost function Updated(env: Env, d: Image, slot: Slot, m: Meta, raw: seq<byte>): Image
    requires CanUpdate(env, d, slot, m, raw)
  {
    Apply(d, WritesOf(env, d, slot, Update(m, raw)))
  }

  /** The entry an update commits records the version it replaced. */
  lemma UpdatedEntry(reg: Registry, slot: Slot, m: Meta)
    ensures var e, f := EntryOf(reg, slot), EntryOf(WithState(UpdatePending(reg, slot, m), slot, STATE_ACTIVE), slot);
            && f[0] == STATE_ACTIVE && RawLen(f) == m.rawLen && RawCrc(f) == m.rawCrc
            && PreviousValid(f) && PreviousLen(f) == RawLen(e) && PreviousCrc(f) == RawCrc(e)
            && PreviousVersion(f) == EntryVersion(e) && PreviousKind(f) == Kind(e) && PreviousMcaps(f) == Mcaps(e)
  {
    hide EncodeEntry, WithPrevious, WithEntry, WithState, U32At, U16At, PreviousVersion, EntryVersion;
    var p := EncodeEntry(slot, STATE_PENDING_INSTALL, m);
    var q := WithPrevious(p, slot, ActiveMeta(EntryOf(reg, slot)));
    PreviousFields(p, slot, ActiveMeta(EntryOf(reg, slot)));
    UpdateEntries(reg, slot, m);
    hide EntryOf;
    EntryWithEntry(reg, slot, q);
    PreviousOnly(q, STATE_ACTIVE);
  }

  lemma PreviousOnly(e: Entry, state: byte)
    ensures var f := e[0 := state];
            && Flags(f) == Flags(e) && PreviousLen(f) == PreviousLen(e) && PreviousCrc(f) == PreviousCrc(e)
            && PreviousVersion(f) == PreviousVersion(e)
            && PreviousKind(f) == PreviousKind(e) && PreviousMcaps(f) == PreviousMcaps(e)
  {
  }

  /** A committed update can be rolled back, to the blob that was active. */
  lemma UpdateEnablesRollback(env: Env, d: Image, slot: Slot, m: Meta, raw: seq<byte>)
    requires CanUpdate(env, d, slot, m, raw)
    ensures var d1 := Updated(env, d, slot, m, raw);
            && CanRollback(env, d1, slot) && Untouched(d, d1, slot)
            && Loadable(env, d, slot) && Preserved(d1, slot) == ActiveBlob(d, slot)
            && RegistryOf(d1) == WithState(UpdatePending(RegistryOf(d), slot, m), slot, STATE_ACTIVE)
            && BlobAt(d1, SlotBlobSector(slot), |raw|) == raw
  {
    hide DecodeJournal, RegistryOf, JournalOf, EntryOf, WithState, UpdatePending, StoreOk, Apply, Joined, SectorsFor, ZeroTail,
      UpdateBlocks, Untouched;
    ActiveIsLoadable(env, d, slot);
    var reg, kept, d1 := RegistryOf(d), ActiveBlob(d, slot), Updated(env, d, slot, m, raw);
    var ws := WritesOf(env, d, slot, Update(m, raw));
    UpdateSees(env, d, slot, m, raw, kept, 0);
    UpdateSees(env, d, slot, m, raw, kept, |ws|);
    assert ws[..|ws|] == ws;
    UpdatedEntry(reg, slot, m);
    StateIsFirstByte(RegistryOf(d1), slot);
    CrashSafety(env, d, slot, Update(m, raw), |ws|, []);
    NothingToRecover(env, d1, []);
  }

  /** Update, then rollback, with power lost anywhere after the rollback's entry landed and in any number of recoveries:
      the replaced version is active again, byte for byte and under its own metadata, and no other slot has changed. */
  lemma UpdateThenRollback(env: Env, d: Image, slot: Slot, m: Meta, raw: seq<byte>, k: nat, cuts: seq<nat>)
    requires CanUpdate(env, d, slot, m, raw) && k > 8 + slot / 4
    ensures CanRollback(env, Updated(env, d, slot, m, raw), slot) && Loadable(env, d, slot)
    ensures var e := EntryOf(RegistryOf(d), slot);
            var d2 := Recovered(env, AfterCuts(env, RollbackCut(env, Updated(env, d, slot, m, raw), slot, EntryName(e), k), cuts));
            var f := EntryOf(RegistryOf(d2), slot);
            && Journal(env, d2) == Empty && Untouched(d, d2, slot)
            && f[0] == STATE_ACTIVE && RawLen(f) == RawLen(e) && RawCrc(f) == RawCrc(e)
            && EntryName(f) == EntryName(e) && EntryVersion(f) == EntryVersion(e)
            && Kind(f) == Kind(e) && Mcaps(f) == Mcaps(e)
            && ActiveBlob(d2, slot) == ActiveBlob(d, slot)
  {
    hide DecodeJournal, RegistryOf, JournalOf, EntryOf, WithState, UpdatePending, CanRollback, Apply, Joined, Chunks,
      Untouched, RolledTo, RollbackCut, AfterCuts, Recovered, Updated, CanUpdate, EntryName, EntryVersion, PreviousVersion, U32At;
    var name, d1 := EntryName(EntryOf(RegistryOf(d), slot)), Updated(env, d, slot, m, raw);
    UpdateEnablesRollback(env, d, slot, m, raw);
    UpdatedEntry(RegistryOf(d), slot, m);
    RollbackOutcome(env, d1, slot, name, k, cuts);
    RolledEntry(d1, slot, name);
    var d2 := Recovered(env, AfterCuts(env, RollbackCut(env, d1, slot, name, k), cuts));
    WrittenBlobReadsBack(d2, SlotBlobSector(slot), Preserved(d1, slot));
    UntouchedTwice(d, d1, d2, slot);
  }

  lemma UntouchedTwice(d0: Image, d1: Image, d2: Image, slot: Slot)
    requires Untouched(d0, d1, slot) && Untouched(d1, d2, slot)
    ensures Untouched(d0, d2, slot)
  {
    hide EntryOf, RegistryOf, SlotBlob;
  }

  /** The window: a rollback of an update between two versions of one length but different checksums that loses power
      before its entry lands ends with an active entry that does not describe its blob. */
  lemma RollbackWindow(env: Env, d: Image, slot: Slot, m: Meta, raw: seq<byte>, name: Name, k: nat, cuts: seq<nat>)
    requires CanUpdate(env, d, slot, m, raw) && 0 < k <= 8 + slot / 4
    requires RawLen(EntryOf(RegistryOf(d), slot)) == |raw| && env.crc(raw) != RawCrc(EntryOf(RegistryOf(d), slot))
    ensures CanRollback(env, Updated(env, d, slot, m, raw), slot)
    ensures var d2 := Recovered(env, AfterCuts(env, RollbackCut(env, Updated(env, d, slot, m, raw), slot, name, k), cuts));
            && EntryOf(RegistryOf(d2), slot)[0] == STATE_ACTIVE && !Matches(env, d2, slot)
  {
    hide DecodeJournal, RegistryOf, JournalOf, EntryOf, WithState, UpdatePending, StoreOk, Apply, Joined, SectorsFor, Chunks,
      Untouched, RolledTo, RollbackCut, AfterCuts, Recovered, Updated, U32At, ZeroTail;
    var d1 := Updated(env, d, slot, m, raw);
    UpdateEnablesRollback(env, d, slot, m, raw);
    UpdatedEntry(RegistryOf(d), slot, m);
    RollbackOutcome(env, d1, slot, name, k, cuts);
    RollbackMatches(env, d1, slot, name, k, cuts);
    var prev := Preserved(d1, slot);
    WrittenBlobReadsBack(Splice(d1, SlotBlobSector(slot), Chunks(prev)), SlotBlobSector(slot), prev);
  }
}

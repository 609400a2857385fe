/** The store's main results: safety over every crash and every interrupted recovery, and the exact outcome
    as a function of the crash point. */
module StoreOutcomes {
  import opened Bytes
  import opened Disk
  import opened StoreFormat
  import opened StoreWrites
  import opened StoreBlocks
  import opened StoreRecovery
  import opened StoreTheorems

  datatype Transaction = Install(m: Meta, raw: seq<byte>) | Update(m: Meta, raw: seq<byte>) | Remove

  /** What the command has checked when the transaction starts. */
  ghost predicate CanStart(env: Env, d: Image, slot: Slot, tx: Transaction) {
    match tx
    case Install(m, raw) => CanInstall(env, d, slot, m, raw)
    case Update(m, raw) => CanUpdate(env, d, slot, m, raw)
    case Remove => StoreOk(env, d) && StateOf(RegistryOf(d), slot) == STATE_ACTIVE
  }

  ghost function WritesOf(env: Env, d: Image, slot: Slot, tx: Transaction): seq<Write>
    requires CanStart(env, d, slot, tx)
  {
    match tx
    case Install(m, raw) => Flat(env, slot, InstallBlocks(env, RegistryOf(d), slot, m, raw))
    case Update(m, raw) =>
      ActiveIsLoadable(env, d, slot);
      Flat(env, slot, UpdateBlocks(env, RegistryOf(d), slot, m, raw, ActiveBlob(d, slot)))
    case Remove => Flat(env, slot, RemoveBlocks(env, RegistryOf(d), slot))
  }

  /** The disk when power fails after the first `k` writes. */
  ghost function Cut(env: Env, d: Image, slot: Slot, tx: Transaction, k: nat): Image
    requires CanStart(env, d, slot, tx)
  {
    var ws := WritesOf(env, d, slot, tx);
    Apply(d, if k <= |ws| then ws[..k] else ws)
  }

  /** The disk after an uninterrupted recovery. */
  ghost function Recovered(env: Env, d: Image): Image {
    match RecoveryWrites(env, d, false)
    case None => d
    case Some(ws) => Apply(d, ws)
  }

  lemma CutIsCrashSafe(env: Env, d: Image, slot: Slot, tx: Transaction, k: nat)
    requires CanStart(env, d, slot, tx)
    ensures CrashInv(env, d, slot, Cut(env, d, slot, tx, k))
  {
    hide EntryOf;
    var ws := WritesOf(env, d, slot, tx);
    var j := if k <= |ws| then k else |ws|;
    assert ws[..|ws|] == ws;
    match tx
    case Install(m, raw) =>
      InstallSize(env, RegistryOf(d), slot, m, raw);
      InstallIsCrashSafe(env, d, slot, m, raw, j);
    case Update(m, raw) =>
      UpdateIsCrashSafe(env, d, slot, m, raw, j);
    case Remove =>
      RemoveSees(env, d, slot, 0);
      RemoveIsCrashSafe(env, d, slot, j);
  }

  /** Power may fail after any write of an install, update or remove, and again after any write of any
      number of recoveries. Once a recovery completes, the journal is empty, nothing is pending, every
      active slot is backed by a blob that passes the loader's checks, and all other slots are as before. */
  lemma CrashSafety(env: Env, d: Image, slot: Slot, tx: Transaction, k: nat, cuts: seq<nat>)
    requires CanStart(env, d, slot, tx)
    ensures var d1 := AfterCuts(env, Cut(env, d, slot, tx, k), cuts);
            RecoveryWrites(env, d1, false).Some? && StoreOk(env, Recovered(env, d1)) && Untouched(d, Recovered(env, d1), slot)
  {
    hide DecodeJournal, RegistryOf, JournalOf, StoreOk, Untouched, CrashInv, Cut, Apply, RecoveryWrites, AfterCuts, Checked, StateOf;
    CutIsCrashSafe(env, d, slot, tx, k);
    RecoveryRestoresTheStore(env, d, slot, Cut(env, d, slot, tx, k), cuts);
  }

  // --- Exact outcomes -------------------------------------------------------------------------

  datatype Outcome = Unchanged | NewActive | QuarantinedOld | QuarantinedNew

  /** Which write of an install or update decides what: `p` is the number of writes before the pending journal
      record, `n` the number of sectors promoted after the pending entry, `r` the registry sector of the slot. */
  ghost function OutcomeAt(k: nat, p: nat, n: nat, r: nat): Outcome {
    if k <= p then Unchanged
    else if k <= p + 8 + r then QuarantinedOld
    else if k <= p + 10 + n + r then NewActive
    else if k <= p + 13 + n then QuarantinedNew
    else NewActive
  }

  /** The same when recovery is cut short `|cuts|` times before it completes. Only the promotion of a pending version is
      decided by the cuts: a recovery that was cut between its registry sector and its cleared journal, after `n` sectors
      of copying, leaves the gap that ends in quarantine. */
  ghost function OutcomeThrough(k: nat, p: nat, n: nat, r: nat, cuts: seq<nat>): Outcome {
    if p + 8 + r < k <= p + 10 + n + r then Promoted(n, r, cuts) else OutcomeAt(k, p, n, r)
  }

  ghost function Promoted(n: nat, r: nat, cuts: seq<nat>): Outcome
    decreases |cuts|
  {
    if cuts == [] then NewActive
    else if cuts[0] <= n + r then Promoted(n, r, cuts[1..])
    else if cuts[0] <= n + 3 then QuarantinedNew
    else NewActive
  }

  /** `d2` is how the slot ends up: `active` is the registry with the new version, `raw` its blob. */
  ghost predicate Ends(env: Env, d: Image, slot: Slot, active: Registry, raw: seq<byte>, o: Outcome, d2: Image)
    requires |raw| <= MAX_RAW_BYTES
  {
    && Journal(env, d2) == Empty
    && match o
       case Unchanged =>
         RegistryOf(d2) == RegistryOf(d)
         && (StateOf(RegistryOf(d), slot) == STATE_ACTIVE ==> SlotBlob(d2, slot) == SlotBlob(d, slot))
       case NewActive => RegistryOf(d2) == active && BlobAt(d2, SlotBlobSector(slot), |raw|) == raw
       case QuarantinedOld => RegistryOf(d2) == WithState(RegistryOf(d), slot, STATE_QUARANTINED)
       case QuarantinedNew => RegistryOf(d2) == WithState(active, slot, STATE_QUARANTINED)
  }

  // --- Recoveries that only rewrite the registry ----------------------------------------------

  /** Recovery of `rec` over the registry `reg` commits `end`, and would commit it again from there. */
  ghost predicate Commits(reg: Registry, rec: JournalRecord, end: Registry) {
    && (rec.op == OP_INSTALL || rec.op == OP_REPLACE)
    && if rec.phase == PHASE_STARTED || rec.phase == PHASE_BLOB_WRITTEN then reg == end == RolledBack(end, rec)
       else
         && rec.phase == PHASE_REGISTRY_PENDING
         && StateOf(reg, rec.slot) != STATE_PENDING_INSTALL && WithState(reg, rec.slot, STATE_QUARANTINED) == end
  }

  lemma CommitsAgain(env: Env, reg: Registry, rec: JournalRecord, end: Registry)
    requires Commits(reg, rec, end)
    ensures Commits(end, rec, end) && OnlySlot(reg, end, rec.slot)
  {
    EntryWithState(reg, rec.slot, STATE_QUARANTINED);
    EntryWithState(end, rec.slot, STATE_QUARANTINED);
  }

  /** Between `d1`, where `rec` was found in the journal, and the end of its recovery. */
  ghost predicate Committing(env: Env, d1: Image, rec: JournalRecord, end: Registry, d': Image) {
    && ZeroTail(d') && SameBlobs(d1, d')
    && ((Journal(env, d') == Valid(rec) && Commits(RegistryOf(d'), rec, end))
        || (Journal(env, d') == Empty && RegistryOf(d') == end))
  }

  lemma CommittingStep(env: Env, d1: Image, rec: JournalRecord, end: Registry, d': Image, k: nat)
    requires Committing(env, d1, rec, end, d')
    ensures RecoveryWrites(env, d', false).Some?
    ensures var ws := RecoveryWrites(env, d', false).value;
            k <= |ws| ==> Committing(env, d1, rec, end, Apply(d', ws[..k])) && (k == |ws| ==> Journal(env, Apply(d', ws[..k])) == Empty)
  {
    hide DecodeJournal, RegistryOf, JournalOf, WithState, RolledBack, ZeroTail, OnlySlot, VerifiedAt;
    var ws := RecoveryWrites(env, d', false).value;
    if k <= |ws| {
      if Journal(env, d') == Empty {
        assert ws == [] && ws[..k] == [];
      } else {
        CommitsAgain(env, RegistryOf(d'), rec, end);
        assert ws == CommitWrites(end);
        CommitBlock(d', end, rec.slot, k);
        BlankJournalIsEmpty(env);
      }
    }
  }

  lemma CommittingCut(env: Env, d1: Image, rec: JournalRecord, end: Registry, d': Image, k: nat)
    requires Committing(env, d1, rec, end, d')
    ensures Committing(env, d1, rec, end, CutShort(env, d', k))
  {
    hide Committing, Apply;
    CommittingStep(env, d1, rec, end, d', k);
    var ws := RecoveryWrites(env, d', false).value;
    CommittingStep(env, d1, rec, end, d', |ws|);
    assert ws[..|ws|] == ws;
  }

  lemma {:induction false} CommittingEnds(env: Env, d1: Image, rec: JournalRecord, end: Registry, d': Image, cuts: seq<nat>)
    requires Committing(env, d1, rec, end, d')
    ensures var d2 := Recovered(env, AfterCuts(env, d', cuts));
            Journal(env, d2) == Empty && RegistryOf(d2) == end && SameBlobs(d1, d2)
    decreases |cuts|
  {
    hide DecodeJournal, RegistryOf, JournalOf, Apply, ZeroTail, RecoveryWrites;
    if cuts == [] {
      CommittingStep(env, d1, rec, end, d', 0);
      var ws := RecoveryWrites(env, d', false).value;
      CommittingStep(env, d1, rec, end, d', |ws|);
      assert ws[..|ws|] == ws;
    } else {
      CommittingCut(env, d1, rec, end, d', cuts[0]);
      CommittingEnds(env, d1, rec, end, CutShort(env, d', cuts[0]), cuts[1..]);
    }
  }

  /** A transaction cut before its pending journal record: recovery changes nothing. */
  lemma EarlyEnds(env: Env, d: Image, rec: JournalRecord, cuts: seq<nat>)
    requires ZeroTail(d) && Journal(env, d) == Valid(rec) && RecordFits(env, d, rec)
    requires rec.op == OP_INSTALL || rec.op == OP_REPLACE
    requires rec.phase == PHASE_STARTED || rec.phase == PHASE_BLOB_WRITTEN
    ensures var d2 := Recovered(env, AfterCuts(env, d, cuts));
            RegistryOf(d2) == RegistryOf(d) && Journal(env, d2) == Empty && SameBlobs(d, d2)
  {
    hide Recovered, AfterCuts, DecodeJournal, JournalOf, RolledBack;
    RollsBackInPlace(env, d, rec);
    CommittingEnds(env, d, rec, RegistryOf(d), d, cuts);
  }

  /** A pending journal record over anything but a pending entry ends in quarantine. */
  lemma GapEnds(env: Env, d: Image, rec: JournalRecord, cuts: seq<nat>)
    requires ZeroTail(d) && Journal(env, d) == Valid(rec)
    requires rec.op == OP_INSTALL || rec.op == OP_REPLACE
    requires rec.phase == PHASE_REGISTRY_PENDING && StateOf(RegistryOf(d), rec.slot) != STATE_PENDING_INSTALL
    ensures var d2 := Recovered(env, AfterCuts(env, d, cuts));
            RegistryOf(d2) == WithState(RegistryOf(d), rec.slot, STATE_QUARANTINED) && Journal(env, d2) == Empty && SameBlobs(d, d2)
  {
    hide Recovered, AfterCuts, DecodeJournal, JournalOf, RegistryOf, WithState, StateOf, ZeroTail;
    CommittingEnds(env, d, rec, WithState(RegistryOf(d), rec.slot, STATE_QUARANTINED), d, cuts);
  }

  // --- Recoveries that promote a pending version ------------------------------------------------

  /** Sectors recovery copies before it commits. */
  ghost function CopySize(rec: JournalRecord): nat {
    if rec.op == OP_REPLACE then SectorsFor(rec.rawLen) else 0
  }

  /** A pending record over its pending entry, with the new version `raw` where recovery looks for it. */
  ghost predicate Promoting(env: Env, d0: Image, rec: JournalRecord, pending: Registry, raw: seq<byte>, d': Image) {
    && CrashInv(env, d0, rec.slot, d') && Journal(env, d') == Valid(rec) && RegistryOf(d') == pending
    && (rec.op == OP_INSTALL || rec.op == OP_REPLACE) && rec.phase == PHASE_REGISTRY_PENDING
    && StateOf(pending, rec.slot) == STATE_PENDING_INSTALL
    && 0 < rec.rawLen <= MAX_RAW_BYTES && BlobAt(d', SourceSector(rec), rec.rawLen) == raw
  }

  /** What a promotion has done after `k` writes. */
  lemma PromotionSees(env: Env, d0: Image, rec: JournalRecord, pending: Registry, raw: seq<byte>, d': Image, k: nat)
    requires Promoting(env, d0, rec, pending, raw, d') && k <= CopySize(rec) + 11
    ensures RecoveryWrites(env, d', false).Some? && |RecoveryWrites(env, d', false).value| == CopySize(rec) + 11
    ensures var n, r, d2 := CopySize(rec), rec.slot / 4, Apply(d', RecoveryWrites(env, d', false).value[..k]);
            && ZeroTail(d2) && BlobAt(d2, SourceSector(rec), rec.rawLen) == raw
            && RegistryOf(d2) == (if k <= n + r then pending else WithState(pending, rec.slot, STATE_ACTIVE))
            && Journal(env, d2) == (if k <= n + 3 then Valid(rec) else Empty)
            && (k >= n ==> BlobAt(d2, SlotBlobSector(rec.slot), rec.rawLen) == raw)
  {
    hide DecodeJournal, RegistryOf, JournalOf, Apply, EntryOf, BlobWrites, CommitWrites, ZeroTail, WithState, OnlySlot;
    StateIsFirstByte(RegistryOf(d'), rec.slot);
    var active := WithState(pending, rec.slot, STATE_ACTIVE);
    EntryWithState(pending, rec.slot, STATE_ACTIVE);
    BlankJournalIsEmpty(env);
    var ws := RecoveryWrites(env, d', false).value;
    if rec.op == OP_INSTALL {
      assert ws == CommitWrites(active);
      CommitBlock(d', active, rec.slot, k);
      SameBlobsAt(d', Apply(d', ws[..k]), SlotBlobSector(rec.slot), rec.rawLen);
    } else {
      assert ws == PromoteWrites(d', rec, StageBlobSector(rec.slot));
      PromotePrefix(d', rec, StageBlobSector(rec.slot), k);
      CopySees(env, d', rec, raw, if k <= CopySize(rec) then k else CopySize(rec));
      if k > CopySize(rec) {
        var a := BlobWrites(SlotBlobSector(rec.slot), raw);
        var d1 := Apply(d', a[..CopySize(rec)]);
        CommitBlock(d1, active, rec.slot, k - CopySize(rec));
        SameBlobsAt(d1, Apply(d', ws[..k]), SlotBlobSector(rec.slot), rec.rawLen);
        SameBlobsAt(d1, Apply(d', ws[..k]), StageBlobSector(rec.slot), rec.rawLen);
      }
    }
  }

  /** The copy of the staged version into the slot. */
  lemma CopySees(env: Env, d': Image, rec: JournalRecord, raw: seq<byte>, k: nat)
    requires 0 < rec.rawLen <= MAX_RAW_BYTES && BlobAt(d', StageBlobSector(rec.slot), rec.rawLen) == raw
    requires ZeroTail(d') && k <= SectorsFor(rec.rawLen)
    ensures var d2 := Apply(d', BlobWrites(SlotBlobSector(rec.slot), raw)[..k]);
            && ZeroTail(d2) && RegistryOf(d2) == RegistryOf(d') && JournalOf(d2) == JournalOf(d')
            && BlobAt(d2, StageBlobSector(rec.slot), rec.rawLen) == raw
            && (k == SectorsFor(rec.rawLen) ==> BlobAt(d2, SlotBlobSector(rec.slot), rec.rawLen) == raw)
  {
    hide RegistryOf, JournalOf, Apply, Joined;
    var d2 := Apply(d', BlobWrites(SlotBlobSector(rec.slot), raw)[..k]);
    BlobBlock(d', SlotBlobSector(rec.slot), raw, k);
    BlobSame(d', d2, StageBlobSector(rec.slot), rec.rawLen);
  }

  lemma PromotionCut(env: Env, d0: Image, rec: JournalRecord, pending: Registry, raw: seq<byte>, d': Image, k: nat)
    requires Promoting(env, d0, rec, pending, raw, d')
    ensures var n, r, d2 := CopySize(rec), rec.slot / 4, CutShort(env, d', k);
            if k <= n + r then Promoting(env, d0, rec, pending, raw, d2)
            else
              && ZeroTail(d2) && RegistryOf(d2) == WithState(pending, rec.slot, STATE_ACTIVE)
              && Journal(env, d2) == (if k <= n + 3 then Valid(rec) else Empty)
              && BlobAt(d2, SlotBlobSector(rec.slot), rec.rawLen) == raw
  {
    hide DecodeJournal, RegistryOf, JournalOf, Apply, ZeroTail, WithState, CrashInv, RecoveryWrites, BlobAt;
    CutShortKeepsInv(env, d0, rec.slot, d', k);
    var size := CopySize(rec) + 11;
    PromotionSees(env, d0, rec, pending, raw, d', if k <= size then k else size);
    var ws := RecoveryWrites(env, d', false).value;
    assert ws[..|ws|] == ws;
  }

  lemma {:induction false} PromotionEnds(env: Env, d0: Image, rec: JournalRecord, pending: Registry, raw: seq<byte>, d': Image, cuts: seq<nat>)
    requires Promoting(env, d0, rec, pending, raw, d')
    ensures var d2, active := Recovered(env, AfterCuts(env, d', cuts)), WithState(pending, rec.slot, STATE_ACTIVE);
            && Journal(env, d2) == Empty
            && match Promoted(CopySize(rec), rec.slot / 4, cuts)
               case NewActive => RegistryOf(d2) == active && BlobAt(d2, SlotBlobSector(rec.slot), rec.rawLen) == raw
               case _ => RegistryOf(d2) == WithState(active, rec.slot, STATE_QUARANTINED)
    decreases |cuts|
  {
    hide DecodeJournal, RegistryOf, JournalOf, Apply, ZeroTail, WithState, RecoveryWrites, BlobAt, CrashInv, CutShort;
    if cuts == [] {
      PromotionSees(env, d0, rec, pending, raw, d', CopySize(rec) + 11);
      var ws := RecoveryWrites(env, d', false).value;
      assert ws[..|ws|] == ws;
    } else {
      var n, r, d1 := CopySize(rec), rec.slot / 4, CutShort(env, d', cuts[0]);
      PromotionCut(env, d0, rec, pending, raw, d', cuts[0]);
      if cuts[0] <= n + r {
        PromotionEnds(env, d0, rec, pending, raw, d1, cuts[1..]);
      } else if cuts[0] <= n + 3 {
        ActiveState(pending, rec.slot);
        GapEnds(env, d1, rec, cuts[1..]);
      } else {
        NothingToRecover(env, d1, cuts[1..]);
      }
    }
  }

  lemma ActiveState(reg: Registry, slot: Slot)
    ensures StateOf(WithState(reg, slot, STATE_ACTIVE), slot) == STATE_ACTIVE
  {
  }

  // --- Outcomes ------------------------------------------------------------------------------------

  /** An install cut between its pending journal record and its cleared journal. */
  lemma InstallOutcomeLate(env: Env, d: Image, slot: Slot, m: Meta, raw: seq<byte>, p: nat, k: nat, d1: Image, cuts: seq<nat>)
    requires CrashInv(env, d, slot, d1) && Checked(env, m, raw)
    requires StateOf(RegistryOf(d), slot) != STATE_PENDING_INSTALL
    requires Journal(env, d1) == Valid(InstallRecord(env, RegistryOf(d), slot, m, PHASE_REGISTRY_PENDING))
    requires p < k <= p + 13 && BlobAt(d1, SlotBlobSector(slot), |raw|) == raw
    requires var pending, r := InstallPending(RegistryOf(d), slot, m), slot / 4;
             RegistryOf(d1) == if k <= p + 8 + r then RegistryOf(d)
                               else if k <= p + 10 + r then pending else WithState(pending, slot, STATE_ACTIVE)
    ensures Ends(env, d, slot, WithState(InstallPending(RegistryOf(d), slot, m), slot, STATE_ACTIVE), raw,
                 OutcomeThrough(k, p, 0, slot / 4, cuts), Recovered(env, AfterCuts(env, d1, cuts)))
  {
    hide DecodeJournal, JournalOf, RegistryOf, Apply, EntryOf, SectorsFor, RecoveryWrites, Recovered, AfterCuts, BlobAt, Promoted;
    var reg, r, rec := RegistryOf(d), slot / 4, Journal(env, d1).rec;
    InstallEntries(reg, slot, m);
    StateIsFirstByte(RegistryOf(d1), slot);
    if p + 8 + r < k <= p + 10 + r {
      PromotionEnds(env, d, rec, RegistryOf(d1), raw, d1, cuts);
      PromotedIsOneOf(0, r, cuts);
    } else {
      GapEnds(env, d1, rec, cuts);
    }
  }

  lemma {:induction false} PromotedIsOneOf(n: nat, r: nat, cuts: seq<nat>)
    ensures Promoted(n, r, cuts) == NewActive || Promoted(n, r, cuts) == QuarantinedNew
    decreases |cuts|
  {
    if cuts != [] {
      PromotedIsOneOf(n, r, cuts[1..]);
    }
  }

  /** An install that loses power at any write and again in any number of recoveries, and is then recovered. */
  lemma InstallOutcome(env: Env, d: Image, slot: Slot, m: Meta, raw: seq<byte>, k: nat, cuts: seq<nat>)
    requires CanInstall(env, d, slot, m, raw)
    ensures Ends(env, d, slot, WithState(InstallPending(RegistryOf(d), slot, m), slot, STATE_ACTIVE), raw,
                 OutcomeThrough(k, 16 + SectorsFor(|raw|), 0, slot / 4, cuts),
                 Recovered(env, AfterCuts(env, Cut(env, d, slot, Install(m, raw), k), cuts)))
  {
    hide DecodeJournal, RegistryOf, JournalOf, Apply, SectorsFor, RecoveryWrites, InstallPending, InstallBlocks, EntryOf, SlotBlob, WithState,
      Recovered, AfterCuts, BlobAt;
    var n := SectorsFor(|raw|);
    var j := if k <= 37 + n then k else 37 + n;
    InstallSize(env, RegistryOf(d), slot, m, raw);
    InstallSees(env, d, slot, m, raw, j);
    InstallNotPending(env, d, slot);
    var d1 := InstallCut(env, d, slot, m, raw, j);
    var ws := WritesOf(env, d, slot, Install(m, raw));
    assert ws[..|ws|] == ws;
    if j == 0 || j > 29 + n {
      NothingToRecover(env, d1, cuts);
    } else {
      InstallIsCrashSafe(env, d, slot, m, raw, j);
      if j <= 16 + n {
        EarlyEnds(env, d1, Journal(env, d1).rec, cuts);
      } else {
        InstallOutcomeLate(env, d, slot, m, raw, 16 + n, j, d1, cuts);
      }
    }
  }

  /** An update cut between its pending journal record and its cleared journal. */
  lemma UpdateOutcomeLate(env: Env, d: Image, slot: Slot, m: Meta, raw: seq<byte>, p: nat, k: nat, d1: Image, cuts: seq<nat>)
    requires CrashInv(env, d, slot, d1) && Checked(env, m, raw) && StateOf(RegistryOf(d), slot) == STATE_ACTIVE
    requires Journal(env, d1) == Valid(UpdateRecord(env, RegistryOf(d), slot, m, PHASE_REGISTRY_PENDING))
    requires p < k <= p + 13 + SectorsFor(|raw|) && BlobAt(d1, StageBlobSector(slot), |raw|) == raw
    requires var pending, r := UpdatePending(RegistryOf(d), slot, m), slot / 4;
             RegistryOf(d1) == if k <= p + 8 + r then RegistryOf(d)
                               else if k <= p + 10 + SectorsFor(|raw|) + r then pending else WithState(pending, slot, STATE_ACTIVE)
    ensures Ends(env, d, slot, WithState(UpdatePending(RegistryOf(d), slot, m), slot, STATE_ACTIVE), raw,
                 OutcomeThrough(k, p, SectorsFor(|raw|), slot / 4, cuts), Recovered(env, AfterCuts(env, d1, cuts)))
  {
    hide DecodeJournal, JournalOf, RegistryOf, Apply, EntryOf, SectorsFor, RecoveryWrites, Recovered, AfterCuts, BlobAt, Promoted;
    var reg, n, r, rec := RegistryOf(d), SectorsFor(|raw|), slot / 4, Journal(env, d1).rec;
    UpdateEntries(reg, slot, m);
    StateIsFirstByte(RegistryOf(d1), slot);
    if p + 8 + r < k <= p + 10 + n + r {
      PromotionEnds(env, d, rec, RegistryOf(d1), raw, d1, cuts);
      PromotedIsOneOf(n, r, cuts);
    } else {
      GapEnds(env, d1, rec, cuts);
    }
  }

  /** An update that loses power at any write and again in any number of recoveries, and is then recovered. */
  lemma UpdateOutcome(env: Env, d: Image, slot: Slot, m: Meta, raw: seq<byte>, k: nat, cuts: seq<nat>)
    requires CanUpdate(env, d, slot, m, raw)
    ensures RawLen(EntryOf(RegistryOf(d), slot)) <= MAX_RAW_BYTES
    ensures Ends(env, d, slot, WithState(UpdatePending(RegistryOf(d), slot, m), slot, STATE_ACTIVE), raw,
                 OutcomeThrough(k, 16 + SectorsFor(|raw|) + SectorsFor(RawLen(EntryOf(RegistryOf(d), slot))), SectorsFor(|raw|), slot / 4, cuts),
                 Recovered(env, AfterCuts(env, Cut(env, d, slot, Update(m, raw), k), cuts)))
  {
    hide DecodeJournal, RegistryOf, JournalOf, Apply, SectorsFor, RecoveryWrites, UpdatePending, UpdateBlocks, EntryOf, SlotBlob, WithState,
      Recovered, AfterCuts, BlobAt;
    ActiveIsPresent(env, d, slot);
    var kept := ActiveBlob(d, slot);
    var n, p := SectorsFor(|raw|), SectorsFor(|kept|);
    var j := if k <= 37 + 2 * n + p then k else 37 + 2 * n + p;
    UpdateSize(env, RegistryOf(d), slot, m, raw, kept);
    UpdateSees(env, d, slot, m, raw, kept, j);
    var d1 := UpdateCut(env, d, slot, m, raw, kept, j);
    var ws := WritesOf(env, d, slot, Update(m, raw));
    assert ws[..|ws|] == ws;
    if j == 0 || j > 29 + 2 * n + p {
      NothingToRecover(env, d1, cuts);
    } else {
      UpdateIsCrashSafe(env, d, slot, m, raw, j);
      if j <= 16 + n + p {
        EarlyEnds(env, d1, Journal(env, d1).rec, cuts);
        SameBlobsSlot(d1, Recovered(env, AfterCuts(env, d1, cuts)));
      } else {
        UpdateOutcomeLate(env, d, slot, m, raw, 16 + n + p, j, d1, cuts);
      }
    }
  }

  lemma ActiveIsPresent(env: Env, d: Image, slot: Slot)
    requires StoreOk(env, d) && StateOf(RegistryOf(d), slot) == STATE_ACTIVE
    ensures 0 < RawLen(EntryOf(RegistryOf(d), slot)) <= MAX_RAW_BYTES
  {
    ActiveIsLoadable(env, d, slot);
  }

  // --- Remove is all or nothing --------------------------------------------------------------

  /** The slot of a remove that got as far as its journal record. */
  ghost predicate RemoveUnderWay(env: Env, d: Image, slot: Slot, d': Image) {
    && ZeroTail(d')
    && SlotBlob(d', slot) == SlotBlob(d, slot)
    && WithState(RegistryOf(d'), slot, STATE_REMOVED) == WithState(RegistryOf(d), slot, STATE_REMOVED)
    && (Journal(env, d') == Valid(RemoveRecord(env, RegistryOf(d), slot))
        || (Journal(env, d') == Empty && RegistryOf(d') == WithState(RegistryOf(d), slot, STATE_REMOVED)))
  }

  lemma RemoveStaysUnderWay(env: Env, d: Image, slot: Slot, d': Image, k: nat)
    requires RemoveUnderWay(env, d, slot, d')
    ensures RecoveryWrites(env, d', false).Some?
    ensures var ws := RecoveryWrites(env, d', false).value;
            k <= |ws| ==> RemoveUnderWay(env, d, slot, Apply(d', ws[..k])) && (k == |ws| ==> Journal(env, Apply(d', ws[..k])) == Empty)
  {
    hide DecodeJournal, RegistryOf, JournalOf, EntryOf, WithState, SlotBlob, ZeroTail, OnlySlot;
    var ws := RecoveryWrites(env, d', false).value;
    if k <= |ws| {
      if Journal(env, d') == Empty {
        assert ws == [] && ws[..k] == [];
      } else {
        var removed := WithState(RegistryOf(d), slot, STATE_REMOVED);
        EntryWithState(RegistryOf(d'), slot, STATE_REMOVED);
        CommitBlock(d', removed, slot, k);
        BlankJournalIsEmpty(env);
        RemovedStates(RegistryOf(d), slot);
        SameBlobsSlot(d', Apply(d', ws[..k]));
      }
    }
  }

  lemma RemoveCutShort(env: Env, d: Image, slot: Slot, d': Image, k: nat)
    requires RemoveUnderWay(env, d, slot, d')
    ensures RemoveUnderWay(env, d, slot, CutShort(env, d', k))
  {
    hide DecodeJournal, RegistryOf, JournalOf, WithState, SlotBlob, ZeroTail, RemoveUnderWay;
    RemoveStaysUnderWay(env, d, slot, d', k);
    var ws := RecoveryWrites(env, d', false).value;
    RemoveStaysUnderWay(env, d, slot, d', |ws|);
    assert ws[..|ws|] == ws;
  }

  lemma {:induction false} CutsKeepRemoveUnderWay(env: Env, d: Image, slot: Slot, d': Image, cuts: seq<nat>)
    requires RemoveUnderWay(env, d, slot, d')
    ensures RemoveUnderWay(env, d, slot, AfterCuts(env, d', cuts))
    decreases |cuts|
  {
    if cuts != [] {
      RemoveCutShort(env, d, slot, d', cuts[0]);
      CutsKeepRemoveUnderWay(env, d, slot, CutShort(env, d', cuts[0]), cuts[1..]);
    }
  }

  lemma RemoveCompletes(env: Env, d: Image, slot: Slot, d': Image, cuts: seq<nat>)
    requires RemoveUnderWay(env, d, slot, d')
    ensures var d2 := Recovered(env, AfterCuts(env, d', cuts));
            && Journal(env, d2) == Empty && SlotBlob(d2, slot) == SlotBlob(d, slot)
            && RegistryOf(d2) == WithState(RegistryOf(d), slot, STATE_REMOVED)
  {
    hide DecodeJournal;
    CutsKeepRemoveUnderWay(env, d, slot, d', cuts);
    var d1 := AfterCuts(env, d', cuts);
    RemoveStaysUnderWay(env, d, slot, d1, 0);
    var ws := RecoveryWrites(env, d1, false).value;
    RemoveStaysUnderWay(env, d, slot, d1, |ws|);
    assert ws[..|ws|] == ws;
  }

  lemma RemoveCutUnderWay(env: Env, d: Image, slot: Slot, k: nat)
    requires CanStart(env, d, slot, Remove) && 0 < k
    ensures RemoveUnderWay(env, d, slot, Cut(env, d, slot, Remove, k))
  {
    hide DecodeJournal, RegistryOf, JournalOf, EntryOf, WithState, SlotBlob, ZeroTail, Apply;
    var j := if k <= 21 then k else 21;
    RemoveSees(env, d, slot, j);
    var ws := WritesOf(env, d, slot, Remove);
    assert ws[..21] == ws;
    RemovedStates(RegistryOf(d), slot);
  }

  /** A remove whose journal record was not written changed nothing. Any other remove ends with the slot removed
      and its blob intact, however often recovery itself is interrupted or repeated. */
  lemma RemoveOutcome(env: Env, d: Image, slot: Slot, k: nat, cuts: seq<nat>)
    requires CanStart(env, d, slot, Remove)
    ensures var d1 := AfterCuts(env, Cut(env, d, slot, Remove, k), cuts);
            var d2 := Recovered(env, d1);
            && Journal(env, d2) == Empty && SlotBlob(d2, slot) == SlotBlob(d, slot)
            && RegistryOf(d2) == if k == 0 then RegistryOf(d) else WithState(RegistryOf(d), slot, STATE_REMOVED)
  {
    if k == 0 {
      assert Cut(env, d, slot, Remove, k) == d;
      NothingToRecover(env, d, cuts);
    } else {
      RemoveCutUnderWay(env, d, slot, k);
      RemoveCompletes(env, d, slot, Cut(env, d, slot, Remove, k), cuts);
    }
  }

  lemma RemovedStates(reg: Registry, slot: Slot)
    ensures forall state: byte :: WithState(WithState(reg, slot, state), slot, STATE_REMOVED) == WithState(reg, slot, STATE_REMOVED)
  {
  }

  /** With an empty journal, recovery is the identity. */
  lemma {:induction false} NothingToRecover(env: Env, d: Image, cuts: seq<nat>)
    requires Journal(env, d) == Empty
    ensures AfterCuts(env, d, cuts) == d && Recovered(env, d) == d
    decreases |cuts|
  {
    if cuts != [] {
      NothingToRecover(env, d, cuts[1..]);
      assert CutShort(env, d, cuts[0]) == d;
    }
  }
}

/** The operator's `pkg-recover` on a journal that cannot be read: pending slots are quarantined, wherever the power fails
    and however often it is begun again. */
module StoreManual {
  import opened Bytes
  import opened Disk
  import opened StoreFormat
  import opened StoreWrites
  import opened StoreBlocks
  import opened StoreRecovery
  import opened StoreSweep

  /** An entry whose install or removal is pending, taken out of use; any other entry as it is. */
  function Quarantined(e: Entry): Entry {
    if e[0] == 4 || e[0] == 5 then e[0 := 6] else e
  }

  lemma {:induction false} QuarantineEntries(reg: Registry, upTo: nat, slot: Slot)
    requires upTo <= MAX_PKGS
    ensures EntryOf(QuarantinePending(reg, upTo), slot) == if slot < upTo then Quarantined(EntryOf(reg, slot)) else EntryOf(reg, slot)
    decreases upTo
  {
    if upTo > 0 {
      QuarantineEntries(reg, upTo - 1, slot);
      QuarantineEntries(reg, upTo - 1, upTo - 1);
      OneState(QuarantinePending(reg, upTo - 1), upTo - 1, slot);
    }
  }

  lemma OneState(reg: Registry, s: Slot, slot: Slot)
    ensures StateOf(reg, s) == EntryOf(reg, s)[0]
    ensures EntryOf(WithState(reg, s, STATE_QUARANTINED), slot) ==
            if slot == s then EntryOf(reg, slot)[0 := STATE_QUARANTINED] else EntryOf(reg, slot)
  {
  }

  // --- Cuts ------------------------------------------------------------------------------------

  /** An entry lies in one sector, four to each. */
  lemma EntrySector(slot: Slot, i: nat)
    requires slot * ENTRY_SIZE <= i < slot * ENTRY_SIZE + ENTRY_SIZE
    ensures i / SECTOR_SIZE == slot / 4
  {
  }

  lemma CutByte(d: Image, reg: Registry, k: nat, i: nat)
    requires k <= 2 && i < REGISTRY_SIZE && |Chunks(reg)| == 2
    ensures var d' := Splice(d, REGISTRY_SECTOR, Chunks(reg)[..k]);
            RegistryOf(d')[i] == if i / SECTOR_SIZE < k then reg[i] else RegistryOf(d)[i]
  {
    hide RegistryOf, Chunks;
    RegistryHalf(reg, i / SECTOR_SIZE, i % SECTOR_SIZE);
    RegistryByte(d, i);
    RegistryByte(Splice(d, REGISTRY_SECTOR, Chunks(reg)[..k]), i);
  }

  /** A registry write cut after `k` sectors: the first `k` groups of four slots are the new ones. */
  lemma RegistryCut(d: Image, reg: Registry, k: nat, slot: Slot)
    requires k <= 2
    ensures var d' := Apply(d, RegistryWrites(reg)[..k]);
            && EntryOf(RegistryOf(d'), slot) == (if slot / 4 < k then EntryOf(reg, slot) else EntryOf(RegistryOf(d), slot))
            && JournalOf(d') == JournalOf(d) && SameBlobs(d, d')
  {
    var ss := Chunks(reg);
    RegistryHalf(reg, 0, 0);
    ApplyBlockPrefix(d, REGISTRY_SECTOR, ss, k);
    var d' := Splice(d, REGISTRY_SECTOR, ss[..k]);
    JournalSame(d, d');
    hide RegistryOf, Chunks, JournalOf, Splice, Apply;
    var want := if slot / 4 < k then reg else RegistryOf(d);
    forall i | slot * ENTRY_SIZE <= i < slot * ENTRY_SIZE + ENTRY_SIZE
      ensures RegistryOf(d')[i] == want[i]
    {
      EntrySector(slot, i);
      CutByte(d, reg, k, i);
    }
    assert EntryOf(RegistryOf(d'), slot) == EntryOf(want, slot);
  }

  /** Clearing the journal, cut after `k` sectors: from the first on it is no record, and after the last it is empty. */
  lemma ClearCut(env: Env, d: Image, k: nat)
    requires k <= 8
    ensures var d' := Apply(d, ClearWrites()[..k]);
            && RegistryOf(d') == RegistryOf(d) && SameBlobs(d, d')
            && (k == 0 ==> JournalOf(d') == JournalOf(d)) && (k > 0 ==> !Journal(env, d').Valid?)
            && (k == 8 ==> Journal(env, d') == Empty)
  {
    var raw: JournalImage := Zeros(JOURNAL_SIZE);
    var ss := Chunks(raw);
    JournalTailChunks(raw);
    assert ss[0] == Chunk(raw, 0);
    FirstChunk(raw);
    hide Chunks, RegistryOf;
    ApplyBlockPrefix(d, JOURNAL_SECTOR, ss, k);
    var d' := Splice(d, JOURNAL_SECTOR, ss[..k]);
    RegistrySame(d, d');
    if k == 0 {
      JournalSame(d, d');
    } else {
      assert d'[JOURNAL_SECTOR] == ZERO_SECTOR;
      NoMagic(d');
      if k == 8 {
        assert forall i :: 0 <= i < 8 ==> d'[JOURNAL_SECTOR + i] == ss[i];
        JournalJoins(d', raw);
      }
    }
  }

  lemma FirstChunk(raw: JournalImage)
    requires raw == Zeros(JOURNAL_SIZE)
    ensures Chunk(raw, 0) == ZERO_SECTOR
  {
  }

  lemma NoMagic(d: Image)
    requires d[JOURNAL_SECTOR] == ZERO_SECTOR
    ensures JournalOf(d)[0..4] != JOURNAL_MAGIC
  {
    assert JournalOf(d)[0..4][0] == JournalOf(d)[0] == d[JOURNAL_SECTOR][0];
  }

  /** The writes of a manual recovery, cut after `k` of them. */
  lemma ManualCut(env: Env, d: Image, k: nat, slot: Slot)
    requires Journal(env, d) == Corrupt && k <= 11
    ensures RecoveryWrites(env, d, true).Some? && |RecoveryWrites(env, d, true).value| == 11
    ensures var d' := Apply(d, RecoveryWrites(env, d, true).value[..k]);
            && SameBlobs(d, d') && !Journal(env, d').Valid? && (k == 11 ==> Journal(env, d') == Empty)
            && (k < 2 ==> Journal(env, d') == Corrupt)
            && var e, e' := EntryOf(RegistryOf(d), slot), EntryOf(RegistryOf(d'), slot);
               (e' == e || e' == Quarantined(e)) && (k >= 2 ==> e' == Quarantined(e))
  {
    var reg := QuarantinePending(RegistryOf(d), MAX_PKGS);
    QuarantineEntries(RegistryOf(d), MAX_PKGS, slot);
    hide QuarantinePending, RegistryOf, JournalOf, DecodeJournal, EntryOf, Marker, SectorsFor, Chunks, SameBlobs;
    var a, b, c := RegistryWrites(reg), [Write(MARKER_SECTOR, Marker())], ClearWrites();
    ApplyPrefix(d, a, b + c, k);
    if k <= 2 {
      RegistryCut(d, reg, k, slot);
    } else {
      RegistryCut(d, reg, 2, slot);
      assert a[..2] == a;
      var d1 := Apply(d, a);
      ApplyPrefix(d1, b, c, k - 2);
      assert b[..1] == b;
      MarkerKeeps(d1, b);
      var d2 := Apply(d1, b);
      ClearCut(env, d2, k - 3);
      BlobsThrough(d, d1, d2, Apply(d2, c[..k - 3]));
    }
  }

  lemma MarkerKeeps(d: Image, b: seq<Write>)
    requires b == [Write(MARKER_SECTOR, Marker())]
    ensures RegistryOf(Apply(d, b)) == RegistryOf(d) && JournalOf(Apply(d, b)) == JournalOf(d) && SameBlobs(d, Apply(d, b))
  {
    hide RegistryOf, JournalOf;
    assert b[..0] == [];
    assert Apply(d, b[..0]) == d;
    assert Apply(d, b) == d[MARKER_SECTOR := Marker()];
    RegistrySame(d, Apply(d, b));
    JournalSame(d, Apply(d, b));
  }

  lemma BlobsThrough(d0: Image, d1: Image, d2: Image, d3: Image)
    requires SameBlobs(d0, d1) && SameBlobs(d1, d2) && SameBlobs(d2, d3)
    ensures SameBlobs(d0, d3)
  {
  }

  // --- Begun again and again --------------------------------------------------------------------

  /** On the way from `d0` to the end of its manual recovery. */
  ghost predicate Settling(env: Env, d0: Image, d: Image) {
    && SameBlobs(d0, d) && !Journal(env, d).Valid?
    && forall s: Slot :: SlotSettling(env, d0, d, s)
  }

  ghost predicate SlotSettling(env: Env, d0: Image, d: Image, s: Slot) {
    var e0, e := EntryOf(RegistryOf(d0), s), EntryOf(RegistryOf(d), s);
    (e == e0 || e == Quarantined(e0)) && (Journal(env, d) == Empty ==> e == Quarantined(e0))
  }

  ghost function ManualCutShort(env: Env, d: Image, k: nat): Image {
    match RecoveryWrites(env, d, true)
    case None => d
    case Some(ws) => if k < |ws| then Apply(d, ws[..k]) else Apply(d, ws)
  }

  /** The disk after manual recovery was begun once for each element of `cuts` and cut short by that many writes. */
  ghost function AfterManualCuts(env: Env, d: Image, cuts: seq<nat>): Image
    decreases |cuts|
  {
    if cuts == [] then d else AfterManualCuts(env, ManualCutShort(env, d, cuts[0]), cuts[1..])
  }

  lemma CutSettles(env: Env, d0: Image, d: Image, k: nat)
    requires Settling(env, d0, d)
    ensures Settling(env, d0, ManualCutShort(env, d, k))
    ensures k >= 11 ==> Journal(env, ManualCutShort(env, d, k)) == Empty
  {
    var d' := ManualCutShort(env, d, k);
    hide JournalOf, RegistryOf, EntryOf, DecodeJournal, SameBlobs, CommitWrites, QuarantinePending;
    match Journal(env, d)
    case Empty =>
      assert RecoveryWrites(env, d, true) == Some([]);
      assert d' == d;
    case Corrupt =>
      var j := if k < 11 then k else 11;
      ManualCut(env, d, j, 0);
      assert RecoveryWrites(env, d, true).value[..11] == RecoveryWrites(env, d, true).value;
      assert d' == Apply(d, RecoveryWrites(env, d, true).value[..j]);
      BlobsThrough(d0, d0, d, d');
      forall s: Slot
        ensures SlotSettling(env, d0, d', s)
      {
        ManualCut(env, d, j, s);
        assert SlotSettling(env, d0, d, s);
      }
    case Valid(_) =>
  }

  lemma {:induction false} CutsSettle(env: Env, d0: Image, d: Image, cuts: seq<nat>)
    requires Settling(env, d0, d)
    ensures Settling(env, d0, AfterManualCuts(env, d, cuts))
    decreases |cuts|
  {
    hide Settling, ManualCutShort;
    if cuts != [] {
      CutSettles(env, d0, d, cuts[0]);
      CutsSettle(env, d0, ManualCutShort(env, d, cuts[0]), cuts[1..]);
    }
  }

  /** On any disk whose journal cannot be read, through any number of manual recoveries that were cut short, one that
      completes leaves an empty journal and no slot pending: slots that were pending are quarantined, every other entry and
      every blob is as it was. */
  lemma ManualRecoverySettles(env: Env, d: Image, cuts: seq<nat>)
    requires Journal(env, d) == Corrupt
    ensures var d1 := AfterManualCuts(env, d, cuts);
            && RecoveryWrites(env, d1, true).Some?
            && var d2 := Apply(d1, RecoveryWrites(env, d1, true).value);
               && Journal(env, d2) == Empty && SameBlobs(d, d2)
               && forall s: Slot ::
                    && EntryOf(RegistryOf(d2), s) == Quarantined(EntryOf(RegistryOf(d), s))
                    && StateOf(RegistryOf(d2), s) != STATE_PENDING_INSTALL && StateOf(RegistryOf(d2), s) != STATE_PENDING_REMOVE
  {
    hide JournalOf, RegistryOf, DecodeJournal, CommitWrites, QuarantinePending;
    forall s: Slot
      ensures SlotSettling(env, d, d, s)
    {
    }
    CutsSettle(env, d, d, cuts);
    var d1 := AfterManualCuts(env, d, cuts);
    CutSettles(env, d, d1, 11);
    var d2 := Apply(d1, RecoveryWrites(env, d1, true).value);
    assert d2 == ManualCutShort(env, d1, 11);
    forall s: Slot
      ensures EntryOf(RegistryOf(d2), s) == Quarantined(EntryOf(RegistryOf(d), s))
      ensures StateOf(RegistryOf(d2), s) != STATE_PENDING_INSTALL && StateOf(RegistryOf(d2), s) != STATE_PENDING_REMOVE
    {
      assert SlotSettling(env, d, d2, s);
      OneState(RegistryOf(d2), s, s);
    }
  }

  lemma EmptyJournalIsZero(env: Env, d: Image)
    requires Journal(env, d) == Empty
    ensures ZeroTail(d)
  {
    forall j | JOURNAL_SECTOR < j < JOURNAL_SECTOR + JOURNAL_SECTORS
      ensures d[j] == ZERO_SECTOR
    {
      forall i | 0 <= i < SECTOR_SIZE
        ensures d[j][i] == 0
      {
        var at := (j - JOURNAL_SECTOR) * SECTOR_SIZE + i;
        assert at / SECTOR_SIZE == j - JOURNAL_SECTOR && at % SECTOR_SIZE == i;
        assert JournalOf(d)[at] == 0;
      }
      assert d[j] == ZERO_SECTOR;
    }
  }

  /** After that a load leaves a store at rest, whatever the blobs hold: the way back from a journal that cannot be read. */
  lemma ManualRecoveryThenLoad(env: Env, d: Image, cuts: seq<nat>)
    requires Journal(env, d) == Corrupt
    requires forall s: Slot :: EntryOf(RegistryOf(d), s)[0] == STATE_EMPTY ==> EntryOf(RegistryOf(d), s) == Zeros(ENTRY_SIZE)
    ensures var d1 := AfterManualCuts(env, d, cuts);
            && RecoveryWrites(env, d1, true).Some?
            && var d2 := Apply(d1, RecoveryWrites(env, d1, true).value);
               Quiescent(env, d2) && StoreOk(env, LoadedDisk(env, d2))
  {
    ManualRecoverySettles(env, d, cuts);
    hide JournalOf, RegistryOf, EntryOf, StateOf, Journal, RecoveryWrites, LoadedDisk, AfterManualCuts, Apply, Quarantined, SameBlobs, Quiescent,
      StoreOk;
    var d1 := AfterManualCuts(env, d, cuts);
    var d2 := Apply(d1, RecoveryWrites(env, d1, true).value);
    SettledIsQuiescent(env, d, d2);
    LoadRests(env, d2);
  }

  lemma SettledIsQuiescent(env: Env, d: Image, d': Image)
    requires Journal(env, d') == Empty
    requires forall s: Slot :: EntryOf(RegistryOf(d), s)[0] == STATE_EMPTY ==> EntryOf(RegistryOf(d), s) == Zeros(ENTRY_SIZE)
    requires forall s: Slot :: EntryOf(RegistryOf(d'), s) == Quarantined(EntryOf(RegistryOf(d), s))
    ensures Quiescent(env, d')
  {
    EmptyJournalIsZero(env, d');
    hide JournalOf, RegistryOf, EntryOf, Journal, ZeroTail, Quarantined, Calm;
    forall s: Slot
      ensures Calm(EntryOf(RegistryOf(d'), s))
    {
      assert EntryOf(RegistryOf(d'), s) == Quarantined(EntryOf(RegistryOf(d), s));
      CalmOnce(EntryOf(RegistryOf(d), s));
    }
  }

  lemma CalmOnce(e: Entry)
    requires e[0] == STATE_EMPTY ==> e == Zeros(ENTRY_SIZE)
    ensures Calm(Quarantined(e))
  {
  }
}

/** The package store as the code runs it: the registry, staging buffer and payload arena in memory, the disk behind them.
    A write that does not reach the disk means the power is gone, so every write after it fails too. */
module PackageStore {
  import opened Bytes
  import opened Disk
  import opened StoreFormat
  import opened StoreWrites
  import opened StoreBlocks
  import opened StoreRecovery
  import opened StoreSteps
  import opened StoreLoading
  import opened StoreSweep
  import opened StoreOutcomes
  import opened StoreRollback
  import opened StoreHistory
  import opened Bits

  const STAGE_SIZE: nat := 65536

  function Padded(data: seq<byte>): Sector
    requires |data| <= SECTOR_SIZE
  {
    data + Zeros(SECTOR_SIZE - |data|)
  }

  lemma ChunkIsPadded(raw: seq<byte>, i: nat)
    requires i < SectorsFor(|raw|)
    ensures var start := i * SECTOR_SIZE;
            var end := if start + SECTOR_SIZE < |raw| then start + SECTOR_SIZE else |raw|;
            start <= end && end - start <= SECTOR_SIZE && Chunks(raw)[i] == Padded(raw[start..end])
  {
  }

  /** Rewriting the registry leaves journal and blobs alone, and leaves the registry on the disk unless the power is gone. */
  lemma MarkedDisk(d0: Image, d: Image, n: nat, reg: Registry, d': Image, n': nat)
    requires SameBlobs(d0, d) && JournalOf(d) == JournalOf(d0) && Ran(d, n, RegistryWrites(reg), d', n', 2 <= n)
    ensures SameBlobs(d0, d') && JournalOf(d') == JournalOf(d0) && (n' > 0 ==> RegistryOf(d') == reg)
  {
    hide JournalOf, Chunks;
    RanBlock(d, n, REGISTRY_SECTOR, Chunks(reg), d', n', 2 <= n);
    assert d'[27..] == d[27..];
    assert d'[BLOB_FIRST_SECTOR..] == d'[27..][BLOB_FIRST_SECTOR - 27..];
    assert d[BLOB_FIRST_SECTOR..] == d[27..][BLOB_FIRST_SECTOR - 27..];
    forall j | 32 <= j < 40
      ensures d[j] == d'[j]
    {
      assert d[27..][j - 27] == d'[27..][j - 27];
    }
    JournalSame(d, d');
    if 2 <= n {
      forall i | 0 <= i < 2
        ensures d'[REGISTRY_SECTOR + i] == Chunks(reg)[i]
      {
        assert d'[REGISTRY_SECTOR..REGISTRY_SECTOR + 2][i] == d'[REGISTRY_SECTOR + i];
      }
      ChunksJoin(d', REGISTRY_SECTOR, reg);
    }
  }

  /** Writes that go on after the power is gone have no effect. */
  lemma RanOn(d0: Image, n0: nat, a: seq<Write>, d1: Image, n1: nat, b: seq<Write>, d2: Image, n2: nat)
    requires Ran(d0, n0, a, d1, n1, |a| <= n0) && Ran(d1, n1, b, d2, n2, |b| <= n1)
    ensures Ran(d0, n0, a + b, d2, n2, |a + b| <= n0)
  {
    if |a| <= n0 {
      RanThen(d0, n0, a, d1, n1, b, d2, n2, |b| <= n1);
    } else {
      assert n1 == 0 && b[..0] == [];
      RanStopped(d0, n0, a, d1, n1, b);
    }
  }

  /** The writes of a transaction have run through its first `i` blocks. */
  ghost predicate Through(env: Env, slot: Slot, bs: seq<Block>, i: nat, d0: Image, n0: nat, d: Image, n: nat) {
    i <= |bs| && AllFit(bs) && Ran(d0, n0, Flat(env, slot, bs[..i]), d, n, true)
  }

  /** The power failed within the transaction. */
  ghost predicate Halted(env: Env, slot: Slot, bs: seq<Block>, d0: Image, n0: nat, d: Image, n: nat) {
    AllFit(bs) && Ran(d0, n0, Flat(env, slot, bs), d, n, false)
  }

  ghost predicate After(env: Env, slot: Slot, bs: seq<Block>, i: nat, d0: Image, n0: nat, d: Image, n: nat, ok: bool) {
    if ok then Through(env, slot, bs, i, d0, n0, d, n) else Halted(env, slot, bs, d0, n0, d, n)
  }

  /** A block that was written took power. */
  lemma HadPower(env: Env, slot: Slot, bs: seq<Block>, d0: Image, n0: nat, d: Image, n: nat)
    requires |bs| > 0 && bs[0].Note? && Through(env, slot, bs, 1, d0, n0, d, n)
    ensures n0 > 0
  {
    assert bs[..1][..0] == [];
  }

  lemma NotStarted(env: Env, slot: Slot, bs: seq<Block>, d: Image, n: nat)
    requires AllFit(bs)
    ensures Through(env, slot, bs, 0, d, n, d, n)
  {
  }

  lemma NextBlock(env: Env, slot: Slot, bs: seq<Block>, i: nat, d0: Image, n0: nat, d: Image, n: nat, d': Image, n': nat, ok: bool)
    requires i < |bs| && Through(env, slot, bs, i, d0, n0, d, n) && Ran(d, n, bs[i].Writes(env, slot), d', n', ok)
    ensures After(env, slot, bs, i + 1, d0, n0, d', n', ok)
  {
    BlockStep(env, slot, bs, i, d0, n0, d, n, d', n', ok);
  }

  lemma AllBlocks(env: Env, slot: Slot, bs: seq<Block>, d0: Image, n0: nat, d: Image, n: nat, ok: bool)
    requires After(env, slot, bs, |bs|, d0, n0, d, n, ok)
    ensures AllFit(bs) && Ran(d0, n0, Flat(env, slot, bs), d, n, ok)
  {
    assert bs[..|bs|] == bs;
  }

  lemma BlobWritten(d: Image, n: nat, base: nat, raw: seq<byte>, d': Image, n': nat, ok: bool)
    requires base + SLOT_SECTORS <= DISK_SECTORS && |raw| <= MAX_RAW_BYTES && Ran(d, n, BlobWrites(base, raw), d', n', ok)
    ensures Framed(d, d', base, base + SLOT_SECTORS)
    ensures ok ==> BlobAt(d', base, |raw|) == raw
  {
    hide Ran, Chunks, BlobAt;
    RanBlock(d, n, base, Chunks(raw), d', n', ok);
    assert d'[base + SLOT_SECTORS..] == d'[base + SectorsFor(|raw|)..][SLOT_SECTORS - SectorsFor(|raw|)..];
    assert d[base + SLOT_SECTORS..] == d[base + SectorsFor(|raw|)..][SLOT_SECTORS - SectorsFor(|raw|)..];
    if ok {
      WrittenBlobReadsBack(d', base, raw);
    }
  }

  /** Blobs outside the sectors that changed read as before. */
  lemma FramedBlob(d: Image, d': Image, lo: nat, hi: nat, base: nat, len: nat)
    requires Framed(d, d', lo, hi) && len <= MAX_RAW_BYTES && base + SLOT_SECTORS <= DISK_SECTORS
    requires base + SLOT_SECTORS <= lo || hi <= base
    ensures BlobAt(d', base, len) == BlobAt(d, base, len)
  {
    forall j | base <= j < base + SectorsFor(len)
      ensures d[j] == d'[j]
    {
      if j < lo {
        assert d[..lo][j] == d'[..lo][j];
      } else {
        assert d[hi..][j - hi] == d'[hi..][j - hi];
      }
    }
    hide Joined;
    BlobSame(d, d', base, len);
  }

  /** Areas of one slot lie apart from each other and from the journal and registry. */
  lemma FramedArea(d: Image, d': Image, slot: Slot, to: Target, from: Target, len: nat)
    requires to != from && len <= MAX_RAW_BYTES && Framed(d, d', TargetSector(to, slot), TargetSector(to, slot) + SLOT_SECTORS)
    ensures BlobAt(d', TargetSector(from, slot), len) == BlobAt(d, TargetSector(from, slot), len)
  {
    FramedBlob(d, d', TargetSector(to, slot), TargetSector(to, slot) + SLOT_SECTORS, TargetSector(from, slot), len);
  }

  lemma FramedMeta(d: Image, d': Image, slot: Slot, lo: nat, hi: nat, from: Target, len: nat)
    requires len <= MAX_RAW_BYTES && Framed(d, d', lo, hi) && hi <= BLOB_FIRST_SECTOR
    ensures BlobAt(d', TargetSector(from, slot), len) == BlobAt(d, TargetSector(from, slot), len)
  {
    FramedBlob(d, d', lo, hi, TargetSector(from, slot), len);
  }

  lemma JustWritten(env: Env, d: Image, base: nat, m: Meta, raw: seq<byte>, rec: JournalRecord)
    requires base + SLOT_SECTORS <= DISK_SECTORS && Checked(env, m, raw) && BlobAt(d, base, |raw|) == raw
    requires rec.rawLen == m.rawLen && rec.rawCrc == m.rawCrc && rec.blobCount == SectorsFor(m.rawLen)
    requires rec.name == m.name && rec.version == m.version && rec.mcaps == m.mcaps
    ensures VerifiedAt(env, d, base, rec)
  {
  }

  /** What a run of `ws` leaves is the disk at the crash point the power allowed. */
  lemma PowerGone(d: Image, n: nat, ws: seq<Write>, d': Image, n': nat, ok: bool)
    requires Ran(d, n, ws, d', n', ok)
    ensures ok <==> |ws| <= n
    ensures d' == Apply(d, if n <= |ws| then ws[..n] else ws)
    ensures !ok ==> n' == 0
    ensures n == 0 ==> d' == d && n' == 0
  {
    assert ws[..|ws|] == ws && ws[..0] == [];
  }

  /** The disk after as many of the writes `ws` as the power `n` allowed. */
  ghost function CutAt(d: Image, ws: seq<Write>, n: nat): Image {
    Apply(d, if n <= |ws| then ws[..n] else ws)
  }

  lemma SweepNext(env: Env, d: Image, reg: Registry, slot: Slot)
    ensures SweepWrites(env, d, reg, slot + 1) ==
            if StateOf(reg, slot) == STATE_ACTIVE && !Keeps(env, d, reg, slot)
            then SweepWrites(env, d, reg, slot) + RegistryWrites(Swept(env, d, reg, slot + 1)) else SweepWrites(env, d, reg, slot)
  {
    hide Keeps, RegistryWrites, Swept;
    assert SweepWrites(env, d, reg, slot) + [] == SweepWrites(env, d, reg, slot);
  }

  /** Recovery of a sane store fails only for want of power, and then leaves a sane one. */
  lemma RecoverySane(env: Env, d0: Image, n0: nat, d: Image, n: nat, ok: bool)
    requires match RecoveryWrites(env, d0, false)
             case None => !ok && d == d0 && n == n0
             case Some(ws) => Ran(d0, n0, ws, d, n, ok)
    ensures Possible(env, d0) ==> Possible(env, d) && (ok ==> Quiescent(env, d)) && (!ok ==> n == 0)
  {
    hide RecoveryWrites, Explains, Quiescent;
    if Possible(env, d0) {
      var o :| Explains(env, o, d0);
      RecoveryIsSafe(env, o, d0, n0);
      var ws := RecoveryWrites(env, d0, false).value;
      RecoveryIsSafe(env, o, d0, |ws|);
      assert ws[..|ws|] == ws;
      PowerGone(d0, n0, ws, d, n, ok);
    }
  }

  /** What recovery leaves, by the power it had. */
  lemma RecoveryRan(env: Env, d0: Image, n0: nat, d: Image, n: nat, ok: bool)
    requires match RecoveryWrites(env, d0, false)
             case None => !ok && d == d0 && n == n0
             case Some(ws) => Ran(d0, n0, ws, d, n, ok)
    ensures match RecoveryWrites(env, d0, false)
            case None => !ok && d == d0
            case Some(ws) =>
              if ok then |ws| <= n0 && d == Apply(d0, ws) && n == n0 - |ws| else |ws| > n0 && d == Apply(d0, ws[..n0])
  {
    hide RecoveryWrites, Apply;
  }

  lemma LoadSane(env: Env, d: Image, n: nat, d': Image, n': nat)
    requires Ran(d, n, SweepWrites(env, d, RegistryOf(d), MAX_PKGS), d', n', |SweepWrites(env, d, RegistryOf(d), MAX_PKGS)| <= n)
    ensures Quiescent(env, d) ==> Possible(env, d') && (n' > 0 ==> StoreOk(env, d'))
  {
    hide SweepWrites, Quiescent, StoreOk, RegistryOf, Apply;
    var ws := SweepWrites(env, d, RegistryOf(d), MAX_PKGS);
    if Quiescent(env, d) {
      var j := if n <= |ws| then n else |ws|;
      assert ws[..|ws|] == ws;
      CutLoadIsQuiescent(env, d, j);
      LoadRests(env, d);
      assert Explains(env, Quiet, d');
    }
  }

  lemma CommandSane(env: Env, d: Image, slot: Slot, tx: Transaction, k: nat)
    requires CanStart(env, d, slot, tx)
    ensures Possible(env, Cut(env, d, slot, tx, k))
  {
    hide CanStart, Cut, Explains;
    CommandAccountsFor(env, d, slot, tx, k);
  }

  lemma RollbackSane(env: Env, d: Image, slot: Slot, name: Name, k: nat)
    requires CanRollback(env, d, slot)
    ensures Possible(env, RollbackCut(env, d, slot, name, k))
  {
    hide CanRollback, RollbackCut, Explains, Quiescent;
    if k == 0 {
      UncutRollback(env, d, slot, name);
    } else {
      RollbackAccountsFor(env, d, slot, name, k);
    }
  }

  lemma UncutRollback(env: Env, d: Image, slot: Slot, name: Name)
    requires CanRollback(env, d, slot)
    ensures RollbackCut(env, d, slot, name, 0) == d && Explains(env, Quiet, d)
  {
    hide Quiescent, RollbackBlocks, Flat, BlobAt;
    RestIsQuiescent(env, d);
    hide StoreOk, RegistryOf;
    var ws := Flat(env, slot, RollbackBlocks(env, RegistryOf(d), slot, name, Preserved(d, slot)));
    assert ws[..0] == [];
  }

  /** The blob of the version an update replaces, if the registry gives it a length it can have. */
  ghost function KeptBlob(d: Image, slot: Slot, len: nat): seq<byte> {
    if 0 < len <= MAX_RAW_BYTES then BlobAt(d, SlotBlobSector(slot), len) else []
  }

  datatype Reply = Refused | Tried(slot: Slot, ok: bool)

  predicate Named(reg: Registry, slot: Slot, name: seq<byte>) {
    StateOf(reg, slot) != STATE_EMPTY && EntryName(EntryOf(reg, slot)) == name
  }

  predicate Free(reg: Registry, slot: Slot) {
    StateOf(reg, slot) == STATE_REMOVED || StateOf(reg, slot) == STATE_EMPTY
  }

  ghost predicate FirstWith(reg: Registry, state: byte, slot: Slot) {
    StateOf(reg, slot) == state && forall s: Slot :: s < slot ==> StateOf(reg, s) != state
  }

  /** The slot an install of `name` goes to. */
  ghost predicate Chosen(reg: Registry, name: seq<byte>, slot: Slot) {
    || (Named(reg, slot, name) && forall s: Slot :: s < slot ==> !Named(reg, s, name))
    || (&& (forall s: Slot :: !Named(reg, s, name))
        && (|| FirstWith(reg, STATE_REMOVED, slot)
            || ((forall s: Slot :: StateOf(reg, s) != STATE_REMOVED) && FirstWith(reg, STATE_EMPTY, slot))))
  }

  lemma OneChosen(reg: Registry, name: seq<byte>, slot: Slot)
    requires Chosen(reg, name, slot)
    ensures forall s: Slot :: Chosen(reg, name, s) ==> s == slot
  {
    hide Named, StateOf;
  }

  lemma NoneChosen(reg: Registry, name: seq<byte>)
    requires forall s: Slot :: !Named(reg, s, name) && !Free(reg, s)
    ensures forall s: Slot :: !Chosen(reg, name, s)
  {
    hide Named, StateOf;
  }

  /** The registry metadata of a package that passes the checks. */
  function MetaOf(env: Env, raw: seq<byte>): Meta
    requires env.inspect(raw).Some? && |raw| <= MAX_RAW_BYTES
    requires |env.inspect(raw).value.name| <= NAME_MAX && |env.inspect(raw).value.version| <= VER_MAX
  {
    var info := env.inspect(raw).value;
    Meta(info.name, info.version, info.kind, info.mcaps, |raw|, env.crc(raw))
  }

  predicate Acceptable(env: Env, raw: seq<byte>) {
    && 0 < |raw| <= MAX_RAW_BYTES && env.inspect(raw).Some?
    && |env.inspect(raw).value.name| <= NAME_MAX && |env.inspect(raw).value.version| <= VER_MAX
  }

  /** `pkg_recv` installs `raw` into `slot`. */
  ghost predicate Installable(env: Env, reg: Registry, raw: seq<byte>, slot: Slot) {
    && Acceptable(env, raw) && env.inspect(raw).value.name != []
    && Chosen(reg, env.inspect(raw).value.name, slot)
    && StateOf(reg, slot) != STATE_CORRUPT && StateOf(reg, slot) != STATE_QUARANTINED && StateOf(reg, slot) != STATE_ACTIVE
  }

  ghost predicate FirstNamed(reg: Registry, name: seq<byte>, slot: Slot) {
    Named(reg, slot, name) && forall s: Slot :: s < slot ==> !Named(reg, s, name)
  }

  lemma NamedIsShort(reg: Registry, slot: Slot, name: seq<byte>)
    requires Named(reg, slot, name)
    ensures |name| <= NAME_MAX
  {
  }

  /** `pkg_remove` removes the package `name` from `slot`. */
  ghost predicate Removable(reg: Registry, name: seq<byte>, slot: Slot) {
    FirstNamed(reg, name, slot) && StateOf(reg, slot) == STATE_ACTIVE
  }

  /** `pkg_update` replaces the package `target` in `slot` by `raw`: it is not pinned, it changes something, and any
      capability the old version did not have was allowed. */
  ghost predicate Updatable(env: Env, reg: Registry, raw: seq<byte>, target: seq<byte>, allow: bool, slot: Slot) {
    var e := EntryOf(reg, slot);
    && FirstNamed(reg, target, slot) && StateOf(reg, slot) == STATE_ACTIVE && !Pinned(e)
    && Acceptable(env, raw) && env.inspect(raw).value.name == target
    && !(EntryVersion(e) == env.inspect(raw).value.version && RawCrc(e) == env.crc(raw))
    && (allow || Within(env.inspect(raw).value.mcaps, Mcaps(e)))
  }

  /** `pkg_rollback` restores the preserved version of the package `name` in `slot`. */
  ghost predicate Restorable(env: Env, d: Image, reg: Registry, name: seq<byte>, force: bool, slot: Slot) {
    var e := EntryOf(reg, slot);
    && FirstNamed(reg, name, slot) && StateOf(reg, slot) == STATE_ACTIVE
    && PreviousValid(e) && (Pinned(e) ==> force)
    && PreviousLen(e) <= MAX_RAW_BYTES && env.crc(BlobAt(d, PreviousBlobSector(slot), PreviousLen(e))) == PreviousCrc(e)
  }

  lemma LiveLength(env: Env, d: Image, reg: Registry, pkgs: seq<Runtime>, arena: seq<byte>, used: nat, slot: Slot)
    requires Live(env, d, reg, pkgs, arena, used) && StateOf(reg, slot) == STATE_ACTIVE
    ensures 0 < RawLen(EntryOf(reg, slot)) <= MAX_RAW_BYTES
  {
    hide BlobAt;
    assert LiveSlot(env, d, reg, pkgs[slot], arena, used, slot);
  }

  class Store {
    const env: Env
    const stage: array<byte>
    const arena: array<byte>
    var disk: Image
    var power: nat
    var registry: Registry
    var pkgs: seq<Runtime>
    var arenaUsed: nat
    var loaded: bool
    var degraded: bool

    ghost predicate Valid()
      reads this
    {
      && stage.Length == STAGE_SIZE && arena.Length == ARENA_SIZE && stage != arena
      && |pkgs| == MAX_PKGS && arenaUsed <= ARENA_SIZE
    }

    /** What a successful load establishes, for as long as there is power. */
    ghost predicate Ready()
      reads this, arena
    {
      && loaded && !degraded
      && (power > 0 ==> registry == RegistryOf(disk) && Live(env, disk, registry, pkgs, arena[..], arenaUsed))
    }

    /** The store at boot: nothing is known of the disk yet. */
    constructor (env: Env, disk: Image, power: nat)
      ensures Valid() && this.env == env && this.disk == disk && this.power == power && !loaded && !degraded
      ensures Possible(env, disk) ==> Sane()
    {
      this.env, this.disk, this.power := env, disk, power;
      loaded, degraded, arenaUsed := false, false, 0;
      pkgs, registry := NoPackages(), Zeros(REGISTRY_SIZE);
      stage, arena := new byte[STAGE_SIZE], new byte[ARENA_SIZE];
    }

    // --- Sectors ----------------------------------------------------------------

    method WriteSector(at: SectorNo, data: seq<byte>) returns (ok: bool)
      requires |data| <= SECTOR_SIZE
      modifies `disk, `power
      ensures Ran(old(disk), old(power), [Write(at, Padded(data))], disk, power, ok)
    {
      if power == 0 {
        return false;
      }
      disk, power := disk[at := Padded(data)], power - 1;
      return true;
    }

    method ReadRegistry()
      modifies `registry
      ensures registry == RegistryOf(disk)
    {
      var tmp: seq<byte>, sector := [], 0;
      while sector < REGISTRY_SECTORS
        invariant sector <= REGISTRY_SECTORS && tmp == Joined(disk, REGISTRY_SECTOR, sector)
      {
        JoinedSnoc(disk, REGISTRY_SECTOR, sector);
        tmp := tmp + disk[REGISTRY_SECTOR + sector];
        sector := sector + 1;
      }
      registry := tmp;
    }

    method ReadJournalRaw() returns (raw: JournalImage)
      ensures raw == JournalOf(disk)
    {
      var tmp: seq<byte>, sector := [], 0;
      while sector < JOURNAL_SECTORS
        invariant sector <= JOURNAL_SECTORS && tmp == Joined(disk, JOURNAL_SECTOR, sector)
      {
        JoinedSnoc(disk, JOURNAL_SECTOR, sector);
        tmp := tmp + disk[JOURNAL_SECTOR + sector];
        sector := sector + 1;
      }
      raw := tmp;
    }

    method WriteRegistry() returns (ok: bool)
      modifies `disk, `power
      ensures Ran(old(disk), old(power), RegistryWrites(registry), disk, power, ok)
    {
      hide Ran, Chunks;
      ghost var ws := RegistryWrites(registry);
      var reg, sector := registry, 0;
      NothingRan(disk, power, ws);
      while sector < REGISTRY_SECTORS
        invariant sector <= REGISTRY_SECTORS
        invariant Ran(old(disk), old(power), ws[..sector], disk, power, true)
      {
        ghost var d, n := disk, power;
        ChunkIsPadded(reg, sector);
        ok := WriteSector(REGISTRY_SECTOR + sector, reg[sector * SECTOR_SIZE..sector * SECTOR_SIZE + SECTOR_SIZE]);
        RunStep(old(disk), old(power), ws, sector, d, n, disk, power, ok);
        if !ok {
          return false;
        }
        sector := sector + 1;
      }
      assert ws[..sector] == ws;
      return true;
    }

    method InitStoreMarker() returns (ok: bool)
      modifies `disk, `power
      ensures Ran(old(disk), old(power), [Write(MARKER_SECTOR, Marker())], disk, power, ok)
    {
      assert Padded(Marker()) == Marker();
      ok := WriteSector(MARKER_SECTOR, Marker());
    }

    method WriteJournalRaw(raw: JournalImage) returns (ok: bool)
      modifies `disk, `power
      ensures Ran(old(disk), old(power), JournalWrites(raw), disk, power, ok)
    {
      hide Ran, Chunks;
      ghost var ws := JournalWrites(raw);
      var sector := 0;
      NothingRan(disk, power, ws);
      while sector < JOURNAL_SECTORS
        invariant sector <= JOURNAL_SECTORS
        invariant Ran(old(disk), old(power), ws[..sector], disk, power, true)
      {
        ghost var d, n := disk, power;
        ChunkIsPadded(raw, sector);
        ok := WriteSector(JOURNAL_SECTOR + sector, raw[sector * SECTOR_SIZE..sector * SECTOR_SIZE + SECTOR_SIZE]);
        RunStep(old(disk), old(power), ws, sector, d, n, disk, power, ok);
        if !ok {
          return false;
        }
        sector := sector + 1;
      }
      assert ws[..sector] == ws;
      return true;
    }

    method ClearJournal() returns (ok: bool)
      modifies `disk, `power
      ensures Ran(old(disk), old(power), ClearWrites(), disk, power, ok)
    {
      ok := WriteJournalRaw(Zeros(JOURNAL_SIZE));
    }

    method WriteJournal(rec: JournalRecord) returns (ok: bool)
      modifies `disk, `power
      ensures Ran(old(disk), old(power), RecordWrites(env, rec), disk, power, ok)
    {
      var raw := BuildJournal(env, rec);
      ok := WriteJournalRaw(raw);
    }

    method WriteBlobAt(base: nat, raw: seq<byte>) returns (ok: bool)
      requires base + SectorsFor(|raw|) <= DISK_SECTORS
      modifies `disk, `power
      ensures Ran(old(disk), old(power), BlobWrites(base, raw), disk, power, ok)
    {
      hide Ran, Chunks;
      ghost var ws := BlobWrites(base, raw);
      var sectors, sector := SectorsFor(|raw|), 0;
      NothingRan(disk, power, ws);
      while sector < sectors
        invariant sector <= sectors
        invariant Ran(old(disk), old(power), ws[..sector], disk, power, true)
      {
        ghost var d, n := disk, power;
        ChunkIsPadded(raw, sector);
        var start := sector * SECTOR_SIZE;
        var end := if start + SECTOR_SIZE < |raw| then start + SECTOR_SIZE else |raw|;
        ok := WriteSector(base + sector, raw[start..end]);
        RunStep(old(disk), old(power), ws, sector, d, n, disk, power, ok);
        if !ok {
          return false;
        }
        sector := sector + 1;
      }
      assert ws[..sector] == ws;
      return true;
    }

    method ReadBlobAreaIntoStage(base: nat, rawLen: nat) returns (ok: bool)
      requires Valid() && base + SLOT_SECTORS <= DISK_SECTORS
      modifies stage
      ensures ok <==> rawLen <= MAX_RAW_BYTES
      ensures ok ==> stage[..rawLen] == BlobAt(disk, base, rawLen)
    {
      if rawLen > STAGE_SIZE || rawLen > MAX_RAW_BYTES {
        return false;
      }
      var sectors, sector := SectorsFor(rawLen), 0;
      while sector < sectors
        invariant sector <= sectors
        invariant forall i :: 0 <= i < rawLen && i < sector * SECTOR_SIZE ==> stage[i] == Joined(disk, base, sectors)[i]
      {
        var tmp := disk[base + sector];
        var start := sector * SECTOR_SIZE;
        var end := if start + SECTOR_SIZE < rawLen then start + SECTOR_SIZE else rawLen;
        forall i | start <= i < end {
          stage[i] := tmp[i - start];
        }
        forall i | start <= i < end
          ensures stage[i] == Joined(disk, base, sectors)[i]
        {
          assert i / SECTOR_SIZE == sector && i % SECTOR_SIZE == i - start;
        }
        sector := sector + 1;
      }
      assert stage[..rawLen] == BlobAt(disk, base, rawLen);
      return true;
    }

    /** Registry, marker, cleared journal: the end of every transaction and of every recovery. */
    method Commit() returns (ok: bool)
      modifies `disk, `power
      ensures Ran(old(disk), old(power), CommitWrites(registry), disk, power, ok)
      ensures ok ==> RegistryOf(disk) == registry
    {
      hide Ran, RegistryWrites, Marker, ClearWrites, RegistryOf;
      ghost var a, b, c := RegistryWrites(registry), [Write(MARKER_SECTOR, Marker())], ClearWrites();
      ok := WriteRegistry();
      if !ok {
        RanStopped(old(disk), old(power), a, disk, power, b + c);
        return false;
      }
      ghost var d1, n1 := disk, power;
      ok := InitStoreMarker();
      if !ok {
        RanStopped(d1, n1, b, disk, power, c);
        RanThen(old(disk), old(power), a, d1, n1, b + c, disk, power, false);
        return false;
      }
      ghost var d2, n2 := disk, power;
      ok := ClearJournal();
      RanThen(d1, n1, b, d2, n2, c, disk, power, ok);
      RanThen(old(disk), old(power), a, d1, n1, b + c, disk, power, ok);
      RanAll(old(disk), old(power), CommitWrites(registry), disk, power, ok);
      CommittedRegistry(old(disk), registry);
    }

    method VerifyBlobRecordAt(base: nat, rec: JournalRecord) returns (ok: bool)
      requires Valid() && base + SLOT_SECTORS <= DISK_SECTORS
      modifies stage
      ensures ok <==> VerifiedAt(env, disk, base, rec)
    {
      if rec.rawLen == 0 || rec.rawLen > MAX_RAW_BYTES || rec.blobCount != SectorsFor(rec.rawLen) {
        return false;
      }
      ok := ReadBlobAreaIntoStage(base, rec.rawLen);
      var bytes := stage[..rec.rawLen];
      if env.crc(bytes) != rec.rawCrc {
        return false;
      }
      match env.inspect(bytes)
      case None => return false;
      case Some(info) => return info.name == rec.name && info.version == rec.version && info.mcaps == rec.mcaps;
    }

    method CopyBlobArea(from: nat, to: nat, rawLen: nat) returns (ok: bool)
      requires Valid() && from + SLOT_SECTORS <= DISK_SECTORS && to + SLOT_SECTORS <= DISK_SECTORS
      modifies `disk, `power, stage
      ensures if 0 < rawLen <= MAX_RAW_BYTES
              then Ran(old(disk), old(power), BlobWrites(to, BlobAt(old(disk), from, rawLen)), disk, power, ok)
              else !ok && disk == old(disk) && power == old(power)
    {
      if rawLen == 0 || rawLen > MAX_RAW_BYTES {
        return false;
      }
      ok := ReadBlobAreaIntoStage(from, rawLen);
      ok := WriteBlobAt(to, stage[..rawLen]);
    }

    // --- Recovery -----------------------------------------------------------------

    method SetDegraded(v: bool)
      requires Valid()
      modifies `degraded, `loaded, `pkgs, `arenaUsed
      ensures Valid() && degraded == v
      ensures if v then !loaded && pkgs == NoPackages() && arenaUsed == 0
              else loaded == old(loaded) && pkgs == old(pkgs) && arenaUsed == old(arenaUsed)
    {
      degraded := v;
      if v {
        loaded := false;
        pkgs, arenaUsed := NoPackages(), 0;
      }
    }

    method QuarantinePendingSlots()
      modifies `registry
      ensures registry == QuarantinePending(old(registry), MAX_PKGS)
    {
      var slot := 0;
      while slot < MAX_PKGS
        invariant slot <= MAX_PKGS && registry == QuarantinePending(old(registry), slot)
      {
        var state := StateOf(registry, slot);
        if state == STATE_PENDING_INSTALL || state == STATE_PENDING_REMOVE {
          registry := WithState(registry, slot, STATE_QUARANTINED);
        }
        slot := slot + 1;
      }
    }

    /** What a record found in the journal asks for before the commit. `pre` is what it writes first. If the power fails
        in it, recovery has stopped somewhere in its list of writes, whatever the registry in memory says. */
    method Replay(rec: JournalRecord) returns (ok: bool, ghost pre: seq<Write>)
      requires Valid() && registry == RegistryOf(disk)
      modifies `disk, `power, `registry, stage
      ensures match ReplayWrites(env, old(disk), rec)
              case None => !ok && disk == old(disk) && power == old(power)
              case Some(ws) =>
                || Ran(old(disk), old(power), ws, disk, power, false)
                || (ok && ws == pre + CommitWrites(registry) && Ran(old(disk), old(power), pre, disk, power, true))
    {
      hide CommitWrites, RegistryOf, BlobAt, VerifiedAt, BlobWrites;
      ghost var d0, n0 := disk, power;
      pre, ok := [], true;
      if rec.op == OP_INSTALL || rec.op == OP_REPLACE {
        if rec.phase == PHASE_STARTED || rec.phase == PHASE_BLOB_WRITTEN {
          if rec.oldState == STATE_EMPTY {
            registry := WithEntry(registry, rec.slot, Zeros(ENTRY_SIZE));
          } else {
            registry := WithState(registry, rec.slot, rec.oldState);
          }
        } else if rec.phase == PHASE_REGISTRY_PENDING {
          ok, pre := ReplayPending(rec);
        } else {
          ok := false;
        }
      } else if rec.op == OP_ROLLBACK {
        if rec.phase == PHASE_REGISTRY_PENDING {
          ok, pre := ReplayRollback(rec);
        } else {
          ok := false;
        }
      } else if rec.op == OP_REMOVE {
        registry := WithState(registry, rec.slot, STATE_REMOVED);
      } else {
        ok := false;
      }
    }

    method ReplayPending(rec: JournalRecord) returns (ok: bool, ghost pre: seq<Write>)
      requires Valid() && registry == RegistryOf(disk)
      requires (rec.op == OP_INSTALL || rec.op == OP_REPLACE) && rec.phase == PHASE_REGISTRY_PENDING
      modifies `disk, `power, `registry, stage
      ensures ReplayWrites(env, old(disk), rec).Some?
      ensures var ws := ReplayWrites(env, old(disk), rec).value;
              || Ran(old(disk), old(power), ws, disk, power, false)
              || (ok && ws == pre + CommitWrites(registry) && Ran(old(disk), old(power), pre, disk, power, true))
    {
      hide CommitWrites, RegistryOf, BlobAt, BlobWrites, Ran;
      NothingRan(disk, power, []);
      pre, ok := [], true;
      var state := StateOf(registry, rec.slot);
      var copied, verified := false, false;
      if rec.op == OP_REPLACE && state == STATE_PENDING_INSTALL {
        verified := VerifyBlobRecordAt(StageBlobSector(rec.slot), rec);
        if verified {
          pre := BlobWrites(SlotBlobSector(rec.slot), BlobAt(disk, StageBlobSector(rec.slot), rec.rawLen));
          copied := CopyBlobArea(StageBlobSector(rec.slot), SlotBlobSector(rec.slot), rec.rawLen);
        }
      }
      if copied {
        registry := WithState(registry, rec.slot, STATE_ACTIVE);
      } else {
        if verified {
          RanStopped(old(disk), old(power), pre, disk, power, CommitWrites(WithState(registry, rec.slot, STATE_ACTIVE)));
        }
        var inPlace := false;
        if rec.op == OP_INSTALL && state == STATE_PENDING_INSTALL {
          inPlace := VerifyBlobRecordAt(SlotBlobSector(rec.slot), rec);
        }
        registry := WithState(registry, rec.slot, if inPlace then STATE_ACTIVE else STATE_QUARANTINED);
      }
    }

    method ReplayRollback(rec: JournalRecord) returns (ok: bool, ghost pre: seq<Write>)
      requires Valid() && registry == RegistryOf(disk)
      requires rec.op == OP_ROLLBACK && rec.phase == PHASE_REGISTRY_PENDING
      modifies `disk, `power, `registry, stage
      ensures match ReplayWrites(env, old(disk), rec)
              case None => !ok && disk == old(disk) && power == old(power)
              case Some(ws) =>
                || Ran(old(disk), old(power), ws, disk, power, false)
                || (ok && ws == pre + CommitWrites(registry) && Ran(old(disk), old(power), pre, disk, power, true))
    {
      hide CommitWrites, RegistryOf, BlobAt, BlobWrites, Ran;
      pre := [];
      ok := ReadBlobAreaIntoStage(PreviousBlobSector(rec.slot), rec.rawLen);
      if !ok {
        return;
      }
      if env.crc(stage[..rec.rawLen]) != rec.rawCrc {
        return false, [];
      }
      pre := BlobWrites(SlotBlobSector(rec.slot), stage[..rec.rawLen]);
      ok := WriteBlobAt(SlotBlobSector(rec.slot), stage[..rec.rawLen]);
      if ok {
        registry := WithState(registry, rec.slot, STATE_ACTIVE);
      } else {
        RanStopped(old(disk), old(power), pre, disk, power, CommitWrites(WithState(registry, rec.slot, STATE_ACTIVE)));
      }
    }

    /** Recovery writes exactly what `RecoveryWrites` lists, up to where the power fails. */
    method RecoverFromJournal(manual: bool) returns (ok: bool)
      requires Valid() && registry == RegistryOf(disk)
      modifies this, stage
      ensures Valid() && degraded == !ok && (ok ==> registry == RegistryOf(disk))
      ensures match RecoveryWrites(env, old(disk), manual)
              case None => !ok && disk == old(disk) && power == old(power)
              case Some(ws) => Ran(old(disk), old(power), ws, disk, power, ok)
      ensures if ok then pkgs == old(pkgs) && arenaUsed == old(arenaUsed) else !loaded && pkgs == NoPackages() && arenaUsed == 0
    {
      hide CommitWrites, RegistryOf, JournalOf, Ran, ReplayWrites, DecodeJournal, QuarantinePending;
      var raw := ReadJournalRaw();
      ghost var d0, n0 := disk, power;
      match DecodeJournal(env, raw)
      case Empty =>
        NothingRan(disk, power, []);
        SetDegraded(false);
        return true;
      case Corrupt =>
        if !manual {
          SetDegraded(true);
          return false;
        }
        QuarantinePendingSlots();
        ok := Commit();
        SetDegraded(!ok);
        loaded := false;
      case Valid(rec) =>
        ghost var pre;
        ok, pre := Replay(rec);
        if !ok {
          SetDegraded(true);
          return false;
        }
        ghost var d1, n1 := disk, power;
        ok := Commit();
        if Ran(d0, n0, pre, d1, n1, true) && ReplayWrites(env, d0, rec) == Some(pre + CommitWrites(registry)) {
          RanThen(d0, n0, pre, d1, n1, CommitWrites(registry), disk, power, ok);
        } else {
          NothingLeft(d0, n0, ReplayWrites(env, d0, rec).value, d1, n1, CommitWrites(registry), disk, power, ok);
        }
        SetDegraded(!ok);
        loaded := false;
    }

    // --- Loading ------------------------------------------------------------------

    method MarkCorrupt(slot: Slot)
      modifies `registry, `disk, `power
      ensures if StateOf(old(registry), slot) == STATE_ACTIVE
              then registry == WithState(old(registry), slot, STATE_CORRUPT)
                && Ran(old(disk), old(power), RegistryWrites(registry), disk, power, 2 <= old(power))
              else registry == old(registry) && disk == old(disk) && power == old(power)
    {
      if StateOf(registry, slot) == STATE_ACTIVE {
        registry := WithState(registry, slot, STATE_CORRUPT);
        var _ := WriteRegistry();
      }
    }

    method InstallRuntimeEntry(slot: Slot, info: Info, rawLen: u32, rawCrc: u32) returns (ok: bool)
      requires Valid()
      modifies `pkgs, `arenaUsed, arena
      ensures Valid()
      ensures ok <==> old(arenaUsed) + |info.payload| <= ARENA_SIZE
      ensures if ok
              then pkgs == old(pkgs)[slot := Used(slot, info.name, info.version, info.kind, info.mcaps, rawLen, rawCrc,
                                                  old(arenaUsed), |info.payload|)]
                && arenaUsed == old(arenaUsed) + |info.payload|
                && arena[..] == Put(old(arena[..]), old(arenaUsed), info.payload)
              else pkgs == old(pkgs) && arenaUsed == old(arenaUsed) && arena[..] == old(arena[..])
    {
      if arenaUsed + |info.payload| > ARENA_SIZE {
        return false;
      }
      var base := arenaUsed;
      forall i | 0 <= i < |info.payload| {
        arena[base + i] := info.payload[i];
      }
      pkgs := pkgs[slot := Used(slot, info.name, info.version, info.kind, info.mcaps, rawLen, rawCrc, base, |info.payload|)];
      arenaUsed := base + |info.payload|;
      return true;
    }

    /** Loads an accepted slot whose payload fits; an active slot that is not loaded is marked corrupt. */
    method LoadSlot(slot: Slot)
      requires Valid()
      modifies `registry, `disk, `power, `pkgs, `arenaUsed, stage, arena
      ensures Valid()
      ensures var a := Accepted(env, old(disk), old(registry), slot);
              if a.Some? && old(arenaUsed) + |a.value.payload| <= ARENA_SIZE
              then registry == old(registry) && disk == old(disk) && power == old(power)
                && pkgs == old(pkgs)[slot := pkgs[slot]] && Describes(env, disk, registry, pkgs[slot], arena[..], slot)
                && pkgs[slot].off == old(arenaUsed)
                && arenaUsed == old(arenaUsed) + |a.value.payload|
                && arena[..] == Put(old(arena[..]), old(arenaUsed), a.value.payload)
              else
                && pkgs == old(pkgs) && arenaUsed == old(arenaUsed) && arena[..] == old(arena[..])
                && (if StateOf(old(registry), slot) == STATE_ACTIVE
                    then registry == WithState(old(registry), slot, STATE_CORRUPT)
                      && Ran(old(disk), old(power), RegistryWrites(registry), disk, power, 2 <= old(power))
                    else registry == old(registry) && disk == old(disk) && power == old(power))
    {
      StateIsFirstByte(registry, slot);
      hide Ran, RegistryWrites, BlobAt;
      var e := EntryOf(registry, slot);
      if e[0] != STATE_ACTIVE {
        return;
      }
      if e[1..5] != REG_MAGIC {
        MarkCorrupt(slot);
        return;
      }
      var rawLen, rawCrc := RawLen(e), RawCrc(e);
      if rawLen == 0 || rawLen > MAX_RAW_BYTES {
        MarkCorrupt(slot);
        return;
      }
      var _ := ReadBlobAreaIntoStage(SlotBlobSector(slot), rawLen);
      var bytes := stage[..rawLen];
      if env.crc(bytes) != rawCrc {
        MarkCorrupt(slot);
        return;
      }
      match env.inspect(bytes)
      case None =>
        MarkCorrupt(slot);
      case Some(info) =>
        if |info.name| > NAME_MAX || |info.version| > VER_MAX {
          MarkCorrupt(slot);
          return;
        }
        var fits := InstallRuntimeEntry(slot, info, rawLen, rawCrc);
        if !fits {
          MarkCorrupt(slot);
        }
    }

    /** The disk is one that recovery and a load can make sense of, and a store that is loaded is at rest. */
    ghost predicate Sane()
      reads this
    {
      Possible(env, disk) && (loaded && !degraded && power > 0 ==> StoreOk(env, disk))
    }

    /** `d` is the disk once recovery is done; from there only registry sectors are rewritten. For any disk at all the
        registry, table and arena agree; from a sane store the load ends with a store at rest. */
    method EnsureLoaded() returns (ok: bool, ghost d: Image)
      requires Valid() && (loaded && !degraded ==> Ready())
      modifies this, stage, arena
      ensures Valid() && (ok ==> Ready()) && (!ok ==> degraded && pkgs == NoPackages())
      ensures old(Ready()) ==> ok && d == disk == old(disk) && registry == old(registry) && pkgs == old(pkgs)
      ensures !old(Ready()) ==>
                match RecoveryWrites(env, old(disk), false)
                case None => !ok && d == disk == old(disk)
                case Some(ws) =>
                  if !ok then d == disk && |ws| > old(power) && d == Apply(old(disk), ws[..old(power)])
                  else
                    && |ws| <= old(power) && d == Apply(old(disk), ws)
                    && disk == CutAt(d, SweepWrites(env, d, RegistryOf(d), MAX_PKGS), old(power) - |ws|)
                    && registry == Swept(env, d, RegistryOf(d), MAX_PKGS)
                    && (forall s: Slot :: pkgs[s].Used? <==> Keeps(env, d, RegistryOf(d), s))
                    && (forall s: Slot :: pkgs[s].Used? ==>
                          Describes(env, d, RegistryOf(d), pkgs[s], arena[..], s) && pkgs[s].off == ArenaAfter(env, d, RegistryOf(d), s))
      ensures old(Sane()) ==> Sane() && (!ok ==> power == 0)
    {
      hide RegistryOf, JournalOf, RecoveryWrites, SameBlobs, Live, InArena, TableUpTo, Swept, ArenaAfter, RuntimeAt, Apply, SweepWrites,
        Possible, StoreOk, Ran, Quiescent, CutAt;
      if loaded && !degraded {
        return true, disk;
      }
      ReadRegistry();
      ok := RecoverFromJournal(false);
      d := disk;
      RecoverySane(env, old(disk), old(power), d, power, ok);
      RecoveryRan(env, old(disk), old(power), d, power, ok);
      if ok {
        LoadAll();
      }
    }

    /** Loads every slot of the registry on the disk. */
    method LoadAll()
      requires Valid() && !degraded
      modifies this, stage, arena
      ensures Valid() && Ready()
      ensures disk == CutAt(old(disk), SweepWrites(env, old(disk), RegistryOf(old(disk)), MAX_PKGS), old(power))
      ensures registry == Swept(env, old(disk), RegistryOf(old(disk)), MAX_PKGS)
      ensures forall s: Slot :: pkgs[s].Used? <==> Keeps(env, old(disk), RegistryOf(old(disk)), s)
      ensures forall s: Slot :: pkgs[s].Used? ==>
                && Describes(env, old(disk), RegistryOf(old(disk)), pkgs[s], arena[..], s)
                && pkgs[s].off == ArenaAfter(env, old(disk), RegistryOf(old(disk)), s)
      ensures Quiescent(env, old(disk)) ==> Possible(env, disk) && (power > 0 ==> StoreOk(env, disk))
    {
      hide RegistryOf, JournalOf, SameBlobs, Live, InArena, TableUpTo, Swept, ArenaAfter, RuntimeAt, Apply, SweepWrites, Possible, StoreOk,
        Ran, Quiescent;
      ghost var d, n := disk, power;
      ReadRegistry();
      pkgs, arenaUsed := NoPackages(), 0;
      LoadSlots();
      loaded := true;
      PowerGone(d, n, SweepWrites(env, d, RegistryOf(d), MAX_PKGS), disk, power, |SweepWrites(env, d, RegistryOf(d), MAX_PKGS)| <= n);
      LoadSane(env, d, n, disk, power);
      LoadIsLive(env, d, RegistryOf(d), disk, pkgs, arena[..]);
      forall s: Slot
        ensures pkgs[s].Used? <==> Keeps(env, d, RegistryOf(d), s)
        ensures pkgs[s].Used? ==>
                  Describes(env, d, RegistryOf(d), pkgs[s], arena[..], s) && pkgs[s].off == ArenaAfter(env, d, RegistryOf(d), s)
      {
        LoadDescribes(env, d, RegistryOf(d), pkgs, arena[..], s);
      }
    }

    /** One step of the load: slot `slot` of the registry `reg0` read from the disk `d0`. */
    method LoadNext(slot: Slot, ghost d0: Image, ghost n0: nat, ghost reg0: Registry)
      requires Valid() && Loading(d0, n0, reg0, slot)
      modifies `registry, `disk, `power, `pkgs, `arenaUsed, stage, arena
      ensures Valid() && Loading(d0, n0, reg0, slot + 1)
    {
      hide RegistryOf, JournalOf, EntryOf, Accepted, Ran, RegistryWrites, SameBlobs, StateOf, WithState, TableUpTo, InArena, Keeps, Put,
        Swept, ArenaAfter, RawLen, RawCrc, SweepWrites, Describes;
      SweepNext(env, d0, reg0, slot);
      SlotAhead(env, d0, reg0, slot);
      ArenaNext(env, d0, reg0, slot);
      AcceptedSame(env, d0, reg0, disk, registry, slot);
      ghost var d, n, reg, was, table := disk, power, registry, arena[..], pkgs;
      LoadSlot(slot);
      if Keeps(env, d0, reg0, slot) {
        DescribedIs(env, disk, registry, pkgs[slot], arena[..], slot);
      }
      LoadStep(env, d0, reg0, slot, table, was, pkgs, arena[..]);
      if StateOf(reg, slot) == STATE_ACTIVE && !Keeps(env, d0, reg0, slot) {
        MarkedDisk(d0, d, n, registry, disk, power);
        RanOn(d0, n0, SweepWrites(env, d0, reg0, slot), d, n, RegistryWrites(registry), disk, power);
      }
    }

    ghost predicate Loading(d0: Image, n0: nat, reg0: Registry, slot: nat)
      requires slot <= MAX_PKGS
      reads this, arena
    {
      && registry == Swept(env, d0, reg0, slot) && (power > 0 ==> registry == RegistryOf(disk))
      && TableUpTo(env, d0, reg0, slot, pkgs)
      && arenaUsed == ArenaAfter(env, d0, reg0, slot)
      && InArena(env, d0, reg0, slot, arena[..])
      && SameBlobs(d0, disk) && JournalOf(disk) == JournalOf(d0)
      && Ran(d0, n0, SweepWrites(env, d0, reg0, slot), disk, power, |SweepWrites(env, d0, reg0, slot)| <= n0)
    }

    method LoadSlots()
      requires Valid() && registry == RegistryOf(disk) && pkgs == NoPackages() && arenaUsed == 0
      modifies `registry, `disk, `power, `pkgs, `arenaUsed, stage, arena
      ensures Valid() && Loading(old(disk), old(power), old(registry), MAX_PKGS)
    {
      NothingLoaded(env, disk, registry, pkgs, arena[..]);
      assert Loading(disk, power, registry, 0);
      hide Store.Loading;
      var slot := 0;
      while slot < MAX_PKGS
        invariant slot <= MAX_PKGS && Valid() && Loading(old(disk), old(power), old(registry), slot)
      {
        LoadNext(slot, old(disk), old(power), old(registry));
        slot := slot + 1;
      }
    }

    // --- Transactions -----------------------------------------------------------------

    // The four kinds of block, as steps of a transaction `bs` that started on the disk `d0` with `n0` writes left.

    method NoteStep(rec: JournalRecord, ghost slot: Slot, ghost bs: seq<Block>, ghost i: nat, ghost d0: Image, ghost n0: nat)
      returns (ok: bool)
      requires i < |bs| && bs[i] == Note(rec) && Through(env, slot, bs, i, d0, n0, disk, power)
      modifies `disk, `power
      ensures After(env, slot, bs, i + 1, d0, n0, disk, power, ok)
      ensures Framed(old(disk), disk, JOURNAL_SECTOR, JOURNAL_SECTOR + JOURNAL_SECTORS)
    {
      ok := WriteJournal(rec);
      RanBlock(old(disk), old(power), JOURNAL_SECTOR, Chunks(EncodeJournal(env, rec)), disk, power, ok);
      NextBlock(env, slot, bs, i, d0, n0, old(disk), old(power), disk, power, ok);
    }

    method RegStep(ghost slot: Slot, ghost bs: seq<Block>, ghost i: nat, ghost d0: Image, ghost n0: nat) returns (ok: bool)
      requires i < |bs| && bs[i] == Reg(registry) && Through(env, slot, bs, i, d0, n0, disk, power)
      modifies `disk, `power
      ensures After(env, slot, bs, i + 1, d0, n0, disk, power, ok)
      ensures Framed(old(disk), disk, REGISTRY_SECTOR, REGISTRY_SECTOR + REGISTRY_SECTORS)
    {
      ok := WriteRegistry();
      RanBlock(old(disk), old(power), REGISTRY_SECTOR, Chunks(registry), disk, power, ok);
      NextBlock(env, slot, bs, i, d0, n0, old(disk), old(power), disk, power, ok);
    }

    method BlobStep(t: Target, raw: seq<byte>, slot: Slot, ghost bs: seq<Block>, ghost i: nat, ghost d0: Image, ghost n0: nat)
      returns (ok: bool)
      requires i < |bs| && bs[i] == Blob(t, raw) && |raw| <= MAX_RAW_BYTES && Through(env, slot, bs, i, d0, n0, disk, power)
      modifies `disk, `power
      ensures After(env, slot, bs, i + 1, d0, n0, disk, power, ok)
      ensures Framed(old(disk), disk, TargetSector(t, slot), TargetSector(t, slot) + SLOT_SECTORS)
      ensures ok ==> BlobAt(disk, TargetSector(t, slot), |raw|) == raw
    {
      ok := WriteBlobAt(TargetSector(t, slot), raw);
      BlobWritten(old(disk), old(power), TargetSector(t, slot), raw, disk, power, ok);
      NextBlock(env, slot, bs, i, d0, n0, old(disk), old(power), disk, power, ok);
    }

    method CopyStep(from: Target, to: Target, rawLen: nat, slot: Slot, ghost raw: seq<byte>, ghost bs: seq<Block>, ghost i: nat,
                    ghost d0: Image, ghost n0: nat)
      returns (ok: bool)
      requires Valid() && 0 < rawLen <= MAX_RAW_BYTES && BlobAt(disk, TargetSector(from, slot), rawLen) == raw
      requires i < |bs| && bs[i] == Blob(to, raw) && Through(env, slot, bs, i, d0, n0, disk, power)
      modifies `disk, `power, stage
      ensures After(env, slot, bs, i + 1, d0, n0, disk, power, ok)
      ensures Framed(old(disk), disk, TargetSector(to, slot), TargetSector(to, slot) + SLOT_SECTORS)
    {
      hide BlobAt, BlobWrites, After, Through, Framed, Ran;
      ok := CopyBlobArea(TargetSector(from, slot), TargetSector(to, slot), rawLen);
      BlobWritten(old(disk), old(power), TargetSector(to, slot), raw, disk, power, ok);
      NextBlock(env, slot, bs, i, d0, n0, old(disk), old(power), disk, power, ok);
    }

    method CommitStep(ghost slot: Slot, ghost bs: seq<Block>, ghost d0: Image, ghost n0: nat) returns (ok: bool)
      requires |bs| > 0 && bs[|bs| - 1] == Block.Commit(registry) && Through(env, slot, bs, |bs| - 1, d0, n0, disk, power)
      modifies `disk, `power
      ensures AllFit(bs) && Ran(d0, n0, Flat(env, slot, bs), disk, power, ok)
      ensures ok ==> RegistryOf(disk) == registry
    {
      ok := Commit();
      NextBlock(env, slot, bs, |bs| - 1, d0, n0, old(disk), old(power), disk, power, ok);
      AllBlocks(env, slot, bs, d0, n0, disk, power, ok);
    }

    /** The disk part of `pkg_recv`, once the package has been checked. */
    method InstallTransaction(slot: Slot, m: Meta, raw: seq<byte>) returns (ok: bool)
      requires Valid() && Checked(env, m, raw)
      modifies `registry, `disk, `power, stage
      ensures Ran(old(disk), old(power), Flat(env, slot, InstallBlocks(env, old(registry), slot, m, raw)), disk, power, ok)
      ensures ok ==> registry == RegistryOf(disk)
    {
      hide Ran, Through, Framed, EncodeEntry, WithEntry, WithState, StateOf, RegistryOf, VerifiedAt, Flat, BlobAt;
      ghost var bs, d0, n0 := InstallBlocks(env, registry, slot, m, raw), disk, power;
      NotStarted(env, slot, bs, disk, power);
      var rec := Record(OP_INSTALL, PHASE_STARTED, slot, StateOf(registry, slot), STATE_ACTIVE, m, env.crc(registry), 0);
      ok := NoteStep(rec, slot, bs, 0, d0, n0);
      if !ok {
        return;
      }
      ok := BlobStep(Active, raw, slot, bs, 1, d0, n0);
      if !ok {
        return;
      }
      ghost var d := disk;
      rec := rec.(phase := PHASE_BLOB_WRITTEN);
      ok := NoteStep(rec, slot, bs, 2, d0, n0);
      if !ok {
        return;
      }
      FramedMeta(d, disk, slot, JOURNAL_SECTOR, JOURNAL_SECTOR + JOURNAL_SECTORS, Active, |raw|);
      JustWritten(env, disk, SlotBlobSector(slot), m, raw, rec);
      ok := VerifyBlobRecordAt(SlotBlobSector(slot), rec); // a disk that answers reads back what it took
      var e := BuildEntry(slot, STATE_PENDING_INSTALL, m);
      registry := WithEntry(registry, slot, e);
      rec := rec.(phase := PHASE_REGISTRY_PENDING, afterCrc := env.crc(registry));
      ok := NoteStep(rec, slot, bs, 3, d0, n0);
      if !ok {
        return;
      }
      ok := RegStep(slot, bs, 4, d0, n0);
      if !ok {
        return;
      }
      registry := WithState(registry, slot, STATE_ACTIVE);
      ok := CommitStep(slot, bs, d0, n0);
    }

    /** The disk part of `pkg_update`. */
    method UpdateTransaction(slot: Slot, m: Meta, raw: seq<byte>) returns (ok: bool)
      requires Valid() && Checked(env, m, raw) && (power > 0 ==> 0 < RawLen(EntryOf(registry, slot)) <= MAX_RAW_BYTES)
      modifies `registry, `disk, `power, stage
      ensures Ran(old(disk), old(power), Flat(env, slot, UpdateBlocks(env, old(registry), slot, m, raw,
                    KeptBlob(old(disk), slot, RawLen(EntryOf(old(registry), slot))))), disk, power, ok)
      ensures ok ==> registry == RegistryOf(disk)
    {
      hide Ran, Through, Framed, EncodeEntry, WithEntry, WithState, StateOf, RegistryOf, VerifiedAt, Flat, BlobAt, EntryOf, RawLen, RawCrc,
        ActiveMeta, WithPrevious;
      var before, keptLen := ActiveMeta(EntryOf(registry, slot)), RawLen(EntryOf(registry, slot));
      ghost var kept := KeptBlob(disk, slot, keptLen);
      ghost var bs, d0, n0 := UpdateBlocks(env, registry, slot, m, raw, kept), disk, power;
      var rec := Record(OP_REPLACE, PHASE_STARTED, slot, STATE_ACTIVE, STATE_ACTIVE, m, env.crc(registry), 0);
      ok := StageUpdate(slot, m, raw, keptLen, rec, kept, bs);
      if !ok {
        return;
      }
      EntryWithEntry(registry, slot, EncodeEntry(slot, STATE_PENDING_INSTALL, m));
      var e := BuildEntry(slot, STATE_PENDING_INSTALL, m);
      e := BuildPrevious(e, slot, before);
      registry := WithEntry(registry, slot, e);
      rec := rec.(phase := PHASE_REGISTRY_PENDING, afterCrc := env.crc(registry));
      ghost var d4 := disk;
      ok := NoteStep(rec, slot, bs, 4, d0, n0);
      if !ok {
        return;
      }
      ghost var d5 := disk;
      ok := RegStep(slot, bs, 5, d0, n0);
      if !ok {
        return;
      }
      FramedMeta(d4, d5, slot, JOURNAL_SECTOR, JOURNAL_SECTOR + JOURNAL_SECTORS, Stage, |raw|);
      FramedMeta(d5, disk, slot, REGISTRY_SECTOR, REGISTRY_SECTOR + REGISTRY_SECTORS, Stage, |raw|);
      ok := CopyStep(Stage, Active, |raw|, slot, raw, bs, 6, d0, n0);
      if !ok {
        return;
      }
      registry := WithState(registry, slot, STATE_ACTIVE);
      ok := CommitStep(slot, bs, d0, n0);
    }

    /** An update up to the point where the old version has been preserved. */
    method StageUpdate(slot: Slot, m: Meta, raw: seq<byte>, keptLen: nat, rec: JournalRecord, ghost kept: seq<byte>, ghost bs: seq<Block>)
      returns (ok: bool)
      requires Valid() && Checked(env, m, raw) && (power > 0 ==> 0 < keptLen <= MAX_RAW_BYTES) && kept == KeptBlob(disk, slot, keptLen)
      requires bs == UpdateBlocks(env, registry, slot, m, raw, kept) && rec == UpdateRecord(env, registry, slot, m, PHASE_STARTED)
      modifies `disk, `power, stage
      ensures After(env, slot, bs, 4, old(disk), old(power), disk, power, ok)
      ensures ok ==> BlobAt(disk, StageBlobSector(slot), |raw|) == raw
    {
      hide Ran, Through, Framed, EncodeEntry, WithEntry, WithState, StateOf, RegistryOf, VerifiedAt, Flat, BlobAt, EntryOf, RawLen, RawCrc,
        UpdatePending;
      ghost var d0, n0 := disk, power;
      NotStarted(env, slot, bs, disk, power);
      ok := NoteStep(rec, slot, bs, 0, d0, n0);
      if !ok {
        return;
      }
      HadPower(env, slot, bs, d0, n0, disk, power);
      ghost var d1 := disk;
      FramedMeta(d0, d1, slot, JOURNAL_SECTOR, JOURNAL_SECTOR + JOURNAL_SECTORS, Active, keptLen);
      ok := BlobStep(Stage, raw, slot, bs, 1, d0, n0);
      if !ok {
        return;
      }
      ghost var d2 := disk;
      FramedArea(d1, d2, slot, Stage, Active, keptLen);
      var written := rec.(phase := PHASE_BLOB_WRITTEN);
      ok := NoteStep(written, slot, bs, 2, d0, n0);
      if !ok {
        return;
      }
      FramedMeta(d2, disk, slot, JOURNAL_SECTOR, JOURNAL_SECTOR + JOURNAL_SECTORS, Stage, |raw|);
      FramedMeta(d2, disk, slot, JOURNAL_SECTOR, JOURNAL_SECTOR + JOURNAL_SECTORS, Active, keptLen);
      JustWritten(env, disk, StageBlobSector(slot), m, raw, written);
      ok := VerifyBlobRecordAt(StageBlobSector(slot), written); // a disk that answers reads back what it took
      ghost var d3 := disk;
      ok := CopyStep(Active, Previous, keptLen, slot, kept, bs, 3, d0, n0);
      FramedArea(d3, disk, slot, Previous, Stage, |raw|);
    }

    /** The disk part of `pkg_remove`. */
    method RemoveTransaction(slot: Slot) returns (ok: bool)
      requires Valid()
      modifies `registry, `disk, `power, `pkgs
      ensures Ran(old(disk), old(power), Flat(env, slot, RemoveBlocks(env, old(registry), slot)), disk, power, ok)
      ensures ok ==> registry == RegistryOf(disk)
      ensures Valid()
    {
      hide Ran, Through, Framed, StateOf, RegistryOf, Flat, ActiveMeta;
      ghost var bs, d0, n0 := RemoveBlocks(env, registry, slot), disk, power;
      NotStarted(env, slot, bs, disk, power);
      var rec := Record(OP_REMOVE, PHASE_STARTED, slot, STATE_ACTIVE, STATE_REMOVED, ActiveMeta(EntryOf(registry, slot)), env.crc(registry), 0);
      ok := NoteStep(rec, slot, bs, 0, d0, n0);
      if !ok {
        return;
      }
      registry := WithState(registry, slot, STATE_PENDING_REMOVE);
      pkgs := pkgs[slot := Unused];
      ok := RegStep(slot, bs, 1, d0, n0);
      if !ok {
        return;
      }
      registry := WithState(registry, slot, STATE_REMOVED);
      ok := CommitStep(slot, bs, d0, n0);
    }

    /** The disk part of `pkg_rollback`; the preserved blob is in the staging buffer. */
    method RollbackTransaction(slot: Slot, name: Name, prevLen: nat) returns (ok: bool)
      requires Valid() && prevLen <= MAX_RAW_BYTES && prevLen == PreviousLen(EntryOf(registry, slot))
      modifies `registry, `disk, `power
      ensures Ran(old(disk), old(power), Flat(env, slot, RollbackBlocks(env, old(registry), slot, name, stage[..prevLen])),
                  disk, power, ok)
      ensures ok ==> registry == RegistryOf(disk)
    {
      hide Ran, Through, Framed, EncodeEntry, WithEntry, WithState, StateOf, RegistryOf, Flat, BlobAt, EntryOf, PreviousMeta, WithFlags;
      ghost var bs, d0, n0 := RollbackBlocks(env, registry, slot, name, stage[..prevLen]), disk, power;
      NotStarted(env, slot, bs, disk, power);
      var m, pinned := PreviousMeta(EntryOf(registry, slot), name), Pinned(EntryOf(registry, slot));
      var rec := Record(OP_ROLLBACK, PHASE_REGISTRY_PENDING, slot, STATE_ACTIVE, STATE_ACTIVE, m, env.crc(registry), 0);
      ok := NoteStep(rec, slot, bs, 0, d0, n0);
      if !ok {
        return;
      }
      var e := BuildEntry(slot, STATE_PENDING_INSTALL, m);
      if pinned {
        e := WithFlags(e, 1);
      }
      registry := WithEntry(registry, slot, e);
      ok := RegStep(slot, bs, 1, d0, n0);
      if !ok {
        return;
      }
      ok := BlobStep(Active, stage[..prevLen], slot, bs, 2, d0, n0);
      if !ok {
        return;
      }
      registry := WithState(registry, slot, STATE_ACTIVE);
      ok := CommitStep(slot, bs, d0, n0);
    }

    // --- Commands, from where `ensure_loaded` has returned -------------------------------

    /** The class invariant: a store that calls itself loaded is. */
    ghost predicate Inv()
      reads this, arena
    {
      Valid() && (loaded && !degraded ==> Ready())
    }

    /** A running store that is not written to stays as it is. */
    lemma InvKept()
      requires Valid() && Ready()
      ensures Inv()
    {
    }

    /** A transaction that failed has used up the power, so nothing is promised of the store in memory. */
    lemma InvAfter(ok: bool)
      requires Valid() && (ok ==> !loaded) && (!ok ==> power == 0)
      ensures Inv()
    {
    }

    method FindRegistrySlot(name: seq<byte>) returns (r: Option<Slot>)
      ensures r.Some? ==> Named(registry, r.value, name) && forall s: Slot :: s < r.value ==> !Named(registry, s, name)
      ensures r.None? ==> forall s: Slot :: !Named(registry, s, name)
    {
      hide Named;
      var slot := 0;
      while slot < MAX_PKGS
        invariant slot <= MAX_PKGS && forall s: Slot :: s < slot ==> !Named(registry, s, name)
      {
        if Named(registry, slot, name) {
          return Some(slot);
        }
        slot := slot + 1;
      }
      return None;
    }

    /** A name keeps its slot; otherwise the first removed slot is reused, and failing that the first empty one. */
    method RegistrySlotFor(name: seq<byte>) returns (r: Option<Slot>)
      ensures r.Some? ==> Chosen(registry, name, r.value)
      ensures r.None? ==> forall s: Slot :: !Named(registry, s, name) && !Free(registry, s)
    {
      hide Named, StateOf;
      var firstRemoved: Option<Slot>, firstEmpty: Option<Slot> := None, None;
      var slot := 0;
      while slot < MAX_PKGS
        invariant slot <= MAX_PKGS && forall s: Slot :: s < slot ==> !Named(registry, s, name)
        invariant match firstRemoved
                  case None => forall s: Slot :: s < slot ==> StateOf(registry, s) != STATE_REMOVED
                  case Some(f) => FirstWith(registry, STATE_REMOVED, f)
        invariant match firstEmpty
                  case None => forall s: Slot :: s < slot ==> StateOf(registry, s) != STATE_EMPTY
                  case Some(f) => FirstWith(registry, STATE_EMPTY, f)
      {
        if Named(registry, slot, name) {
          return Some(slot);
        }
        var state := StateOf(registry, slot);
        if state == STATE_REMOVED && firstRemoved == None {
          firstRemoved := Some(slot);
        }
        if state == STATE_EMPTY && firstEmpty == None {
          firstEmpty := Some(slot);
        }
        slot := slot + 1;
      }
      return if firstRemoved.Some? then firstRemoved else firstEmpty;
    }

    /** `pkg_recv` of the package staged in the buffer: it is refused without a write, or installed by the transaction
        whose crash points `StoreOutcomes` covers. */
    method PkgRecv(staged: nat) returns (r: Reply)
      requires Valid() && Ready() && staged <= STAGE_SIZE
      modifies this, stage, arena
      ensures Inv()
      ensures r.Refused? <==> forall s: Slot :: !Installable(env, old(registry), old(stage[..staged]), s)
      ensures r.Refused? ==> disk == old(disk) && power == old(power) && registry == old(registry)
      ensures r.Tried? ==> Installable(env, old(registry), old(stage[..staged]), r.slot)
      ensures old(Sane()) ==> Sane()
      ensures r.Tried? && old(Sane()) && old(power) > 0 ==>
                var tx := Install(MetaOf(env, old(stage[..staged])), old(stage[..staged]));
                && CanStart(env, old(disk), r.slot, tx)
                && disk == Cut(env, old(disk), r.slot, tx, old(power))
                && (r.ok <==> |WritesOf(env, old(disk), r.slot, tx)| <= old(power))
    {
      hide Ran, StateOf, RegistryOf, StoreOk, Live, Chosen, InstallBlocks, Flat, Store.Inv, Apply, Possible;
      var raw := stage[..staged];
      if staged == 0 || staged > MAX_RAW_BYTES || env.inspect(raw).None? {
        InvKept();
        return Refused;
      }
      var info := env.inspect(raw).value;
      if info.name == [] || |info.name| > NAME_MAX || |info.version| > VER_MAX {
        InvKept();
        return Refused;
      }
      var slot := RegistrySlotFor(info.name);
      if slot.None? {
        NoneChosen(registry, info.name);
        InvKept();
        return Refused;
      }
      OneChosen(registry, info.name, slot.value);
      var state := StateOf(registry, slot.value);
      if state == STATE_CORRUPT || state == STATE_QUARANTINED || state == STATE_ACTIVE {
        InvKept();
        return Refused;
      }
      var m := MetaOf(env, raw);
      assert Installable(env, registry, raw, slot.value);
      var ok := InstallTransaction(slot.value, m, raw);
      PowerGone(old(disk), old(power), Flat(env, slot.value, InstallBlocks(env, old(registry), slot.value, m, raw)), disk, power, ok);
      if old(power) > 0 && StoreOk(env, old(disk)) {
        CommandSane(env, old(disk), slot.value, Install(m, raw), old(power));
      }
      if ok {
        pkgs := pkgs[slot.value := Unused];
        var _ := InstallRuntimeEntry(slot.value, info, staged, m.rawCrc);
        loaded := false;
      }
      InvAfter(ok);
      return Tried(slot.value, ok);
    }

    /** `pkg_remove`. */
    method PkgRemove(name: seq<byte>) returns (r: Reply)
      requires Valid() && Ready()
      modifies this
      ensures Inv()
      ensures r.Refused? <==> forall s: Slot :: !Removable(old(registry), name, s)
      ensures r.Refused? ==> disk == old(disk) && power == old(power) && registry == old(registry) && pkgs == old(pkgs)
      ensures r.Tried? ==> Removable(old(registry), name, r.slot)
      ensures old(Sane()) ==> Sane()
      ensures r.Tried? && old(Sane()) && old(power) > 0 ==>
                && CanStart(env, old(disk), r.slot, Remove)
                && disk == Cut(env, old(disk), r.slot, Remove, old(power))
                && (r.ok <==> |WritesOf(env, old(disk), r.slot, Remove)| <= old(power))
    {
      hide Ran, StateOf, RegistryOf, StoreOk, Live, RemoveBlocks, Flat, Named, Store.Inv, Apply, Possible;
      var slot := FindRegistrySlot(name);
      if slot.None? || StateOf(registry, slot.value) != STATE_ACTIVE {
        InvKept();
        return Refused;
      }
      assert Removable(registry, name, slot.value);
      var ok := RemoveTransaction(slot.value);
      PowerGone(old(disk), old(power), Flat(env, slot.value, RemoveBlocks(env, old(registry), slot.value)), disk, power, ok);
      if old(power) > 0 && StoreOk(env, old(disk)) {
        CommandSane(env, old(disk), slot.value, Remove, old(power));
      }
      if ok {
        loaded := false;
      }
      InvAfter(ok);
      return Tried(slot.value, ok);
    }

    /** `pkg_update` with the new version staged in the buffer. */
    method PkgUpdate(target: seq<byte>, allowNewCaps: bool, staged: nat) returns (r: Reply)
      requires Valid() && Ready() && staged <= STAGE_SIZE
      modifies this, stage
      ensures Inv()
      ensures r.Refused? <==> forall s: Slot :: !Updatable(env, old(registry), old(stage[..staged]), target, allowNewCaps, s)
      ensures r.Refused? ==> disk == old(disk) && power == old(power) && registry == old(registry)
      ensures r.Tried? ==> Updatable(env, old(registry), old(stage[..staged]), target, allowNewCaps, r.slot)
      ensures old(Sane()) ==> Sane()
      ensures r.Tried? && old(Sane()) && old(power) > 0 ==>
                var tx := Update(MetaOf(env, old(stage[..staged])), old(stage[..staged]));
                && CanStart(env, old(disk), r.slot, tx)
                && disk == Cut(env, old(disk), r.slot, tx, old(power))
                && (r.ok <==> |WritesOf(env, old(disk), r.slot, tx)| <= old(power))
    {
      hide Ran, StateOf, RegistryOf, StoreOk, Flat, Named, Store.Inv, UpdateBlocks, BlobAt, Within, EntryOf, U32At, Apply,
        Possible;
      var raw := stage[..staged];
      var slot := FindRegistrySlot(target);
      if slot.None? || StateOf(registry, slot.value) != STATE_ACTIVE || Pinned(EntryOf(registry, slot.value)) {
        InvKept();
        return Refused;
      }
      if !Acceptable(env, raw) {
        InvKept();
        return Refused;
      }
      var info, e := env.inspect(raw).value, EntryOf(registry, slot.value);
      if || info.name != target
         || (EntryVersion(e) == info.version && RawCrc(e) == env.crc(raw))
         || (!Within(info.mcaps, Mcaps(e)) && !allowNewCaps)
      {
        InvKept();
        return Refused;
      }
      var m := MetaOf(env, raw);
      assert Updatable(env, registry, raw, target, allowNewCaps, slot.value);
      if power > 0 {
        LiveLength(env, disk, registry, pkgs, arena[..], arenaUsed, slot.value);
      }
      ghost var kept := KeptBlob(disk, slot.value, RawLen(e));
      var ok := UpdateTransaction(slot.value, m, raw);
      PowerGone(old(disk), old(power), Flat(env, slot.value, UpdateBlocks(env, old(registry), slot.value, m, raw, kept)), disk, power, ok);
      if old(power) > 0 && StoreOk(env, old(disk)) {
        CommandSane(env, old(disk), slot.value, Update(m, raw), old(power));
      }
      if ok {
        loaded := false;
      }
      InvAfter(ok);
      return Tried(slot.value, ok);
    }

    /** `pkg_rollback`. */
    method PkgRollback(name: seq<byte>, force: bool) returns (r: Reply)
      requires Valid() && Ready()
      modifies this, stage
      ensures Inv()
      ensures r.Refused? <==> forall s: Slot :: !Restorable(env, old(disk), old(registry), name, force, s)
      ensures r.Refused? ==> disk == old(disk) && power == old(power) && registry == old(registry)
      ensures r.Tried? ==>
                && |name| <= NAME_MAX && Restorable(env, old(disk), old(registry), name, force, r.slot)
                && Ran(old(disk), old(power), Flat(env, r.slot, RollbackBlocks(env, old(registry), r.slot, name,
                         BlobAt(old(disk), PreviousBlobSector(r.slot), PreviousLen(EntryOf(old(registry), r.slot))))), disk, power, r.ok)
      ensures old(Sane()) ==> Sane()
      ensures r.Tried? && old(Sane()) && old(power) > 0 ==>
                CanRollback(env, old(disk), r.slot) && disk == RollbackCut(env, old(disk), r.slot, name, old(power))
    {
      hide Ran, StateOf, RegistryOf, StoreOk, Live, Flat, Named, Store.Inv, RollbackBlocks, BlobAt, EntryOf, U32At, Apply,
        Possible;
      var slot := FindRegistrySlot(name);
      if slot.None? || StateOf(registry, slot.value) != STATE_ACTIVE || !PreviousValid(EntryOf(registry, slot.value)) {
        InvKept();
        return Refused;
      }
      var e := EntryOf(registry, slot.value);
      if Pinned(e) && !force {
        InvKept();
        return Refused;
      }
      var prevLen := PreviousLen(e);
      var ok := ReadBlobAreaIntoStage(PreviousBlobSector(slot.value), prevLen);
      if !ok || env.crc(stage[..prevLen]) != PreviousCrc(e) {
        InvKept();
        return Refused;
      }
      NamedIsShort(registry, slot.value, name);
      assert Restorable(env, disk, registry, name, force, slot.value);
      ghost var prev := stage[..prevLen];
      ok := RollbackTransaction(slot.value, name, prevLen);
      PowerGone(old(disk), old(power), Flat(env, slot.value, RollbackBlocks(env, old(registry), slot.value, name, prev)), disk, power, ok);
      if old(power) > 0 && StoreOk(env, old(disk)) {
        RollbackSane(env, old(disk), slot.value, name, old(power));
      }
      if ok {
        loaded := false;
      }
      InvAfter(ok);
      return Tried(slot.value, ok);
    }
  }
}

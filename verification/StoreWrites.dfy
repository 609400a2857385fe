/** The package store's transactions and its recovery, as the lists of sector writes they issue.
    `PackageStore` proves that the code issues exactly these. */
module StoreWrites {
  import opened Bytes
  import opened Disk
  import opened StoreFormat

  const MARKER_TEXT: string := "DEZHPKGS v0 slots=8 registry=25..31 blob=64..575 slot_sectors=64"

  function Marker(): Sector {
    seq(SECTOR_SIZE, i requires 0 <= i < SECTOR_SIZE =>
      if i < |MARKER_TEXT| then (MARKER_TEXT[i] as int) % 256 else 0)
  }

  function RegistryOf(d: Image): Registry { Joined(d, REGISTRY_SECTOR, REGISTRY_SECTORS) }

  function JournalOf(d: Image): JournalImage { Joined(d, JOURNAL_SECTOR, JOURNAL_SECTORS) }

  function Journal(env: Env, d: Image): JournalState { DecodeJournal(env, JournalOf(d)) }

  // --- Blocks -------------------------------------------------------------------

  function RegistryWrites(reg: Registry): (ws: seq<Write>)
    ensures |ws| == 2
  {
    BlockWrites(REGISTRY_SECTOR, Chunks(reg))
  }

  function JournalWrites(raw: JournalImage): (ws: seq<Write>)
    ensures |ws| == 8
  {
    BlockWrites(JOURNAL_SECTOR, Chunks(raw))
  }

  function RecordWrites(env: Env, rec: JournalRecord): (ws: seq<Write>)
    ensures |ws| == 8
  {
    JournalWrites(EncodeJournal(env, rec))
  }

  function ClearWrites(): (ws: seq<Write>)
    ensures |ws| == 8
  {
    JournalWrites(Zeros(JOURNAL_SIZE))
  }

  function BlobWrites(base: nat, raw: seq<byte>): (ws: seq<Write>)
    requires base + SectorsFor(|raw|) <= DISK_SECTORS
    ensures |ws| == SectorsFor(|raw|)
  {
    BlockWrites(base, Chunks(raw))
  }

  /** The end of every transaction: registry, marker, cleared journal, in that order. */
  function CommitWrites(reg: Registry): (ws: seq<Write>)
    ensures |ws| == 11
  {
    RegistryWrites(reg) + ([Write(MARKER_SECTOR, Marker())] + ClearWrites())
  }

  // --- Blocks of a transaction ------------------------------------------------------

  /** The three blob areas of a slot. */
  datatype Target = Stage | Previous | Active

  function TargetSector(t: Target, slot: Slot): nat {
    match t
    case Stage => StageBlobSector(slot)
    case Previous => PreviousBlobSector(slot)
    case Active => SlotBlobSector(slot)
  }

  /** The units a transaction on one slot is made of, in the order it issues them. */
  datatype Block =
    | Note(rec: JournalRecord)
    | Reg(reg: Registry)
    | Blob(target: Target, raw: seq<byte>)
    | Commit(reg: Registry)
  {
    ghost predicate Fits() {
      Blob? ==> |raw| <= MAX_RAW_BYTES
    }

    ghost function Size(): nat {
      match this
      case Note(_) => 8
      case Reg(_) => 2
      case Blob(_, raw) => SectorsFor(|raw|)
      case Commit(_) => 11
    }

    ghost function Writes(env: Env, slot: Slot): (ws: seq<Write>)
      requires Fits()
      ensures |ws| == Size()
    {
      match this
      case Note(rec) => RecordWrites(env, rec)
      case Reg(reg) => RegistryWrites(reg)
      case Blob(target, raw) => BlobWrites(TargetSector(target, slot), raw)
      case Commit(reg) => CommitWrites(reg)
    }
  }

  ghost predicate AllFit(bs: seq<Block>) {
    forall i :: 0 <= i < |bs| ==> bs[i].Fits()
  }

  ghost function TotalSize(bs: seq<Block>): nat {
    if bs == [] then 0 else TotalSize(bs[..|bs| - 1]) + bs[|bs| - 1].Size()
  }

  /** All the writes of `bs`, in order. */
  ghost function Flat(env: Env, slot: Slot, bs: seq<Block>): (ws: seq<Write>)
    requires AllFit(bs)
    ensures |ws| == TotalSize(bs)
  {
    if bs == [] then [] else Flat(env, slot, bs[..|bs| - 1]) + bs[|bs| - 1].Writes(env, slot)
  }

  // --- Transactions ---------------------------------------------------------------

  function Record(op: byte, phase: byte, slot: Slot, oldState: byte, newState: byte, m: Meta,
                  before: u32, after: u32): JournalRecord {
    JournalRecord(op, phase, slot, oldState, newState, m.mcaps, m.rawLen, m.rawCrc,
                  SlotBlobSector(slot), SectorsFor(m.rawLen), before, after, m.name, m.version)
  }

  /** The metadata the registry holds for the version it calls active. */
  function ActiveMeta(e: Entry): Meta {
    Meta(EntryName(e), EntryVersion(e), Kind(e), Mcaps(e), RawLen(e), RawCrc(e))
  }

  /** The metadata the registry holds for the version before it, under the same name. */
  function PreviousMeta(e: Entry, name: Name): Meta {
    Meta(name, PreviousVersion(e), PreviousKind(e), PreviousMcaps(e), PreviousLen(e), PreviousCrc(e))
  }

  /** A raw package that passed `pkg_recv`'s or `pkg_update`'s checks, with the metadata taken from it. */
  ghost predicate Checked(env: Env, m: Meta, raw: seq<byte>) {
    && 0 < |raw| <= MAX_RAW_BYTES
    && m.rawLen == |raw| && m.rawCrc == env.crc(raw)
    && env.inspect(raw).Some?
    && var info := env.inspect(raw).value;
       info.name == m.name && info.version == m.version && info.mcaps == m.mcaps && info.kind == m.kind
  }

  function InstallPending(reg: Registry, slot: Slot, m: Meta): Registry {
    WithEntry(reg, slot, EncodeEntry(slot, STATE_PENDING_INSTALL, m))
  }

  function InstallRecord(env: Env, reg: Registry, slot: Slot, m: Meta, phase: byte): JournalRecord {
    Record(OP_INSTALL, phase, slot, StateOf(reg, slot), STATE_ACTIVE, m, env.crc(reg),
           if phase == PHASE_REGISTRY_PENDING then env.crc(InstallPending(reg, slot, m)) else 0)
  }

  ghost function InstallBlocks(env: Env, reg: Registry, slot: Slot, m: Meta, raw: seq<byte>): (bs: seq<Block>)
    requires |raw| <= MAX_RAW_BYTES
    ensures AllFit(bs)
  {
    var pending := InstallPending(reg, slot, m);
    [Note(InstallRecord(env, reg, slot, m, PHASE_STARTED)),
     Blob(Active, raw),
     Note(InstallRecord(env, reg, slot, m, PHASE_BLOB_WRITTEN)),
     Note(InstallRecord(env, reg, slot, m, PHASE_REGISTRY_PENDING)),
     Reg(pending),
     Commit(WithState(pending, slot, STATE_ACTIVE))]
  }

  function UpdatePending(reg: Registry, slot: Slot, m: Meta): Registry {
    WithEntry(reg, slot, WithPrevious(EncodeEntry(slot, STATE_PENDING_INSTALL, m), slot, ActiveMeta(EntryOf(reg, slot))))
  }

  function UpdateRecord(env: Env, reg: Registry, slot: Slot, m: Meta, phase: byte): JournalRecord {
    Record(OP_REPLACE, phase, slot, STATE_ACTIVE, STATE_ACTIVE, m, env.crc(reg),
           if phase == PHASE_REGISTRY_PENDING then env.crc(UpdatePending(reg, slot, m)) else 0)
  }

  /** `kept` is the blob the update preserves. */
  ghost function UpdateBlocks(env: Env, reg: Registry, slot: Slot, m: Meta, raw: seq<byte>, kept: seq<byte>): (bs: seq<Block>)
    requires |raw| <= MAX_RAW_BYTES && |kept| <= MAX_RAW_BYTES
    ensures AllFit(bs)
  {
    var pending := UpdatePending(reg, slot, m);
    [Note(UpdateRecord(env, reg, slot, m, PHASE_STARTED)),
     Blob(Stage, raw),
     Note(UpdateRecord(env, reg, slot, m, PHASE_BLOB_WRITTEN)),
     Blob(Previous, kept),
     Note(UpdateRecord(env, reg, slot, m, PHASE_REGISTRY_PENDING)),
     Reg(pending),
     Blob(Active, raw),
     Commit(WithState(pending, slot, STATE_ACTIVE))]
  }

  function RemoveRecord(env: Env, reg: Registry, slot: Slot): JournalRecord {
    Record(OP_REMOVE, PHASE_STARTED, slot, STATE_ACTIVE, STATE_REMOVED, ActiveMeta(EntryOf(reg, slot)), env.crc(reg), 0)
  }

  ghost function RemoveBlocks(env: Env, reg: Registry, slot: Slot): (bs: seq<Block>)
    ensures AllFit(bs)
  {
    [Note(RemoveRecord(env, reg, slot)),
     Reg(WithState(reg, slot, STATE_PENDING_REMOVE)),
     Commit(WithState(reg, slot, STATE_REMOVED))]
  }

  function RollbackRecord(env: Env, reg: Registry, slot: Slot, name: Name): JournalRecord {
    Record(OP_ROLLBACK, PHASE_REGISTRY_PENDING, slot, STATE_ACTIVE, STATE_ACTIVE,
           PreviousMeta(EntryOf(reg, slot), name), env.crc(reg), 0)
  }

  function RollbackPending(reg: Registry, slot: Slot, name: Name): Registry {
    var e0 := EntryOf(reg, slot);
    var e := EncodeEntry(slot, STATE_PENDING_INSTALL, PreviousMeta(e0, name));
    WithEntry(reg, slot, if Pinned(e0) then WithFlags(e, 1) else e)
  }

  /** `prev` is the preserved blob being restored. */
  ghost function RollbackBlocks(env: Env, reg: Registry, slot: Slot, name: Name, prev: seq<byte>): (bs: seq<Block>)
    requires |prev| <= MAX_RAW_BYTES
    ensures AllFit(bs)
  {
    var pending := RollbackPending(reg, slot, name);
    [Note(RollbackRecord(env, reg, slot, name)),
     Reg(pending),
     Blob(Active, prev),
     Commit(WithState(pending, slot, STATE_ACTIVE))]
  }

  // --- Recovery -------------------------------------------------------------------

  /** Does the blob stored from `base` on pass every check against the journal record? */
  predicate VerifiedAt(env: Env, d: Image, base: nat, rec: JournalRecord)
    requires base + SLOT_SECTORS <= DISK_SECTORS
  {
    && 0 < rec.rawLen <= MAX_RAW_BYTES
    && rec.blobCount == SectorsFor(rec.rawLen)
    && var raw := BlobAt(d, base, rec.rawLen);
       && env.crc(raw) == rec.rawCrc
       && env.inspect(raw).Some?
       && env.inspect(raw).value.name == rec.name
       && env.inspect(raw).value.version == rec.version
       && env.inspect(raw).value.mcaps == rec.mcaps
  }

  function RolledBack(reg: Registry, rec: JournalRecord): Registry {
    if rec.oldState == STATE_EMPTY then WithEntry(reg, rec.slot, Zeros(ENTRY_SIZE))
    else WithState(reg, rec.slot, rec.oldState)
  }

  /** Copying the blob stored from `from` on into the slot, then committing the slot as active. */
  function PromoteWrites(d: Image, rec: JournalRecord, from: nat): (ws: seq<Write>)
    requires rec.rawLen <= MAX_RAW_BYTES && from + SLOT_SECTORS <= DISK_SECTORS
    ensures |ws| == SectorsFor(rec.rawLen) + 11
  {
    BlobWrites(SlotBlobSector(rec.slot), BlobAt(d, from, rec.rawLen))
    + CommitWrites(WithState(RegistryOf(d), rec.slot, STATE_ACTIVE))
  }

  /** What recovery writes for a record found in the journal; `None` leaves the store degraded. */
  function ReplayWrites(env: Env, d: Image, rec: JournalRecord): (ws: Option<seq<Write>>) {
    var reg := RegistryOf(d);
    var state := StateOf(reg, rec.slot);
    var blob := SlotBlobSector(rec.slot);
    if rec.op == OP_INSTALL || rec.op == OP_REPLACE then
      if rec.phase == PHASE_STARTED || rec.phase == PHASE_BLOB_WRITTEN then
        Some(CommitWrites(RolledBack(reg, rec)))
      else if rec.phase == PHASE_REGISTRY_PENDING then
        if rec.op == OP_REPLACE && state == STATE_PENDING_INSTALL && VerifiedAt(env, d, StageBlobSector(rec.slot), rec) then
          Some(PromoteWrites(d, rec, StageBlobSector(rec.slot)))
        else if rec.op == OP_INSTALL && state == STATE_PENDING_INSTALL && VerifiedAt(env, d, blob, rec) then
          Some(CommitWrites(WithState(reg, rec.slot, STATE_ACTIVE)))
        else
          Some(CommitWrites(WithState(reg, rec.slot, STATE_QUARANTINED)))
      else None
    else if rec.op == OP_ROLLBACK then
      if rec.phase == PHASE_REGISTRY_PENDING && rec.rawLen <= MAX_RAW_BYTES
         && env.crc(BlobAt(d, PreviousBlobSector(rec.slot), rec.rawLen)) == rec.rawCrc then
        Some(PromoteWrites(d, rec, PreviousBlobSector(rec.slot)))
      else None
    else if rec.op == OP_REMOVE then
      Some(CommitWrites(WithState(reg, rec.slot, STATE_REMOVED)))
    else None
  }

  /** Every slot left pending is quarantined; the rest is untouched. */
  function QuarantinePending(reg: Registry, upTo: nat): Registry
    requires upTo <= MAX_PKGS
  {
    if upTo == 0 then reg
    else
      var r := QuarantinePending(reg, upTo - 1);
      var state := StateOf(r, upTo - 1);
      if state == STATE_PENDING_INSTALL || state == STATE_PENDING_REMOVE
      then WithState(r, upTo - 1, STATE_QUARANTINED) else r
  }

  /** What `recover_from_journal` writes; `manual` is the operator's `pkg-recover`. */
  function RecoveryWrites(env: Env, d: Image, manual: bool): (ws: Option<seq<Write>>) {
    match Journal(env, d)
    case Empty => Some([])
    case Corrupt =>
      if manual then Some(CommitWrites(QuarantinePending(RegistryOf(d), MAX_PKGS))) else None
    case Valid(rec) => ReplayWrites(env, d, rec)
  }
}

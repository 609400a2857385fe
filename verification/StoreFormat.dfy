/** On-disk formats of the package store: the journal record and the registry entry, byte by byte. */
module StoreFormat {
  import opened Bytes

  const MAX_PKGS: nat := 8
  const NAME_MAX: nat := 24
  const VER_MAX: nat := 12
  const ENTRY_SIZE: nat := 128
  const REGISTRY_SIZE: nat := 1024
  const JOURNAL_SECTORS: nat := 8
  const JOURNAL_SIZE: nat := 4096

  const STATE_EMPTY: byte := 0
  const STATE_ACTIVE: byte := 1
  const STATE_REMOVED: byte := 2
  const STATE_CORRUPT: byte := 3
  const STATE_PENDING_INSTALL: byte := 4
  const STATE_PENDING_REMOVE: byte := 5
  const STATE_QUARANTINED: byte := 6

  const MARKER_SECTOR: nat := 24
  const REGISTRY_SECTOR: nat := 25
  const REGISTRY_SECTORS: nat := 2
  const JOURNAL_SECTOR: nat := 32
  const BLOB_FIRST_SECTOR: nat := 64
  const PREVIOUS_FIRST_SECTOR: nat := 576
  const STAGE_FIRST_SECTOR: nat := 1088
  const SLOT_SECTORS: nat := 64
  const MAX_RAW_BYTES: nat := 32768

  const REG_MAGIC: seq<byte> := [68, 80, 75, 71]
  const JOURNAL_MAGIC: seq<byte> := [68, 80, 74, 48]
  const JOURNAL_VERSION: byte := 1
  const OP_INSTALL: byte := 1
  const OP_REMOVE: byte := 2
  const OP_REPLACE: byte := 3
  const OP_ROLLBACK: byte := 4
  const PHASE_STARTED: byte := 1
  const PHASE_BLOB_WRITTEN: byte := 2
  const PHASE_REGISTRY_PENDING: byte := 3

  type u16 = n: nat | n < 0x1_0000
  type u32 = n: nat | n < 0x1_0000_0000
  type Slot = n: nat | n < MAX_PKGS
  type Entry = e: seq<byte> | |e| == ENTRY_SIZE witness Zeros(ENTRY_SIZE)
  type Registry = r: seq<byte> | |r| == REGISTRY_SIZE witness Zeros(REGISTRY_SIZE)
  type JournalImage = r: seq<byte> | |r| == JOURNAL_SIZE witness Zeros(JOURNAL_SIZE)
  type Name = n: seq<byte> | |n| <= NAME_MAX
  type Version = v: seq<byte> | |v| <= VER_MAX

  /** What a package that passes parsing, payload verification and manifest parsing declares. */
  datatype Info = Info(name: seq<byte>, version: seq<byte>, kind: u16, mcaps: u32, payload: seq<byte>)

  /** The checksum, and the checks a raw package has to pass; `None` is a rejected package. */
  datatype Env = Env(crc: seq<byte> -> u32, inspect: seq<byte> -> Option<Info>)

  function SlotBlobSector(slot: Slot): nat { BLOB_FIRST_SECTOR + slot * SLOT_SECTORS }

  function PreviousBlobSector(slot: Slot): nat { PREVIOUS_FIRST_SECTOR + slot * SLOT_SECTORS }

  function StageBlobSector(slot: Slot): nat { STAGE_FIRST_SECTOR + slot * SLOT_SECTORS }

  // --- Journal ------------------------------------------------------------------

  datatype JournalRecord = JournalRecord(
    op: byte, phase: byte, slot: Slot, oldState: byte, newState: byte, mcaps: u32, rawLen: u32, rawCrc: u32,
    blobStart: u32, blobCount: u32, beforeCrc: u32, afterCrc: u32, name: Name, version: Version)

  datatype JournalState = Empty | Valid(rec: JournalRecord) | Corrupt

  /** Byte `i` of the journal image of `rec` whose checksum field holds `crc`. */
  function RecordByte(rec: JournalRecord, crc: u32, i: nat): byte
    requires i < JOURNAL_SIZE
  {
    if i < 4 then JOURNAL_MAGIC[i]
    else if i == 4 then JOURNAL_VERSION
    else if i == 5 then rec.op
    else if i == 6 then rec.phase
    else if 8 <= i < 12 then LeByte(1, i - 8)
    else if 12 <= i < 16 then LeByte(rec.slot, i - 12)
    else if i == 16 then rec.oldState
    else if i == 17 then rec.newState
    else if 24 <= i < 28 then LeByte(rec.mcaps, i - 24)
    else if 28 <= i < 32 then LeByte(rec.rawLen, i - 28)
    else if 32 <= i < 36 then LeByte(rec.rawCrc, i - 32)
    else if 36 <= i < 40 then LeByte(rec.blobStart, i - 36)
    else if 40 <= i < 44 then LeByte(rec.blobCount, i - 40)
    else if 44 <= i < 48 then LeByte(rec.beforeCrc, i - 44)
    else if 48 <= i < 52 then LeByte(rec.afterCrc, i - 48)
    else if 52 <= i < 56 then LeByte(crc, i - 52)
    else if i == 56 then |rec.name|
    else if i == 57 then |rec.version|
    else if 64 <= i < 64 + |rec.name| then rec.name[i - 64]
    else if 88 <= i < 88 + |rec.version| then rec.version[i - 88]
    else 0
  }

  function RecordImage(rec: JournalRecord, crc: u32): JournalImage {
    seq(JOURNAL_SIZE, i requires 0 <= i < JOURNAL_SIZE => RecordByte(rec, crc, i))
  }

  /** The journal image with its checksum, taken while the checksum field is zero. */
  function EncodeJournal(env: Env, rec: JournalRecord): JournalImage {
    RecordImage(rec, env.crc(RecordImage(rec, 0)))
  }

  /** `raw` with its checksum field zeroed. */
  function Unsigned(raw: JournalImage): JournalImage {
    raw[52 := 0][53 := 0][54 := 0][55 := 0]
  }

  function DecodeJournal(env: Env, raw: JournalImage): JournalState {
    if forall i :: 0 <= i < JOURNAL_SIZE ==> raw[i] == 0 then Empty
    else if raw[0..4] != JOURNAL_MAGIC then Corrupt
    else if raw[4] != JOURNAL_VERSION then Corrupt
    else if env.crc(Unsigned(raw)) != U32At(raw, 52) then Corrupt
    else if U32At(raw, 12) >= MAX_PKGS || raw[56] > NAME_MAX || raw[57] > VER_MAX then Corrupt
    else Valid(JournalRecord(raw[5], raw[6], U32At(raw, 12), raw[16], raw[17], U32At(raw, 24), U32At(raw, 28),
                             U32At(raw, 32), U32At(raw, 36), U32At(raw, 40), U32At(raw, 44), U32At(raw, 48),
                             raw[64..64 + raw[56]], raw[88..88 + raw[57]]))
  }

  /** Every record reads back as itself, whatever the checksum function. */
  lemma JournalRoundTrip(env: Env, rec: JournalRecord)
    ensures DecodeJournal(env, EncodeJournal(env, rec)) == Valid(rec)
  {
    hide U32;
    var crc := env.crc(RecordImage(rec, 0));
    var raw := EncodeJournal(env, rec);
    assert raw[0] == 68;
    assert raw[0..4] == JOURNAL_MAGIC;
    assert Unsigned(raw) == RecordImage(rec, 0) by {
      forall i | 0 <= i < JOURNAL_SIZE
        ensures Unsigned(raw)[i] == RecordImage(rec, 0)[i]
      {
        assert raw[i] == RecordByte(rec, crc, i);
      }
    }
    RecordFields(rec, crc);
    assert raw[64..64 + raw[56]] == rec.name;
    assert raw[88..88 + raw[57]] == rec.version;
  }

  lemma RecordFields(rec: JournalRecord, crc: u32)
    ensures var raw := RecordImage(rec, crc);
            && U32At(raw, 12) == rec.slot
            && U32At(raw, 24) == rec.mcaps
            && U32At(raw, 28) == rec.rawLen
            && U32At(raw, 32) == rec.rawCrc
            && U32At(raw, 36) == rec.blobStart
            && U32At(raw, 40) == rec.blobCount
            && U32At(raw, 44) == rec.beforeCrc
            && U32At(raw, 48) == rec.afterCrc
            && U32At(raw, 52) == crc
  {
    RecordField(rec, crc, 12, rec.slot);
    RecordField(rec, crc, 24, rec.mcaps);
    RecordField(rec, crc, 28, rec.rawLen);
    RecordField(rec, crc, 32, rec.rawCrc);
    RecordField(rec, crc, 36, rec.blobStart);
    RecordField(rec, crc, 40, rec.blobCount);
    RecordField(rec, crc, 44, rec.beforeCrc);
    RecordField(rec, crc, 48, rec.afterCrc);
    RecordField(rec, crc, 52, crc);
  }

  lemma RecordField(rec: JournalRecord, crc: u32, o: nat, n: u32)
    requires o + 4 <= JOURNAL_SIZE && forall i :: 0 <= i < 4 ==> RecordByte(rec, crc, o + i) == LeByte(n, i)
    ensures U32At(RecordImage(rec, crc), o) == n
  {
    hide RecordByte, LeByte, U32At;
    var raw := RecordImage(rec, crc);
    forall i | 0 <= i < 4
      ensures raw[o + i] == LeByte(n, i)
    {
      assert raw[o + i] == RecordByte(rec, crc, o + i);
    }
    ReadField32(raw, o, n);
  }

  lemma BlankJournalIsEmpty(env: Env)
    ensures DecodeJournal(env, Zeros(JOURNAL_SIZE)) == Empty
  {
  }

  // --- Registry entries -----------------------------------------------------------

  function EntryOf(reg: Registry, slot: Slot): Entry {
    reg[slot * ENTRY_SIZE..slot * ENTRY_SIZE + ENTRY_SIZE]
  }

  function StateOf(reg: Registry, slot: Slot): byte {
    reg[slot * ENTRY_SIZE]
  }

  function WithState(reg: Registry, slot: Slot, state: byte): Registry {
    reg[slot * ENTRY_SIZE := state]
  }

  function WithEntry(reg: Registry, slot: Slot, e: Entry): Registry {
    reg[..slot * ENTRY_SIZE] + e + reg[slot * ENTRY_SIZE + ENTRY_SIZE..]
  }

  function RawLen(e: Entry): u32 { U32At(e, 12) }

  function RawCrc(e: Entry): u32 { U32At(e, 16) }

  function Kind(e: Entry): u16 { U16At(e, 6) }

  function Mcaps(e: Entry): u32 { U32At(e, 8) }

  function Flags(e: Entry): u32 { U32At(e, 28) }

  predicate Pinned(e: Entry) { Flags(e) % 2 == 1 }

  predicate PreviousValid(e: Entry) { Flags(e) / 2 % 2 == 1 }

  function PreviousKind(e: Entry): u16 { U16At(e, 82) }

  function PreviousMcaps(e: Entry): u32 { U32At(e, 84) }

  function PreviousLen(e: Entry): u32 { U32At(e, 88) }

  function PreviousCrc(e: Entry): u32 { U32At(e, 92) }

  function EntryName(e: Entry): Name {
    if e[32] == 0 || e[32] > NAME_MAX then [] else e[40..40 + e[32]]
  }

  function EntryVersion(e: Entry): Version {
    if e[33] == 0 || e[33] > VER_MAX then [] else e[64..64 + e[33]]
  }

  function PreviousVersion(e: Entry): Version {
    if e[80] == 0 || e[80] > VER_MAX then [] else e[104..104 + e[80]]
  }

  /** The fields `encode_registry_entry` fills in. */
  datatype Meta = Meta(name: Name, version: Version, kind: u16, mcaps: u32, rawLen: u32, rawCrc: u32)

  function EntryByte(slot: Slot, state: byte, m: Meta, i: nat): byte
    requires i < ENTRY_SIZE
  {
    if i == 0 then state
    else if i < 5 then REG_MAGIC[i - 1]
    else if i == 5 then slot
    else if i < 8 then LeByte(m.kind, i - 6)
    else if i < 12 then LeByte(m.mcaps, i - 8)
    else if i < 16 then LeByte(m.rawLen, i - 12)
    else if i < 20 then LeByte(m.rawCrc, i - 16)
    else if i < 24 then LeByte(SlotBlobSector(slot), i - 20)
    else if i < 28 then LeByte(SLOT_SECTORS, i - 24)
    else if i == 32 then |m.name|
    else if i == 33 then |m.version|
    else if 40 <= i < 40 + |m.name| then m.name[i - 40]
    else if 64 <= i < 64 + |m.version| then m.version[i - 64]
    else 0
  }

  function EncodeEntry(slot: Slot, state: byte, m: Meta): Entry {
    seq(ENTRY_SIZE, i requires 0 <= i < ENTRY_SIZE => EntryByte(slot, state, m, i))
  }

  /** `e` with its flags replaced. */
  function WithFlags(e: Entry, flags: u32): Entry {
    e[28 := LeByte(flags, 0)][29 := LeByte(flags, 1)][30 := LeByte(flags, 2)][31 := LeByte(flags, 3)]
  }

  function SetPreviousValid(flags: u32): u32 {
    if flags / 2 % 2 == 1 then flags else
      assert flags + 2 < 0x1_0000_0000 by { assert flags % 4 < 2; }
      flags + 2
  }

  function PreviousByte(e: Entry, slot: Slot, m: Meta, i: nat): byte
    requires i < ENTRY_SIZE
  {
    if i == 80 then |m.version|
    else if 82 <= i < 84 then LeByte(m.kind, i - 82)
    else if 84 <= i < 88 then LeByte(m.mcaps, i - 84)
    else if 88 <= i < 92 then LeByte(m.rawLen, i - 88)
    else if 92 <= i < 96 then LeByte(m.rawCrc, i - 92)
    else if 96 <= i < 100 then LeByte(PreviousBlobSector(slot), i - 96)
    else if 100 <= i < 104 then LeByte(SLOT_SECTORS, i - 100)
    else if 104 <= i < 104 + |m.version| then m.version[i - 104]
    else if 104 <= i < 116 then 0
    else if 28 <= i < 32 then LeByte(SetPreviousValid(Flags(e)), i - 28)
    else e[i]
  }

  /** `e` with the previous version's metadata recorded in it (`m.name` is not stored). */
  function WithPrevious(e: Entry, slot: Slot, m: Meta): Entry {
    seq(ENTRY_SIZE, i requires 0 <= i < ENTRY_SIZE => PreviousByte(e, slot, m, i))
  }

  lemma EntryField(slot: Slot, state: byte, m: Meta, o: nat, n: u32)
    requires o + 4 <= ENTRY_SIZE && forall i :: 0 <= i < 4 ==> EntryByte(slot, state, m, o + i) == LeByte(n, i)
    ensures U32At(EncodeEntry(slot, state, m), o) == n
  {
    hide EntryByte, LeByte, U32At;
    var e := EncodeEntry(slot, state, m);
    forall i | 0 <= i < 4
      ensures e[o + i] == LeByte(n, i)
    {
      assert e[o + i] == EntryByte(slot, state, m, o + i);
    }
    ReadField32(e, o, n);
  }

  /** Where a fresh entry says its blob lies. */
  lemma EntryPlace(slot: Slot, state: byte, m: Meta)
    ensures var e := EncodeEntry(slot, state, m);
            e[5] == slot && U32At(e, 20) == SlotBlobSector(slot) && U32At(e, 24) == SLOT_SECTORS
  {
    hide LeByte, U32At;
    EntryField(slot, state, m, 20, SlotBlobSector(slot));
    EntryField(slot, state, m, 24, SLOT_SECTORS);
  }

  /** The fields of a fresh entry read back. */
  lemma EntryFields(slot: Slot, state: byte, m: Meta)
    ensures var e := EncodeEntry(slot, state, m);
            && e[0] == state && e[1..5] == REG_MAGIC && RawLen(e) == m.rawLen && RawCrc(e) == m.rawCrc
            && Kind(e) == m.kind && Mcaps(e) == m.mcaps && Flags(e) == 0
            && e[5] == slot && U32At(e, 20) == SlotBlobSector(slot) && U32At(e, 24) == SLOT_SECTORS
            && EntryName(e) == m.name && EntryVersion(e) == m.version
  {
    var e := EncodeEntry(slot, state, m);
    Le16RoundTrip(m.kind);
    ReadField32(e, 8, m.mcaps);
    ReadField32(e, 12, m.rawLen);
    ReadField32(e, 16, m.rawCrc);
    EntryPlace(slot, state, m);
    hide U32At, LeByte;
    assert e[1..5] == REG_MAGIC;
    assert EntryName(e) == m.name;
    assert EntryVersion(e) == m.version;
  }

  /** Recording the previous version leaves the active version's fields alone. */
  lemma PreviousKeepsActive(e: Entry, slot: Slot, m: Meta)
    ensures var p := WithPrevious(e, slot, m);
            && p[0..28] == e[0..28] && p[32..80] == e[32..80] && RawLen(p) == RawLen(e) && RawCrc(p) == RawCrc(e)
            && Kind(p) == Kind(e) && Mcaps(p) == Mcaps(e)
            && EntryName(p) == EntryName(e) && EntryVersion(p) == EntryVersion(e)
  {
    hide LeByte, U32;
    var p := WithPrevious(e, slot, m);
    forall i | 0 <= i < 28 || 32 <= i < 80
      ensures p[i] == e[i]
    {
      assert p[i] == PreviousByte(e, slot, m, i);
    }
  }

  /** The recorded previous version reads back, and only its flag is added. */
  lemma PreviousFields(e: Entry, slot: Slot, m: Meta)
    ensures var p := WithPrevious(e, slot, m);
            && Flags(p) == SetPreviousValid(Flags(e)) && PreviousValid(p)
            && PreviousLen(p) == m.rawLen && PreviousCrc(p) == m.rawCrc && PreviousVersion(p) == m.version
            && PreviousKind(p) == m.kind && PreviousMcaps(p) == m.mcaps
  {
    hide LeByte, U32;
    var p := WithPrevious(e, slot, m);
    var flags := SetPreviousValid(Flags(e));
    assert flags / 2 % 2 == 1;
    PreviousField(e, slot, m, 28, flags);
    PreviousField(e, slot, m, 88, m.rawLen);
    PreviousField(e, slot, m, 92, m.rawCrc);
    PreviousField(e, slot, m, 84, m.mcaps);
    Le16RoundTrip(m.kind);
    assert p[82] == PreviousByte(e, slot, m, 82) && p[83] == PreviousByte(e, slot, m, 83);
    assert p[80] == |m.version|;
    forall i | 0 <= i < |m.version|
      ensures p[104 + i] == m.version[i]
    {
      assert p[104 + i] == PreviousByte(e, slot, m, 104 + i);
    }
    assert p[104..104 + |m.version|] == m.version;
  }

  lemma PreviousField(e: Entry, slot: Slot, m: Meta, o: nat, n: u32)
    requires o == 28 || o == 84 || o == 88 || o == 92
    requires n == if o == 28 then SetPreviousValid(Flags(e)) else if o == 84 then m.mcaps else if o == 88 then m.rawLen else m.rawCrc
    ensures U32At(WithPrevious(e, slot, m), o) == n
  {
    hide LeByte, U32;
    var p := WithPrevious(e, slot, m);
    forall i | 0 <= i < 4
      ensures p[o + i] == LeByte(n, i)
    {
      assert p[o + i] == PreviousByte(e, slot, m, o + i);
    }
    ReadField32(p, o, n);
  }
}

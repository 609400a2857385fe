/** What a crash inside one block of writes leaves behind.
    Journal and registry blocks span several sectors, yet each takes effect with a single one of them. */
module StoreBlocks {
  import opened Bytes
  import opened Disk
  import opened StoreFormat
  import opened StoreWrites

  /** Only the first journal sector is ever non-zero. */
  ghost predicate ZeroTail(d: Image) {
    forall j :: JOURNAL_SECTOR < j < JOURNAL_SECTOR + JOURNAL_SECTORS ==> d[j] == ZERO_SECTOR
  }

  ghost predicate ZeroBeyondFirst(raw: JournalImage) {
    forall i :: SECTOR_SIZE <= i < JOURNAL_SIZE ==> raw[i] == 0
  }

  /** `d` and `d'` agree from the first blob sector on. */
  ghost predicate SameBlobs(d: Image, d': Image) {
    d[BLOB_FIRST_SECTOR..] == d'[BLOB_FIRST_SECTOR..]
  }

  /** `r` and `r'` agree outside the entry of `slot`. */
  ghost predicate OnlySlot(r: Registry, r': Registry, slot: Slot) {
    forall i :: 0 <= i < REGISTRY_SIZE && !(slot * ENTRY_SIZE <= i < slot * ENTRY_SIZE + ENTRY_SIZE) ==> r[i] == r'[i]
  }

  lemma RegistrySame(d: Image, d': Image)
    requires d[25] == d'[25] && d[26] == d'[26]
    ensures RegistryOf(d) == RegistryOf(d')
  {
    assert d[25..27] == [d[25], d[26]] == d'[25..27];
    JoinedSame(d, d', REGISTRY_SECTOR, REGISTRY_SECTORS);
  }

  lemma JournalSame(d: Image, d': Image)
    requires forall j :: 32 <= j < 40 ==> d[j] == d'[j]
    ensures JournalOf(d) == JournalOf(d')
  {
    assert d[32..40] == d'[32..40];
    JoinedSame(d, d', JOURNAL_SECTOR, JOURNAL_SECTORS);
  }

  lemma BlobSame(d: Image, d': Image, base: nat, len: nat)
    requires base + SectorsFor(len) <= DISK_SECTORS
    requires forall j :: base <= j < base + SectorsFor(len) ==> d[j] == d'[j]
    ensures BlobAt(d, base, len) == BlobAt(d', base, len)
  {
    var n := SectorsFor(len);
    assert d[base..base + n] == d'[base..base + n];
    JoinedSame(d, d', base, n);
  }

  /** Sectors that hold `Chunks(raw)` for a whole number of sectors read back as `raw`. */
  lemma ChunksJoin(d: Image, base: nat, raw: seq<byte>)
    requires |raw| % SECTOR_SIZE == 0 && base + SectorsFor(|raw|) <= DISK_SECTORS
    requires forall i :: 0 <= i < SectorsFor(|raw|) ==> d[base + i] == Chunks(raw)[i]
    ensures Joined(d, base, SectorsFor(|raw|)) == raw
  {
    var n := SectorsFor(|raw|);
    assert n * SECTOR_SIZE == |raw|;
    forall i | 0 <= i < |raw|
      ensures Joined(d, base, n)[i] == raw[i]
    {
      var q := i / SECTOR_SIZE;
      assert 0 <= q < n;
      assert d[base + q] == Chunks(raw)[q] == Chunk(raw, q);
    }
  }

  lemma JournalTailChunks(raw: JournalImage)
    requires ZeroBeyondFirst(raw)
    ensures |Chunks(raw)| == 8
    ensures forall i :: 1 <= i < 8 ==> Chunks(raw)[i] == ZERO_SECTOR
  {
    forall i | 1 <= i < 8
      ensures Chunks(raw)[i] == ZERO_SECTOR
    {
      var c := Chunk(raw, i);
      forall j | 0 <= j < SECTOR_SIZE
        ensures c[j] == 0
      {
        assert c[j] == raw[i * SECTOR_SIZE + j];
      }
      assert c == ZERO_SECTOR;
    }
  }

  /** The journal changes with the first of its eight writes. */
  lemma JournalBlock(d: Image, raw: JournalImage, k: nat)
    requires ZeroTail(d) && ZeroBeyondFirst(raw) && k <= 8
    ensures var d' := Apply(d, JournalWrites(raw)[..k]);
            && ZeroTail(d')
            && RegistryOf(d') == RegistryOf(d) && SameBlobs(d, d')
            && JournalOf(d') == if k == 0 then JournalOf(d) else raw
  {
    var ss := Chunks(raw);
    JournalTailChunks(raw);
    hide Chunks, RegistryOf, JournalOf, ZeroBeyondFirst;
    ApplyBlockPrefix(d, JOURNAL_SECTOR, ss, k);
    var d' := Splice(d, JOURNAL_SECTOR, ss[..k]);
    assert ZeroTail(d');
    RegistrySame(d, d');
    if k == 0 {
      JournalSame(d, d');
    } else {
      assert forall i :: 0 <= i < 8 ==> d'[JOURNAL_SECTOR + i] == ss[i];
      JournalJoins(d', raw);
    }
  }

  lemma JournalJoins(d: Image, raw: JournalImage)
    requires |Chunks(raw)| == 8 && forall i :: 0 <= i < 8 ==> d[JOURNAL_SECTOR + i] == Chunks(raw)[i]
    ensures JournalOf(d) == raw
  {
    ChunksJoin(d, JOURNAL_SECTOR, raw);
  }

  /** Half of a registry image, as the sector it becomes. */
  lemma RegistryHalf(reg: Registry, q: nat, i: nat)
    requires q < 2 && i < SECTOR_SIZE
    ensures |Chunks(reg)| == 2 && Chunks(reg)[q][i] == reg[q * SECTOR_SIZE + i]
  {
    assert Chunks(reg)[q] == Chunk(reg, q);
  }

  lemma RegistryByte(d: Image, i: nat)
    requires i < REGISTRY_SIZE
    ensures RegistryOf(d)[i] == d[REGISTRY_SECTOR + i / SECTOR_SIZE][i % SECTOR_SIZE]
  {
  }

  /** The registry changes with the one write that covers the slot's entry. */
  lemma RegistryBlock(d: Image, reg: Registry, slot: Slot, k: nat)
    requires OnlySlot(RegistryOf(d), reg, slot) && k <= 2
    ensures var d' := Apply(d, RegistryWrites(reg)[..k]);
            && RegistryOf(d') == (if k <= slot / 4 then RegistryOf(d) else reg)
            && JournalOf(d') == JournalOf(d) && SameBlobs(d, d') && (ZeroTail(d) ==> ZeroTail(d'))
  {
    var ss := Chunks(reg);
    RegistryHalf(reg, 0, 0);
    ApplyBlockPrefix(d, REGISTRY_SECTOR, ss, k);
    var d' := Splice(d, REGISTRY_SECTOR, ss[..k]);
    JournalSame(d, d');
    hide RegistryOf, Chunks, JournalOf;
    var want := if k <= slot / 4 then RegistryOf(d) else reg;
    forall i | 0 <= i < REGISTRY_SIZE
      ensures RegistryOf(d')[i] == want[i]
    {
      RegistryHalf(reg, i / SECTOR_SIZE, i % SECTOR_SIZE);
      RegistryByte(d, i);
      RegistryByte(d', i);
    }
    assert RegistryOf(d') == want;
  }

  /** A blob block changes nothing outside its own sectors, and only front to back. */
  lemma BlobBlock(d: Image, base: nat, raw: seq<byte>, k: nat)
    requires BLOB_FIRST_SECTOR <= base && base + SectorsFor(|raw|) <= DISK_SECTORS && k <= SectorsFor(|raw|)
    ensures var d' := Apply(d, BlobWrites(base, raw)[..k]);
            && RegistryOf(d') == RegistryOf(d) && JournalOf(d') == JournalOf(d) && (ZeroTail(d) ==> ZeroTail(d'))
            && d' == Splice(d, base, Chunks(raw)[..k])
            && (k == SectorsFor(|raw|) ==> d'[base..base + k] == Chunks(raw) && BlobAt(d', base, |raw|) == raw)
  {
    ApplyBlockPrefix(d, base, Chunks(raw), k);
    var d' := Apply(d, BlobWrites(base, raw)[..k]);
    RegistrySame(d, d');
    JournalSame(d, d');
    if k == SectorsFor(|raw|) {
      assert d'[base..base + k] == Chunks(raw);
      WrittenBlobReadsBack(d', base, raw);
    }
  }

  /** The commit sequence: the registry lands with write `slot / 4`, the journal goes empty with write 3. */
  lemma CommitBlock(d: Image, reg: Registry, slot: Slot, k: nat)
    requires ZeroTail(d) && OnlySlot(RegistryOf(d), reg, slot) && k <= 11
    ensures var d' := Apply(d, CommitWrites(reg)[..k]);
            && ZeroTail(d') && SameBlobs(d, d')
            && RegistryOf(d') == (if k <= slot / 4 then RegistryOf(d) else reg)
            && JournalOf(d') == (if k <= 3 then JournalOf(d) else Zeros(JOURNAL_SIZE))
  {
    hide RegistryOf, JournalOf, Marker, DecodeJournal, SectorsFor, OnlySlot, Chunks;
    var a := RegistryWrites(reg);
    var b := [Write(MARKER_SECTOR, Marker())];
    var c := ClearWrites();
    ApplyPrefix(d, a, b + c, k);
    if k <= 2 {
      RegistryBlock(d, reg, slot, k);
    } else {
      RegistryBlock(d, reg, slot, 2);
      assert a[..2] == a;
      var d1 := Apply(d, a);
      ApplyPrefix(d1, b, c, k - 2);
      assert b[..1] == b;
      var d2 := Apply(d1, b);
      assert d2 == d1[MARKER_SECTOR := Marker()] by {
        assert b[..0] == [];
        assert Apply(d1, b[..0]) == d1;
      }
      RegistrySame(d1, d2);
      JournalSame(d1, d2);
      if k > 3 {
        JournalBlock(d2, Zeros(JOURNAL_SIZE), k - 3);
      }
    }
  }

  lemma RecordStaysInFirstSector(env: Env, rec: JournalRecord)
    ensures ZeroBeyondFirst(EncodeJournal(env, rec))
  {
    var crc := env.crc(RecordImage(rec, 0));
    var raw := EncodeJournal(env, rec);
    forall i | SECTOR_SIZE <= i < JOURNAL_SIZE
      ensures raw[i] == 0
    {
      assert raw[i] == RecordByte(rec, crc, i);
    }
  }

  /** Writing a record: absent before the first write, and the decoded record from then on. */
  lemma RecordBlock(env: Env, d: Image, rec: JournalRecord, k: nat)
    requires ZeroTail(d) && k <= 8
    ensures var d' := Apply(d, RecordWrites(env, rec)[..k]);
            && ZeroTail(d') && RegistryOf(d') == RegistryOf(d) && SameBlobs(d, d')
            && Journal(env, d') == if k == 0 then Journal(env, d) else Valid(rec)
  {
    RecordStaysInFirstSector(env, rec);
    JournalBlock(d, EncodeJournal(env, rec), k);
    JournalRoundTrip(env, rec);
  }
}

/** How the store's code builds its images and its lists of writes step by step. */
module StoreSteps {
  import opened Bytes
  import opened Disk
  import opened StoreFormat
  import opened StoreWrites
  import opened StoreBlocks

  // --- Runs of writes -------------------------------------------------------------

  lemma NothingRan(d: Image, n: nat, ws: seq<Write>)
    ensures Ran(d, n, ws[..0], d, n, true)
  {
  }

  lemma RanAll(d: Image, n: nat, ws: seq<Write>, d': Image, n': nat, ok: bool)
    requires Ran(d, n, ws, d', n', ok)
    ensures ok ==> d' == Apply(d, ws)
  {
  }

  /** After a run that stopped nothing more is written. */
  lemma NothingLeft(d0: Image, n0: nat, a: seq<Write>, d: Image, n: nat, b: seq<Write>, d': Image, n': nat, ok: bool)
    requires Ran(d0, n0, a, d, n, false) && Ran(d, n, b, d', n', ok) && b != []
    ensures !ok && Ran(d0, n0, a, d', n', false)
  {
  }

  /** One more write of a list that has run up to `i`. */
  lemma RunStep(d0: Image, n0: nat, ws: seq<Write>, i: nat, d: Image, n: nat, d': Image, n': nat, ok: bool)
    requires i < |ws| && Ran(d0, n0, ws[..i], d, n, true) && Ran(d, n, [ws[i]], d', n', ok)
    ensures ok ==> Ran(d0, n0, ws[..i + 1], d', n', true)
    ensures !ok ==> Ran(d0, n0, ws, d', n', false)
  {
    RanThen(d0, n0, ws[..i], d, n, [ws[i]], d', n', ok);
    assert ws[..i] + [ws[i]] == ws[..i + 1];
    if !ok {
      RanStopped(d0, n0, ws[..i + 1], d', n', ws[i + 1..]);
      assert ws[..i + 1] + ws[i + 1..] == ws;
    }
  }

  /** One more block of a transaction that has run up to block `i`. */
  lemma BlockStep(env: Env, slot: Slot, bs: seq<Block>, i: nat, d0: Image, n0: nat, d: Image, n: nat, d': Image, n': nat, ok: bool)
    requires AllFit(bs) && i < |bs|
    requires Ran(d0, n0, Flat(env, slot, bs[..i]), d, n, true) && Ran(d, n, bs[i].Writes(env, slot), d', n', ok)
    ensures ok ==> Ran(d0, n0, Flat(env, slot, bs[..i + 1]), d', n', true)
    ensures !ok ==> Ran(d0, n0, Flat(env, slot, bs), d', n', false)
  {
    hide Ran;
    RanThen(d0, n0, Flat(env, slot, bs[..i]), d, n, bs[i].Writes(env, slot), d', n', ok);
    assert bs[..i + 1][..i] == bs[..i];
    if !ok {
      var rest := FlatPrefix(env, slot, bs, i + 1);
      RanStopped(d0, n0, Flat(env, slot, bs[..i + 1]), d', n', rest);
    }
  }

  lemma Associate(a: seq<Write>, b: seq<Write>, c: seq<Write>)
    ensures a + (b + c) == a + b + c
  {
  }

  lemma {:induction false} FlatPrefix(env: Env, slot: Slot, bs: seq<Block>, i: nat) returns (rest: seq<Write>)
    requires AllFit(bs) && i <= |bs|
    ensures Flat(env, slot, bs[..i]) + rest == Flat(env, slot, bs)
    decreases |bs|
  {
    hide RecordWrites, RegistryWrites, BlobWrites, CommitWrites;
    if i == |bs| {
      assert bs[..i] == bs;
      rest := [];
    } else {
      var n := |bs| - 1;
      var r := FlatPrefix(env, slot, bs[..n], i);
      assert bs[..n][..i] == bs[..i];
      rest := r + bs[n].Writes(env, slot);
      Associate(Flat(env, slot, bs[..i]), r, bs[n].Writes(env, slot));
    }
  }

  /** `d'` differs from `d` at most in the sectors from `lo` up to `hi`. */
  ghost predicate Framed(d: Image, d': Image, lo: nat, hi: nat) {
    lo <= hi <= DISK_SECTORS && d'[..lo] == d[..lo] && d'[hi..] == d[hi..]
  }

  lemma RanBlock(d: Image, n: nat, base: nat, ss: seq<Sector>, d': Image, n': nat, ok: bool)
    requires base + |ss| <= DISK_SECTORS && Ran(d, n, BlockWrites(base, ss), d', n', ok)
    ensures Framed(d, d', base, base + |ss|)
    ensures ok ==> d'[base..base + |ss|] == ss
  {
    var k := if ok then |ss| else n;
    ApplyBlockPrefix(d, base, ss, k);
    assert BlockWrites(base, ss)[..|ss|] == BlockWrites(base, ss);
    assert ss[..|ss|] == ss;
  }

  /** A completed commit leaves its registry on the disk. */
  lemma CommittedRegistry(d: Image, reg: Registry)
    ensures RegistryOf(Apply(d, CommitWrites(reg))) == reg
  {
    var ss, rest := Chunks(reg), [Write(MARKER_SECTOR, Marker())] + ClearWrites();
    ApplyConcat(d, RegistryWrites(reg), rest);
    ApplyBlock(d, REGISTRY_SECTOR, ss);
    var d1 := Splice(d, REGISTRY_SECTOR, ss);
    ChunksJoin(d1, REGISTRY_SECTOR, reg);
    hide Joined, Chunks, Marker;
    ApplyConcat(d1, [Write(MARKER_SECTOR, Marker())], ClearWrites());
    var d2 := Apply(d1, [Write(MARKER_SECTOR, Marker())]);
    assert d2 == d1[MARKER_SECTOR := Marker()];
    ApplyBlock(d2, JOURNAL_SECTOR, Chunks(Zeros(JOURNAL_SIZE)));
    RegistrySame(d1, Apply(d2, ClearWrites()));
  }

  // --- The journal image, field by field ----------------------------------------------

  /** `raw` with the bytes `s` from `off` on. */
  function Put(raw: seq<byte>, off: nat, s: seq<byte>): (r: seq<byte>)
    requires off + |s| <= |raw|
    ensures |r| == |raw|
  {
    raw[..off] + s + raw[off + |s|..]
  }

  /** `raw` is `goal` below `upTo` and still `was` from there on. */
  ghost predicate Built(raw: seq<byte>, goal: seq<byte>, was: seq<byte>, upTo: nat) {
    && upTo <= |raw| == |goal| == |was|
    && (forall i :: 0 <= i < upTo ==> raw[i] == goal[i])
    && (forall i :: upTo <= i < |raw| ==> raw[i] == was[i])
  }

  /** `goal` holds `s` from `off` on. */
  ghost predicate FieldAt(goal: seq<byte>, off: nat, s: seq<byte>) {
    off + |s| <= |goal| && forall i :: 0 <= i < |s| ==> goal[off + i] == s[i]
  }

  /** No field of `goal` lies between `lo` and `hi`. */
  ghost predicate Gap(goal: seq<byte>, was: seq<byte>, lo: nat, hi: nat) {
    lo <= hi <= |goal| == |was| && forall i :: lo <= i < hi ==> goal[i] == was[i]
  }

  /** Writing the next field. */
  lemma FieldStep(raw: seq<byte>, goal: seq<byte>, was: seq<byte>, upTo: nat, off: nat, s: seq<byte>)
    requires Built(raw, goal, was, upTo) && Gap(goal, was, upTo, off) && FieldAt(goal, off, s)
    ensures Built(Put(raw, off, s), goal, was, off + |s|)
  {
    var r := Put(raw, off, s);
    forall i | 0 <= i < off + |s|
      ensures r[i] == goal[i]
    {
      if i >= off {
        assert r[i] == s[i - off] && goal[off + (i - off)] == s[i - off];
      }
    }
  }

  lemma FieldsDone(raw: seq<byte>, goal: seq<byte>, was: seq<byte>, upTo: nat)
    requires Built(raw, goal, was, upTo) && Gap(goal, was, upTo, |goal|)
    ensures raw == goal
  {
  }

  // Where the fields of a journal record lie.

  lemma RecordLayout(rec: JournalRecord)
    ensures var goal, was := RecordImage(rec, 0), Zeros(JOURNAL_SIZE);
            && FieldAt(goal, 0, JOURNAL_MAGIC) && FieldAt(goal, 4, [JOURNAL_VERSION, rec.op, rec.phase]) && Gap(goal, was, 7, 8)
            && FieldAt(goal, 8, Le32(1)) && FieldAt(goal, 12, Le32(rec.slot)) && FieldAt(goal, 16, [rec.oldState, rec.newState])
            && Gap(goal, was, 18, 24) && FieldAt(goal, 24, Le32(rec.mcaps)) && FieldAt(goal, 28, Le32(rec.rawLen))
            && FieldAt(goal, 32, Le32(rec.rawCrc)) && FieldAt(goal, 36, Le32(rec.blobStart))
  {
  }

  lemma RecordLayoutRest(rec: JournalRecord)
    ensures var goal, was := RecordImage(rec, 0), Zeros(JOURNAL_SIZE);
            && FieldAt(goal, 40, Le32(rec.blobCount)) && FieldAt(goal, 44, Le32(rec.beforeCrc))
            && FieldAt(goal, 48, Le32(rec.afterCrc)) && Gap(goal, was, 52, 56)
            && FieldAt(goal, 56, [|rec.name|, |rec.version|]) && Gap(goal, was, 58, 64)
            && FieldAt(goal, 64, rec.name) && Gap(goal, was, 64 + |rec.name|, 88)
            && FieldAt(goal, 88, rec.version) && Gap(goal, was, 88 + |rec.version|, JOURNAL_SIZE)
  {
  }

  // Where the fields of a registry entry lie.

  lemma EntryLayout(slot: Slot, state: byte, m: Meta)
    ensures var goal, was := EncodeEntry(slot, state, m), Zeros(ENTRY_SIZE);
            && FieldAt(goal, 0, [state]) && FieldAt(goal, 1, REG_MAGIC) && FieldAt(goal, 5, [slot])
            && FieldAt(goal, 6, Le16(m.kind)) && FieldAt(goal, 8, Le32(m.mcaps)) && FieldAt(goal, 12, Le32(m.rawLen))
            && FieldAt(goal, 16, Le32(m.rawCrc)) && FieldAt(goal, 20, Le32(SlotBlobSector(slot)))
            && FieldAt(goal, 24, Le32(SLOT_SECTORS)) && Gap(goal, was, 28, 32)
            && FieldAt(goal, 32, [|m.name|, |m.version|]) && Gap(goal, was, 34, 40)
            && FieldAt(goal, 40, m.name) && Gap(goal, was, 40 + |m.name|, 64)
            && FieldAt(goal, 64, m.version) && Gap(goal, was, 64 + |m.version|, ENTRY_SIZE)
  {
  }

  lemma PreviousLayout(e: Entry, slot: Slot, m: Meta)
    ensures var goal := WithPrevious(e, slot, m);
            && Gap(goal, e, 0, 28) && FieldAt(goal, 28, Le32(SetPreviousValid(Flags(e)))) && Gap(goal, e, 32, 80)
            && FieldAt(goal, 80, [|m.version|]) && Gap(goal, e, 81, 82)
            && FieldAt(goal, 82, Le16(m.kind)) && FieldAt(goal, 84, Le32(m.mcaps)) && FieldAt(goal, 88, Le32(m.rawLen))
            && FieldAt(goal, 92, Le32(m.rawCrc)) && FieldAt(goal, 96, Le32(PreviousBlobSector(slot)))
            && FieldAt(goal, 100, Le32(SLOT_SECTORS)) && FieldAt(goal, 104, m.version + Zeros(VER_MAX - |m.version|))
            && Gap(goal, e, 116, ENTRY_SIZE)
  {
  }

  lemma SignedRecord(rec: JournalRecord, crc: u32)
    ensures Put(RecordImage(rec, 0), 52, Le32(crc)) == RecordImage(rec, crc)
  {
    var r := Put(RecordImage(rec, 0), 52, Le32(crc));
    forall i | 0 <= i < JOURNAL_SIZE
      ensures r[i] == RecordByte(rec, crc, i)
    {
    }
  }

  /** `copy_from_slice` into the next field of an image under construction. */
  method PutField(raw: seq<byte>, ghost goal: seq<byte>, ghost was: seq<byte>, ghost upTo: nat, off: nat, s: seq<byte>)
    returns (r: seq<byte>)
    requires Built(raw, goal, was, upTo) && FieldAt(goal, off, s) && (upTo == off || Gap(goal, was, upTo, off))
    ensures r == Put(raw, off, s) && Built(r, goal, was, off + |s|)
  {
    FieldStep(raw, goal, was, upTo, off, s);
    r := Put(raw, off, s);
  }

  /** `write_journal` fills in a record's image in ascending order, then signs it. */
  method BuildJournal(env: Env, rec: JournalRecord) returns (raw: seq<byte>)
    ensures raw == EncodeJournal(env, rec)
  {
    ghost var goal, was := RecordImage(rec, 0), Zeros(JOURNAL_SIZE);
    raw := Zeros(JOURNAL_SIZE);
    RecordLayout(rec);
    RecordLayoutRest(rec);
    assert Built(raw, goal, was, 0);
    hide RecordImage, FieldAt, Le32, Put, Built, Gap;
    raw := PutField(raw, goal, was, 0, 0, JOURNAL_MAGIC);
    raw := PutField(raw, goal, was, 4, 4, [JOURNAL_VERSION, rec.op, rec.phase]);
    raw := PutField(raw, goal, was, 7, 8, Le32(1));
    raw := PutField(raw, goal, was, 12, 12, Le32(rec.slot));
    raw := PutField(raw, goal, was, 16, 16, [rec.oldState, rec.newState]);
    raw := PutField(raw, goal, was, 18, 24, Le32(rec.mcaps));
    raw := PutField(raw, goal, was, 28, 28, Le32(rec.rawLen));
    raw := PutField(raw, goal, was, 32, 32, Le32(rec.rawCrc));
    raw := PutField(raw, goal, was, 36, 36, Le32(rec.blobStart));
    raw := PutField(raw, goal, was, 40, 40, Le32(rec.blobCount));
    raw := PutField(raw, goal, was, 44, 44, Le32(rec.beforeCrc));
    raw := PutField(raw, goal, was, 48, 48, Le32(rec.afterCrc));
    raw := PutField(raw, goal, was, 52, 56, [|rec.name|, |rec.version|]);
    raw := PutField(raw, goal, was, 58, 64, rec.name);
    raw := PutField(raw, goal, was, 64 + |rec.name|, 88, rec.version);
    FieldsDone(raw, goal, was, 88 + |rec.version|);
    var crc := env.crc(raw);
    raw := Put(raw, 52, Le32(crc));
    SignedRecord(rec, crc);
  }

  /** `encode_registry_entry` on the bytes of one entry. */
  method BuildEntry(slot: Slot, state: byte, m: Meta) returns (e: seq<byte>)
    ensures e == EncodeEntry(slot, state, m)
  {
    ghost var goal, was := EncodeEntry(slot, state, m), Zeros(ENTRY_SIZE);
    e := Zeros(ENTRY_SIZE);
    EntryLayout(slot, state, m);
    assert Built(e, goal, was, 0);
    hide EncodeEntry, FieldAt, Le32, Le16, Put, Built, Gap;
    e := PutField(e, goal, was, 0, 0, [state]);
    e := PutField(e, goal, was, 1, 1, REG_MAGIC);
    e := PutField(e, goal, was, 5, 5, [slot]);
    e := PutField(e, goal, was, 6, 6, Le16(m.kind));
    e := PutField(e, goal, was, 8, 8, Le32(m.mcaps));
    e := PutField(e, goal, was, 12, 12, Le32(m.rawLen));
    e := PutField(e, goal, was, 16, 16, Le32(m.rawCrc));
    e := PutField(e, goal, was, 20, 20, Le32(SlotBlobSector(slot)));
    e := PutField(e, goal, was, 24, 24, Le32(SLOT_SECTORS));
    e := PutField(e, goal, was, 28, 32, [|m.name|, |m.version|]);
    e := PutField(e, goal, was, 34, 40, m.name);
    e := PutField(e, goal, was, 40 + |m.name|, 64, m.version);
    FieldsDone(e, goal, was, 64 + |m.version|);
  }

  /** `encode_previous_metadata` on the bytes of one entry. */
  method BuildPrevious(e0: Entry, slot: Slot, m: Meta) returns (e: seq<byte>)
    ensures e == WithPrevious(e0, slot, m)
  {
    ghost var goal := WithPrevious(e0, slot, m);
    e := e0;
    PreviousLayout(e, slot, m);
    assert Built(e, goal, e0, 0);
    hide WithPrevious, FieldAt, Le32, Le16, Put, Built, Gap;
    e := PutField(e, goal, e0, 0, 28, Le32(SetPreviousValid(Flags(e0))));
    e := PutField(e, goal, e0, 32, 80, [|m.version|]);
    e := PutField(e, goal, e0, 81, 82, Le16(m.kind));
    e := PutField(e, goal, e0, 84, 84, Le32(m.mcaps));
    e := PutField(e, goal, e0, 88, 88, Le32(m.rawLen));
    e := PutField(e, goal, e0, 92, 92, Le32(m.rawCrc));
    e := PutField(e, goal, e0, 96, 96, Le32(PreviousBlobSector(slot)));
    e := PutField(e, goal, e0, 100, 100, Le32(SLOT_SECTORS));
    e := PutField(e, goal, e0, 104, 104, m.version + Zeros(VER_MAX - |m.version|));
    FieldsDone(e, goal, e0, 116);
  }
}

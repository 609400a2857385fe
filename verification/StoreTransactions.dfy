/** Install, update, remove and rollback: the disk at every crash point, in terms of what recovery looks at,
    namely the decoded journal, the registry and the three blob areas of the slot. */
module StoreTransactions {
  import opened Bytes
  import opened Disk
  import opened StoreFormat
  import opened StoreWrites
  import opened StoreBlocks

  const BLOB_SECTORS: nat := DISK_SECTORS - BLOB_FIRST_SECTOR

  type Areas = b: seq<Sector> | |b| == BLOB_SECTORS witness seq<Sector>(BLOB_SECTORS, _ => ZERO_SECTOR)

  /** The first `n` sectors of `raw`, written over what an area held. */
  datatype Part = Part(raw: seq<byte>, n: nat)
  {
    ghost predicate Fits() { |raw| <= MAX_RAW_BYTES && n <= SectorsFor(|raw|) }
  }

  datatype Snapshot = Snapshot(journal: JournalState, reg: Registry, stage: Part, previous: Part, active: Part)
  {
    ghost predicate Fits() { stage.Fits() && previous.Fits() && active.Fits() }
  }

  const NOTHING: Part := Part([], 0)

  ghost function PartOf(s: Snapshot, t: Target): Part {
    match t case Stage => s.stage case Previous => s.previous case Active => s.active
  }

  /** What the first `k` writes of a block do. */
  ghost function Effect(slot: Slot, b: Block, s: Snapshot, k: nat): Snapshot {
    match b
    case Note(rec) => if k == 0 then s else s.(journal := Valid(rec))
    case Reg(reg) => if k <= slot / 4 then s else s.(reg := reg)
    case Blob(target, raw) =>
      if k == 0 then s
      else (match target
            case Stage => s.(stage := Part(raw, k))
            case Previous => s.(previous := Part(raw, k))
            case Active => s.(active := Part(raw, k)))
    case Commit(reg) =>
      s.(journal := if k <= 3 then s.journal else Empty, reg := if k <= slot / 4 then s.reg else reg)
  }

  /** What the first `k` writes of a transaction do. */
  ghost function Run(slot: Slot, bs: seq<Block>, s: Snapshot, k: nat): Snapshot
    requires k <= TotalSize(bs)
  {
    if bs == [] then s
    else
      var front := bs[..|bs| - 1];
      var n := TotalSize(front);
      if k <= n then Run(slot, front, s, k) else Effect(slot, bs[|bs| - 1], Run(slot, front, s, n), k - n)
  }

  // --- The disk behind a snapshot ---------------------------------------------------------

  ghost function Patched(blobs: Areas, base: nat, ss: seq<Sector>): Areas
    requires BLOB_FIRST_SECTOR <= base && base + |ss| <= DISK_SECTORS
  {
    blobs[..base - BLOB_FIRST_SECTOR] + ss + blobs[base - BLOB_FIRST_SECTOR + |ss|..]
  }

  ghost function Overlaid(blobs: Areas, t: Target, slot: Slot, p: Part): Areas
    requires p.Fits()
  {
    Patched(blobs, TargetSector(t, slot), Chunks(p.raw)[..p.n])
  }

  ghost function AreasOf(d0: Image, slot: Slot, s: Snapshot): Areas
    requires s.Fits()
  {
    Overlaid(Overlaid(Overlaid(d0[BLOB_FIRST_SECTOR..], Stage, slot, s.stage), Previous, slot, s.previous), Active, slot, s.active)
  }

  /** `d` is `d0` with the journal, registry and blob areas of `s`. */
  ghost predicate Shows(env: Env, d0: Image, slot: Slot, s: Snapshot, d: Image) {
    && s.Fits()
    && ZeroTail(d)
    && Journal(env, d) == s.journal
    && RegistryOf(d) == s.reg
    && d[BLOB_FIRST_SECTOR..] == AreasOf(d0, slot, s)
  }

  lemma PatchIsSplice(d: Image, base: nat, ss: seq<Sector>)
    requires BLOB_FIRST_SECTOR <= base && base + |ss| <= DISK_SECTORS
    ensures Splice(d, base, ss)[BLOB_FIRST_SECTOR..] == Patched(d[BLOB_FIRST_SECTOR..], base, ss)
  {
  }

  lemma NoOverlay(blobs: Areas, t: Target, slot: Slot)
    ensures Overlaid(blobs, t, slot, NOTHING) == blobs
  {
    assert Chunks([])[..0] == [];
  }

  lemma PatchCommutes(blobs: Areas, a: nat, ss: seq<Sector>, b: nat, tt: seq<Sector>)
    requires BLOB_FIRST_SECTOR <= a && a + |ss| <= DISK_SECTORS && BLOB_FIRST_SECTOR <= b && b + |tt| <= DISK_SECTORS
    requires a + |ss| <= b || b + |tt| <= a
    ensures Patched(Patched(blobs, a, ss), b, tt) == Patched(Patched(blobs, b, tt), a, ss)
  {
  }

  /** Areas of different targets do not overlap. */
  lemma OverlayCommutes(blobs: Areas, t: Target, u: Target, slot: Slot, p: Part, q: Part)
    requires p.Fits() && q.Fits() && t != u
    ensures Overlaid(Overlaid(blobs, t, slot, p), u, slot, q) == Overlaid(Overlaid(blobs, u, slot, q), t, slot, p)
  {
    PatchCommutes(blobs, TargetSector(t, slot), Chunks(p.raw)[..p.n], TargetSector(u, slot), Chunks(q.raw)[..q.n]);
  }

  /** Writing part of a blob over an area nothing was written to yet. */
  lemma OverlayOnce(d0: Image, slot: Slot, s: Snapshot, t: Target, p: Part)
    requires s.Fits() && p.Fits()
    requires PartOf(s, t) == NOTHING
    ensures Overlaid(AreasOf(d0, slot, s), t, slot, p)
         == AreasOf(d0, slot, match t { case Stage => s.(stage := p) case Previous => s.(previous := p) case Active => s.(active := p) })
  {
    var b0 := d0[BLOB_FIRST_SECTOR..];
    var b1 := Overlaid(b0, Stage, slot, s.stage);
    var b2 := Overlaid(b1, Previous, slot, s.previous);
    match t
    case Active =>
      NoOverlay(b2, Active, slot);
    case Previous =>
      NoOverlay(b1, Previous, slot);
      OverlayCommutes(b1, Active, Previous, slot, s.active, p);
    case Stage =>
      NoOverlay(b0, Stage, slot);
      OverlayCommutes(b2, Active, Stage, slot, s.active, p);
      OverlayCommutes(b0, Previous, Stage, slot, s.previous, p);
  }

  /** A block of this slot: its registry image differs from `reg` in the slot only,
      and its blob goes to an area nothing was written to yet. */
  ghost predicate Legal(slot: Slot, b: Block, s: Snapshot, reg: Registry) {
    match b
    case Note(rec) => true
    case Reg(r) => OnlySlot(reg, r, slot)
    case Commit(r) => OnlySlot(reg, r, slot)
    case Blob(t, _) => PartOf(s, t) == NOTHING
  }

  /** One block, cut anywhere. */
  lemma BlockShows(env: Env, d0: Image, slot: Slot, s: Snapshot, d: Image, b: Block, k: nat)
    requires Shows(env, d0, slot, s, d) && b.Fits() && k <= b.Size()
    requires OnlySlot(RegistryOf(d0), s.reg, slot) && Legal(slot, b, s, RegistryOf(d0))
    ensures Shows(env, d0, slot, Effect(slot, b, s, k), Apply(d, b.Writes(env, slot)[..k]))
    ensures OnlySlot(RegistryOf(d0), Effect(slot, b, s, k).reg, slot)
  {
    hide DecodeJournal, RegistryOf, JournalOf, Apply;
    match b
    case Note(rec) => RecordBlock(env, d, rec, k);
    case Reg(reg) => RegistryBlock(d, reg, slot, k);
    case Blob(t, raw) => BlobShows(env, d0, slot, s, d, t, raw, k);
    case Commit(reg) =>
      CommitBlock(d, reg, slot, k);
      BlankJournalIsEmpty(env);
  }

  lemma BlobShows(env: Env, d0: Image, slot: Slot, s: Snapshot, d: Image, t: Target, raw: seq<byte>, k: nat)
    requires Shows(env, d0, slot, s, d) && |raw| <= MAX_RAW_BYTES && k <= SectorsFor(|raw|)
    requires Legal(slot, Blob(t, raw), s, RegistryOf(d0))
    ensures Shows(env, d0, slot, Effect(slot, Blob(t, raw), s, k), Apply(d, BlobWrites(TargetSector(t, slot), raw)[..k]))
  {
    var ws := BlobWrites(TargetSector(t, slot), raw);
    if k == 0 {
      assert ws[..0] == [];
    } else {
      BlobBlock(d, TargetSector(t, slot), raw, k);
      PatchIsSplice(d, TargetSector(t, slot), Chunks(raw)[..k]);
      OverlayOnce(d0, slot, s, t, Part(raw, k));
    }
  }

  /** Registry images differ from `reg` in the slot only, and no area is written twice. */
  ghost predicate LegalList(slot: Slot, bs: seq<Block>, reg: Registry) {
    && (forall i :: 0 <= i < |bs| ==> bs[i].Fits())
    && (forall i :: 0 <= i < |bs| && (bs[i].Reg? || bs[i].Commit?) ==> OnlySlot(reg, bs[i].reg, slot))
    && (forall i, j :: 0 <= i < j < |bs| && bs[i].Blob? && bs[j].Blob? ==> bs[i].target != bs[j].target)
  }

  /** An area no block writes to keeps its part. */
  lemma {:induction false} UntargetedStays(slot: Slot, bs: seq<Block>, s: Snapshot, k: nat, t: Target)
    requires k <= TotalSize(bs) && forall i :: 0 <= i < |bs| && bs[i].Blob? ==> bs[i].target != t
    ensures PartOf(Run(slot, bs, s, k), t) == PartOf(s, t)
    decreases |bs|
  {
    if bs != [] {
      var front := bs[..|bs| - 1];
      var n := TotalSize(front);
      UntargetedStays(slot, front, s, if k <= n then k else n, t);
    }
  }

  /** A whole transaction, cut anywhere: the disk shows exactly what `Run` says. */
  lemma {:induction false} RunShows(env: Env, d0: Image, slot: Slot, bs: seq<Block>, k: nat)
    requires ZeroTail(d0) && k <= TotalSize(bs)
    requires LegalList(slot, bs, RegistryOf(d0))
    ensures AllFit(bs) && Shows(env, d0, slot, Run(slot, bs, Start(env, d0), k), Apply(d0, Flat(env, slot, bs)[..k]))
    ensures OnlySlot(RegistryOf(d0), Run(slot, bs, Start(env, d0), k).reg, slot)
    decreases |bs|
  {
    hide AreasOf, DecodeJournal, RegistryOf, JournalOf, Effect, ZeroTail, SectorsFor, Chunks, Shows, OnlySlot, Apply, Block.Writes, Start;
    var s := Start(env, d0);
    StartShows(env, d0, slot);
    if bs == [] {
      assert Flat(env, slot, bs)[..k] == [];
    } else {
      var front, b := bs[..|bs| - 1], bs[|bs| - 1];
      var n := TotalSize(front);
      RunShows(env, d0, slot, front, if k <= n then k else n);
      ApplyPrefix(d0, Flat(env, slot, front), b.Writes(env, slot), k);
      if k > n {
        assert Flat(env, slot, front)[..n] == Flat(env, slot, front);
        if b.Blob? {
          UntargetedStays(slot, front, s, n, b.target);
        }
        BlockShows(env, d0, slot, Run(slot, front, s, n), Apply(d0, Flat(env, slot, front)), b, k - n);
      }
    }
  }

  ghost function Start(env: Env, d0: Image): Snapshot {
    Snapshot(Journal(env, d0), RegistryOf(d0), NOTHING, NOTHING, NOTHING)
  }

  lemma StartShows(env: Env, d0: Image, slot: Slot)
    requires ZeroTail(d0)
    ensures Shows(env, d0, slot, Start(env, d0), Apply(d0, []))
    ensures OnlySlot(RegistryOf(d0), Start(env, d0).reg, slot) && forall t :: PartOf(Start(env, d0), t) == NOTHING
  {
    var b0 := d0[BLOB_FIRST_SECTOR..];
    NoOverlay(b0, Stage, slot);
    NoOverlay(b0, Previous, slot);
    NoOverlay(b0, Active, slot);
  }

  // --- Closed forms -----------------------------------------------------------------

  /** The state a transaction has reached after its first `i` blocks. */
  ghost function Reached(slot: Slot, bs: seq<Block>, s: Snapshot, i: nat): Snapshot
    requires i <= |bs|
  {
    Run(slot, bs[..i], s, TotalSize(bs[..i]))
  }

  lemma ReachedNext(slot: Slot, bs: seq<Block>, s: Snapshot, i: nat)
    requires i < |bs|
    ensures Reached(slot, bs, s, 0) == s && TotalSize(bs[..0]) == 0
    ensures TotalSize(bs[..i + 1]) == TotalSize(bs[..i]) + bs[i].Size()
    ensures Reached(slot, bs, s, i + 1) == Effect(slot, bs[i], Reached(slot, bs, s, i), bs[i].Size())
  {
    assert bs[..0] == [];
    assert bs[..i + 1][..i] == bs[..i];
  }

  /** A cut inside block `i` sees what the blocks before it reached, and part of block `i`. */
  lemma {:induction false} RunInside(slot: Slot, bs: seq<Block>, s: Snapshot, i: nat, k: nat)
    requires i < |bs| && TotalSize(bs[..i]) <= k <= TotalSize(bs[..i]) + bs[i].Size()
    ensures k <= TotalSize(bs) && Run(slot, bs, s, k) == Effect(slot, bs[i], Reached(slot, bs, s, i), k - TotalSize(bs[..i]))
    decreases |bs|
  {
    ReachedNext(slot, bs, s, i);
    if i + 1 == |bs| {
      assert bs[..i + 1] == bs;
    } else {
      var front := bs[..|bs| - 1];
      assert front[..i] == bs[..i] && front[..i + 1] == bs[..i + 1];
      RunInside(slot, front, s, i, k);
    }
  }

  /** How many of `n` writes starting at write `from` are among the first `k`. */
  ghost function Landed(k: nat, from: nat, n: nat): nat {
    if k <= from then 0 else if k <= from + n then k - from else n
  }

  ghost function LandedPart(raw: seq<byte>, k: nat, from: nat): Part {
    if k <= from || SectorsFor(|raw|) == 0 then NOTHING else Part(raw, Landed(k, from, SectorsFor(|raw|)))
  }

  /** An install after its first `k` writes. */
  ghost function InstallAt(slot: Slot, s: Snapshot, r1: JournalRecord, raw: seq<byte>, r2: JournalRecord, r3: JournalRecord,
                           pending: Registry, active: Registry, k: nat): Snapshot {
    var n, r := SectorsFor(|raw|), slot / 4;
    s.(journal := if k == 0 then s.journal else if k <= 8 + n then Valid(r1) else if k <= 16 + n then Valid(r2)
                  else if k <= 29 + n then Valid(r3) else Empty,
       reg := if k <= 24 + n + r then s.reg else if k <= 26 + n + r then pending else active,
       active := LandedPart(raw, k, 8))
  }

  ghost function InstallList(r1: JournalRecord, raw: seq<byte>, r2: JournalRecord, r3: JournalRecord,
                             pending: Registry, active: Registry): seq<Block> {
    [Note(r1), Blob(Active, raw), Note(r2), Note(r3), Reg(pending), Commit(active)]
  }

  lemma InstallReached(slot: Slot, s: Snapshot, r1: JournalRecord, raw: seq<byte>, r2: JournalRecord, r3: JournalRecord,
                       pending: Registry, active: Registry)
    requires s.active == NOTHING
    ensures var bs, n := InstallList(r1, raw, r2, r3, pending, active), SectorsFor(|raw|);
            var s2 := s.(active := if n == 0 then NOTHING else Part(raw, n));
            && TotalSize(bs[..0]) == 0 && Reached(slot, bs, s, 0) == s
            && TotalSize(bs[..1]) == 8 && Reached(slot, bs, s, 1) == s.(journal := Valid(r1))
            && TotalSize(bs[..2]) == 8 + n && Reached(slot, bs, s, 2) == s2.(journal := Valid(r1))
            && TotalSize(bs[..3]) == 16 + n && Reached(slot, bs, s, 3) == s2.(journal := Valid(r2))
            && TotalSize(bs[..4]) == 24 + n && Reached(slot, bs, s, 4) == s2.(journal := Valid(r3))
            && TotalSize(bs[..5]) == 26 + n && Reached(slot, bs, s, 5) == s2.(journal := Valid(r3), reg := pending)
            && TotalSize(bs) == 37 + n
  {
    hide SectorsFor, Run;
    var bs := InstallList(r1, raw, r2, r3, pending, active);
    ReachedNext(slot, bs, s, 0);
    ReachedNext(slot, bs, s, 1);
    ReachedNext(slot, bs, s, 2);
    ReachedNext(slot, bs, s, 3);
    ReachedNext(slot, bs, s, 4);
    ReachedNext(slot, bs, s, 5);
    assert bs[..6] == bs;
  }

  lemma InstallRun(slot: Slot, s: Snapshot, r1: JournalRecord, raw: seq<byte>, r2: JournalRecord, r3: JournalRecord,
                   pending: Registry, active: Registry, k: nat)
    requires k <= 37 + SectorsFor(|raw|) && s.active == NOTHING
    ensures var bs := InstallList(r1, raw, r2, r3, pending, active);
            && TotalSize(bs) == 37 + SectorsFor(|raw|)
            && Run(slot, bs, s, k) == InstallAt(slot, s, r1, raw, r2, r3, pending, active, k)
  {
    hide SectorsFor, Run, TotalSize, Reached;
    var n := SectorsFor(|raw|);
    var bs := InstallList(r1, raw, r2, r3, pending, active);
    InstallReached(slot, s, r1, raw, r2, r3, pending, active);
    if k <= 8 {
      RunInside(slot, bs, s, 0, k);
    } else if k <= 8 + n {
      RunInside(slot, bs, s, 1, k);
    } else if k <= 16 + n {
      RunInside(slot, bs, s, 2, k);
    } else if k <= 24 + n {
      RunInside(slot, bs, s, 3, k);
    } else if k <= 26 + n {
      RunInside(slot, bs, s, 4, k);
    } else {
      RunInside(slot, bs, s, 5, k);
    }
  }

  ghost function UpdateList(r1: JournalRecord, raw: seq<byte>, r2: JournalRecord, kept: seq<byte>, r3: JournalRecord,
                            pending: Registry, active: Registry): seq<Block> {
    [Note(r1), Blob(Stage, raw), Note(r2), Blob(Previous, kept), Note(r3), Reg(pending), Blob(Active, raw), Commit(active)]
  }

  /** An update after its first `k` writes. */
  ghost function UpdateAt(slot: Slot, s: Snapshot, r1: JournalRecord, raw: seq<byte>, r2: JournalRecord, kept: seq<byte>,
                          r3: JournalRecord, pending: Registry, active: Registry, k: nat): Snapshot {
    var n, p, r := SectorsFor(|raw|), SectorsFor(|kept|), slot / 4;
    Snapshot(
      if k == 0 then s.journal else if k <= 8 + n then Valid(r1) else if k <= 16 + n + p then Valid(r2)
      else if k <= 29 + 2 * n + p then Valid(r3) else Empty,
      if k <= 24 + n + p + r then s.reg else if k <= 26 + 2 * n + p + r then pending else active,
      LandedPart(raw, k, 8), LandedPart(kept, k, 16 + n), LandedPart(raw, k, 26 + n + p))
  }

  ghost predicate Untried(s: Snapshot) {
    s.stage == NOTHING && s.previous == NOTHING && s.active == NOTHING
  }

  /** Two stretches of a transaction, one after the other. */
  lemma {:induction false} RunConcat(slot: Slot, a: seq<Block>, b: seq<Block>, s: Snapshot, k: nat)
    requires k <= TotalSize(a) + TotalSize(b)
    ensures TotalSize(a + b) == TotalSize(a) + TotalSize(b)
    ensures Run(slot, a + b, s, k)
         == if k <= TotalSize(a) then Run(slot, a, s, k) else Run(slot, b, Run(slot, a, s, TotalSize(a)), k - TotalSize(a))
    decreases |b|
  {
    hide Effect;
    if b == [] {
      assert a + b == a;
    } else {
      var front := b[..|b| - 1];
      assert (a + b)[..|a + b| - 1] == a + front;
      var n := TotalSize(front);
      RunConcat(slot, a, front, s, if k <= TotalSize(a) + n then k else TotalSize(a) + n);
      if k > TotalSize(a) + n && n == 0 {
        RunNothing(slot, front, Run(slot, a, s, TotalSize(a)));
      }
    }
  }

  lemma {:induction false} RunNothing(slot: Slot, bs: seq<Block>, s: Snapshot)
    ensures Run(slot, bs, s, 0) == s
    decreases |bs|
  {
    if bs != [] {
      RunNothing(slot, bs[..|bs| - 1], s);
    }
  }

  lemma StageRun(slot: Slot, s: Snapshot, r1: JournalRecord, raw: seq<byte>, r2: JournalRecord, k: nat)
    requires s.stage == NOTHING && k <= 16 + SectorsFor(|raw|)
    ensures var bs, n := [Note(r1), Blob(Stage, raw), Note(r2)], SectorsFor(|raw|);
            && TotalSize(bs) == 16 + n
            && Run(slot, bs, s, k) == s.(journal := if k == 0 then s.journal else if k <= 8 + n then Valid(r1) else Valid(r2),
                                         stage := LandedPart(raw, k, 8))
  {
    hide SectorsFor, Run;
    var bs, n := [Note(r1), Blob(Stage, raw), Note(r2)], SectorsFor(|raw|);
    ReachedNext(slot, bs, s, 0);
    ReachedNext(slot, bs, s, 1);
    ReachedNext(slot, bs, s, 2);
    assert bs[..3] == bs;
    if k <= 8 {
      RunInside(slot, bs, s, 0, k);
    } else if k <= 8 + n {
      RunInside(slot, bs, s, 1, k);
    } else {
      RunInside(slot, bs, s, 2, k);
    }
  }

  lemma KeepRun(slot: Slot, s: Snapshot, kept: seq<byte>, r3: JournalRecord, k: nat)
    requires s.previous == NOTHING && k <= 8 + SectorsFor(|kept|)
    ensures var bs, p := [Blob(Previous, kept), Note(r3)], SectorsFor(|kept|);
            && TotalSize(bs) == 8 + p
            && Run(slot, bs, s, k) == s.(journal := if k <= p then s.journal else Valid(r3), previous := LandedPart(kept, k, 0))
  {
    hide SectorsFor, Run;
    var bs, p := [Blob(Previous, kept), Note(r3)], SectorsFor(|kept|);
    ReachedNext(slot, bs, s, 0);
    ReachedNext(slot, bs, s, 1);
    assert bs[..2] == bs;
    if k <= p {
      RunInside(slot, bs, s, 0, k);
    } else {
      RunInside(slot, bs, s, 1, k);
    }
  }

  lemma PromoteRun(slot: Slot, s: Snapshot, pending: Registry, raw: seq<byte>, active: Registry, k: nat)
    requires s.active == NOTHING && k <= 13 + SectorsFor(|raw|)
    ensures var bs, n, r := [Reg(pending), Blob(Active, raw), Commit(active)], SectorsFor(|raw|), slot / 4;
            && TotalSize(bs) == 13 + n
            && Run(slot, bs, s, k) == s.(journal := if k <= 5 + n then s.journal else Empty,
                                         reg := if k <= r then s.reg else if k <= 2 + n + r then pending else active,
                                         active := LandedPart(raw, k, 2))
  {
    hide SectorsFor, Run;
    var bs, n := [Reg(pending), Blob(Active, raw), Commit(active)], SectorsFor(|raw|);
    ReachedNext(slot, bs, s, 0);
    ReachedNext(slot, bs, s, 1);
    ReachedNext(slot, bs, s, 2);
    assert bs[..3] == bs;
    if k <= 2 {
      RunInside(slot, bs, s, 0, k);
    } else if k <= 2 + n {
      RunInside(slot, bs, s, 1, k);
    } else {
      RunInside(slot, bs, s, 2, k);
    }
  }

  lemma StageKeepRun(slot: Slot, s: Snapshot, r1: JournalRecord, raw: seq<byte>, r2: JournalRecord, kept: seq<byte>,
                     r3: JournalRecord, k: nat)
    requires Untried(s) && k <= 24 + SectorsFor(|raw|) + SectorsFor(|kept|)
    ensures var bs := [Note(r1), Blob(Stage, raw), Note(r2)] + [Blob(Previous, kept), Note(r3)];
            var n, p := SectorsFor(|raw|), SectorsFor(|kept|);
            && TotalSize(bs) == 24 + n + p
            && Run(slot, bs, s, k) == s.(journal := if k == 0 then s.journal else if k <= 8 + n then Valid(r1)
                                                    else if k <= 16 + n + p then Valid(r2) else Valid(r3),
                                         stage := LandedPart(raw, k, 8), previous := LandedPart(kept, k, 16 + n))
  {
    hide SectorsFor, Run, TotalSize;
    var n := 16 + SectorsFor(|raw|);
    var a, b := [Note(r1), Blob(Stage, raw), Note(r2)], [Blob(Previous, kept), Note(r3)];
    StageRun(slot, s, r1, raw, r2, if k <= n then k else n);
    var s1 := Run(slot, a, s, TotalSize(a));
    StageRun(slot, s, r1, raw, r2, n);
    KeepRun(slot, s1, kept, r3, if k <= n then 0 else k - n);
    RunConcat(slot, a, b, s, k);
  }

  lemma UpdateRun(slot: Slot, s: Snapshot, r1: JournalRecord, raw: seq<byte>, r2: JournalRecord, kept: seq<byte>,
                  r3: JournalRecord, pending: Registry, active: Registry, k: nat)
    requires Untried(s) && k <= 37 + 2 * SectorsFor(|raw|) + SectorsFor(|kept|)
    ensures var bs := UpdateList(r1, raw, r2, kept, r3, pending, active);
            && TotalSize(bs) == 37 + 2 * SectorsFor(|raw|) + SectorsFor(|kept|)
            && Run(slot, bs, s, k) == UpdateAt(slot, s, r1, raw, r2, kept, r3, pending, active, k)
  {
    hide SectorsFor, Run, TotalSize;
    var n := 24 + SectorsFor(|raw|) + SectorsFor(|kept|);
    var a := [Note(r1), Blob(Stage, raw), Note(r2)] + [Blob(Previous, kept), Note(r3)];
    var b := [Reg(pending), Blob(Active, raw), Commit(active)];
    StageKeepRun(slot, s, r1, raw, r2, kept, r3, if k <= n then k else n);
    StageKeepRun(slot, s, r1, raw, r2, kept, r3, n);
    PromoteRun(slot, Run(slot, a, s, n), pending, raw, active, if k <= n then 0 else k - n);
    RunConcat(slot, a, b, s, k);
    assert UpdateList(r1, raw, r2, kept, r3, pending, active) == a + b;
  }

  /** A remove after its first `k` writes. */
  ghost function RemoveAt(slot: Slot, s: Snapshot, rec: JournalRecord, pending: Registry, removed: Registry, k: nat): Snapshot {
    var r := slot / 4;
    s.(journal := if k == 0 then s.journal else if k <= 13 then Valid(rec) else Empty,
       reg := if k <= 8 + r then s.reg else if k <= 10 + r then pending else removed)
  }

  lemma RemoveRun(slot: Slot, s: Snapshot, rec: JournalRecord, pending: Registry, removed: Registry, k: nat)
    requires k <= 21
    ensures var bs := [Note(rec), Reg(pending), Commit(removed)];
            TotalSize(bs) == 21 && Run(slot, bs, s, k) == RemoveAt(slot, s, rec, pending, removed, k)
  {
    hide Run;
    var bs := [Note(rec), Reg(pending), Commit(removed)];
    ReachedNext(slot, bs, s, 0);
    ReachedNext(slot, bs, s, 1);
    ReachedNext(slot, bs, s, 2);
    assert bs[..3] == bs;
    if k <= 8 {
      RunInside(slot, bs, s, 0, k);
    } else if k <= 10 {
      RunInside(slot, bs, s, 1, k);
    } else {
      RunInside(slot, bs, s, 2, k);
    }
  }

  ghost function RollbackList(rec: JournalRecord, pending: Registry, prev: seq<byte>, active: Registry): seq<Block> {
    [Note(rec), Reg(pending), Blob(Active, prev), Commit(active)]
  }

  /** A rollback after its first `k` writes. */
  ghost function RollbackAt(slot: Slot, s: Snapshot, rec: JournalRecord, pending: Registry, prev: seq<byte>, active: Registry,
                            k: nat): Snapshot {
    var p, r := SectorsFor(|prev|), slot / 4;
    s.(journal := if k == 0 then s.journal else if k <= 13 + p then Valid(rec) else Empty,
       reg := if k <= 8 + r then s.reg else if k <= 10 + p + r then pending else active,
       active := LandedPart(prev, k, 10))
  }

  lemma RollbackRun(slot: Slot, s: Snapshot, rec: JournalRecord, pending: Registry, prev: seq<byte>, active: Registry, k: nat)
    requires s.active == NOTHING && k <= 21 + SectorsFor(|prev|)
    ensures var bs := RollbackList(rec, pending, prev, active);
            TotalSize(bs) == 21 + SectorsFor(|prev|) && Run(slot, bs, s, k) == RollbackAt(slot, s, rec, pending, prev, active, k)
  {
    hide SectorsFor, Run, TotalSize;
    var a, b := [Note(rec)], [Reg(pending), Blob(Active, prev), Commit(active)];
    ReachedNext(slot, a, s, 0);
    assert a[..1] == a;
    RunInside(slot, a, s, 0, if k <= 8 then k else 8);
    PromoteRun(slot, Run(slot, a, s, 8), pending, prev, active, if k <= 8 then 0 else k - 8);
    RunConcat(slot, a, b, s, k);
    assert RollbackList(rec, pending, prev, active) == a + b;
  }
}

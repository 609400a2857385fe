/** Which registry slots the loader accepts, and where it puts their payloads. */
module StoreLoading {
  import opened Bytes
  import opened Disk
  import opened StoreFormat
  import opened StoreWrites
  import opened StoreBlocks
  import opened StoreRecovery
  import opened StoreSteps

  const ARENA_SIZE: nat := 131072

  /** A slot of the runtime table; the payload is `arena[off..off + len]`. */
  datatype Runtime =
    | Unused
    | Used(slot: Slot, name: seq<byte>, version: seq<byte>, kind: u16, mcaps: u32, rawLen: u32, rawCrc: u32, off: nat, len: nat)

  function NoPackages(): seq<Runtime> {
    seq(MAX_PKGS, _ => Unused)
  }

  /** What the loader learns of an active slot whose blob passes every check. */
  function Accepted(env: Env, d: Image, reg: Registry, slot: Slot): Option<Info> {
    var e := EntryOf(reg, slot);
    if e[0] != STATE_ACTIVE || e[1..5] != REG_MAGIC || RawLen(e) == 0 || RawLen(e) > MAX_RAW_BYTES then None
    else
      var raw := BlobAt(d, SlotBlobSector(slot), RawLen(e));
      if env.crc(raw) != RawCrc(e) then None
      else
        match env.inspect(raw)
        case None => None
        case Some(info) => if |info.name| > NAME_MAX || |info.version| > VER_MAX then None else Some(info)
  }

  /** `Accepted` is the loader's reading of `Loadable`. */
  lemma AcceptedIsLoadable(env: Env, d: Image, slot: Slot)
    ensures Accepted(env, d, RegistryOf(d), slot).Some? <==>
              StateOf(RegistryOf(d), slot) == STATE_ACTIVE && Loadable(env, d, slot)
  {
    hide RegistryOf, BlobAt;
    StateIsFirstByte(RegistryOf(d), slot);
  }

  /** Arena bytes in use once the first `k` slots have been loaded. */
  function ArenaAfter(env: Env, d: Image, reg: Registry, k: nat): (n: nat)
    requires k <= MAX_PKGS
    ensures n <= ARENA_SIZE
    decreases k, 0
  {
    if k == 0 then 0
    else
      ArenaAfter(env, d, reg, k - 1)
      + if Keeps(env, d, reg, k - 1) then |Accepted(env, d, reg, k - 1).value.payload| else 0
  }

  /** The slot is accepted and its payload still fits. */
  predicate Keeps(env: Env, d: Image, reg: Registry, slot: Slot)
    decreases slot, 1
  {
    && Accepted(env, d, reg, slot).Some?
    && ArenaAfter(env, d, reg, slot) + |Accepted(env, d, reg, slot).value.payload| <= ARENA_SIZE
  }

  function RuntimeOf(reg: Registry, slot: Slot, info: Info, off: nat): Runtime {
    var e := EntryOf(reg, slot);
    Used(slot, info.name, info.version, info.kind, info.mcaps, RawLen(e), RawCrc(e), off, |info.payload|)
  }

  function RuntimeAt(env: Env, d: Image, reg: Registry, slot: Slot): Runtime {
    if Keeps(env, d, reg, slot)
    then RuntimeOf(reg, slot, Accepted(env, d, reg, slot).value, ArenaAfter(env, d, reg, slot))
    else Unused
  }

  /** The registry once the first `k` slots have been loaded: an active slot that was not kept is corrupt. */
  function Swept(env: Env, d: Image, reg: Registry, k: nat): Registry
    requires k <= MAX_PKGS
  {
    if k == 0 then reg
    else
      var r := Swept(env, d, reg, k - 1);
      if StateOf(reg, k - 1) == STATE_ACTIVE && !Keeps(env, d, reg, k - 1) then WithState(r, k - 1, STATE_CORRUPT) else r
  }

  /** Sweeping changes nothing but the state of the slots swept. */
  lemma {:induction false} SweptEntries(env: Env, d: Image, reg: Registry, k: nat, slot: Slot)
    requires k <= MAX_PKGS
    ensures EntryOf(Swept(env, d, reg, k), slot) ==
            if slot < k && StateOf(reg, slot) == STATE_ACTIVE && !Keeps(env, d, reg, slot)
            then EntryOf(reg, slot)[0 := STATE_CORRUPT] else EntryOf(reg, slot)
  {
    hide Keeps;
    if k > 0 {
      SweptEntries(env, d, reg, k - 1, slot);
      StateElsewhere(Swept(env, d, reg, k - 1), k - 1, STATE_CORRUPT, slot);
    }
  }

  lemma StateElsewhere(reg: Registry, s: Slot, state: byte, slot: Slot)
    ensures EntryOf(WithState(reg, s, state), slot) ==
            if slot == s then EntryOf(reg, slot)[0 := state] else EntryOf(reg, slot)
  {
  }

  /** Payloads lie one after the other in slot order. */
  lemma {:induction false} ArenaGrows(env: Env, d: Image, reg: Registry, i: nat, k: nat)
    requires i <= k <= MAX_PKGS
    ensures ArenaAfter(env, d, reg, i) <= ArenaAfter(env, d, reg, k)
    decreases k
  {
    hide Accepted;
    if i < k {
      ArenaGrows(env, d, reg, i, k - 1);
    }
  }

  /** The loader reads only the entry and the blob. */
  lemma AcceptedSame(env: Env, d: Image, reg: Registry, d': Image, reg': Registry, slot: Slot)
    requires SameBlobs(d, d') && EntryOf(reg, slot) == EntryOf(reg', slot)
    ensures Accepted(env, d, reg, slot) == Accepted(env, d', reg', slot)
  {
    hide EntryOf;
    if RawLen(EntryOf(reg, slot)) <= MAX_RAW_BYTES {
      SameBlobsAt(d, d', SlotBlobSector(slot), RawLen(EntryOf(reg, slot)));
    }
  }

  // --- The runtime table -------------------------------------------------------------

  /** A table entry says of `slot` what its registry entry says of the blob and what the blob, read back from the slot's
      active area, says of itself; the payload is in the arena. */
  ghost predicate Describes(env: Env, d: Image, reg: Registry, pkg: Runtime, arena: seq<byte>, slot: Slot) {
    var e := EntryOf(reg, slot);
    && pkg.Used? && pkg.slot == slot && pkg.rawLen == RawLen(e) && pkg.rawCrc == RawCrc(e) && 0 < RawLen(e) <= MAX_RAW_BYTES
    && var raw := BlobAt(d, SlotBlobSector(slot), RawLen(e));
       && env.crc(raw) == pkg.rawCrc && env.inspect(raw).Some?
       && var info := env.inspect(raw).value;
          && pkg.name == info.name && pkg.version == info.version && |pkg.name| <= NAME_MAX && |pkg.version| <= VER_MAX
          && pkg.kind == info.kind && pkg.mcaps == info.mcaps
          && pkg.len == |info.payload| && pkg.off + pkg.len <= |arena| && arena[pkg.off..pkg.off + pkg.len] == info.payload
  }

  /** A slot is active exactly when the runtime table has it, and then the table describes it. */
  ghost predicate LiveSlot(env: Env, d: Image, reg: Registry, pkg: Runtime, arena: seq<byte>, used: nat, slot: Slot) {
    && (StateOf(reg, slot) == STATE_ACTIVE <==> pkg.Used?)
    && (pkg.Used? ==> Describes(env, d, reg, pkg, arena, slot) && pkg.off + pkg.len <= used <= |arena|)
  }

  /** The runtime table, arena and registry agree with each other and with the disk, and no two payloads overlap. */
  ghost predicate Live(env: Env, d: Image, reg: Registry, pkgs: seq<Runtime>, arena: seq<byte>, used: nat) {
    && |pkgs| == MAX_PKGS
    && (forall s: Slot :: LiveSlot(env, d, reg, pkgs[s], arena, used, s))
    && (forall s: Slot, t: Slot :: s < t && pkgs[s].Used? && pkgs[t].Used? ==> pkgs[s].off + pkgs[s].len <= pkgs[t].off)
  }

  ghost predicate PayloadIn(env: Env, d: Image, reg: Registry, slot: Slot, arena: seq<byte>) {
    Keeps(env, d, reg, slot) ==>
      var off, p := ArenaAfter(env, d, reg, slot), Accepted(env, d, reg, slot).value.payload;
      off + |p| <= |arena| && arena[off..off + |p|] == p
  }

  /** The payloads of the slots kept among the first `k` are in the arena. */
  ghost predicate InArena(env: Env, d: Image, reg: Registry, k: nat, arena: seq<byte>) {
    forall s: Slot :: s < k ==> PayloadIn(env, d, reg, s, arena)
  }

  ghost predicate TableUpTo(env: Env, d: Image, reg: Registry, k: nat, pkgs: seq<Runtime>) {
    && |pkgs| == MAX_PKGS
    && (forall s: Slot :: s < k ==> pkgs[s] == RuntimeAt(env, d, reg, s))
    && (forall s: Slot :: k <= s ==> pkgs[s] == Unused)
  }

  lemma ArenaNext(env: Env, d: Image, reg: Registry, slot: Slot)
    ensures Keeps(env, d, reg, slot) ==>
              && Accepted(env, d, reg, slot).Some?
              && ArenaAfter(env, d, reg, slot + 1) == ArenaAfter(env, d, reg, slot) + |Accepted(env, d, reg, slot).value.payload|
    ensures !Keeps(env, d, reg, slot) ==> ArenaAfter(env, d, reg, slot + 1) == ArenaAfter(env, d, reg, slot)
  {
    hide Accepted;
  }

  lemma NothingLoaded(env: Env, d: Image, reg: Registry, pkgs: seq<Runtime>, arena: seq<byte>)
    requires pkgs == NoPackages()
    ensures TableUpTo(env, d, reg, 0, pkgs) && InArena(env, d, reg, 0, arena)
  {
  }

  /** One slot's part of the load. */
  lemma LoadStep(env: Env, d: Image, reg: Registry, slot: Slot, pkgs: seq<Runtime>, arena: seq<byte>,
                 pkgs': seq<Runtime>, arena': seq<byte>)
    requires TableUpTo(env, d, reg, slot, pkgs) && InArena(env, d, reg, slot, arena) && |arena| == ARENA_SIZE
    requires if Keeps(env, d, reg, slot)
             then pkgs' == pkgs[slot := RuntimeAt(env, d, reg, slot)]
               && arena' == Put(arena, ArenaAfter(env, d, reg, slot), Accepted(env, d, reg, slot).value.payload)
             else pkgs' == pkgs && arena' == arena
    ensures TableUpTo(env, d, reg, slot + 1, pkgs') && InArena(env, d, reg, slot + 1, arena')
  {
    hide Accepted, PayloadIn, ArenaAfter, Keeps, RuntimeOf;
    forall s: Slot | s < slot + 1
      ensures PayloadIn(env, d, reg, s, arena')
    {
      PayloadKept(env, d, reg, s, slot, arena, arena');
    }
  }

  lemma PayloadKept(env: Env, d: Image, reg: Registry, s: Slot, slot: Slot, arena: seq<byte>, arena': seq<byte>)
    requires s <= slot && |arena| == ARENA_SIZE && (s < slot ==> PayloadIn(env, d, reg, s, arena))
    requires if Keeps(env, d, reg, slot)
             then arena' == Put(arena, ArenaAfter(env, d, reg, slot), Accepted(env, d, reg, slot).value.payload)
             else arena' == arena
    ensures PayloadIn(env, d, reg, s, arena')
  {
    hide Accepted, ArenaAfter;
    var off := ArenaAfter(env, d, reg, slot);
    ArenaNext(env, d, reg, s);
    if s < slot {
      ArenaGrows(env, d, reg, s + 1, slot);
      if Keeps(env, d, reg, s) && Keeps(env, d, reg, slot) {
        PutBeyond(arena, ArenaAfter(env, d, reg, s), ArenaAfter(env, d, reg, s + 1), off, Accepted(env, d, reg, slot).value.payload);
      }
    } else if Keeps(env, d, reg, slot) {
      PutHere(arena, off, Accepted(env, d, reg, slot).value.payload);
    }
  }

  lemma PutHere(arena: seq<byte>, off: nat, p: seq<byte>)
    requires off + |p| <= |arena|
    ensures Put(arena, off, p)[off..off + |p|] == p
  {
  }

  lemma PutBeyond(arena: seq<byte>, m: nat, n: nat, off: nat, p: seq<byte>)
    requires m <= n <= off && off + |p| <= |arena|
    ensures Put(arena, off, p)[m..n] == arena[m..n]
  {
  }

  /** A finished load is live. */
  lemma LoadIsLive(env: Env, d: Image, reg: Registry, d': Image, pkgs: seq<Runtime>, arena: seq<byte>)
    requires TableUpTo(env, d, reg, MAX_PKGS, pkgs) && InArena(env, d, reg, MAX_PKGS, arena) && |arena| == ARENA_SIZE && SameBlobs(d, d')
    ensures Live(env, d', Swept(env, d, reg, MAX_PKGS), pkgs, arena, ArenaAfter(env, d, reg, MAX_PKGS))
  {
    hide Accepted, Swept, EntryOf, SameBlobs, StateOf, LiveSlot, PayloadIn, Keeps, ArenaAfter, RuntimeOf;
    forall s: Slot
      ensures LiveSlot(env, d', Swept(env, d, reg, MAX_PKGS), pkgs[s], arena, ArenaAfter(env, d, reg, MAX_PKGS), s)
    {
      SlotIsLive(env, d, reg, d', pkgs[s], arena, s);
    }
    forall s: Slot, t: Slot | s < t && pkgs[s].Used? && pkgs[t].Used?
      ensures pkgs[s].off + pkgs[s].len <= pkgs[t].off
    {
      Apart(env, d, reg, s, t);
    }
  }

  lemma Apart(env: Env, d: Image, reg: Registry, s: Slot, t: Slot)
    requires s < t && RuntimeAt(env, d, reg, s).Used? && RuntimeAt(env, d, reg, t).Used?
    ensures RuntimeAt(env, d, reg, s).off + RuntimeAt(env, d, reg, s).len <= RuntimeAt(env, d, reg, t).off
  {
    ArenaNext(env, d, reg, s);
    hide Accepted, ArenaAfter;
    ArenaGrows(env, d, reg, s + 1, t);
  }

  lemma SlotIsLive(env: Env, d: Image, reg: Registry, d': Image, pkg: Runtime, arena: seq<byte>, s: Slot)
    requires pkg == RuntimeAt(env, d, reg, s) && PayloadIn(env, d, reg, s, arena) && |arena| == ARENA_SIZE && SameBlobs(d, d')
    ensures LiveSlot(env, d', Swept(env, d, reg, MAX_PKGS), pkg, arena, ArenaAfter(env, d, reg, MAX_PKGS), s)
  {
    hide Accepted, Swept, EntryOf, SameBlobs, StateOf;
    SweptSlot(env, d, reg, s);
    ArenaNext(env, d, reg, s);
    hide ArenaAfter;
    ArenaGrows(env, d, reg, s + 1, MAX_PKGS);
    hide Describes;
    if Keeps(env, d, reg, s) {
      AcceptedSame(env, d, reg, d', Swept(env, d, reg, MAX_PKGS), s);
      AcceptedDescribes(env, d', Swept(env, d, reg, MAX_PKGS), pkg, arena, s);
    }
  }

  lemma AcceptedDescribes(env: Env, d: Image, reg: Registry, pkg: Runtime, arena: seq<byte>, slot: Slot)
    requires Accepted(env, d, reg, slot).Some? && pkg.Used? && pkg == RuntimeOf(reg, slot, Accepted(env, d, reg, slot).value, pkg.off)
    requires pkg.off + pkg.len <= |arena| && arena[pkg.off..pkg.off + pkg.len] == Accepted(env, d, reg, slot).value.payload
    ensures Describes(env, d, reg, pkg, arena, slot)
  {
    hide EntryOf, BlobAt, RawLen, RawCrc;
  }

  /** A description leaves nothing open but the place of the payload. */
  lemma DescribedIs(env: Env, d: Image, reg: Registry, pkg: Runtime, arena: seq<byte>, slot: Slot)
    requires Accepted(env, d, reg, slot).Some? && Describes(env, d, reg, pkg, arena, slot)
    ensures pkg == RuntimeOf(reg, slot, Accepted(env, d, reg, slot).value, pkg.off)
  {
    hide EntryOf, BlobAt, RawLen, RawCrc;
  }

  /** The table right after a load describes every slot it holds, on the disk and registry the load started from. */
  lemma LoadDescribes(env: Env, d: Image, reg: Registry, pkgs: seq<Runtime>, arena: seq<byte>, slot: Slot)
    requires TableUpTo(env, d, reg, MAX_PKGS, pkgs) && InArena(env, d, reg, MAX_PKGS, arena) && |arena| == ARENA_SIZE
    ensures pkgs[slot].Used? <==> Keeps(env, d, reg, slot)
    ensures pkgs[slot].Used? ==> Describes(env, d, reg, pkgs[slot], arena, slot) && pkgs[slot].off == ArenaAfter(env, d, reg, slot)
  {
    hide Accepted, ArenaAfter, EntryOf, Describes;
    assert PayloadIn(env, d, reg, slot, arena);
    if Keeps(env, d, reg, slot) {
      AcceptedDescribes(env, d, reg, pkgs[slot], arena, slot);
    }
  }

  lemma SweptSlot(env: Env, d: Image, reg: Registry, s: Slot)
    ensures var reg' := Swept(env, d, reg, MAX_PKGS);
            && (StateOf(reg', s) == STATE_ACTIVE <==> Keeps(env, d, reg, s))
            && (Keeps(env, d, reg, s) ==> EntryOf(reg', s) == EntryOf(reg, s))
  {
    hide ArenaAfter, BlobAt;
    SweptEntries(env, d, reg, MAX_PKGS, s);
    StateIsFirstByte(reg, s);
    StateIsFirstByte(Swept(env, d, reg, MAX_PKGS), s);
  }

  /** What loading one slot turns on: the slot has not been swept yet, and it is kept if it is accepted and fits. */
  lemma SlotAhead(env: Env, d: Image, reg: Registry, slot: Slot)
    ensures var r, keeps := Swept(env, d, reg, slot), Keeps(env, d, reg, slot);
            && EntryOf(r, slot) == EntryOf(reg, slot) && StateOf(r, slot) == StateOf(reg, slot)
            && (keeps <==> && Accepted(env, d, reg, slot).Some?
                           && ArenaAfter(env, d, reg, slot) + |Accepted(env, d, reg, slot).value.payload| <= ARENA_SIZE)
            && (keeps ==> StateOf(reg, slot) == STATE_ACTIVE)
            && Swept(env, d, reg, slot + 1) ==
               if StateOf(reg, slot) == STATE_ACTIVE && !keeps then WithState(r, slot, STATE_CORRUPT) else r
  {
    hide ArenaAfter, BlobAt;
    SweptEntries(env, d, reg, slot, slot);
    StateIsFirstByte(reg, slot);
    StateIsFirstByte(Swept(env, d, reg, slot), slot);
  }
}

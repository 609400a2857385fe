/** What `map_page` does with an address in a top-level slot the kernel uses, and the kernel's tables themselves. */
module KernelSlots {
  import opened Arithmetic
  import opened Bytes
  import opened PageTables

  /** A root that has the kernel's entries in the kernel's slots: the kernel's own, or that of a space. */
  predicate SharesKernel(cfg: Config, roles: Roles, root: nat) {
    root == cfg.kernel || (root in roles && roles[root] == Root)
  }

  /** The walk ends in the leaf `e`, and not for user mode. */
  predicate FindsLeaf(mem: Memory, root: nat, v: VPage, e: nat) {
    var h := Walk(mem, root, v);
    h.Some? && h.value.entry == e && h.value.level == 1 && !h.value.user
  }

  // --- The kernel's path --------------------------------------------------------------------------

  /** The kernel's table of level 3, and of level 2 if there is one, on the path of `v`. */
  function Third(cfg: Config, v: VPage): nat
    requires cfg.kernel in cfg.boot
  {
    PageOf(cfg.boot[cfg.kernel][v.l4])
  }

  function EntryAt(mem: Memory, p: nat, i: Index): nat {
    if p in mem then mem[p][i] else 0
  }

  function ThirdEntry(cfg: Config, v: VPage): nat
    requires cfg.kernel in cfg.boot
  {
    EntryAt(cfg.boot, Third(cfg, v), v.l3)
  }

  function SecondEntry(cfg: Config, v: VPage): nat
    requires cfg.kernel in cfg.boot
  {
    EntryAt(cfg.boot, PageOf(ThirdEntry(cfg, v)), v.l2)
  }

  /** How many tables the kernel's path of `v` lacks. */
  function Missing(cfg: Config, v: VPage): nat
    requires cfg.kernel in cfg.boot
  {
    if !Present(ThirdEntry(cfg, v)) then 2 else if !Present(SecondEntry(cfg, v)) then 1 else 0
  }

  /** The kernel's path of `v` ends in a page of 2 MiB. */
  predicate EndsLarge(cfg: Config, v: VPage)
    requires cfg.kernel in cfg.boot
  {
    Missing(cfg, v) == 0 && Large(SecondEntry(cfg, v))
  }

  lemma PathFacts(cfg: Config, mem: Memory, roles: Roles, v: VPage)
    requires Linked(cfg, mem, roles) && KernelSlot(cfg, v.l4)
    ensures var p3 := Third(cfg, v);
            && p3 in cfg.boot && cfg.level[p3] == 3 && p3 in mem && mem[p3] == cfg.boot[p3]
            && (Present(ThirdEntry(cfg, v)) ==>
                  && !Large(ThirdEntry(cfg, v))
                  && var p2 := PageOf(ThirdEntry(cfg, v));
                     && p2 in cfg.boot && cfg.level[p2] == 2 && p2 in mem && mem[p2] == cfg.boot[p2]
                     && (Present(SecondEntry(cfg, v)) && !Large(SecondEntry(cfg, v)) ==>
                           var p1 := PageOf(SecondEntry(cfg, v));
                           p1 in cfg.boot && cfg.level[p1] == 1 && p1 in mem))
  {
    hide Present, Large, PageOf, User;
    var p3 := Third(cfg, v);
    assert StepsDown(cfg, cfg.kernel, v.l4);
    assert StepsDown(cfg, p3, v.l3);
    if Present(ThirdEntry(cfg, v)) {
      assert StepsDown(cfg, PageOf(ThirdEntry(cfg, v)), v.l2);
    }
  }

  lemma RootFacts(cfg: Config, mem: Memory, roles: Roles, root: nat, v: VPage)
    requires Linked(cfg, mem, roles) && SharesKernel(cfg, roles, root) && KernelSlot(cfg, v.l4)
    ensures root in mem && mem[root][v.l4] == cfg.boot[cfg.kernel][v.l4] && Present(mem[root][v.l4]) && !User(mem[root][v.l4])
    ensures root in cfg.boot ==> root == cfg.kernel
  {
    hide Large, PageOf;
    assert root != cfg.kernel ==> EntryOk(cfg, mem, roles, root, v.l4);
  }

  /** A walk over a complete path. */
  lemma SharedWalk(mem: Memory, root: nat, v: VPage, p3: nat, p2: nat, p1: nat, e: nat)
    requires root in mem && Present(mem[root][v.l4]) && PageOf(mem[root][v.l4]) == p3 && !User(mem[root][v.l4])
    requires p3 in mem && Present(mem[p3][v.l3]) && !Large(mem[p3][v.l3]) && PageOf(mem[p3][v.l3]) == p2
    requires p2 in mem && Present(mem[p2][v.l2]) && !Large(mem[p2][v.l2]) && PageOf(mem[p2][v.l2]) == p1
    requires p1 in mem && mem[p1][v.l1] == e && Present(e)
    ensures FindsLeaf(mem, root, v, e)
  {
    hide Present, User, Writable, Large, PageOf;
    var e4, e3, e2 := mem[root][v.l4], mem[p3][v.l3], mem[p2][v.l2];
    var u3, w3 := true && User(e4), true && Writable(e4);
    var u2, w2 := u3 && User(e3), w3 && Writable(e3);
    var u1, w1 := u2 && User(e2), w2 && Writable(e2);
    assert WalkFrom(mem, p1, 1, v, u1, w1) == Some(Hit(e, 1, u1 && User(e), w1 && Writable(e)));
    assert WalkFrom(mem, p2, 2, v, u2, w2) == WalkFrom(mem, p1, 1, v, u1, w1);
    assert WalkFrom(mem, p3, 3, v, u3, w3) == WalkFrom(mem, p2, 2, v, u2, w2);
  }

  // --- The four cases ------------------------------------------------------------------------------------

  /** What `map_page` leaves if the kernel's path lacks its last two tables. */
  function WithTwo(mem: Memory, v: VPage, p3: nat, q2: nat, q1: nat, e: nat): Memory
    requires p3 in mem
  {
    mem[p3 := mem[p3][v.l3 := LinkTo(q2)]][q2 := ZeroTable()[v.l2 := LinkTo(q1)]][q1 := ZeroTable()[v.l1 := e]]
  }

  lemma MapsWithTwo(cfg: Config, s: Pool, roles: Roles, r: nat, v: VPage, e: nat)
    requires PoolOk(cfg, s, roles) && r in roles && roles[r] == Root && KernelSlot(cfg, v.l4) && Missing(cfg, v) == 2
    requires s.next + 2 <= POOL_PAGES
    ensures Third(cfg, v) in s.mem
    ensures MapOn(cfg, s, r, v, e)
         == Mapped(Pool(WithTwo(s.mem, v, Third(cfg, v), cfg.poolBase + s.next, cfg.poolBase + s.next + 1, e), s.next + 2), true)
  {
    PathFacts(cfg, s.mem, roles, v);
    RootFacts(cfg, s.mem, roles, r, v);
    var p3, q2, q1 := Third(cfg, v), cfg.poolBase + s.next, cfg.poolBase + s.next + 1;
    assert !InPool(cfg, p3);
    LinkFacts(q2);
    LinkFacts(q1);
    hide Linked, Large, User, Writable;
    var s1 := Descended(cfg, s, p3, v.l3).pool;
    assert s1.mem == s.mem[p3 := s.mem[p3][v.l3 := LinkTo(q2)]][q2 := ZeroTable()];
    var s2 := Descended(cfg, s1, q2, v.l2).pool;
    assert s2.mem == s1.mem[q2 := ZeroTable()[v.l2 := LinkTo(q1)]][q1 := ZeroTable()];
    assert Poke(s2.mem, q1, v.l1, e) == WithTwo(s.mem, v, p3, q2, q1, e);
  }

  lemma SeenWithTwo(cfg: Config, s: Pool, roles: Roles, root: nat, v: VPage, e: nat)
    requires PoolOk(cfg, s, roles) && SharesKernel(cfg, roles, root) && KernelSlot(cfg, v.l4) && Missing(cfg, v) == 2
    requires s.next + 2 <= POOL_PAGES && Present(e)
    ensures Third(cfg, v) in s.mem
    ensures FindsLeaf(WithTwo(s.mem, v, Third(cfg, v), cfg.poolBase + s.next, cfg.poolBase + s.next + 1, e), root, v, e)
  {
    PathFacts(cfg, s.mem, roles, v);
    RootFacts(cfg, s.mem, roles, root, v);
    var p3, q2, q1 := Third(cfg, v), cfg.poolBase + s.next, cfg.poolBase + s.next + 1;
    assert !InPool(cfg, p3) && root != p3 && root != q2 && root != q1;
    LinkFacts(q2);
    LinkFacts(q1);
    hide Linked, Present, Large, User, Writable, PageOf;
    SharedWalk(WithTwo(s.mem, v, p3, q2, q1, e), root, v, p3, q2, q1, e);
  }

  /** What it leaves if the path lacks its last table. */
  function WithOne(mem: Memory, v: VPage, p2: nat, q1: nat, e: nat): Memory
    requires p2 in mem
  {
    mem[p2 := mem[p2][v.l2 := LinkTo(q1)]][q1 := ZeroTable()[v.l1 := e]]
  }

  lemma MapsWithOne(cfg: Config, s: Pool, roles: Roles, r: nat, v: VPage, e: nat)
    requires PoolOk(cfg, s, roles) && r in roles && roles[r] == Root && KernelSlot(cfg, v.l4) && Missing(cfg, v) == 1
    requires s.next + 1 <= POOL_PAGES
    ensures PageOf(ThirdEntry(cfg, v)) in s.mem
    ensures MapOn(cfg, s, r, v, e)
         == Mapped(Pool(WithOne(s.mem, v, PageOf(ThirdEntry(cfg, v)), cfg.poolBase + s.next, e), s.next + 1), true)
  {
    PathFacts(cfg, s.mem, roles, v);
    RootFacts(cfg, s.mem, roles, r, v);
    var p2, q1 := PageOf(ThirdEntry(cfg, v)), cfg.poolBase + s.next;
    assert !InPool(cfg, p2);
    LinkFacts(q1);
    hide Linked, Large, User, Writable;
    var s1 := Descended(cfg, s, p2, v.l2).pool;
    assert s1.mem == s.mem[p2 := s.mem[p2][v.l2 := LinkTo(q1)]][q1 := ZeroTable()];
    assert Poke(s1.mem, q1, v.l1, e) == WithOne(s.mem, v, p2, q1, e);
  }

  lemma SeenWithOne(cfg: Config, s: Pool, roles: Roles, root: nat, v: VPage, e: nat)
    requires PoolOk(cfg, s, roles) && SharesKernel(cfg, roles, root) && KernelSlot(cfg, v.l4) && Missing(cfg, v) == 1
    requires s.next + 1 <= POOL_PAGES && Present(e)
    ensures PageOf(ThirdEntry(cfg, v)) in s.mem
    ensures FindsLeaf(WithOne(s.mem, v, PageOf(ThirdEntry(cfg, v)), cfg.poolBase + s.next, e), root, v, e)
  {
    PathFacts(cfg, s.mem, roles, v);
    RootFacts(cfg, s.mem, roles, root, v);
    var p3, p2, q1 := Third(cfg, v), PageOf(ThirdEntry(cfg, v)), cfg.poolBase + s.next;
    assert !InPool(cfg, p2) && !InPool(cfg, p3) && root != p2 && root != q1 && p2 != p3;
    LinkFacts(q1);
    hide Linked, Present, Large, User, Writable, PageOf;
    SharedWalk(WithOne(s.mem, v, p2, q1, e), root, v, p3, p2, q1, e);
  }

  /** All tables are there: the leaf goes into the kernel's own last one, or, if the path ends in a large page, into that
      page as if it were a table. */
  lemma MapsInPlace(cfg: Config, s: Pool, roles: Roles, r: nat, v: VPage, e: nat)
    requires PoolOk(cfg, s, roles) && r in roles && roles[r] == Root && KernelSlot(cfg, v.l4) && Missing(cfg, v) == 0
    ensures MapOn(cfg, s, r, v, e) == Mapped(Pool(Poke(s.mem, PageOf(SecondEntry(cfg, v)), v.l1, e), s.next), true)
  {
    PathFacts(cfg, s.mem, roles, v);
    RootFacts(cfg, s.mem, roles, r, v);
    hide Linked, Large, User, Writable, Present;
  }

  lemma SeenInPlace(cfg: Config, s: Pool, roles: Roles, root: nat, v: VPage, e: nat)
    requires PoolOk(cfg, s, roles) && SharesKernel(cfg, roles, root) && KernelSlot(cfg, v.l4) && Missing(cfg, v) == 0
    requires Present(e) && !EndsLarge(cfg, v)
    ensures FindsLeaf(Poke(s.mem, PageOf(SecondEntry(cfg, v)), v.l1, e), root, v, e)
  {
    PathFacts(cfg, s.mem, roles, v);
    RootFacts(cfg, s.mem, roles, root, v);
    var p3, p2, p1 := Third(cfg, v), PageOf(ThirdEntry(cfg, v)), PageOf(SecondEntry(cfg, v));
    assert root != p1 && p1 != p2 && p1 != p3;
    hide Linked, Present, Large, User, Writable, PageOf;
    SharedWalk(Poke(s.mem, p1, v.l1, e), root, v, p3, p2, p1, e);
  }

  /** Mapping an address in one of the kernel's slots into one space, with pages enough left for the tables. If the kernel's
      path ends in a large page, success is reported and the leaf is stored in that page, as if it were a table; unless a
      table lies there, none changes and every walk ends where it did. Otherwise the leaf,
      and any table that was missing, goes into the kernel's own tables, and the kernel and every space find it. */
  lemma KernelSlotIsShared(cfg: Config, s: Pool, roles: Roles, r: nat, v: VPage, e: nat, root: nat)
    requires PoolOk(cfg, s, roles) && r in roles && roles[r] == Root && KernelSlot(cfg, v.l4) && Present(e)
    requires s.next + Missing(cfg, v) <= POOL_PAGES && SharesKernel(cfg, roles, root)
    ensures var m := MapOn(cfg, s, r, v, e);
            && m.ok && m.pool.next == s.next + Missing(cfg, v)
            && (!EndsLarge(cfg, v) ==> FindsLeaf(m.pool.mem, root, v, e))
            && (EndsLarge(cfg, v) ==> m.pool.mem == Poke(s.mem, PageOf(SecondEntry(cfg, v)), v.l1, e))
            && (EndsLarge(cfg, v) && PageOf(SecondEntry(cfg, v)) !in s.mem ==>
                  m.pool.mem == s.mem && Walk(m.pool.mem, root, v) == Walk(cfg.boot, cfg.kernel, v))
  {
    if Missing(cfg, v) == 2 {
      MapsWithTwo(cfg, s, roles, r, v, e);
      SeenWithTwo(cfg, s, roles, root, v, e);
    } else if Missing(cfg, v) == 1 {
      MapsWithOne(cfg, s, roles, r, v, e);
      SeenWithOne(cfg, s, roles, root, v, e);
    } else {
      MapsInPlace(cfg, s, roles, r, v, e);
      if EndsLarge(cfg, v) {
        KernelSlotWalk(cfg, s.mem, roles, root, v);
      } else {
        SeenInPlace(cfg, s, roles, root, v, e);
      }
    }
    hide MapOn, FindsLeaf, WithTwo, WithOne;
  }

  // --- The pool runs out ------------------------------------------------------------------------------------

  /** What is left if there is a page for one of two missing tables: it stays linked into the kernel's own. */
  function Halfway(mem: Memory, v: VPage, p3: nat, q2: nat): Memory
    requires p3 in mem
  {
    mem[p3 := mem[p3][v.l3 := LinkTo(q2)]][q2 := ZeroTable()]
  }

  lemma MapsHalfway(cfg: Config, s: Pool, roles: Roles, r: nat, v: VPage, e: nat)
    requires PoolOk(cfg, s, roles) && r in roles && roles[r] == Root && KernelSlot(cfg, v.l4) && Missing(cfg, v) == 2
    requires s.next + 1 == POOL_PAGES
    ensures Third(cfg, v) in s.mem
    ensures MapOn(cfg, s, r, v, e) == Mapped(Pool(Halfway(s.mem, v, Third(cfg, v), cfg.poolBase + s.next), s.next + 2), false)
  {
    PathFacts(cfg, s.mem, roles, v);
    RootFacts(cfg, s.mem, roles, r, v);
    var p3, q2 := Third(cfg, v), cfg.poolBase + s.next;
    assert !InPool(cfg, p3);
    LinkFacts(q2);
    hide Linked, Large, User, Writable;
    var s1 := Descended(cfg, s, p3, v.l3).pool;
    assert s1.mem == Halfway(s.mem, v, p3, q2);
  }

  lemma UnseenHalfway(cfg: Config, s: Pool, roles: Roles, root: nat, v: VPage)
    requires PoolOk(cfg, s, roles) && SharesKernel(cfg, roles, root) && KernelSlot(cfg, v.l4) && Missing(cfg, v) == 2
    requires s.next + 1 == POOL_PAGES
    ensures Third(cfg, v) in s.mem
    ensures Walk(s.mem, root, v) == None && Walk(Halfway(s.mem, v, Third(cfg, v), cfg.poolBase + s.next), root, v) == None
  {
    PathFacts(cfg, s.mem, roles, v);
    RootFacts(cfg, s.mem, roles, root, v);
    var p3, q2 := Third(cfg, v), cfg.poolBase + s.next;
    assert !InPool(cfg, p3) && root != p3 && root != q2;
    LinkFacts(q2);
    NoFlags();
    hide Linked, Present, Large, User, Writable, PageOf;
    var mem' := Halfway(s.mem, v, p3, q2);
    var w := Writable(s.mem[root][v.l4]);
    var w2 := w && Writable(LinkTo(q2));
    assert WalkFrom(s.mem, p3, 3, v, false, w) == None;
    assert WalkFrom(mem', q2, 2, v, false, w2) == None;
    assert WalkFrom(mem', p3, 3, v, false, w) == WalkFrom(mem', q2, 2, v, false, w2);
  }

  /** No page for the first table that is missing: nothing changes but the index. */
  lemma MapsNothing(cfg: Config, s: Pool, roles: Roles, r: nat, v: VPage, e: nat)
    requires PoolOk(cfg, s, roles) && r in roles && roles[r] == Root && KernelSlot(cfg, v.l4) && Missing(cfg, v) > 0
    requires s.next >= POOL_PAGES
    ensures MapOn(cfg, s, r, v, e) == Mapped(Pool(s.mem, s.next + 1), false)
  {
    PathFacts(cfg, s.mem, roles, v);
    RootFacts(cfg, s.mem, roles, r, v);
    hide Linked, Large, User, Writable;
  }

  /** Mapping an address in a kernel slot with too few pages left fails. If there was a page for the first of two missing
      tables, that table is now part of the kernel's own tables, and stays; nothing else changes, and nobody can see it in
      any walk of the address. */
  lemma KernelSlotRunsOut(cfg: Config, s: Pool, roles: Roles, r: nat, v: VPage, e: nat, root: nat)
    requires PoolOk(cfg, s, roles) && r in roles && roles[r] == Root && KernelSlot(cfg, v.l4)
    requires s.next + Missing(cfg, v) > POOL_PAGES && Missing(cfg, v) > 0 && SharesKernel(cfg, roles, root)
    ensures Third(cfg, v) in s.mem
    ensures var m := MapOn(cfg, s, r, v, e);
            && !m.ok
            && m.pool.mem == (if s.next < POOL_PAGES then Halfway(s.mem, v, Third(cfg, v), cfg.poolBase + s.next) else s.mem)
            && Walk(m.pool.mem, root, v) == Walk(s.mem, root, v)
  {
    PathFacts(cfg, s.mem, roles, v);
    if s.next < POOL_PAGES {
      MapsHalfway(cfg, s, roles, r, v, e);
      UnseenHalfway(cfg, s, roles, root, v);
    } else {
      MapsNothing(cfg, s, roles, r, v, e);
    }
    hide MapOn, Halfway, Walk, PoolOk;
  }

  // --- The boot code's tables --------------------------------------------------------------------------

  /** Five pages from `b` on: the root, the table below it, the one for the first gigabyte, the one for its first 2 MiB, and
      the one for the gigabyte with the local APIC in it. */
  function BootTables(b: nat): Memory {
    map[b := ZeroTable()[0 := 4096 * (b + 1) + 3],
        b + 1 := ZeroTable()[0 := 4096 * (b + 2) + 3][3 := 4096 * (b + 4) + 3],
        b + 2 := ZeroTable()[0 := 4096 * (b + 3) + 3],
        b + 3 := Identity(),
        b + 4 := ZeroTable()[503 := APIC_ENTRY]]
  }

  /** The first 2 MiB, page by page. */
  function Identity(): Table {
    seq(512, i requires 0 <= i < 512 => 4096 * i + 3)
  }

  /** Present, writable, uncached, 2 MiB. */
  const APIC_ENTRY: nat := 0xFEE0_009B

  function BootConfig(b: nat, pool: nat): Config {
    Config(BootTables(b), map[b := 4, b + 1 := 3, b + 2 := 2, b + 3 := 1, b + 4 := 2], b, pool)
  }

  lemma TableFlags(q: nat)
    requires q < PAGES
    ensures var e := 4096 * q + 3;
            Present(e) && !User(e) && !Large(e) && PageOf(e) == q
  {
    var e := 4096 * q + 3;
    DivMod(4096, q, 3, e);
    DivMod(2, 2048 * q + 1, 1, e);
    DivMod(4, 1024 * q, 3, e);
    DivMod(2, 512 * q, 0, 1024 * q);
    DivMod(128, 32 * q, 3, e);
    DivMod(2, 16 * q, 0, 32 * q);
  }

  lemma NoFlags()
    ensures !Present(0) && !User(0)
  {
  }

  lemma ApicFlags()
    ensures Present(APIC_ENTRY) && Large(APIC_ENTRY) && PageOf(APIC_ENTRY) == 0xF_EE00
  {
  }

  /** The boot code's tables are as the rest of this model takes them to be. */
  lemma BootTablesAreSound(b: nat, pool: nat)
    requires b + 5 <= PAGES && pool + POOL_PAGES <= PAGES && (b + 5 <= pool || pool + POOL_PAGES <= b)
    ensures ConfigOk(BootConfig(b, pool))
  {
    var cfg := BootConfig(b, pool);
    NoFlags();
    ApicFlags();
    TableFlags(b + 1);
    TableFlags(b + 2);
    TableFlags(b + 3);
    TableFlags(b + 4);
    hide Present, User, Large, PageOf;
    forall p, i: Index | p in cfg.boot
      ensures StepsDown(cfg, p, i)
    {
      if p == b + 3 {
        LastStepsDown(b, pool, i);
      } else {
        TableStepsDown(b, pool, p, i);
      }
    }
  }

  lemma LastStepsDown(b: nat, pool: nat, i: Index)
    ensures StepsDown(BootConfig(b, pool), b + 3, i)
  {
    hide Present, Large, PageOf, Identity;
  }

  lemma TableStepsDown(b: nat, pool: nat, p: nat, i: Index)
    requires b + 5 <= PAGES && (p == b || p == b + 1 || p == b + 2 || p == b + 4)
    ensures StepsDown(BootConfig(b, pool), p, i)
  {
    NoFlags();
    ApicFlags();
    TableFlags(b + 1);
    TableFlags(b + 2);
    TableFlags(b + 3);
    TableFlags(b + 4);
    hide Present, Large, PageOf, Identity;
  }

  /** Mapping a page into the APIC's window reports success and does nothing. */
  lemma ApicWindowStaysLarge(b: nat, pool: nat, s: Pool, roles: Roles, r: nat, v: VPage, e: nat)
    requires b + 5 <= PAGES && pool + POOL_PAGES <= PAGES && (b + 5 <= pool || pool + POOL_PAGES <= b)
    requires PoolOk(BootConfig(b, pool), s, roles) && r in roles && roles[r] == Root && Present(e)
    requires v.l4 == 0 && v.l3 == 3 && v.l2 == 503 && 0xF_EE00 !in s.mem
    ensures MapOn(BootConfig(b, pool), s, r, v, e) == Mapped(s, true)
    ensures Walk(s.mem, r, v).Some? && Walk(s.mem, r, v).value.level == 2 && Walk(s.mem, r, v).value.entry == APIC_ENTRY
  {
    var cfg := BootConfig(b, pool);
    ApicFlags();
    TableFlags(b + 1);
    TableFlags(b + 4);
    hide Present, User, Large, PageOf, Linked, Writable;
    assert ThirdEntry(cfg, v) == 4096 * (b + 4) + 3 && SecondEntry(cfg, v) == APIC_ENTRY;
    MapsInPlace(cfg, s, roles, r, v, e);
    KernelSlotWalk(cfg, s.mem, roles, r, v);
    ApicWalk(b, v);
  }

  lemma ApicWalk(b: nat, v: VPage)
    requires b + 5 <= PAGES && v.l4 == 0 && v.l3 == 3 && v.l2 == 503
    ensures var h := Walk(BootTables(b), b, v);
            h.Some? && h.value.level == 2 && h.value.entry == APIC_ENTRY
  {
    ApicFlags();
    TableFlags(b + 1);
    TableFlags(b + 4);
    hide Present, User, Large, PageOf, Writable, Identity;
    var boot := BootTables(b);
    assert boot[b][0] == 4096 * (b + 1) + 3 && boot[b + 1][3] == 4096 * (b + 4) + 3 && boot[b + 4][503] == APIC_ENTRY;
    hide BootTables;
    var e4, e3 := 4096 * (b + 1) + 3, 4096 * (b + 4) + 3;
    var w3, w2 := Writable(e4), Writable(e4) && Writable(e3);
    assert WalkFrom(boot, b + 1, 3, v, false, w3) == WalkFrom(boot, b + 4, 2, v, false, w2);
    assert Walk(boot, b, v) == WalkFrom(boot, b + 1, 3, v, false, w3);
  }
}

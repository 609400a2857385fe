/** Creating address spaces and mapping pages into them, as the code does it. */
module AddressSpaces {
  import opened Bytes
  import opened Arithmetic
  import opened PageTables
  import opened KernelSlots

  /** `flags | PRESENT`. */
  function WithPresent(flags: nat): nat {
    if flags % 2 == 1 then flags else flags + 1
  }

  /** The leaf entry for physical address `pa`. */
  function LeafEntry(pa: nat, flags: nat): nat {
    4096 * (pa / 4096 % PAGES) + WithPresent(flags)
  }

  lemma LeafFacts(pa: nat, flags: nat)
    requires flags < 4096
    ensures var e := LeafEntry(pa, flags);
            && Present(e) && PageOf(e) == pa / 4096 % PAGES
            && (User(e) <==> flags / 4 % 2 == 1) && (Writable(e) <==> flags / 2 % 2 == 1)
  {
    var n, f := pa / 4096 % PAGES, WithPresent(flags);
    LowBits(n, f);
    assert f / 2 == flags / 2;
  }

  /** The low bits of an entry are its flags. */
  lemma LowBits(n: nat, f: nat)
    requires f < 4096 && f % 2 == 1 && n < PAGES
    ensures var e := 4096 * n + f;
            Present(e) && PageOf(e) == n && (User(e) <==> f / 2 / 2 % 2 == 1) && (Writable(e) <==> f / 2 % 2 == 1)
  {
    var e := 4096 * n + f;
    DivMod(4096, n, f, e);
    DivMod(2, 2048 * n + f / 2, 1, e);
    DivMod(4, 1024 * n + f / 2 / 2, f % 4, e);
    SameParity(1024 * n, f / 2);
    SameParity(512 * n, f / 2 / 2);
  }

  lemma SameParity(n: nat, g: nat)
    ensures (2 * n + g) % 2 == g % 2
  {
    DivMod(2, n + g / 2, g % 2, 2 * n + g);
  }

  lemma DataKeeps(cfg: Config, mem: Memory, roles: Roles, p: nat, i: Index, x: nat)
    requires Linked(cfg, mem, roles) && p in roles && roles[p] == Data
    ensures Linked(cfg, mem[p := mem[p][i := x]], roles)
  {
    var mem' := mem[p := mem[p][i := x]];
    forall q, j: Index | q in roles
      ensures EntryOk(cfg, mem', roles, q, j)
    {
      assert EntryOk(cfg, mem, roles, q, j);
    }
  }

  // --- Mapping a page, step by step --------------------------------------------------------------------

  /** One step down a private path: the table is there or is linked in, and nothing that can be seen changes. */
  lemma DescendKeeps(cfg: Config, s: Pool, roles: Roles, spaces: Spaces, p: nat, i: Index) returns (roles': Roles)
    requires PoolOk(cfg, s, roles) && Refines(cfg, s.mem, roles, spaces) && IsTable(cfg, roles, p, i)
    ensures var d := Descended(cfg, s, p, i);
            && PoolOk(cfg, d.pool, roles') && Refines(cfg, d.pool.mem, roles', spaces)
            && (forall q :: q in roles ==> q in roles' && roles'[q] == roles[q])
            && (forall q, j: Index :: q in roles && Present(s.mem[q][j]) ==> q in d.pool.mem && d.pool.mem[q][j] == s.mem[q][j])
            && (d.page.Some? ==>
                  var q := d.page.value;
                  && q < PAGES && p in d.pool.mem && d.pool.mem[p][i] == LinkTo(q)
                  && q in roles' && q in d.pool.mem && roles'[q] == ChildRole(roles, p, i))
  {
    assert EntryOk(cfg, s.mem, roles, p, i);
    roles' := roles;
    if !Present(s.mem[p][i]) && s.next < POOL_PAGES {
      var q := cfg.poolBase + s.next;
      LinkKeeps(cfg, s.mem, roles, p, i, q);
      LinkRefines(cfg, s.mem, roles, spaces, p, i, q);
      roles' := roles[q := ChildRole(roles, p, i)];
      assert Descended(cfg, s, p, i).pool.mem == s.mem[q := ZeroTable()][p := s.mem[p][i := LinkTo(q)]];
    }
  }

  /** Mapping in a slot of the space's own. */
  lemma MapKeeps(cfg: Config, s: Pool, roles: Roles, spaces: Spaces, r: nat, v: VPage, e: nat) returns (roles': Roles, spaces': Spaces)
    requires PoolOk(cfg, s, roles) && Refines(cfg, s.mem, roles, spaces) && r in spaces && !KernelSlot(cfg, v.l4) && Present(e)
    ensures var m := MapOn(cfg, s, r, v, e);
            && PoolOk(cfg, m.pool, roles') && Refines(cfg, m.pool.mem, roles', spaces')
            && (forall q :: q in roles ==> q in roles' && roles'[q] == roles[q])
            && spaces' == if m.ok then spaces[r := Remap(spaces[r], v, e)] else spaces
  {
    spaces' := spaces;
    assert r in roles && roles[r] == Root;
    hide PoolOk, Refines, Present, PageOf, Descended;
    var r3 := DescendKeeps(cfg, s, roles, spaces, r, v.l4);
    var d3 := Descended(cfg, s, r, v.l4);
    roles' := r3;
    if d3.page.Some? {
      var r2 := DescendKeeps(cfg, d3.pool, r3, spaces, d3.page.value, v.l3);
      var d2 := Descended(cfg, d3.pool, d3.page.value, v.l3);
      roles' := r2;
      if d2.page.Some? {
        var r1 := DescendKeeps(cfg, d2.pool, r2, spaces, d2.page.value, v.l2);
        var d1 := Descended(cfg, d2.pool, d2.page.value, v.l2);
        roles' := r1;
        if d1.page.Some? {
          LinkFacts(d3.page.value);
          LinkFacts(d2.page.value);
          WriteLeaf(cfg, d1.pool, r1, spaces, r, v, d3.page.value, d2.page.value, d1.page.value, e);
          spaces' := spaces[r := Remap(spaces[r], v, e)];
        }
      }
    }
  }

  /** How many tables of the path of `v` in space `r` are missing. */
  function Lacks(mem: Memory, r: nat, v: VPage): nat {
    var e3 := EntryAt(mem, r, v.l4);
    var e2 := EntryAt(mem, PageOf(e3), v.l3);
    var e1 := EntryAt(mem, PageOf(e2), v.l2);
    if !Present(e3) then 3 else if !Present(e2) then 2 else if !Present(e1) then 1 else 0
  }

  /** A step down costs a page exactly if the entry is empty, and the table is then empty too. */
  lemma DescendCost(cfg: Config, s: Pool, roles: Roles, p: nat, i: Index)
    requires PoolOk(cfg, s, roles) && p in roles && p in s.mem
    ensures var d := Descended(cfg, s, p, i);
            if Present(EntryAt(s.mem, p, i)) then d == Got(s, Some(PageOf(EntryAt(s.mem, p, i))))
            else
              && (d.page.Some? <==> s.next < POOL_PAGES) && d.pool.next == s.next + 1
              && (d.page.Some? ==> forall j: Index :: !Present(EntryAt(d.pool.mem, d.page.value, j)))
  {
  }

  /** Mapping in a slot of the space's own succeeds if and only if there are pages left for the tables that are missing. */
  lemma MapSucceeds(cfg: Config, s: Pool, roles: Roles, spaces: Spaces, r: nat, v: VPage, e: nat)
    requires PoolOk(cfg, s, roles) && Refines(cfg, s.mem, roles, spaces) && r in spaces && !KernelSlot(cfg, v.l4)
    ensures MapOn(cfg, s, r, v, e).ok <==> Lacks(s.mem, r, v) == 0 || s.next + Lacks(s.mem, r, v) <= POOL_PAGES
  {
    assert r in roles && roles[r] == Root;
    assert r in s.mem;
    hide PoolOk, Refines, Present, PageOf, Descended, EntryAt;
    var r3 := DescendKeeps(cfg, s, roles, spaces, r, v.l4);
    DescendCost(cfg, s, roles, r, v.l4);
    var d3 := Descended(cfg, s, r, v.l4);
    if d3.page.Some? {
      var r2 := DescendKeeps(cfg, d3.pool, r3, spaces, d3.page.value, v.l3);
      DescendCost(cfg, d3.pool, r3, d3.page.value, v.l3);
      var d2 := Descended(cfg, d3.pool, d3.page.value, v.l3);
      if d2.page.Some? {
        DescendCost(cfg, d2.pool, r2, d2.page.value, v.l2);
      }
    }
  }

  /** A page that is nobody's yet is on no path. */
  lemma FreshLacks(cfg: Config, mem: Memory, roles: Roles, r: nat, v: VPage, q: nat)
    requires Linked(cfg, mem, roles) && r in roles && roles[r] == Root && !KernelSlot(cfg, v.l4) && q !in roles
    ensures Lacks(mem[q := ZeroTable()], r, v) == Lacks(mem, r, v)
  {
    assert EntryOk(cfg, mem, roles, r, v.l4);
    var e3 := mem[r][v.l4];
    if Present(e3) {
      assert EntryOk(cfg, mem, roles, PageOf(e3), v.l3);
      var e2 := mem[PageOf(e3)][v.l3];
      if Present(e2) {
        assert EntryOk(cfg, mem, roles, PageOf(e2), v.l2);
      }
    }
  }

  lemma WriteLeaf(cfg: Config, s: Pool, roles: Roles, spaces: Spaces, r: nat, v: VPage, p3: nat, p2: nat, p1: nat, e: nat)
    requires PoolOk(cfg, s, roles) && Refines(cfg, s.mem, roles, spaces) && r in spaces && !KernelSlot(cfg, v.l4) && Present(e)
    requires Path(s.mem, r, v, p3, p2, p1) && p1 in roles && roles[p1] == L1(r, v.l4, v.l3, v.l2)
    ensures PoolOk(cfg, Pool(Poke(s.mem, p1, v.l1, e), s.next), roles)
    ensures Refines(cfg, Poke(s.mem, p1, v.l1, e), roles, spaces[r := Remap(spaces[r], v, e)])
  {
    LeafKeeps(cfg, s.mem, roles, p1, v.l1, e);
    LeafRefines(cfg, s.mem, roles, spaces, r, v, p3, p2, p1, e);
  }

  /** The tables on the path of `v`, before the last, are ones whose contents are known. */
  predicate KnownTables(cfg: Config, s: Pool, r: nat, v: VPage) {
    && r in s.mem
    && var d3 := Descended(cfg, s, r, v.l4);
       d3.page.Some? ==>
         && d3.page.value in d3.pool.mem
         && var d2 := Descended(cfg, d3.pool, d3.page.value, v.l3);
            d2.page.Some? ==> d2.page.value in d2.pool.mem
  }

  /** Wherever the path leads, it stays in such tables. */
  lemma StaysInTables(cfg: Config, s: Pool, roles: Roles, r: nat, v: VPage)
    requires PoolOk(cfg, s, roles) && r in roles && roles[r] == Root
    ensures KnownTables(cfg, s, r, v)
  {
    var d3 := Descended(cfg, s, r, v.l4);
    assert EntryOk(cfg, s.mem, roles, r, v.l4);
    if KernelSlot(cfg, v.l4) {
      PathFacts(cfg, s.mem, roles, v);
      RootFacts(cfg, s.mem, roles, r, v);
    } else if Present(s.mem[r][v.l4]) {
      assert EntryOk(cfg, s.mem, roles, d3.page.value, v.l3);
    }
  }

  class PagePool {
    const cfg: Config
    var mem: Memory
    var next: nat
    ghost var roles: Roles
    ghost var spaces: Spaces

    /** The tables show exactly what the spaces were given, and pages not handed out yet have no role. */
    ghost predicate Valid()
      reads this
    {
      PoolOk(cfg, Pool(mem, next), roles) && Refines(cfg, mem, roles, spaces)
    }

    /** The kernel's tables, before anything is asked of the pool. */
    constructor (cfg: Config)
      requires ConfigOk(cfg)
      ensures Valid() && this.cfg == cfg && mem == cfg.boot && next == 0 && spaces == map[]
    {
      this.cfg := cfg;
      mem, next := cfg.boot, 0;
      roles, spaces := map[], map[];
    }

    /** A zeroed page of the pool, or nothing once it is spent. The index moves on either way. */
    method AllocPage() returns (r: Option<nat>)
      modifies `mem, `next
      ensures Got(Pool(mem, next), r) == Allocated(cfg, old(Pool(mem, next)))
    {
      var i := next;
      next := next + 1;
      if i >= POOL_PAGES {
        return None;
      }
      mem := mem[cfg.poolBase + i := ZeroTable()];
      return Some(cfg.poolBase + i);
    }

    /** A new space: the kernel's slots, and nothing else. */
    method NewAddressSpace() returns (r: Option<nat>)
      requires Valid()
      modifies this
      ensures Valid()
      ensures match r
              case None => spaces == old(spaces) && mem == old(mem)
              case Some(p) => p !in old(spaces) && spaces == old(spaces)[p := map[]]
      ensures r.None? <==> old(next) >= POOL_PAGES
    {
      ghost var mem0 := mem;
      r := AllocPage();
      if r.None? {
        return;
      }
      var pml4, i := r.value, 0;
      while i < 512
        invariant i <= 512 && pml4 in mem && mem == mem0[pml4 := mem[pml4]]
        invariant mem[pml4][..i] == cfg.boot[cfg.kernel][..i]
        invariant next == old(next) + 1 && roles == old(roles) && spaces == old(spaces)
      {
        assert mem[cfg.kernel] == mem0[cfg.kernel] == cfg.boot[cfg.kernel];
        mem := mem[pml4 := mem[pml4][i := mem[cfg.kernel][i]]];
        i := i + 1;
      }
      assert mem[pml4] == cfg.boot[cfg.kernel];
      FreshKeeps(cfg, mem0, roles, pml4, mem[pml4], Root);
      FreshRefines(cfg, mem0, roles, spaces, pml4, mem[pml4], Root);
      roles, spaces := roles[pml4 := Root], spaces[pml4 := map[]];
    }

    /** The table under an entry, linked in if there was none. The entry may be the kernel's, and may map a large page. */
    method Descend(p: nat, i: Index) returns (r: Option<nat>)
      requires p in mem
      modifies `mem, `next
      ensures Got(Pool(mem, next), r) == Descended(cfg, old(Pool(mem, next)), p, i)
    {
      hide Present, PageOf;
      var entry := mem[p][i];
      if Present(entry) {
        return Some(PageOf(entry));
      }
      r := AllocPage();
      if r.None? {
        return;
      }
      mem := mem[p := mem[p][i := LinkTo(r.value)]];
    }

    /** Maps one page. In a slot of its own a space then has exactly one mapping more or changed, or on failure nothing that
        can be seen has changed anywhere; what happens in the kernel's slots is the subject of `KernelSlots`. */
    method MapPage(pml4: nat, va: nat, pa: nat, flags: nat) returns (ok: bool)
      requires Valid() && pml4 in spaces && flags < 4096
      modifies this
      ensures Mapped(Pool(mem, next), ok) == MapOn(cfg, old(Pool(mem, next)), pml4, PathOf(va), LeafEntry(pa, flags))
      ensures !KernelSlot(cfg, PathOf(va).l4) ==>
                && Valid()
                && spaces == (if ok then old(spaces)[pml4 := Remap(old(spaces)[pml4], PathOf(va), LeafEntry(pa, flags))] else old(spaces))
                && (ok <==> var lacks := Lacks(old(mem), pml4, PathOf(va)); lacks == 0 || old(next) + lacks <= POOL_PAGES)
      ensures forall q :: q in old(roles) ==> q in roles && roles[q] == old(roles)[q]
    {
      ghost var s, v, e := Pool(mem, next), PathOf(va), LeafEntry(pa, flags);
      assert pml4 in roles && roles[pml4] == Root;
      LeafFacts(pa, flags);
      StaysInTables(cfg, s, roles, pml4, v);
      hide PoolOk, Refines, Present, PageOf, MapOn, KernelSlot, Descended, LeafEntry, Lacks;
      if !KernelSlot(cfg, v.l4) {
        MapSucceeds(cfg, s, roles, spaces, pml4, v, e);
        roles, spaces := MapKeeps(cfg, s, roles, spaces, pml4, v, e);
      }
      ok := WriteMapping(pml4, va, pa, flags);
    }

    /** The body of `map_page`. */
    method WriteMapping(pml4: nat, va: nat, pa: nat, flags: nat) returns (ok: bool)
      requires KnownTables(cfg, Pool(mem, next), pml4, PathOf(va))
      modifies `mem, `next
      ensures Mapped(Pool(mem, next), ok) == MapOn(cfg, old(Pool(mem, next)), pml4, PathOf(va), LeafEntry(pa, flags))
    {
      hide Present, PageOf, Descended;
      var v := PathOf(va);
      var pdpt := Descend(pml4, v.l4);
      if pdpt.None? {
        return false;
      }
      var pd := Descend(pdpt.value, v.l3);
      if pd.None? {
        return false;
      }
      var pt := Descend(pd.value, v.l2);
      if pt.None? {
        return false;
      }
      if pt.value in mem {
        mem := mem[pt.value := mem[pt.value][v.l1 := 4096 * (pa / 4096 % PAGES) + WithPresent(flags)]];
      }
      return true;
    }

    /** A page of the pool, zeroed and mapped. It is nobody's table, and never becomes one. */
    method MapNewPage(pml4: nat, va: nat, flags: nat) returns (r: Option<nat>)
      requires Valid() && pml4 in spaces && flags < 4096
      modifies this
      ensures !KernelSlot(cfg, PathOf(va).l4) ==>
                && Valid()
                && match r
                   case None => spaces == old(spaces)
                   case Some(p) => spaces == old(spaces)[pml4 := Remap(old(spaces)[pml4], PathOf(va), LeafEntry(4096 * p, flags))]
      ensures !KernelSlot(cfg, PathOf(va).l4) ==>
                (r.Some? <==> var lacks := Lacks(old(mem), pml4, PathOf(va));
                              old(next) < POOL_PAGES && (lacks == 0 || old(next) + 1 + lacks <= POOL_PAGES))
      ensures r.Some? ==> r.value !in old(roles) && r.value in roles && roles[r.value] == Data
      ensures forall q :: q in old(roles) ==> q in roles && roles[q] == old(roles)[q]
    {
      ghost var mem0 := mem;
      var page := AllocPage();
      if page.None? {
        return None;
      }
      FreshKeeps(cfg, mem0, roles, page.value, ZeroTable(), Data);
      FreshRefines(cfg, mem0, roles, spaces, page.value, ZeroTable(), Data);
      if !KernelSlot(cfg, PathOf(va).l4) {
        FreshLacks(cfg, mem0, roles, pml4, PathOf(va), page.value);
      }
      roles := roles[page.value := Data];
      var ok := MapPage(pml4, va, 4096 * page.value, flags);
      return if ok then page else None;
    }

    /** A store to a page that was handed out, by a task that has it mapped, changes no translation of any space. */
    lemma DataStore(p: nat, i: Index, x: nat)
      requires Valid() && p in roles && roles[p] == Data
      ensures PoolOk(cfg, Pool(mem[p := mem[p][i := x]], next), roles) && Refines(cfg, mem[p := mem[p][i := x]], roles, spaces)
    {
      var mem' := mem[p := mem[p][i := x]];
      DataKeeps(cfg, mem, roles, p, i, x);
      forall r, v: VPage | r in spaces && !KernelSlot(cfg, v.l4)
        ensures Walk(mem', r, v) == Lookup(spaces[r], v)
      {
        FrameWalk(cfg, mem, mem', roles, r, v, r, 4, p, i);
      }
    }

    /** What every sequence of these operations leaves: a space translates what it was given to what it was given last, its
        kernel slots and the kernel's own space translate as at boot, and user mode reaches exactly what was mapped with USER. */
    lemma Translations(root: nat, v: VPage)
      requires Valid() && (root in spaces || root == cfg.kernel)
      ensures Walk(mem, root, v) == if KernelSlot(cfg, v.l4) then Walk(cfg.boot, cfg.kernel, v)
                                    else if root in spaces && root != cfg.kernel then Lookup(spaces[root], v) else None
      ensures (Walk(mem, root, v).Some? && Walk(mem, root, v).value.user) <==>
              root in spaces && v in spaces[root] && User(spaces[root][v])
    {
      assert root in spaces ==> root in roles && roles[root] == Root;
      assert cfg.kernel !in roles;
      if KernelSlot(cfg, v.l4) {
        KernelSlotWalk(cfg, mem, roles, root, v);
      } else if root == cfg.kernel {
        KernelElsewhere(cfg, mem, roles, v);
      }
    }
  }

  /** Two addresses take the same walk exactly if they lie in the same page of the 48-bit space. */
  lemma SamePage(a: nat, b: nat)
    ensures PathOf(a) == PathOf(b) <==> a / 4096 % 0x10_0000_0000 == b / 4096 % 0x10_0000_0000
  {
    PathDigits(a);
    PathDigits(b);
    var u, v := PathOf(a), PathOf(b);
    if a / 4096 % 0x10_0000_0000 == b / 4096 % 0x10_0000_0000 {
      SameDigit(u.l1, u.l2 + 512 * (u.l3 + 512 * u.l4), v.l1, v.l2 + 512 * (v.l3 + 512 * v.l4));
      SameDigit(u.l2, u.l3 + 512 * u.l4, v.l2, v.l3 + 512 * v.l4);
      SameDigit(u.l3, u.l4, v.l3, v.l4);
    }
  }

  lemma SameDigit(r: Index, q: nat, r': Index, q': nat)
    requires r + 512 * q == r' + 512 * q'
    ensures r == r' && q == q'
  {
    DivMod(512, q, r, r + 512 * q);
    DivMod(512, q', r', r + 512 * q);
  }

  lemma PathDigits(a: nat)
    ensures var v := PathOf(a);
            a / 4096 % 0x10_0000_0000 == v.l1 + 512 * (v.l2 + 512 * (v.l3 + 512 * v.l4))
  {
    var n := a / 4096;
    assert a / 0x20_0000 == n / 512;
    assert a / 0x4000_0000 == n / 512 / 512;
    assert a / 0x80_0000_0000 == n / 512 / 512 / 512;
    Digits(n);
  }

  lemma Digits(n: nat)
    ensures n % 0x10_0000_0000 == n % 512 + 512 * (n / 512 % 512 + 512 * (n / 512 / 512 % 512 + 512 * (n / 512 / 512 / 512 % 512)))
  {
    Digit(n, 0x800_0000);
    Digit(n / 512, 0x4_0000);
    Digit(n / 512 / 512, 512);
  }

  lemma Digit(n: nat, m: nat)
    requires m > 0
    ensures n % (512 * m) == n % 512 + 512 * (n / 512 % m)
  {
    var q, r := n / 512, n % 512;
    assert q == m * (q / m) + q % m;
    assert n == 512 * (m * (q / m) + q % m) + r;
    assert 512 * (m * (q / m)) == (512 * m) * (q / m);
    DivMod(512 * m, q / m, 512 * (q % m) + r, n);
  }
}

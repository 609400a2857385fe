/** Four-level x86 page tables that share the kernel's subtrees: what a walk finds, and what changing an entry does to it. */
module PageTables {
  import opened Bytes

  const POOL_PAGES: nat := 64
  const PAGES: nat := 0x100_0000_0000
  const LINK_FLAGS: nat := 7

  type Index = n: nat | n < 512 witness 0
  type Table = t: seq<nat> | |t| == 512 witness seq(512, _ => 0)
  type Memory = map<nat, Table>

  function ZeroTable(): Table {
    seq(512, _ => 0)
  }

  /** Present, user and page-size bits of an entry, and the page it names. */
  predicate Present(e: nat) { e % 2 == 1 }
  predicate Writable(e: nat) { e / 2 % 2 == 1 }
  predicate User(e: nat) { e / 4 % 2 == 1 }
  predicate Large(e: nat) { e / 128 % 2 == 1 }
  function PageOf(e: nat): nat { e / 4096 % PAGES }

  /** An entry that names a table: present, writable and open to user mode, so that the leaf decides. */
  function LinkTo(page: nat): nat { 4096 * page + LINK_FLAGS }

  /** A virtual page: the four indices a walk takes. */
  datatype VPage = VPage(l4: Index, l3: Index, l2: Index, l1: Index)

  function PathOf(va: nat): VPage {
    VPage(va / 0x80_0000_0000 % 512, va / 0x4000_0000 % 512, va / 0x20_0000 % 512, va / 0x1000 % 512)
  }

  /** What a walk ends in: the last entry, its level, and the permissions that held all the way. */
  datatype Hit = Hit(entry: nat, level: nat, user: bool, write: bool)

  /** The walk from a table of level `level` on. */
  function WalkFrom(mem: Memory, page: nat, level: nat, v: VPage, user: bool, write: bool): Option<Hit>
    requires 1 <= level <= 4
    decreases level
  {
    if page !in mem then None
    else
      var e := mem[page][IndexAt(v, level)];
      if !Present(e) then None
      else if level == 1 || (level < 4 && Large(e)) then Some(Hit(e, level, user && User(e), write && Writable(e)))
      else WalkFrom(mem, PageOf(e), level - 1, v, user && User(e), write && Writable(e))
  }

  function IndexAt(v: VPage, level: nat): Index
    requires 1 <= level <= 4
  {
    if level == 4 then v.l4 else if level == 3 then v.l3 else if level == 2 then v.l2 else v.l1
  }

  function Walk(mem: Memory, root: nat, v: VPage): Option<Hit> {
    WalkFrom(mem, root, 4, v, true, true)
  }

  /** The kernel's tables as the boot code left them with the level of each, their root, and the first page of the pool. */
  datatype Config = Config(boot: Memory, level: map<nat, nat>, kernel: nat, poolBase: nat)

  predicate InPool(cfg: Config, page: nat) {
    cfg.poolBase <= page < cfg.poolBase + POOL_PAGES
  }

  /** The kernel maps something in this top-level slot, so every space shares it. */
  predicate KernelSlot(cfg: Config, i: Index)
    requires cfg.kernel in cfg.boot
  {
    Present(cfg.boot[cfg.kernel][i])
  }

  /** Walking from a kernel table stays within the kernel's tables. */
  predicate Closed(boot: Memory, page: nat, level: nat, v: VPage)
    requires 1 <= level <= 4
    decreases level
  {
    page in boot &&
    var e := boot[page][IndexAt(v, level)];
    Present(e) && level > 1 && !(level < 4 && Large(e)) ==> Closed(boot, PageOf(e), level - 1, v)
  }

  function LevelOf(cfg: Config, p: nat): nat {
    if p in cfg.boot && p in cfg.level then cfg.level[p] else 0
  }

  /** The entry names a table one level down, unless it is empty or maps a large page; there are no pages of 1 GiB. */
  predicate StepsDown(cfg: Config, p: nat, i: Index)
    requires p in cfg.boot && p in cfg.level
  {
    var e, n := cfg.boot[p][i], cfg.level[p];
    && 1 <= n <= 4 && (n == 3 && Present(e) ==> !Large(e))
    && (Present(e) && n > 1 && !(n == 2 && Large(e)) ==> LevelOf(cfg, PageOf(e)) == n - 1)
  }

  ghost predicate ConfigOk(cfg: Config) {
    && cfg.kernel in cfg.boot && cfg.poolBase + POOL_PAGES <= PAGES
    && (forall p :: p in cfg.boot ==> !InPool(cfg, p))
    && cfg.level.Keys == cfg.boot.Keys && cfg.level[cfg.kernel] == 4
    && (forall p, i: Index :: p in cfg.boot ==> StepsDown(cfg, p, i))
    && (forall i: Index :: !User(cfg.boot[cfg.kernel][i]))
  }

  lemma {:induction false} KernelIsClosed(cfg: Config, page: nat, level: nat, v: VPage)
    requires ConfigOk(cfg) && 1 <= level <= 4 && page in cfg.boot && cfg.level[page] == level
    ensures Closed(cfg.boot, page, level, v)
    decreases level
  {
    hide Present, Large, PageOf;
    var e := cfg.boot[page][IndexAt(v, level)];
    assert StepsDown(cfg, page, IndexAt(v, level));
    if Present(e) && level > 1 && !(level < 4 && Large(e)) {
      KernelIsClosed(cfg, PageOf(e), level - 1, v);
    }
  }

  // --- Roles of pool pages ------------------------------------------------------------------

  /** What a page of the pool is used for: the table that walks along one path of one space pass through, or data. */
  datatype Role =
    | Root
    | L3(root: nat, i4: Index)
    | L2(root: nat, i4: Index, i3: Index)
    | L1(root: nat, i4: Index, i3: Index, i2: Index)
    | Data

  type Roles = map<nat, Role>

  /** The entry is empty, or names the table for the role. */
  predicate Links(e: nat, roles: Roles, want: Role) {
    Present(e) ==> e == LinkTo(PageOf(e)) && PageOf(e) in roles && roles[PageOf(e)] == want
  }

  predicate EntryOk(cfg: Config, mem: Memory, roles: Roles, p: nat, i: Index)
    requires p in mem && p in roles && cfg.kernel in cfg.boot
  {
    match roles[p]
    case Root => if KernelSlot(cfg, i) then mem[p][i] == cfg.boot[cfg.kernel][i] else Links(mem[p][i], roles, L3(p, i))
    case L3(r, a) => Links(mem[p][i], roles, L2(r, a, i))
    case L2(r, a, b) => Links(mem[p][i], roles, L1(r, a, b, i))
    case _ => true
  }

  /** Kernel tables are untouched, and every pool page that is a table belongs to one path of one space. */
  ghost predicate Linked(cfg: Config, mem: Memory, roles: Roles) {
    && ConfigOk(cfg)
    && (forall p :: p in cfg.boot ==> p in mem && mem[p] == cfg.boot[p])
    && (forall p :: p in roles ==> p in mem && InPool(cfg, p))
    && (forall p, i: Index :: p in roles ==> EntryOk(cfg, mem, roles, p, i))
  }

  // --- Walks through kernel slots ---------------------------------------------------------------

  lemma {:induction false} KernelWalkSame(cfg: Config, mem: Memory, roles: Roles, page: nat, level: nat, v: VPage, user: bool, write: bool)
    requires Linked(cfg, mem, roles) && 1 <= level <= 4 && Closed(cfg.boot, page, level, v)
    ensures WalkFrom(mem, page, level, v, user, write) == WalkFrom(cfg.boot, page, level, v, user, write)
    decreases level
  {
    var e := cfg.boot[page][IndexAt(v, level)];
    assert mem[page] == cfg.boot[page];
    if Present(e) && level > 1 && !(level < 4 && Large(e)) {
      KernelWalkSame(cfg, mem, roles, PageOf(e), level - 1, v, user && User(e), write && Writable(e));
    }
  }

  lemma {:induction false} NoUserBelow(mem: Memory, page: nat, level: nat, v: VPage, write: bool)
    requires 1 <= level <= 4
    ensures var h := WalkFrom(mem, page, level, v, false, write);
            h.Some? ==> !h.value.user
    decreases level
  {
    if page in mem {
      var e := mem[page][IndexAt(v, level)];
      if Present(e) && level > 1 && !(level < 4 && Large(e)) {
        NoUserBelow(mem, PageOf(e), level - 1, v, write && Writable(e));
      }
    }
  }

  /** In a slot the kernel uses, every space and the kernel itself translate as at boot, and never for user mode. */
  lemma KernelSlotWalk(cfg: Config, mem: Memory, roles: Roles, root: nat, v: VPage)
    requires Linked(cfg, mem, roles) && KernelSlot(cfg, v.l4)
    requires root == cfg.kernel || (root in roles && roles[root] == Root)
    ensures Walk(mem, root, v) == Walk(cfg.boot, cfg.kernel, v)
    ensures Walk(mem, root, v).Some? ==> !Walk(mem, root, v).value.user
  {
    var e := cfg.boot[cfg.kernel][v.l4];
    KernelIsClosed(cfg, cfg.kernel, 4, v);
    assert root != cfg.kernel ==> EntryOk(cfg, mem, roles, root, v.l4);
    assert mem[root][v.l4] == e;
    assert !User(e);
    KernelWalkSame(cfg, mem, roles, PageOf(e), 3, v, true && User(e), true && Writable(e));
    NoUserBelow(mem, PageOf(e), 3, v, true && Writable(e));
  }

  /** The kernel's own space maps nothing in the slots it leaves to others. */
  lemma KernelElsewhere(cfg: Config, mem: Memory, roles: Roles, v: VPage)
    requires Linked(cfg, mem, roles) && !KernelSlot(cfg, v.l4)
    ensures Walk(mem, cfg.kernel, v) == None
  {
    assert mem[cfg.kernel] == cfg.boot[cfg.kernel];
  }

  // --- Walks through private slots ------------------------------------------------------------------

  lemma LinkFacts(q: nat)
    requires q < PAGES
    ensures var e := LinkTo(q);
            Present(e) && Writable(e) && User(e) && !Large(e) && PageOf(e) == q
  {
    var e := 4096 * q + 7;
    assert e == 2 * (2048 * q + 3) + 1;
    assert e / 2 == 2 * (1024 * q + 1) + 1;
    assert e / 4 == 2 * (512 * q) + 1;
    assert e / 128 == 2 * (16 * q);
    assert e / 4096 == q;
  }

  /** The role of the table a walk of `v` from `r` is in at `level`. */
  function RoleAt(r: nat, v: VPage, level: nat): Role
    requires 1 <= level <= 4
  {
    if level == 4 then Root else if level == 3 then L3(r, v.l4) else if level == 2 then L2(r, v.l4, v.l3) else L1(r, v.l4, v.l3, v.l2)
  }

  /** A walk of `v` from `r` has come to `page` at `level`. */
  predicate At(cfg: Config, roles: Roles, r: nat, v: VPage, page: nat, level: nat)
    requires 1 <= level <= 4 && cfg.kernel in cfg.boot
  {
    page in roles && roles[page] == RoleAt(r, v, level) && (level == 4 ==> page == r) && !KernelSlot(cfg, v.l4)
  }

  /** From one level of a private walk to the next. */
  lemma NextLevel(cfg: Config, mem: Memory, roles: Roles, r: nat, v: VPage, page: nat, level: nat)
    requires Linked(cfg, mem, roles) && 1 < level <= 4 && At(cfg, roles, r, v, page, level)
    requires Present(mem[page][IndexAt(v, level)])
    ensures var e := mem[page][IndexAt(v, level)];
            User(e) && Writable(e) && !Large(e) && At(cfg, roles, r, v, PageOf(e), level - 1)
  {
    var e := mem[page][IndexAt(v, level)];
    assert EntryOk(cfg, mem, roles, page, IndexAt(v, level));
    LinkFacts(PageOf(e));
  }

  /** Entry `i` of page `p` lies on the walk of `v` from `r`. */
  predicate OnPath(roles: Roles, p: nat, i: Index, r: nat, v: VPage)
    requires p in roles
  {
    match roles[p]
    case Root => p == r && i == v.l4
    case L3(s, a) => s == r && a == v.l4 && i == v.l3
    case L2(s, a, b) => s == r && a == v.l4 && b == v.l3 && i == v.l2
    case L1(s, a, b, c) => s == r && a == v.l4 && b == v.l3 && c == v.l2 && i == v.l1
    case Data => false
  }

  /** `mem'` is `mem` but for entry `i` of `p` and pages without a role. */
  ghost predicate OnlyEntry(mem: Memory, mem': Memory, roles: Roles, p: nat, i: Index) {
    forall q :: q in roles && q in mem ==> q in mem' && forall j: Index :: q != p || j != i ==> mem'[q][j] == mem[q][j]
  }

  /** A walk that does not pass the entry that changed ends where it did. */
  lemma {:induction false} FrameWalk(cfg: Config, mem: Memory, mem': Memory, roles: Roles, r: nat, v: VPage, page: nat, level: nat,
                                     p: nat, i: Index)
    requires Linked(cfg, mem, roles) && 1 <= level <= 4 && At(cfg, roles, r, v, page, level)
    requires p in roles && OnlyEntry(mem, mem', roles, p, i) && !OnPath(roles, p, i, r, v)
    ensures WalkFrom(mem', page, level, v, true, true) == WalkFrom(mem, page, level, v, true, true)
    decreases level
  {
    hide Linked, Present, Large, User, Writable, PageOf;
    PagePresent(cfg, mem, roles, page);
    var e := mem[page][IndexAt(v, level)];
    assert mem'[page][IndexAt(v, level)] == e;
    if Present(e) && level > 1 {
      NextLevel(cfg, mem, roles, r, v, page, level);
      FrameWalk(cfg, mem, mem', roles, r, v, PageOf(e), level - 1, p, i);
    }
  }

  lemma PagePresent(cfg: Config, mem: Memory, roles: Roles, page: nat)
    requires Linked(cfg, mem, roles) && page in roles
    ensures page in mem && InPool(cfg, page)
  {
  }

  /** Linking an empty table under an empty entry changes no walk. */
  lemma {:induction false} LinkWalk(cfg: Config, mem: Memory, mem': Memory, roles: Roles, r: nat, v: VPage, page: nat, level: nat,
                                    p: nat, i: Index, q: nat)
    requires Linked(cfg, mem, roles) && 1 <= level <= 4 && At(cfg, roles, r, v, page, level)
    requires p in roles && OnlyEntry(mem, mem', roles, p, i) && p in mem && !Present(mem[p][i])
    requires !roles[p].L1? && !roles[p].Data?
    requires p in mem' && q in mem' && q < PAGES && mem'[p][i] == LinkTo(q) && mem'[q] == ZeroTable()
    ensures WalkFrom(mem', page, level, v, true, true) == WalkFrom(mem, page, level, v, true, true)
    decreases level
  {
    PagePresent(cfg, mem, roles, page);
    var e := mem[page][IndexAt(v, level)];
    if page == p && IndexAt(v, level) == i {
      LinkFacts(q);
      assert level > 1;
      assert WalkFrom(mem', q, level - 1, v, true, true) == None;
    } else {
      hide Linked, Large, User, Writable, PageOf;
      assert mem'[page][IndexAt(v, level)] == e;
      if Present(e) && level > 1 {
        NextLevel(cfg, mem, roles, r, v, page, level);
        LinkWalk(cfg, mem, mem', roles, r, v, PageOf(e), level - 1, p, i, q);
      }
    }
  }

  // --- Keeping the structure ------------------------------------------------------------------------

  /** The role of a table linked from entry `i` of `p`. */
  function ChildRole(roles: Roles, p: nat, i: Index): Role
    requires p in roles
  {
    match roles[p]
    case Root => L3(p, i)
    case L3(r, a) => L2(r, a, i)
    case L2(r, a, b) => L1(r, a, b, i)
    case _ => Data
  }

  predicate IsTable(cfg: Config, roles: Roles, p: nat, i: Index)
    requires cfg.kernel in cfg.boot
  {
    p in roles && !roles[p].L1? && !roles[p].Data? && (roles[p].Root? ==> !KernelSlot(cfg, i))
  }

  /** A page fresh from the pool is linked as the table its place calls for. */
  lemma LinkKeeps(cfg: Config, mem: Memory, roles: Roles, p: nat, i: Index, q: nat)
    requires Linked(cfg, mem, roles) && IsTable(cfg, roles, p, i) && !Present(mem[p][i])
    requires InPool(cfg, q) && q !in roles
    ensures Linked(cfg, mem[q := ZeroTable()][p := mem[p][i := LinkTo(q)]], roles[q := ChildRole(roles, p, i)])
  {
    var mem' := mem[q := ZeroTable()][p := mem[p][i := LinkTo(q)]];
    var roles' := roles[q := ChildRole(roles, p, i)];
    LinkFacts(q);
    forall x, j: Index | x in roles'
      ensures EntryOk(cfg, mem', roles', x, j)
    {
      if x != q {
        assert EntryOk(cfg, mem, roles, x, j);
      }
    }
  }

  lemma LeafKeeps(cfg: Config, mem: Memory, roles: Roles, p: nat, i: Index, e: nat)
    requires Linked(cfg, mem, roles) && p in roles && roles[p].L1?
    ensures Linked(cfg, mem[p := mem[p][i := e]], roles)
  {
    var mem' := mem[p := mem[p][i := e]];
    forall x, j: Index | x in roles
      ensures EntryOk(cfg, mem', roles, x, j)
    {
      assert EntryOk(cfg, mem, roles, x, j);
    }
  }

  /** A fresh page given a role of its own: a root holding the kernel's entries, or data. */
  lemma FreshKeeps(cfg: Config, mem: Memory, roles: Roles, q: nat, t: Table, role: Role)
    requires Linked(cfg, mem, roles) && InPool(cfg, q) && q !in roles
    requires role == Data || (role == Root && t == cfg.boot[cfg.kernel])
    ensures Linked(cfg, mem[q := t], roles[q := role])
  {
    var mem', roles' := mem[q := t], roles[q := role];
    forall x, j: Index | x in roles'
      ensures EntryOk(cfg, mem', roles', x, j)
    {
      if x != q {
        assert EntryOk(cfg, mem, roles, x, j);
      }
    }
  }

  // --- The abstract view -----------------------------------------------------------------------------

  /** For each space, the leaf entry it was given last for each virtual page. */
  type View = map<VPage, nat>
  type Spaces = map<nat, View>

  function Remap(m: View, v: VPage, e: nat): View {
    m[v := e]
  }

  function HitOf(e: nat): Hit {
    Hit(e, 1, User(e), Writable(e))
  }

  function Lookup(m: View, v: VPage): Option<Hit> {
    if v in m then Some(HitOf(m[v])) else None
  }

  ghost predicate Refines(cfg: Config, mem: Memory, roles: Roles, spaces: Spaces)
    requires cfg.kernel in cfg.boot
  {
    && (forall r :: r in spaces <==> r in roles && roles[r] == Root)
    && (forall r, v: VPage :: r in spaces && v in spaces[r] ==> !KernelSlot(cfg, v.l4))
    && (forall r, v: VPage :: r in spaces && !KernelSlot(cfg, v.l4) ==> Walk(mem, r, v) == Lookup(spaces[r], v))
  }

  /** Linking a table changes nothing that can be seen. */
  lemma LinkRefines(cfg: Config, mem: Memory, roles: Roles, spaces: Spaces, p: nat, i: Index, q: nat)
    requires Linked(cfg, mem, roles) && Refines(cfg, mem, roles, spaces) && IsTable(cfg, roles, p, i) && !Present(mem[p][i])
    requires InPool(cfg, q) && q !in roles
    ensures Refines(cfg, mem[q := ZeroTable()][p := mem[p][i := LinkTo(q)]], roles[q := ChildRole(roles, p, i)], spaces)
  {
    var mem' := mem[q := ZeroTable()][p := mem[p][i := LinkTo(q)]];
    forall r, v: VPage | r in spaces && !KernelSlot(cfg, v.l4)
      ensures Walk(mem', r, v) == Lookup(spaces[r], v)
    {
      LinkWalk(cfg, mem, mem', roles, r, v, r, 4, p, i, q);
    }
  }

  /** The tables from the root down to the last one are in place for `v`. */
  predicate Path(mem: Memory, r: nat, v: VPage, p3: nat, p2: nat, p1: nat) {
    && r in mem && p3 in mem && p2 in mem && p1 in mem && p3 < PAGES && p2 < PAGES && p1 < PAGES
    && mem[r][v.l4] == LinkTo(p3) && mem[p3][v.l3] == LinkTo(p2) && mem[p2][v.l2] == LinkTo(p1)
  }

  /** Writing a leaf maps exactly one page of exactly one space. */
  lemma LeafRefines(cfg: Config, mem: Memory, roles: Roles, spaces: Spaces, r: nat, v: VPage, p3: nat, p2: nat, p1: nat, e: nat)
    requires Linked(cfg, mem, roles) && Refines(cfg, mem, roles, spaces) && r in spaces && !KernelSlot(cfg, v.l4)
    requires Path(mem, r, v, p3, p2, p1) && p1 in roles && roles[p1] == L1(r, v.l4, v.l3, v.l2) && Present(e)
    ensures Refines(cfg, mem[p1 := mem[p1][v.l1 := e]], roles, spaces[r := Remap(spaces[r], v, e)])
  {
    var mem', spaces' := mem[p1 := mem[p1][v.l1 := e]], spaces[r := Remap(spaces[r], v, e)];
    forall s, u: VPage | s in spaces' && !KernelSlot(cfg, u.l4)
      ensures Walk(mem', s, u) == Lookup(spaces'[s], u)
    {
      if s == r && u == v {
        LeafWalk(cfg, mem, roles, r, v, p3, p2, p1, e);
      } else {
        FrameWalk(cfg, mem, mem', roles, s, u, s, 4, p1, v.l1);
      }
    }
  }

  lemma LeafWalk(cfg: Config, mem: Memory, roles: Roles, r: nat, v: VPage, p3: nat, p2: nat, p1: nat, e: nat)
    requires Linked(cfg, mem, roles) && r in roles && roles[r] == Root && !KernelSlot(cfg, v.l4)
    requires Path(mem, r, v, p3, p2, p1) && p1 in roles && roles[p1] == L1(r, v.l4, v.l3, v.l2) && Present(e)
    ensures Walk(mem[p1 := mem[p1][v.l1 := e]], r, v) == Some(HitOf(e))
  {
    var mem' := mem[p1 := mem[p1][v.l1 := e]];
    LinkFacts(p3);
    LinkFacts(p2);
    LinkFacts(p1);
    assert EntryOk(cfg, mem, roles, r, v.l4);
    assert EntryOk(cfg, mem, roles, p3, v.l3);
    hide Linked, Present, User, Writable, Large, PageOf;
    assert WalkFrom(mem', p1, 1, v, true, true) == Some(HitOf(e));
    assert WalkFrom(mem', p2, 2, v, true, true) == WalkFrom(mem', p1, 1, v, true, true);
    assert WalkFrom(mem', p3, 3, v, true, true) == WalkFrom(mem', p2, 2, v, true, true);
  }

  /** Giving a fresh page a role of its own is seen, at most, as a new space with nothing in it. */
  lemma FreshRefines(cfg: Config, mem: Memory, roles: Roles, spaces: Spaces, q: nat, t: Table, role: Role)
    requires Linked(cfg, mem, roles) && Refines(cfg, mem, roles, spaces) && InPool(cfg, q) && q !in roles
    requires role == Data || (role == Root && t == cfg.boot[cfg.kernel])
    ensures Refines(cfg, mem[q := t], roles[q := role], if role == Root then spaces[q := map[]] else spaces)
  {
    var mem' := mem[q := t];
    var spaces' := if role == Root then spaces[q := map[]] else spaces;
    forall r, v: VPage | r in spaces' && !KernelSlot(cfg, v.l4)
      ensures Walk(mem', r, v) == Lookup(spaces'[r], v)
    {
      if r != q {
        UnusedPage(cfg, mem, roles, r, v, r, 4, q, t);
      }
    }
  }

  lemma {:induction false} UnusedPage(cfg: Config, mem: Memory, roles: Roles, r: nat, v: VPage, page: nat, level: nat, q: nat, t: Table)
    requires Linked(cfg, mem, roles) && 1 <= level <= 4 && At(cfg, roles, r, v, page, level) && q !in roles
    ensures WalkFrom(mem[q := t], page, level, v, true, true) == WalkFrom(mem, page, level, v, true, true)
    decreases level
  {
    hide Linked, Present, Large, User, Writable, PageOf;
    PagePresent(cfg, mem, roles, page);
    var e := mem[page][IndexAt(v, level)];
    if Present(e) && level > 1 {
      NextLevel(cfg, mem, roles, r, v, page, level);
      UnusedPage(cfg, mem, roles, r, v, PageOf(e), level - 1, q, t);
    }
  }

  // --- The operations on the pool -----------------------------------------------------------------

  datatype Pool = Pool(mem: Memory, next: nat)

  /** The pool afterwards, and the page asked for. */
  datatype Got = Got(pool: Pool, page: Option<nat>)

  /** The next page of the pool, zeroed; the index moves on even if there is none. */
  function Allocated(cfg: Config, s: Pool): Got {
    if s.next >= POOL_PAGES then Got(Pool(s.mem, s.next + 1), None)
    else Got(Pool(s.mem[cfg.poolBase + s.next := ZeroTable()], s.next + 1), Some(cfg.poolBase + s.next))
  }

  /** A store to a page; the contents of a page that is neither a table nor of the pool are not kept track of. */
  function Poke(mem: Memory, p: nat, i: Index, e: nat): Memory {
    if p in mem then mem[p := mem[p][i := e]] else mem
  }

  /** The table under an entry, allocated and linked if the entry is empty. Whether the entry maps a large page is not
      looked at. A page whose contents are not known, such as a device, is never descended into. */
  function Descended(cfg: Config, s: Pool, p: nat, i: Index): Got {
    if p !in s.mem then Got(s, None)
    else if Present(s.mem[p][i]) then Got(s, Some(PageOf(s.mem[p][i])))
    else
      var a := Allocated(cfg, s);
      if a.page.None? then a else Got(Pool(Poke(a.pool.mem, p, i, LinkTo(a.page.value)), a.pool.next), a.page)
  }

  datatype Mapped = Mapped(pool: Pool, ok: bool)

  /** `map_page`, with `e` for the leaf entry. */
  function MapOn(cfg: Config, s: Pool, root: nat, v: VPage, e: nat): Mapped {
    var d3 := Descended(cfg, s, root, v.l4);
    if d3.page.None? then Mapped(d3.pool, false)
    else
      var d2 := Descended(cfg, d3.pool, d3.page.value, v.l3);
      if d2.page.None? then Mapped(d2.pool, false)
      else
        var d1 := Descended(cfg, d2.pool, d2.page.value, v.l2);
        if d1.page.None? then Mapped(d1.pool, false)
        else Mapped(Pool(Poke(d1.pool.mem, d1.page.value, v.l1, e), d1.pool.next), true)
  }

  /** The state of the pool that goes with the roles: pages not handed out yet have none. */
  ghost predicate PoolOk(cfg: Config, s: Pool, roles: Roles) {
    Linked(cfg, s.mem, roles) && forall p :: p in roles ==> p < cfg.poolBase + s.next
  }
}

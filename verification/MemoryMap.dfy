/** Boot contract: validation of the memory map, and the usable total taken from it. */
module MemoryMap {

  const U64_LIMIT: nat := 0x1_0000_0000_0000_0000

  type u64 = n: nat | n < U64_LIMIT

  datatype Kind = Usable | Reserved | Bootloader | Kernel | Framebuffer | Mmio

  datatype Region = Region(start: u64, len: u64, kind: Kind)
  {
    /** One past the last byte; not a u64 when the region overflows. */
    function End(): nat { start + len }
  }

  datatype Error = EmptyMemoryMap | EmptyRegion | RegionOverflow | OverlappingRegions | NoUsableMemory

  datatype Verdict = Accepted | Refused(error: Error)

  // --- What the map has to be --------------------------------------------------------

  predicate Sound(r: Region) { r.len > 0 && r.End() < U64_LIMIT }

  predicate Disjoint(a: Region, b: Region) { a.End() <= b.start || b.End() <= a.start }

  ghost predicate PairwiseDisjoint(rs: seq<Region>) {
    forall i, j :: 0 <= i < j < |rs| ==> Disjoint(rs[i], rs[j])
  }

  ghost predicate AllSound(rs: seq<Region>) {
    forall i :: 0 <= i < |rs| ==> Sound(rs[i])
  }

  ghost predicate SomeUsable(rs: seq<Region>) {
    exists i :: 0 <= i < |rs| && rs[i].kind == Usable
  }

  ghost predicate Acceptable(rs: seq<Region>) {
    rs != [] && AllSound(rs) && PairwiseDisjoint(rs) && SomeUsable(rs)
  }

  // --- Stable sort by start ------------------------------------------------------------

  function Insert(r: Region, rs: seq<Region>): (s: seq<Region>)
    ensures |s| == |rs| + 1
  {
    if rs == [] then [r]
    else if rs[|rs| - 1].start <= r.start then rs + [r]
    else Insert(r, rs[..|rs| - 1]) + [rs[|rs| - 1]]
  }

  function SortByStart(rs: seq<Region>): (s: seq<Region>)
    ensures |s| == |rs|
  {
    if rs == [] then [] else Insert(rs[|rs| - 1], SortByStart(rs[..|rs| - 1]))
  }

  ghost predicate Sorted(rs: seq<Region>) {
    forall i, j :: 0 <= i < j < |rs| ==> rs[i].start <= rs[j].start
  }

  lemma {:induction false} InsertMembers(r: Region, rs: seq<Region>, i: nat)
    requires i < |Insert(r, rs)|
    ensures Insert(r, rs)[i] == r || Insert(r, rs)[i] in rs
    decreases |rs|
  {
    if rs != [] && rs[|rs| - 1].start > r.start && i < |rs| {
      InsertMembers(r, rs[..|rs| - 1], i);
    }
  }

  lemma {:induction false} InsertSorts(r: Region, rs: seq<Region>)
    requires Sorted(rs)
    ensures Sorted(Insert(r, rs))
    decreases |rs|
  {
    if rs != [] && rs[|rs| - 1].start > r.start {
      var front, last := rs[..|rs| - 1], rs[|rs| - 1];
      InsertSorts(r, front);
      forall i | 0 <= i < |Insert(r, front)|
        ensures Insert(r, front)[i].start <= last.start
      {
        InsertMembers(r, front, i);
      }
    }
  }

  lemma {:induction false} InsertKeeps(r: Region, rs: seq<Region>)
    ensures multiset(Insert(r, rs)) == multiset(rs) + multiset{r}
    decreases |rs|
  {
    if rs != [] && rs[|rs| - 1].start > r.start {
      InsertKeeps(r, rs[..|rs| - 1]);
      assert rs == rs[..|rs| - 1] + [rs[|rs| - 1]];
    }
  }

  lemma {:induction false} SortKeeps(rs: seq<Region>)
    ensures Sorted(SortByStart(rs)) && multiset(SortByStart(rs)) == multiset(rs)
    decreases |rs|
  {
    if rs != [] {
      SortKeeps(rs[..|rs| - 1]);
      InsertSorts(rs[|rs| - 1], SortByStart(rs[..|rs| - 1]));
      InsertKeeps(rs[|rs| - 1], SortByStart(rs[..|rs| - 1]));
      assert rs == rs[..|rs| - 1] + [rs[|rs| - 1]];
    }
  }

  // --- Properties that do not depend on order --------------------------------------------

  /** Two regions at different positions, counted with multiplicity, are disjoint. */
  ghost predicate DisjointBag(m: multiset<Region>) {
    forall a, b :: a in m && b in m && (a != b || m[a] > 1) ==> Disjoint(a, b)
  }

  lemma {:induction false} CountTwice(rs: seq<Region>, i: nat, j: nat)
    requires i < j < |rs| && rs[i] == rs[j]
    ensures multiset(rs)[rs[i]] > 1
  {
    var a, b := rs[..j], rs[j..];
    assert rs == a + b;
    assert a[i] in multiset(a) && b[0] in multiset(b);
  }

  lemma {:induction false} FindTwice(rs: seq<Region>, x: Region)
    requires multiset(rs)[x] > 1
    ensures exists i, j :: 0 <= i < j < |rs| && rs[i] == x && rs[j] == x
    decreases |rs|
  {
    var front, last := rs[..|rs| - 1], rs[|rs| - 1];
    assert rs == front + [last];
    if last == x {
      assert x in multiset(front);
      var i :| 0 <= i < |front| && front[i] == x;
      assert rs[i] == x && rs[|rs| - 1] == x;
    } else {
      FindTwice(front, x);
      var i, j :| 0 <= i < j < |front| && front[i] == x && front[j] == x;
      assert rs[i] == x && rs[j] == x;
    }
  }

  lemma PairwiseIsBag(rs: seq<Region>)
    ensures PairwiseDisjoint(rs) <==> DisjointBag(multiset(rs))
  {
    var m := multiset(rs);
    if PairwiseDisjoint(rs) {
      forall a, b | a in m && b in m && (a != b || m[a] > 1)
        ensures Disjoint(a, b)
      {
        if a == b {
          FindTwice(rs, a);
        } else {
          var i :| 0 <= i < |rs| && rs[i] == a;
          var j :| 0 <= j < |rs| && rs[j] == b;
          assert i < j || j < i;
        }
      }
    }
    if DisjointBag(m) {
      forall i, j | 0 <= i < j < |rs|
        ensures Disjoint(rs[i], rs[j])
      {
        assert rs[i] in m && rs[j] in m;
        if rs[i] == rs[j] {
          CountTwice(rs, i, j);
        }
      }
    }
  }

  /** On a sorted list of sound regions, neighbours decide. */
  ghost predicate NeighboursApart(rs: seq<Region>) {
    forall i :: 0 < i < |rs| ==> rs[i - 1].End() <= rs[i].start
  }

  lemma {:induction false} ApartFurther(rs: seq<Region>, i: nat, j: nat)
    requires AllSound(rs) && NeighboursApart(rs) && i < j < |rs|
    ensures rs[i].End() <= rs[j].start
    decreases j
  {
    if i < j - 1 {
      ApartFurther(rs, i, j - 1);
    }
  }

  lemma NeighboursDecide(rs: seq<Region>)
    requires Sorted(rs) && AllSound(rs)
    ensures PairwiseDisjoint(rs) <==> NeighboursApart(rs)
  {
    if NeighboursApart(rs) {
      forall i, j | 0 <= i < j < |rs|
        ensures Disjoint(rs[i], rs[j])
      {
        ApartFurther(rs, i, j);
      }
    }
    if PairwiseDisjoint(rs) {
      forall i | 0 < i < |rs|
        ensures rs[i - 1].End() <= rs[i].start
      {
        assert Disjoint(rs[i - 1], rs[i]) && Sound(rs[i]);
      }
    }
  }

  lemma SortedIsEquivalent(rs: seq<Region>)
    ensures var s := SortByStart(rs);
            && (AllSound(s) <==> AllSound(rs)) && (PairwiseDisjoint(s) <==> PairwiseDisjoint(rs))
            && (SomeUsable(s) <==> SomeUsable(rs))
  {
    var s := SortByStart(rs);
    SortKeeps(rs);
    PairwiseIsBag(s);
    PairwiseIsBag(rs);
    SameMembers(s, rs);
  }

  lemma SameMembers(s: seq<Region>, t: seq<Region>)
    requires multiset(s) == multiset(t)
    ensures (AllSound(s) <==> AllSound(t)) && (SomeUsable(s) <==> SomeUsable(t))
  {
    assert forall r :: r in s <==> r in multiset(s);
    assert forall r :: r in t <==> r in multiset(t);
    assert AllSound(s) <==> forall r :: r in s ==> Sound(r);
    assert AllSound(t) <==> forall r :: r in t ==> Sound(r);
    assert SomeUsable(s) <==> exists r :: r in s && r.kind == Usable;
    assert SomeUsable(t) <==> exists r :: r in t && r.kind == Usable;
  }

  // --- The validator ----------------------------------------------------------------------

  /** `validate_memory_map`: accepts exactly the acceptable maps, and names the first thing wrong with any other. */
  method ValidateMemoryMap(regions: seq<Region>) returns (v: Verdict)
    ensures v == Accepted <==> Acceptable(regions)
    ensures v == Refused(EmptyMemoryMap) <==> regions == []
    ensures v == Refused(EmptyRegion) || v == Refused(RegionOverflow) <==> !AllSound(regions)
    ensures v == Refused(OverlappingRegions) <==> AllSound(regions) && !PairwiseDisjoint(regions)
    ensures v == Refused(NoUsableMemory) <==> regions != [] && AllSound(regions) && PairwiseDisjoint(regions) && !SomeUsable(regions)
    ensures v == Refused(EmptyRegion) ==> exists k :: 0 <= k < |regions| && AllSound(regions[..k]) && regions[k].len == 0
    ensures v == Refused(RegionOverflow) ==> exists k :: 0 <= k < |regions| && AllSound(regions[..k]) && regions[k].len > 0
                                                         && regions[k].End() >= U64_LIMIT
  {
    if |regions| == 0 {
      return Refused(EmptyMemoryMap);
    }
    for k := 0 to |regions|
      invariant AllSound(regions[..k])
    {
      if regions[k].len == 0 {
        assert !Sound(regions[k]);
        return Refused(EmptyRegion);
      }
      if regions[k].End() >= U64_LIMIT {
        assert !Sound(regions[k]);
        return Refused(RegionOverflow);
      }
    }
    assert regions[..|regions|] == regions;
    SortKeeps(regions);
    SortedIsEquivalent(regions);
    hide SortByStart, PairwiseDisjoint, SomeUsable;
    v := CheckNeighbours(SortByStart(regions));
  }

  /** The second pass, over the regions in order. */
  method CheckNeighbours(sorted: seq<Region>) returns (v: Verdict)
    requires Sorted(sorted) && AllSound(sorted)
    ensures v == if !PairwiseDisjoint(sorted) then Refused(OverlappingRegions)
                 else if SomeUsable(sorted) then Accepted else Refused(NoUsableMemory)
  {
    NeighboursDecide(sorted);
    hide PairwiseDisjoint;
    var usable := false;
    for i := 0 to |sorted|
      invariant forall k :: 0 < k < i ==> sorted[k - 1].End() <= sorted[k].start
      invariant usable <==> exists k :: 0 <= k < i && sorted[k].kind == Usable
    {
      if i > 0 && sorted[i].start < sorted[i - 1].End() {
        return Refused(OverlappingRegions);
      }
      if sorted[i].kind == Usable {
        usable := true;
      }
    }
    if !usable {
      return Refused(NoUsableMemory);
    }
    v := Accepted;
  }

  // --- The usable total fits ------------------------------------------------------------------

  function UsableBytes(rs: seq<Region>): nat {
    if rs == [] then 0
    else UsableBytes(rs[..|rs| - 1]) + if rs[|rs| - 1].kind == Usable then rs[|rs| - 1].len else 0
  }

  function Total(m: seq<Region>): nat {
    if m == [] then 0 else Total(m[..|m| - 1]) + m[|m| - 1].len
  }

  /** Regions laid end to end in order take no more room than the last one's end. */
  lemma {:induction false} TotalBelowEnd(rs: seq<Region>)
    requires NeighboursApart(rs) && rs != []
    ensures Total(rs) <= rs[|rs| - 1].End()
    decreases |rs|
  {
    if |rs| > 1 {
      TotalBelowEnd(rs[..|rs| - 1]);
    } else {
      assert Total(rs[..0]) == 0;
    }
  }

  lemma {:induction false} TotalInsert(r: Region, rs: seq<Region>)
    ensures Total(Insert(r, rs)) == Total(rs) + r.len
    decreases |rs|
  {
    if rs == [] {
      assert Insert(r, rs)[..0] == [];
    } else if rs[|rs| - 1].start <= r.start {
      assert (rs + [r])[..|rs|] == rs;
    } else {
      TotalInsert(r, rs[..|rs| - 1]);
      assert Insert(r, rs)[..|rs|] == Insert(r, rs[..|rs| - 1]);
    }
  }

  lemma {:induction false} TotalSorted(rs: seq<Region>)
    ensures Total(SortByStart(rs)) == Total(rs)
    decreases |rs|
  {
    if rs != [] {
      TotalSorted(rs[..|rs| - 1]);
      TotalInsert(rs[|rs| - 1], SortByStart(rs[..|rs| - 1]));
    }
  }

  lemma {:induction false} UsableBelowTotal(rs: seq<Region>, n: nat)
    requires n <= |rs|
    ensures UsableBytes(rs[..n]) <= UsableBytes(rs) <= Total(rs)
    decreases |rs|
  {
    if n < |rs| {
      assert rs[..|rs| - 1][..n] == rs[..n];
      UsableBelowTotal(rs[..|rs| - 1], n);
    } else {
      assert rs[..n] == rs;
      if rs != [] {
        UsableBelowTotal(rs[..|rs| - 1], 0);
      }
    }
  }

  /** On every accepted map, the usable total and every partial sum of it fit in 64 bits. */
  lemma UsableBytesFit(rs: seq<Region>, n: nat)
    requires Acceptable(rs) && n <= |rs|
    ensures UsableBytes(rs[..n]) <= UsableBytes(rs) < U64_LIMIT
  {
    var s := SortByStart(rs);
    SortKeeps(rs);
    SortedIsEquivalent(rs);
    NeighboursDecide(s);
    TotalBelowEnd(s);
    TotalSorted(rs);
    UsableBelowTotal(rs, n);
    assert Sound(s[|s| - 1]);
  }

  // --- The usable total is the number of usable addresses ----------------------------------------

  predicate UsableAt(rs: seq<Region>, a: nat) {
    exists k :: 0 <= k < |rs| && rs[k].kind == Usable && rs[k].start <= a < rs[k].End()
  }

  ghost function UsableAddresses(rs: seq<Region>): set<nat> {
    set a: nat | a < 2 * U64_LIMIT && UsableAt(rs, a)
  }

  predicate Between(a: nat, lo: nat, n: nat) {
    lo <= a < lo + n
  }

  ghost function Interval(lo: nat, n: nat): set<nat> {
    set a: nat | a < lo + n && Between(a, lo, n)
  }

  lemma {:induction false} IntervalSize(lo: nat, n: nat)
    ensures |Interval(lo, n)| == n
    decreases n
  {
    if n > 0 {
      IntervalSize(lo, n - 1);
      assert Interval(lo, n) == Interval(lo, n - 1) + {lo + (n - 1)};
    } else {
      assert Interval(lo, 0) == {};
    }
  }

  /** No address is counted twice, and none that is not usable. */
  lemma {:induction false} UsableBytesCount(rs: seq<Region>)
    requires PairwiseDisjoint(rs)
    ensures UsableBytes(rs) == |UsableAddresses(rs)|
    decreases |rs|
  {
    if rs == [] {
      assert UsableAddresses(rs) == {};
    } else {
      var front, r := rs[..|rs| - 1], rs[|rs| - 1];
      UsableBytesCount(front);
      if r.kind == Usable {
        IntervalSize(r.start, r.len);
        LastAdds(rs);
        LastApart(rs);
      } else {
        assert UsableAddresses(rs) == UsableAddresses(front) by { LastSkipped(rs); }
      }
    }
  }

  lemma LastAdds(rs: seq<Region>)
    requires rs != [] && rs[|rs| - 1].kind == Usable
    ensures UsableAddresses(rs) == UsableAddresses(rs[..|rs| - 1]) + Interval(rs[|rs| - 1].start, rs[|rs| - 1].len)
  {
    var front, r := rs[..|rs| - 1], rs[|rs| - 1];
    forall a: nat | a < 2 * U64_LIMIT
      ensures UsableAt(rs, a) <==> UsableAt(front, a) || a in Interval(r.start, r.len)
    {
      if UsableAt(front, a) {
        var k :| 0 <= k < |front| && front[k].kind == Usable && front[k].start <= a < front[k].End();
        assert rs[k] == front[k];
      }
      if UsableAt(rs, a) && !(r.start <= a < r.End()) {
        var k :| 0 <= k < |rs| && rs[k].kind == Usable && rs[k].start <= a < rs[k].End();
        assert rs[k] == front[k];
      }
    }
  }

  lemma LastApart(rs: seq<Region>)
    requires rs != [] && PairwiseDisjoint(rs)
    ensures UsableAddresses(rs[..|rs| - 1]) !! Interval(rs[|rs| - 1].start, rs[|rs| - 1].len)
  {
    var front, r := rs[..|rs| - 1], rs[|rs| - 1];
    forall a: nat | UsableAt(front, a)
      ensures a !in Interval(r.start, r.len)
    {
      var k :| 0 <= k < |front| && front[k].kind == Usable && front[k].start <= a < front[k].End();
      assert Disjoint(rs[k], rs[|rs| - 1]);
    }
  }

  lemma LastSkipped(rs: seq<Region>)
    requires rs != [] && rs[|rs| - 1].kind != Usable
    ensures forall a: nat :: UsableAt(rs, a) <==> UsableAt(rs[..|rs| - 1], a)
  {
    var front := rs[..|rs| - 1];
    forall a: nat
      ensures UsableAt(rs, a) <==> UsableAt(front, a)
    {
      if UsableAt(front, a) {
        var k :| 0 <= k < |front| && front[k].kind == Usable && front[k].start <= a < front[k].End();
        assert rs[k] == front[k];
      }
      if UsableAt(rs, a) {
        var k :| 0 <= k < |rs| && rs[k].kind == Usable && rs[k].start <= a < rs[k].End();
        assert rs[k] == front[k];
      }
    }
  }

  /** The sum `plan_boot` takes over an accepted map: it never overflows, and it is the number of usable addresses. */
  method SumUsable(regions: seq<Region>) returns (total: u64)
    requires Acceptable(regions)
    ensures total == UsableBytes(regions) == |UsableAddresses(regions)|
  {
    total := 0;
    for i := 0 to |regions|
      invariant total == UsableBytes(regions[..i])
    {
      assert regions[..i + 1][..i] == regions[..i];
      UsableBytesFit(regions, i + 1);
      if regions[i].kind == Usable {
        total := total + regions[i].len;
      }
    }
    assert regions[..|regions|] == regions;
    UsableBytesCount(regions);
  }
}

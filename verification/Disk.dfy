/** A disk of atomic 512-byte sectors, and lists of sector writes.
    A crash keeps a prefix of the list that was being written. */
module Disk {
  import opened Bytes

  const SECTOR_SIZE: nat := 512
  const DISK_SECTORS: nat := 1600

  type Sector = s: seq<byte> | |s| == SECTOR_SIZE witness Zeros(SECTOR_SIZE)
  type Image = d: seq<Sector> | |d| == DISK_SECTORS witness seq<Sector>(DISK_SECTORS, _ => ZERO_SECTOR)
  const ZERO_SECTOR: Sector := Zeros(SECTOR_SIZE)
  type SectorNo = n: nat | n < DISK_SECTORS

  datatype Write = Write(at: SectorNo, data: Sector)

  /** The disk after the writes `ws`, in order. */
  function Apply(d: Image, ws: seq<Write>): Image {
    if ws == [] then d
    else
      var w := ws[|ws| - 1];
      Apply(d, ws[..|ws| - 1])[w.at := w.data]
  }

  /** `n` is the number of writes that still reach the disk before it stops answering:
      either all of `ws` landed, or exactly the first `n` did and the caller was told so. */
  ghost predicate Ran(d: Image, n: nat, ws: seq<Write>, d': Image, n': nat, ok: bool) {
    if |ws| <= n then
      ok && d' == Apply(d, ws) && n' == n - |ws|
    else
      !ok && d' == Apply(d, ws[..n]) && n' == 0
  }

  lemma {:induction false} ApplyConcat(d: Image, a: seq<Write>, b: seq<Write>)
    ensures Apply(d, a + b) == Apply(Apply(d, a), b)
    decreases |b|
  {
    if b == [] {
      assert a + b == a;
    } else {
      var n := |b| - 1;
      assert (a + b)[..|a + b| - 1] == a + b[..n];
      ApplyConcat(d, a, b[..n]);
    }
  }

  /** Running `b` after a complete run of `a`. */
  lemma RanThen(d0: Image, n0: nat, a: seq<Write>, d1: Image, n1: nat, b: seq<Write>, d2: Image, n2: nat, ok: bool)
    requires Ran(d0, n0, a, d1, n1, true)
    requires Ran(d1, n1, b, d2, n2, ok)
    ensures Ran(d0, n0, a + b, d2, n2, ok)
  {
    ApplyConcat(d0, a, b);
    if !ok {
      ApplyConcat(d0, a, b[..n1]);
      assert (a + b)[..n0] == a + b[..n1];
    }
  }

  /** A run of `a` that stopped is a run of `a + b` that stopped at the same write. */
  lemma RanStopped(d0: Image, n0: nat, a: seq<Write>, d1: Image, n1: nat, b: seq<Write>)
    requires Ran(d0, n0, a, d1, n1, false)
    ensures Ran(d0, n0, a + b, d1, n1, false)
  {
    assert (a + b)[..n0] == a[..n0];
  }

  // --- Runs of consecutive sectors ---------------------------------------------

  /** The sectors `ss` written one after the other from `base` on. */
  function BlockWrites(base: nat, ss: seq<Sector>): (ws: seq<Write>)
    requires base + |ss| <= DISK_SECTORS
    ensures |ws| == |ss|
  {
    seq(|ss|, i requires 0 <= i < |ss| => Write(base + i, ss[i]))
  }

  /** `d` with the sectors from `base` on replaced by `ss`. */
  function Splice(d: Image, base: nat, ss: seq<Sector>): (d': Image)
    requires base + |ss| <= DISK_SECTORS
  {
    d[..base] + ss + d[base + |ss|..]
  }

  lemma {:induction false} ApplyBlock(d: Image, base: nat, ss: seq<Sector>)
    requires base + |ss| <= DISK_SECTORS
    ensures Apply(d, BlockWrites(base, ss)) == Splice(d, base, ss)
    decreases |ss|
  {
    if ss == [] {
      assert Splice(d, base, ss) == d;
    } else {
      var n := |ss| - 1;
      assert BlockWrites(base, ss)[..n] == BlockWrites(base, ss[..n]);
      ApplyBlock(d, base, ss[..n]);
      assert Splice(d, base, ss) == Splice(d, base, ss[..n])[base + n := ss[n]];
    }
  }

  lemma ApplyBlockPrefix(d: Image, base: nat, ss: seq<Sector>, k: nat)
    requires base + |ss| <= DISK_SECTORS && k <= |ss|
    ensures Apply(d, BlockWrites(base, ss)[..k]) == Splice(d, base, ss[..k])
  {
    assert BlockWrites(base, ss)[..k] == BlockWrites(base, ss[..k]);
    ApplyBlock(d, base, ss[..k]);
  }

  /** A prefix of `a + b` either stops inside `a` or contains all of `a`. */
  lemma ApplyPrefix(d: Image, a: seq<Write>, b: seq<Write>, k: nat)
    requires k <= |a| + |b|
    ensures Apply(d, (a + b)[..k]) == if k <= |a| then Apply(d, a[..k]) else Apply(Apply(d, a), b[..k - |a|])
  {
    if k <= |a| {
      assert (a + b)[..k] == a[..k];
    } else {
      assert (a + b)[..k] == a + b[..k - |a|];
      ApplyConcat(d, a, b[..k - |a|]);
    }
  }

  // --- Byte strings across sectors ------------------------------------------------

  /** The bytes of `n` consecutive sectors. */
  function Joined(d: Image, base: nat, n: nat): (b: seq<byte>)
    requires base + n <= DISK_SECTORS
    ensures |b| == n * SECTOR_SIZE
  {
    seq(n * SECTOR_SIZE, i requires 0 <= i < n * SECTOR_SIZE => d[base + i / SECTOR_SIZE][i % SECTOR_SIZE])
  }

  lemma JoinedSnoc(d: Image, base: nat, n: nat)
    requires base + n + 1 <= DISK_SECTORS
    ensures Joined(d, base, n + 1) == Joined(d, base, n) + d[base + n]
  {
    var a, b := Joined(d, base, n + 1), Joined(d, base, n) + d[base + n];
    forall i | 0 <= i < |a|
      ensures a[i] == b[i]
    {
      if i >= n * SECTOR_SIZE {
        assert i / SECTOR_SIZE == n && i % SECTOR_SIZE == i - n * SECTOR_SIZE;
      }
    }
  }

  /** Equal sectors hold equal bytes. */
  lemma JoinedSame(d: Image, d': Image, base: nat, n: nat)
    requires base + n <= DISK_SECTORS
    requires d[base..base + n] == d'[base..base + n]
    ensures Joined(d, base, n) == Joined(d', base, n)
  {
    forall i | 0 <= i < n * SECTOR_SIZE
      ensures Joined(d, base, n)[i] == Joined(d', base, n)[i]
    {
      var q := i / SECTOR_SIZE;
      assert d[base..base + n][q] == d'[base..base + n][q];
    }
  }

  function SectorsFor(len: nat): nat {
    (len + SECTOR_SIZE - 1) / SECTOR_SIZE
  }

  /** `raw` cut into sectors, the last one filled with zeros. */
  function Chunks(raw: seq<byte>): (ss: seq<Sector>)
    ensures |ss| == SectorsFor(|raw|)
  {
    seq(SectorsFor(|raw|), i requires 0 <= i < SectorsFor(|raw|) => Chunk(raw, i))
  }

  function Chunk(raw: seq<byte>, i: nat): (s: Sector)
    requires i < SectorsFor(|raw|)
  {
    var start := i * SECTOR_SIZE;
    var end := if start + SECTOR_SIZE < |raw| then start + SECTOR_SIZE else |raw|;
    raw[start..end] + Zeros(SECTOR_SIZE - (end - start))
  }

  /** The first `len` bytes stored from sector `base` on. */
  function BlobAt(d: Image, base: nat, len: nat): (b: seq<byte>)
    requires base + SectorsFor(len) <= DISK_SECTORS
    ensures |b| == len
  {
    Joined(d, base, SectorsFor(len))[..len]
  }

  lemma WrittenBlobReadsBack(d: Image, base: nat, raw: seq<byte>)
    requires base + SectorsFor(|raw|) <= DISK_SECTORS
    requires d[base..base + SectorsFor(|raw|)] == Chunks(raw)
    ensures BlobAt(d, base, |raw|) == raw
  {
    var n := SectorsFor(|raw|);
    forall i | 0 <= i < |raw|
      ensures BlobAt(d, base, |raw|)[i] == raw[i]
    {
      var q := i / SECTOR_SIZE;
      assert q < n;
      assert d[base + q] == d[base..base + n][q] == Chunk(raw, q);
    }
  }
}

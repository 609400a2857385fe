/** CRC-32 (clause 3.2.9 of IEEE 802.3, reflected), bit by bit, and the errors it always catches. */
module Crc {
  import opened Bytes
  import opened Bits

  const POLY: nat := 0xEDB8_8320
  const ONES: nat := 0xFFFF_FFFF

  type Register = r: nat | r <= ONES

  /** One shift of the register. */
  function Shift(r: Register): Register {
    ShiftBound(r);
    if r % 2 == 1 then Xor(r / 2, POLY) else r / 2
  }

  lemma ShiftBound(r: Register)
    ensures Xor(r / 2, POLY) <= ONES
  {
    PowersOfTwo();
    XorBound(r / 2, POLY, 32);
  }

  lemma PowersOfTwo()
    ensures Pow2(8) == 0x100 && Pow2(16) == 0x1_0000 && Pow2(24) == 0x100_0000 && Pow2(31) == 0x8000_0000 && Pow2(32) == 0x1_0000_0000
  {
    assert Pow2(8) == 0x100;
    assert Pow2(12) == 0x1000;
    assert Pow2(16) == 0x1_0000;
    assert Pow2(20) == 0x10_0000;
    assert Pow2(24) == 0x100_0000;
    assert Pow2(28) == 0x1000_0000;
    assert Pow2(31) == 0x8000_0000;
  }

  function Shifts(r: Register, n: nat): Register {
    if n == 0 then r else Shift(Shifts(r, n - 1))
  }

  /** The register after one more byte. */
  function Step(r: Register, b: byte): Register {
    XorRegisters(r, b);
    Shifts(Xor(r, b), 8)
  }

  lemma XorRegisters(x: Register, y: Register)
    ensures Xor(x, y) <= ONES
  {
    PowersOfTwo();
    XorBound(x, y, 32);
  }

  /** The register after `s`, starting from `r`. */
  function Feed(r: Register, s: seq<byte>): Register {
    if s == [] then r else Step(Feed(r, s[..|s| - 1]), s[|s| - 1])
  }

  /** The checksum of `s`. */
  function Crc32(s: seq<byte>): (crc: nat)
    ensures crc <= ONES
  {
    ONES - Feed(ONES, s)
  }

  function Flatten(parts: seq<seq<byte>>): seq<byte> {
    if parts == [] then [] else Flatten(parts[..|parts| - 1]) + parts[|parts| - 1]
  }

  lemma {:induction false} FeedConcat(r: Register, a: seq<byte>, b: seq<byte>)
    ensures Feed(r, a + b) == Feed(Feed(r, a), b)
    decreases |b|
  {
    if b == [] {
      assert a + b == a;
    } else {
      assert (a + b)[..|a + b| - 1] == a + b[..|b| - 1];
      FeedConcat(r, a, b[..|b| - 1]);
    }
  }

  /** `crc32`: the checksum of the concatenation, however it is cut into parts. */
  method Checksum(parts: seq<seq<byte>>) returns (sum: nat)
    ensures sum == Crc32(Flatten(parts))
  {
    var crc: Register := ONES;
    for i := 0 to |parts|
      invariant crc == Feed(ONES, Flatten(parts[..i]))
    {
      var part := parts[i];
      ghost var before := crc;
      for j := 0 to |part|
        invariant crc == Feed(before, part[..j])
      {
        XorRegisters(crc, part[j]);
        crc := Xor(crc, part[j]);
        ghost var mixed := crc;
        for k := 0 to 8
          invariant crc == Shifts(mixed, k)
        {
          ShiftBound(crc);
          crc := if crc % 2 == 1 then Xor(crc / 2, POLY) else crc / 2;
        }
        assert part[..j + 1][..j] == part[..j];
      }
      assert part[..|part|] == part;
      assert parts[..i + 1][..i] == parts[..i];
      FeedConcat(ONES, Flatten(parts[..i]), part);
    }
    assert parts[..|parts|] == parts;
    sum := ONES - crc;
  }

  // --- The register update is linear and loses nothing --------------------------------

  lemma ShiftLinear(x: Register, y: Register)
    ensures Xor(x, y) <= ONES
    ensures Shift(Xor(x, y)) == Xor(Shift(x), Shift(y))
  {
    XorRegisters(x, y);
    XorHalves(x, y);
    var a, b := x / 2, y / 2;
    if x % 2 == 1 && y % 2 == 1 {
      XorSwapsMiddle(a, POLY, b, POLY);
      XorSelf(POLY);
      XorZero(Xor(a, b));
    } else if x % 2 == 1 {
      XorAssociates(a, POLY, b);
      XorCommutes(POLY, b);
      XorAssociates(a, b, POLY);
    } else if y % 2 == 1 {
      XorAssociates(a, b, POLY);
    }
  }

  lemma {:induction false} ShiftsLinear(x: Register, y: Register, n: nat)
    ensures Xor(x, y) <= ONES
    ensures Shifts(Xor(x, y), n) == Xor(Shifts(x, n), Shifts(y, n))
    decreases n
  {
    XorRegisters(x, y);
    if n > 0 {
      ShiftsLinear(x, y, n - 1);
      ShiftLinear(Shifts(x, n - 1), Shifts(y, n - 1));
    }
  }

  /** The polynomial sets the top bit, which an even register can never have after the shift. */
  lemma ShiftInjective(x: Register, y: Register)
    requires Shift(x) == Shift(y)
    ensures x == y
  {
    if x % 2 == y % 2 {
      if x % 2 == 1 {
        XorInjective(x / 2, y / 2, POLY);
      }
    } else {
      var odd, even := if x % 2 == 1 then x else y, if x % 2 == 1 then y else x;
      assert Xor(odd / 2, POLY) == even / 2;
      XorCommutes(odd / 2, POLY);
      XorCancels(POLY, odd / 2);
      PowersOfTwo();
      XorBound(even / 2, odd / 2, 31);
    }
  }

  lemma {:induction false} ShiftsInjective(x: Register, y: Register, n: nat)
    requires Shifts(x, n) == Shifts(y, n)
    ensures x == y
    decreases n
  {
    if n > 0 {
      ShiftInjective(Shifts(x, n - 1), Shifts(y, n - 1));
      ShiftsInjective(x, y, n - 1);
    }
  }

  lemma StepInjective(x: Register, y: Register, b: byte)
    requires Step(x, b) == Step(y, b)
    ensures x == y
  {
    XorRegisters(x, b);
    XorRegisters(y, b);
    ShiftsInjective(Xor(x, b), Xor(y, b), 8);
    XorInjective(x, y, b);
  }

  /** Different registers stay different while the same bytes go in. */
  lemma {:induction false} FeedInjective(x: Register, y: Register, s: seq<byte>)
    requires Feed(x, s) == Feed(y, s)
    ensures x == y
    decreases |s|
  {
    if s != [] {
      var front := s[..|s| - 1];
      StepInjective(Feed(x, front), Feed(y, front), s[|s| - 1]);
      FeedInjective(x, y, front);
    }
  }

  lemma ShiftEven(w: nat)
    requires 2 * w <= ONES
    ensures Shift(2 * w) == w
  {
  }

  /** Eight shifts of a register whose low byte is clear move it down by one byte. */
  lemma ShiftsDown(w: nat)
    requires 0x100 * w <= ONES
    ensures Shifts(0x100 * w, 8) == w
  {
    hide Shift;
    var r: Register := 0x100 * w;
    ShiftEven(0x80 * w);
    assert Shifts(r, 1) == 0x80 * w;
    ShiftEven(0x40 * w);
    assert Shifts(r, 2) == 0x40 * w;
    ShiftEven(0x20 * w);
    assert Shifts(r, 3) == 0x20 * w;
    ShiftEven(0x10 * w);
    assert Shifts(r, 4) == 0x10 * w;
    ShiftEven(8 * w);
    assert Shifts(r, 5) == 8 * w;
    ShiftEven(4 * w);
    assert Shifts(r, 6) == 4 * w;
    ShiftEven(2 * w);
    assert Shifts(r, 7) == 2 * w;
    ShiftEven(w);
  }

  /** The difference two registers and two bytes leave. */
  lemma StepDifference(x: Register, y: Register, b: byte, c: byte)
    ensures Xor(x, y) <= ONES && Xor(Xor(x, y), Xor(b, c)) <= ONES
    ensures Xor(Step(x, b), Step(y, c)) == Shifts(Xor(Xor(x, y), Xor(b, c)), 8)
  {
    XorRegisters(x, b);
    XorRegisters(y, c);
    XorRegisters(x, y);
    ByteXor(b, c);
    XorRegisters(Xor(x, y), Xor(b, c));
    ShiftsLinear(Xor(x, b), Xor(y, c), 8);
    XorSwapsMiddle(x, b, y, c);
  }

  lemma ByteXor(b: byte, c: byte)
    ensures Xor(b, c) < 256
    ensures Xor(b, c) == 0 <==> b == c
  {
    PowersOfTwo();
    XorBound(b, c, 8);
    XorSelf(c);
    if Xor(b, c) == 0 {
      XorInjective(b, c, c);
    }
  }

  /** If a difference `e` absorbs the byte difference `d` and comes out as `out`, it was `out` moved up one byte plus `d`. */
  lemma Rewind(e: Register, d: nat, out: nat)
    requires d < 256 && out < 0x100_0000
    requires Xor(e, d) <= ONES && Shifts(Xor(e, d), 8) == out
    ensures e == 0x100 * out + d
  {
    hide Xor, Shifts;
    ShiftsDown(out);
    ShiftsInjective(Xor(e, d), 0x100 * out, 8);
    XorCancels(e, d);
    PowersOfTwo();
    XorAdds(out, d, 8);
  }

  /** Four byte pairs starting from equal registers: they end equal only if all four pairs are equal. */
  lemma FourBytes(r: Register, s: seq<byte>, t: seq<byte>)
    requires |s| == |t| == 4 && Feed(r, s) == Feed(r, t)
    ensures s == t
  {
    hide Xor, Shifts, Step, Feed;
    var d0, d1, d2, d3 := Xor(s[0], t[0]), Xor(s[1], t[1]), Xor(s[2], t[2]), Xor(s[3], t[3]);
    var x1, y1 := Step(r, s[0]), Step(r, t[0]);
    var x2, y2 := Step(x1, s[1]), Step(y1, t[1]);
    var x3, y3 := Step(x2, s[2]), Step(y2, t[2]);
    FeedFour(r, s);
    FeedFour(r, t);
    ByteXor(s[0], t[0]);
    ByteXor(s[1], t[1]);
    ByteXor(s[2], t[2]);
    ByteXor(s[3], t[3]);
    StepDifference(r, r, s[0], t[0]);
    StepDifference(x1, y1, s[1], t[1]);
    StepDifference(x2, y2, s[2], t[2]);
    StepDifference(x3, y3, s[3], t[3]);
    XorSelf(r);
    XorSelf(Step(x3, s[3]));
    Rewind(Xor(x3, y3), d3, 0);
    Rewind(Xor(x2, y2), d2, d3);
    Rewind(Xor(x1, y1), d1, 0x100 * d3 + d2);
    Rewind(0, d0, 0x100 * (0x100 * d3 + d2) + d1);
  }

  lemma FeedFour(r: Register, s: seq<byte>)
    requires |s| == 4
    ensures Feed(r, s) == Step(Step(Step(Step(r, s[0]), s[1]), s[2]), s[3])
  {
    assert s[..3][..2] == s[..2] && s[..2][..1] == s[..1] && s[..1][..0] == [];
    assert Feed(r, s[..1]) == Step(r, s[0]);
    assert Feed(r, s[..2]) == Step(Feed(r, s[..1]), s[1]);
    assert Feed(r, s[..3]) == Step(Feed(r, s[..2]), s[2]);
  }

  /** `s` and `t` have the same length and differ only among the four bytes from `w` on. */
  ghost predicate DifferWithin(s: seq<byte>, t: seq<byte>, w: nat) {
    |s| == |t| && forall i :: 0 <= i < |s| && !(w <= i < w + 4) ==> s[i] == t[i]
  }

  /** A burst inside a whole window, between a common prefix and a common suffix. */
  lemma BurstInside(a: seq<byte>, b: seq<byte>, b': seq<byte>, c: seq<byte>)
    requires |b| == |b'| == 4 && Feed(ONES, a + (b + c)) == Feed(ONES, a + (b' + c))
    ensures b == b'
  {
    hide Feed;
    FeedConcat(ONES, a, b + c);
    FeedConcat(ONES, a, b' + c);
    var r := Feed(ONES, a);
    FeedConcat(r, b, c);
    FeedConcat(r, b', c);
    FeedInjective(Feed(r, b), Feed(r, b'), c);
    FourBytes(r, b, b');
  }

  /** A burst that may reach past the end: equal registers stay equal when the same bytes are appended, so the window may
      be taken to be whole. */
  lemma BurstAtEnd(s: seq<byte>, t: seq<byte>, w: nat)
    requires DifferWithin(s, t, w) && w < |s| && Feed(ONES, s) == Feed(ONES, t)
    ensures s == t
  {
    hide Feed;
    var pad := [0, 0, 0, 0];
    var u, v := s + pad, t + pad;
    FeedConcat(ONES, s, pad);
    FeedConcat(ONES, t, pad);
    WholeWindow(u, v, w);
    assert s == u[..|s|] && t == v[..|t|];
  }

  lemma WholeWindow(u: seq<byte>, v: seq<byte>, w: nat)
    requires DifferWithin(u, v, w) && w + 4 <= |u| && Feed(ONES, u) == Feed(ONES, v)
    ensures u == v
  {
    hide Feed;
    var a, b, b', c := u[..w], u[w..w + 4], v[w..w + 4], u[w + 4..];
    assert u == a + (b + c) && v == a + (b' + c);
    BurstInside(a, b, b', c);
  }

  /** Any damage confined to four consecutive bytes changes the checksum. */
  lemma DetectsFourByteBursts(s: seq<byte>, t: seq<byte>, w: nat)
    requires DifferWithin(s, t, w)
    ensures Crc32(s) == Crc32(t) <==> s == t
  {
    hide Feed;
    if w >= |s| {
      assert s == t;
    } else if Crc32(s) == Crc32(t) {
      BurstAtEnd(s, t, w);
    }
  }
}

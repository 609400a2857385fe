/** The checksum as clause 3.2.9 of IEEE 802.3 defines it: the message is a polynomial over the field of two elements, and
    the checksum is the remainder of a long division. */
module CrcPolynomial {
  import opened Bytes
  import opened Bits
  import opened Crc

  /** Coefficients, the highest power first. */
  type Polynomial = seq<bool>

  /** The generator is x^32 plus these powers. */
  const POWERS: set<nat> := {26, 23, 22, 16, 12, 11, 10, 8, 7, 5, 4, 2, 1, 0}

  /** The generator after its leading term. */
  function Tail(): Polynomial {
    seq(32, i requires 0 <= i < 32 => 31 - i in POWERS)
  }

  /** Addition, which is also subtraction, with `q` lined up at the highest power of `p`. */
  function Plus(p: Polynomial, q: Polynomial): Polynomial {
    seq(|p|, i requires 0 <= i < |p| => p[i] != (i < |q| && q[i]))
  }

  /** Long division by the generator: while a power above 31 is left, take away the generator lined up with it. */
  function Remainder(p: Polynomial): Polynomial
    decreases |p|
  {
    if |p| <= 32 then p else Remainder(if p[0] then Plus(p[1..], Tail()) else p[1..])
  }

  /** The low `n` bits of `r`, the lowest first. */
  function BitsOf(r: nat, n: nat): (bits: seq<bool>)
    ensures |bits| == n
  {
    if n == 0 then [] else [r % 2 == 1] + BitsOf(r / 2, n - 1)
  }

  /** Bytes in order, each from its lowest bit, as they go over the wire. */
  function Message(s: seq<byte>): Polynomial {
    if s == [] then [] else Message(s[..|s| - 1]) + BitsOf(s[|s| - 1], 8)
  }

  function Same(b: bool, n: nat): (p: Polynomial)
    ensures |p| == n
  {
    seq(n, _ => b)
  }

  function Complement(p: Polynomial): Polynomial {
    seq(|p|, i requires 0 <= i < |p| => !p[i])
  }

  // --- Long division, one coefficient at a time -----------------------------------------

  /** The remainder so far, with one more coefficient brought down. */
  function Bring(r: Polynomial, b: bool): Polynomial
    requires |r| == 32
  {
    if r[0] != b then Plus(r[1..] + [false], Tail()) else r[1..] + [false]
  }

  function Serial(r: Polynomial, m: Polynomial): (out: Polynomial)
    requires |r| == 32
    ensures |out| == 32
    decreases |m|
  {
    if m == [] then r else Serial(Bring(r, m[0]), m[1..])
  }

  lemma {:induction false} SerialConcat(r: Polynomial, a: Polynomial, b: Polynomial)
    requires |r| == 32
    ensures Serial(r, a + b) == Serial(Serial(r, a), b)
    decreases |a|
  {
    if a == [] {
      assert a + b == b;
    } else {
      assert (a + b)[1..] == a[1..] + b;
      SerialConcat(Bring(r, a[0]), a[1..], b);
    }
  }

  /** Bringing coefficients down one at a time is long division of the whole. */
  lemma {:induction false} SerialDivides(r: Polynomial, m: Polynomial)
    requires |r| == 32
    ensures Remainder(Plus(m + Same(false, 32), r)) == Serial(r, m)
    decreases |m|
  {
    var p := Plus(m + Same(false, 32), r);
    if m == [] {
      assert p == r;
    } else {
      var r' := Bring(r, m[0]);
      var q := if p[0] then Plus(p[1..], Tail()) else p[1..];
      assert q == Plus(m[1..] + Same(false, 32), r');
      SerialDivides(r', m[1..]);
    }
  }

  // --- Registers as coefficients -----------------------------------------------------------

  lemma {:induction false} BitsXor(a: nat, b: nat, n: nat)
    ensures BitsOf(Xor(a, b), n) == Plus(BitsOf(a, n), BitsOf(b, n))
    decreases n
  {
    if n > 0 {
      XorHalves(a, b);
      BitsXor(a / 2, b / 2, n - 1);
    }
  }

  /** A number below 2^n has no more bits. */
  lemma {:induction false} TopBit(r: nat, n: nat)
    requires r < Pow2(n)
    ensures BitsOf(r, n + 1) == BitsOf(r, n) + [false]
    decreases n
  {
    if n > 0 {
      TopBit(r / 2, n - 1);
    }
  }

  lemma {:induction false} BitsComplement(r: nat, n: nat)
    requires r < Pow2(n)
    ensures BitsOf(Pow2(n) - 1 - r, n) == Complement(BitsOf(r, n))
    decreases n
  {
    if n > 0 {
      BitsComplement(r / 2, n - 1);
      assert (Pow2(n) - 1 - r) / 2 == Pow2(n - 1) - 1 - r / 2;
    }
  }

  lemma OneBit(r: nat, n: nat)
    ensures BitsOf(r, n + 1) == [r % 2 == 1] + BitsOf(r / 2, n)
  {
  }

  lemma FourBits(r: nat, n: nat)
    ensures BitsOf(r, n + 4)
         == [r % 2 == 1, r / 2 % 2 == 1, r / 2 / 2 % 2 == 1, r / 2 / 2 / 2 % 2 == 1] + BitsOf(r / 2 / 2 / 2 / 2, n)
  {
    TwoBits(r, n + 2);
    TwoBits(r / 2 / 2, n);
    hide BitsOf;
    Joined(r % 2 == 1, r / 2 % 2 == 1, r / 2 / 2 % 2 == 1, r / 2 / 2 / 2 % 2 == 1, BitsOf(r / 2 / 2 / 2 / 2, n));
  }

  lemma TwoBits(r: nat, n: nat)
    ensures BitsOf(r, n + 2) == [r % 2 == 1, r / 2 % 2 == 1] + BitsOf(r / 2 / 2, n)
  {
    OneBit(r, n + 1);
    OneBit(r / 2, n);
    hide BitsOf;
    assert [r % 2 == 1] + ([r / 2 % 2 == 1] + BitsOf(r / 2 / 2, n)) == [r % 2 == 1, r / 2 % 2 == 1] + BitsOf(r / 2 / 2, n);
  }

  lemma Joined(a: bool, b: bool, c: bool, d: bool, x: seq<bool>)
    ensures [a, b] + ([c, d] + x) == [a, b, c, d] + x
  {
  }

  /** The generator's coefficients below x^32: those of x^31 to x^16, and those of x^15 to 1. */
  function Upper(): Polynomial {
    [false, false, false, false, false, true, false, false,
     true, true, false, false, false, false, false, true]
  }

  function Lower(): Polynomial {
    [false, false, false, true, true, true, false, true,
     true, false, true, true, false, true, true, true]
  }

  lemma TailIs()
    ensures Tail() == Upper() + Lower()
  {
  }

  lemma UpperBits()
    ensures BitsOf(0xEDB8_8320, 32) == Upper() + BitsOf(0xEDB8, 16)
  {
    hide BitsOf;
    FourBits(0xEDB88320, 28);
    FourBits(0xEDB8832, 24);
    FourBits(0xEDB883, 20);
    FourBits(0xEDB88, 16);
  }

  lemma LowerBits()
    ensures BitsOf(0xEDB8, 16) == Lower()
  {
    hide BitsOf;
    FourBits(0xEDB8, 12);
    FourBits(0xEDB, 8);
    FourBits(0xED, 4);
    FourBits(0xE, 0);
  }

  /** The constant is the generator, its lowest bit the highest power. */
  lemma GeneratorBits()
    ensures BitsOf(POLY, 32) == Tail()
  {
    TailIs();
    UpperBits();
    LowerBits();
    hide BitsOf, Tail, Upper, Lower;
  }

  lemma BitsShift(r: Register)
    ensures BitsOf(Shift(r), 32) == Bring(BitsOf(r, 32), false)
  {
    PowersOfTwo();
    hide Pow2;
    TopBit(r / 2, 31);
    assert BitsOf(r / 2, 32) == BitsOf(r, 32)[1..] + [false];
    if r % 2 == 1 {
      BitsXor(r / 2, POLY, 32);
      GeneratorBits();
    }
  }

  /** One shift with a message bit mixed in brings that bit down. */
  lemma BitsBring(r: Register, b: nat)
    requires b < 2
    ensures Xor(r, b) <= ONES && BitsOf(Shift(Xor(r, b)), 32) == Bring(BitsOf(r, 32), b == 1)
  {
    XorRegisters(r, b);
    BitsShift(Xor(r, b));
    BitsXor(r, b, 32);
    BitsOfBit(b, 32);
  }

  lemma BitsOfBit(b: nat, n: nat)
    requires b < 2 && n > 0
    ensures BitsOf(b, n) == [b == 1] + Same(false, n - 1)
  {
    BitsOfZero(n - 1);
  }

  lemma {:induction false} BitsOfZero(n: nat)
    ensures BitsOf(0, n) == Same(false, n)
    decreases n
  {
    if n > 0 {
      BitsOfZero(n - 1);
    }
  }

  lemma {:induction false} ShiftFirst(r: Register, n: nat)
    ensures Shifts(r, n + 1) == Shifts(Shift(r), n)
    decreases n
  {
    if n > 0 {
      ShiftFirst(r, n - 1);
    }
  }

  /** Mixing a number in at once is mixing in its lowest bit and leaving the rest for the next shift. */
  lemma LowestBitFirst(r: Register, b: Register)
    ensures Xor(r, b) <= ONES && Xor(r, b % 2) <= ONES
    ensures Shift(Xor(r, b)) == Xor(Shift(Xor(r, b % 2)), b / 2)
  {
    hide Xor;
    var h: Register := 2 * (b / 2);
    XorRegisters(r, b);
    XorRegisters(r, b % 2);
    XorAdds(b / 2, b % 2, 1);
    XorCommutes(h, b % 2);
    XorAssociates(r, b % 2, h);
    ShiftLinear(Xor(r, b % 2), h);
    ShiftEven(b / 2);
  }

  /** `n` shifts with `n` bits mixed in bring those bits down in order. */
  lemma {:induction false} BitsShifts(r: Register, b: Register, n: nat)
    requires b < Pow2(n)
    ensures Xor(r, b) <= ONES && BitsOf(Shifts(Xor(r, b), n), 32) == Serial(BitsOf(r, 32), BitsOf(b, n))
    decreases n
  {
    hide Xor, Shift;
    XorRegisters(r, b);
    if n == 0 {
      XorZero(r);
    } else {
      LowestBitFirst(r, b);
      BitsBring(r, b % 2);
      ShiftFirst(Xor(r, b), n - 1);
      BitsShifts(Shift(Xor(r, b % 2)), b / 2, n - 1);
    }
  }

  lemma {:induction false} BitsFeed(r: Register, s: seq<byte>)
    ensures BitsOf(Feed(r, s), 32) == Serial(BitsOf(r, 32), Message(s))
    decreases |s|
  {
    hide BitsOf, Serial, Shifts, Xor;
    if s == [] {
      EmptySerial(BitsOf(r, 32));
    } else {
      var front, b := s[..|s| - 1], s[|s| - 1];
      BitsFeed(r, front);
      PowersOfTwo();
      BitsShifts(Feed(r, front), b, 8);
      SerialConcat(BitsOf(r, 32), Message(front), BitsOf(b, 8));
    }
  }

  lemma EmptySerial(r: Polynomial)
    requires |r| == 32
    ensures Serial(r, []) == r
  {
  }

  lemma {:induction false} BitsDetermine(a: nat, b: nat, n: nat)
    requires a < Pow2(n) && b < Pow2(n) && BitsOf(a, n) == BitsOf(b, n)
    ensures a == b
    decreases n
  {
    if n > 0 {
      var x, y := BitsOf(a, n), BitsOf(b, n);
      assert x[0] == y[0] && x[1..] == y[1..];
      BitsDetermine(a / 2, b / 2, n - 1);
    }
  }

  lemma ChecksumBits(s: seq<byte>)
    ensures BitsOf(Crc32(s), 32) == Complement(Remainder(Plus(Message(s) + Same(false, 32), Same(true, 32))))
  {
    hide BitsOf, Serial, Remainder, Feed;
    PowersOfTwo();
    BitsComplement(0, 32);
    BitsOfZero(32);
    assert BitsOf(ONES, 32) == Same(true, 32);
    BitsFeed(ONES, s);
    BitsComplement(Feed(ONES, s), 32);
    SerialDivides(Same(true, 32), Message(s));
  }

  /** The checksum is the one number whose bits are the complement of the remainder of the message, its first 32
      coefficients complemented and 32 zeros appended, on division by the generator. */
  lemma ChecksumIsRemainder(s: seq<byte>, crc: Register)
    ensures crc == Crc32(s)
       <==> BitsOf(crc, 32) == Complement(Remainder(Plus(Message(s) + Same(false, 32), Same(true, 32))))
  {
    hide BitsOf, Remainder, Feed;
    ChecksumBits(s);
    PowersOfTwo();
    if BitsOf(crc, 32) == BitsOf(Crc32(s), 32) {
      BitsDetermine(crc, Crc32(s), 32);
    }
  }
}

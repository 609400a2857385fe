/** The internet checksum (section 1 of RFC 1071): the loop, the one's-complement sum it computes, and the
    property receivers rely on. */
module NetChecksum {
  import opened Bytes

  const U32_LIMIT: nat := 0x1_0000_0000

  /** Word `j` of `b`, big-endian; an odd last byte is the high half of a word whose low half is zero. */
  function Word(b: seq<byte>, j: nat): (w: nat)
    requires 2 * j < |b|
    ensures w < 0x1_0000
  {
    (b[2 * j] as int) * 256 + if 2 * j + 1 < |b| then b[2 * j + 1] else 0
  }

  function Words(b: seq<byte>): nat { (|b| + 1) / 2 }

  /** The plain sum of the first `n` words. */
  function Sum(b: seq<byte>, n: nat): nat
    requires n <= Words(b)
  {
    if n == 0 then 0 else Sum(b, n - 1) + Word(b, n - 1)
  }

  // --- One's-complement arithmetic --------------------------------------------------

  /** 16-bit addition with end-around carry. */
  function OnesAdd(a: nat, b: nat): (r: nat)
    requires a < 0x1_0000 && b < 0x1_0000
    ensures r < 0x1_0000
  {
    if a + b < 0x1_0000 then a + b else a + b - 0xFFFF
  }

  /** The one's-complement sum of the first `n` words. */
  function OnesSum(b: seq<byte>, n: nat): (r: nat)
    requires n <= Words(b)
    ensures r < 0x1_0000
  {
    if n == 0 then 0 else OnesAdd(OnesSum(b, n - 1), Word(b, n - 1))
  }

  /** A sum with all carries folded back in. */
  function Folded(n: nat): (r: nat)
    ensures r < 0x1_0000
  {
    if n == 0 then 0 else (n - 1) % 0xFFFF + 1
  }

  lemma FoldOnce(n: nat)
    ensures n >= 0x1_0000 ==> n % 0x1_0000 + n / 0x1_0000 < n
    ensures Folded(n % 0x1_0000 + n / 0x1_0000) == Folded(n)
  {
    var q, r := n / 0x1_0000, n % 0x1_0000;
    assert n == 0x1_0000 * q + r;
    if q + r > 0 {
      assert n - 1 == 0xFFFF * q + (q + r - 1);
    }
  }

  lemma FoldedAdds(a: nat, w: nat)
    requires w < 0x1_0000
    ensures Folded(a + w) == OnesAdd(Folded(a), w)
  {
    if a > 0 {
      var q, f := (a - 1) / 0xFFFF, Folded(a);
      assert a - 1 == 0xFFFF * q + (f - 1);
      if f + w < 0x1_0000 {
        assert a + w - 1 == 0xFFFF * q + (f + w - 1);
      } else {
        assert a + w - 1 == 0xFFFF * (q + 1) + (f + w - 0x1_0000);
      }
    } else if w > 0 {
      assert Folded(w) == w;
    }
  }

  /** Folding the carries of the plain sum at the end is one's-complement addition throughout. */
  lemma {:induction false} FoldedIsOnesSum(b: seq<byte>, n: nat)
    requires n <= Words(b)
    ensures Folded(Sum(b, n)) == OnesSum(b, n)
    decreases n
  {
    if n > 0 {
      FoldedIsOnesSum(b, n - 1);
      FoldedAdds(Sum(b, n - 1), Word(b, n - 1));
    }
  }

  /** The checksum: the complement of the one's-complement sum of all words. */
  function Checksum(b: seq<byte>): (c: nat)
    ensures c < 0x1_0000
  {
    0xFFFF - OnesSum(b, Words(b))
  }

  /** `internet_checksum`. `None` is the overflow the kernel's checked arithmetic stops on. */
  method Compute(b: seq<byte>) returns (c: Option<nat>)
    ensures c == if Sum(b, Words(b)) < U32_LIMIT then Some(Checksum(b)) else None
  {
    hide Folded, OnesSum;
    var sum: nat := 0;
    var i := 0;
    while i + 1 < |b|
      invariant i % 2 == 0 && i <= |b| && sum == Sum(b, i / 2) && sum < U32_LIMIT
    {
      var w := (b[i] as int) * 256 + b[i + 1];
      assert w == Word(b, i / 2);
      if sum + w >= U32_LIMIT {
        SumGrows(b, i / 2 + 1, Words(b));
        return None;
      }
      sum := sum + w;
      i := i + 2;
    }
    if i < |b| {
      var w := (b[i] as int) * 256;
      assert w == Word(b, i / 2);
      if sum + w >= U32_LIMIT {
        return None;
      }
      sum := sum + w;
    }
    sum := FoldCarries(sum);
    FoldedIsOnesSum(b, Words(b));
    c := Some(0xFFFF - sum);
  }

  /** The folding loop: it ends, with every carry added back in. */
  method FoldCarries(total: nat) returns (sum: nat)
    ensures sum == Folded(total)
  {
    sum := total;
    while sum >= 0x1_0000
      invariant Folded(sum) == Folded(total)
      decreases sum
    {
      FoldOnce(sum);
      sum := sum % 0x1_0000 + sum / 0x1_0000;
    }
  }

  lemma {:induction false} SumGrows(b: seq<byte>, m: nat, n: nat)
    requires m <= n <= Words(b)
    ensures Sum(b, m) <= Sum(b, n)
    decreases n
  {
    if m < n {
      SumGrows(b, m, n - 1);
    }
  }

  lemma {:induction false} SumBound(b: seq<byte>, n: nat)
    requires n <= Words(b)
    ensures Sum(b, n) <= 0xFFFF * n
    decreases n
  {
    if n > 0 {
      SumBound(b, n - 1);
    }
  }

  /** The 32-bit accumulator is enough for 65537 words. */
  lemma NeverOverflows(b: seq<byte>)
    requires |b| <= 131074
    ensures Sum(b, Words(b)) < U32_LIMIT
  {
    SumBound(b, Words(b));
  }

  /** At no greater length is it always enough: all ones overflow. */
  lemma OverflowsBeyond(b: seq<byte>)
    requires |b| > 131074 && forall i :: 0 <= i < |b| ==> b[i] == 255
    ensures Sum(b, Words(b)) >= U32_LIMIT
  {
    AllOnes(b, 65537);
    assert Word(b, 65537) >= 255 * 256;
    SumGrows(b, 65538, Words(b));
  }

  lemma {:induction false} AllOnes(b: seq<byte>, n: nat)
    requires 2 * n <= |b| && forall i :: 0 <= i < |b| ==> b[i] == 255
    ensures Sum(b, n) == 0xFFFF * n
    decreases n
  {
    if n > 0 {
      AllOnes(b, n - 1);
    }
  }

  /** The bytes at even places, and those at odd places, of the first `n` words. */
  function HighBytes(b: seq<byte>, n: nat): nat
    requires n <= Words(b)
  {
    if n == 0 then 0 else HighBytes(b, n - 1) + b[2 * (n - 1)]
  }

  function LowBytes(b: seq<byte>, n: nat): nat
    requires n <= Words(b)
  {
    if n == 0 then 0 else LowBytes(b, n - 1) + if 2 * n - 1 < |b| then b[2 * n - 1] else 0
  }

  /** Bytes at even places weigh 256, bytes at odd places 1: the order of the network, not of the machine. */
  lemma {:induction false} EvenBytesAreHigh(b: seq<byte>, n: nat)
    requires n <= Words(b)
    ensures Sum(b, n) == 256 * HighBytes(b, n) + LowBytes(b, n)
    decreases n
  {
    if n > 0 {
      EvenBytesAreHigh(b, n - 1);
    }
  }

  /** An odd last byte counts as if a zero byte followed it. */
  lemma OddTailIsZeroPadded(b: seq<byte>)
    requires |b| % 2 == 1
    ensures Checksum(b) == Checksum(b + [0])
  {
    SamePadded(b, Words(b));
  }

  lemma {:induction false} SamePadded(b: seq<byte>, n: nat)
    requires |b| % 2 == 1 && n <= Words(b)
    ensures OnesSum(b, n) == OnesSum(b + [0], n)
    decreases n
  {
    if n > 0 {
      SamePadded(b, n - 1);
    }
  }

  /** `b` with the checksum `c` stored at `o`, high byte first. */
  function Stored(b: seq<byte>, o: nat, c: nat): (r: seq<byte>)
    requires o + 1 < |b| && c < 0x1_0000
    ensures |r| == |b|
  {
    b[o := c / 256][o + 1 := c % 256]
  }

  lemma {:induction false} StoredSum(b: seq<byte>, o: nat, c: nat, n: nat)
    requires o % 2 == 0 && o + 1 < |b| && c < 0x1_0000 && b[o] == 0 && b[o + 1] == 0 && n <= Words(b)
    ensures Sum(Stored(b, o, c), n) == Sum(b, n) + if o / 2 < n then c else 0
    decreases n
  {
    if n > 0 {
      StoredSum(b, o, c, n - 1);
    }
  }

  lemma ComplementFolds(s: nat)
    ensures Folded(s + (0xFFFF - Folded(s))) == 0xFFFF
  {
    if s > 0 {
      var q := (s - 1) / 0xFFFF;
      assert s - 1 == 0xFFFF * q + (Folded(s) - 1);
      assert s + (0xFFFF - Folded(s)) - 1 == 0xFFFF * q + 0xFFFE;
    }
  }

  /** Storing the checksum in a zeroed field at any even offset makes a fresh checksum zero. */
  lemma StoredChecksumIsZero(b: seq<byte>, o: nat)
    requires o % 2 == 0 && o + 1 < |b| && b[o] == 0 && b[o + 1] == 0
    ensures Checksum(Stored(b, o, Checksum(b))) == 0
  {
    var n, c := Words(b), Checksum(b);
    StoredSum(b, o, c, n);
    FoldedIsOnesSum(b, n);
    FoldedIsOnesSum(Stored(b, o, c), n);
    ComplementFolds(Sum(b, n));
  }
}

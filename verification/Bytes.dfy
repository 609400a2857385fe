/** Bytes and the little-endian fields every on-disk and on-wire format here uses. */
module Bytes {

  type byte = x: int | 0 <= x < 256

  datatype Option<+T> = None | Some(value: T)

  /** `n` zero bytes. */
  function Zeros(n: nat): (z: seq<byte>)
    ensures |z| == n
    ensures forall i :: 0 <= i < n ==> z[i] == 0
  {
    seq(n, _ => 0)
  }

  /** Byte `i` of the little-endian form of `n`, for `i < 4`. */
  function LeByte(n: nat, i: nat): byte
    requires i < 4
  {
    if i == 0 then n % 256
    else if i == 1 then n / 0x100 % 256
    else if i == 2 then n / 0x1_0000 % 256
    else n / 0x100_0000 % 256
  }

  function Le16(n: nat): seq<byte> {
    [LeByte(n, 0), LeByte(n, 1)]
  }

  function Le32(n: nat): seq<byte> {
    [LeByte(n, 0), LeByte(n, 1), LeByte(n, 2), LeByte(n, 3)]
  }

  function U16(b0: byte, b1: byte): nat {
    b0 + 0x100 * b1
  }

  function U32(b0: byte, b1: byte, b2: byte, b3: byte): nat {
    b0 + 0x100 * b1 + 0x1_0000 * b2 + 0x100_0000 * b3
  }

  function U16At(b: seq<byte>, o: nat): nat
    requires o + 2 <= |b|
  {
    U16(b[o], b[o + 1])
  }

  function U32At(b: seq<byte>, o: nat): nat
    requires o + 4 <= |b|
  {
    U32(b[o], b[o + 1], b[o + 2], b[o + 3])
  }

  lemma Le32RoundTrip(n: nat)
    requires n < 0x1_0000_0000
    ensures U32(LeByte(n, 0), LeByte(n, 1), LeByte(n, 2), LeByte(n, 3)) == n
  {
    assert n == n % 0x100 + 0x100 * (n / 0x100);
    assert n / 0x100 / 0x100 == n / 0x1_0000;
    assert n / 0x1_0000 / 0x100 == n / 0x100_0000;
  }

  /** A field that holds the little-endian bytes of `n` reads as `n`. */
  lemma ReadField32(b: seq<byte>, o: nat, n: nat)
    requires o + 4 <= |b| && n < 0x1_0000_0000
    requires forall i :: 0 <= i < 4 ==> b[o + i] == LeByte(n, i)
    ensures U32At(b, o) == n
  {
    Le32RoundTrip(n);
    assert b[o + 0] == LeByte(n, 0) && b[o + 1] == LeByte(n, 1) && b[o + 2] == LeByte(n, 2) && b[o + 3] == LeByte(n, 3);
  }

  lemma Le16RoundTrip(n: nat)
    requires n < 0x1_0000
    ensures U16(LeByte(n, 0), LeByte(n, 1)) == n
  {
  }
}

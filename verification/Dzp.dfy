/** The `.dzp` package format: packing, parsing, and what parsing catches. */
module Dzp {
  import opened Bytes
  import opened Crc

  const MAGIC: seq<byte> := [68, 90, 80, 49]
  const VERSION: nat := 1
  const HEADER_LEN: nat := 20
  const KIND_DEZH_IR: nat := 1
  const KIND_ELF_RISCV64: nat := 2
  const U32_LIMIT: nat := 0x1_0000_0000

  type Kind = n: nat | n < 0x1_0000

  datatype Error = TooShort | BadMagic | BadVersion | BadKind | Truncated | BadCrc | ManifestNotUtf8

  datatype Package = Package(kind: nat, manifest: seq<byte>, payload: seq<byte>)

  datatype Result = Ok(package: Package) | Err(error: Error)

  predicate KnownKind(kind: nat) { kind == KIND_DEZH_IR || kind == KIND_ELF_RISCV64 }

  /** `parse`; `utf8` tells valid manifests. */
  function Parse(bytes: seq<byte>, utf8: seq<byte> -> bool): Result {
    if |bytes| < HEADER_LEN then Err(TooShort)
    else if bytes[0..4] != MAGIC then Err(BadMagic)
    else if U16At(bytes, 4) != VERSION then Err(BadVersion)
    else if !KnownKind(U16At(bytes, 6)) then Err(BadKind)
    else
      var mlen, plen := U32At(bytes, 8), U32At(bytes, 12);
      if |bytes| != HEADER_LEN + mlen + plen then Err(Truncated)
      else
        var manifest, payload := bytes[HEADER_LEN..HEADER_LEN + mlen], bytes[HEADER_LEN + mlen..];
        if U32At(bytes, 16) != Crc32(manifest + payload) then Err(BadCrc)
        else if !utf8(manifest) then Err(ManifestNotUtf8)
        else Ok(Package(U16At(bytes, 6), manifest, payload))
  }

  /** The header `pack` writes; lengths are cut to 32 bits. */
  function Header(kind: Kind, mlen: nat, plen: nat, crc: nat): (h: seq<byte>)
    ensures |h| == HEADER_LEN
  {
    MAGIC + Le16(VERSION) + Le16(kind) + Le32(mlen) + Le32(plen) + Le32(crc)
  }

  function Packed(kind: Kind, manifest: seq<byte>, payload: seq<byte>): seq<byte> {
    Header(kind, |manifest|, |payload|, Crc32(manifest + payload)) + manifest + payload
  }

  /** Appends `src` to the first `at` bytes of `out`. */
  method Append(out: array<byte>, at: nat, src: seq<byte>) returns (end: nat)
    requires at + |src| <= out.Length
    modifies out
    ensures end == at + |src|
    ensures out[..end] == old(out[..at]) + src
    ensures forall i :: end <= i < out.Length ==> out[i] == old(out[i])
  {
    for i := 0 to |src|
      invariant out[..at + i] == old(out[..at]) + src[..i]
      invariant forall k :: at + i <= k < out.Length ==> out[k] == old(out[k])
    {
      out[at + i] := src[i];
    }
    end := at + |src|;
    assert src[..|src|] == src;
  }

  method Pack(kind: Kind, manifest: seq<byte>, payload: seq<byte>, out: array<byte>) returns (total: nat)
    requires HEADER_LEN + |manifest| + |payload| <= out.Length
    modifies out
    ensures total == HEADER_LEN + |manifest| + |payload|
    ensures out[..total] == Packed(kind, manifest, payload)
    ensures out[total..] == old(out[total..])
  {
    hide LeByte, Crc32;
    var n := Append(out, 0, MAGIC);
    n := Append(out, n, Le16(VERSION));
    n := Append(out, n, Le16(kind));
    n := Append(out, n, Le32(|manifest|));
    n := Append(out, n, Le32(|payload|));
    var crc := Checksum([manifest, payload]);
    FlattenTwo(manifest, payload);
    n := Append(out, n, Le32(crc));
    assert out[..n] == Header(kind, |manifest|, |payload|, crc);
    n := Append(out, n, manifest);
    total := Append(out, n, payload);
  }

  lemma FlattenTwo(a: seq<byte>, b: seq<byte>)
    ensures Flatten([a, b]) == a + b
  {
    assert [a, b][..1] == [a] && [a][..0] == [];
    assert Flatten([a]) == [] + a;
  }

  lemma HeaderFields(kind: Kind, mlen: nat, plen: nat, crc: nat, rest: seq<byte>)
    requires crc < U32_LIMIT
    ensures var b := Header(kind, mlen, plen, crc) + rest;
            && b[0..4] == [0x44, 0x5A, 0x50, 0x31] && U16At(b, 4) == 1 && U16At(b, 6) == kind
            && U32At(b, 8) == mlen % U32_LIMIT && U32At(b, 12) == plen % U32_LIMIT && U32At(b, 16) == crc
  {
    var b := Header(kind, mlen, plen, crc) + rest;
    Le16RoundTrip(VERSION);
    Le16RoundTrip(kind);
    Le32Cut(mlen);
    Le32Cut(plen);
    Le32Cut(crc);
    ReadField32(b, 8, mlen % U32_LIMIT);
    ReadField32(b, 12, plen % U32_LIMIT);
    ReadField32(b, 16, crc);
  }

  lemma LowByte(x: nat, y: nat)
    ensures (x + 0x100 * y) % 0x100 == x % 0x100
  {
  }

  /** The four bytes kept are those of the number modulo 2^32. */
  lemma Le32Cut(n: nat)
    ensures forall i :: 0 <= i < 4 ==> LeByte(n, i) == LeByte(n % U32_LIMIT, i)
  {
    var q, m := n / U32_LIMIT, n % U32_LIMIT;
    assert n == m + 0x100 * (0x100_0000 * q);
    LowByte(m, 0x100_0000 * q);
    assert n / 0x100 == m / 0x100 + 0x100 * (0x1_0000 * q);
    LowByte(m / 0x100, 0x1_0000 * q);
    assert n / 0x1_0000 == m / 0x1_0000 + 0x100 * (0x100 * q);
    LowByte(m / 0x1_0000, 0x100 * q);
    assert n / 0x100_0000 == m / 0x100_0000 + 0x100 * q;
    LowByte(m / 0x100_0000, q);
  }

  /** Parsing undoes packing exactly when the kind is known, the lengths fit their 32-bit fields and
      the manifest is UTF-8; otherwise parsing says which of the three failed. */
  lemma ParsePacked(kind: Kind, manifest: seq<byte>, payload: seq<byte>, utf8: seq<byte> -> bool)
    ensures Parse(Packed(kind, manifest, payload), utf8)
         == if !KnownKind(kind) then Err(BadKind)
            else if |manifest| >= U32_LIMIT || |payload| >= U32_LIMIT then Err(Truncated)
            else if !utf8(manifest) then Err(ManifestNotUtf8)
            else Ok(Package(kind, manifest, payload))
  {
    hide Crc32, Header, U16At, U32At;
    var crc := Crc32(manifest + payload);
    var h := Header(kind, |manifest|, |payload|, crc);
    var b := Packed(kind, manifest, payload);
    assert b == h + (manifest + payload);
    HeaderFields(kind, |manifest|, |payload|, crc, manifest + payload);
    if |manifest| < U32_LIMIT && |payload| < U32_LIMIT {
      assert b[HEADER_LEN..HEADER_LEN + |manifest|] == manifest;
      assert b[HEADER_LEN + |manifest|..] == payload;
    }
  }

  lemma Le16OfU16(b0: byte, b1: byte)
    ensures Le16(U16(b0, b1)) == [b0, b1]
  {
  }

  lemma Le32OfU32(b0: byte, b1: byte, b2: byte, b3: byte)
    ensures Le32(U32(b0, b1, b2, b3)) == [b0, b1, b2, b3]
  {
    var n := U32(b0, b1, b2, b3);
    assert n / 0x100 == b1 + 0x100 * b2 + 0x1_0000 * b3;
    assert n / 0x1_0000 == b2 + 0x100 * b3;
    assert n / 0x100_0000 == b3;
  }

  lemma HeaderIs(b: seq<byte>)
    requires |b| >= HEADER_LEN && b[0..4] == MAGIC && U16At(b, 4) == VERSION
    ensures b[..HEADER_LEN] == Header(U16At(b, 6), U32At(b, 8), U32At(b, 12), U32At(b, 16))
  {
    Le16OfU16(b[4], b[5]);
    Le16OfU16(b[6], b[7]);
    Le32OfU32(b[8], b[9], b[10], b[11]);
    Le32OfU32(b[12], b[13], b[14], b[15]);
    Le32OfU32(b[16], b[17], b[18], b[19]);
    hide Le16, Le32, U16, U32;
    assert b[..HEADER_LEN] == b[0..4] + [b[4], b[5]] + [b[6], b[7]] + [b[8], b[9], b[10], b[11]]
                              + [b[12], b[13], b[14], b[15]] + [b[16], b[17], b[18], b[19]];
  }

  /** Nothing else parses: what parsing accepts is, byte for byte, the packing of what it returns. */
  lemma ParsedIsPacked(bytes: seq<byte>, utf8: seq<byte> -> bool)
    requires Parse(bytes, utf8).Ok?
    ensures var p := Parse(bytes, utf8).package;
            && KnownKind(p.kind) && utf8(p.manifest) && |p.manifest| < U32_LIMIT && |p.payload| < U32_LIMIT
            && bytes == Packed(p.kind, p.manifest, p.payload)
  {
    hide Crc32, Header;
    var p := Parse(bytes, utf8).package;
    HeaderIs(bytes);
    var n := HEADER_LEN + |p.manifest|;
    assert bytes == bytes[..HEADER_LEN] + bytes[HEADER_LEN..n] + bytes[n..];
  }

  /** Equal headers read the same. */
  lemma SameHeader(s: seq<byte>, t: seq<byte>)
    requires |s| == |t| && |s| >= HEADER_LEN && s[..HEADER_LEN] == t[..HEADER_LEN]
    ensures s[0..4] == t[0..4] && U16At(s, 4) == U16At(t, 4) && U16At(s, 6) == U16At(t, 6)
    ensures U32At(s, 8) == U32At(t, 8) && U32At(s, 12) == U32At(t, 12) && U32At(s, 16) == U32At(t, 16)
  {
    hide U32, U16;
    assert forall i :: 0 <= i < HEADER_LEN ==> s[..HEADER_LEN][i] == s[i] && t[..HEADER_LEN][i] == t[i];
  }

  /** What follows a common header differs within the same window. */
  lemma DamageBelowHeader(s: seq<byte>, t: seq<byte>, w: nat)
    requires DifferWithin(s, t, w) && |s| >= HEADER_LEN && s[..HEADER_LEN] == t[..HEADER_LEN]
    ensures var v := if w <= HEADER_LEN then 0 else w - HEADER_LEN;
            DifferWithin(s[HEADER_LEN..], t[HEADER_LEN..], v)
    ensures s != t ==> s[HEADER_LEN..] != t[HEADER_LEN..]
  {
    assert s == s[..HEADER_LEN] + s[HEADER_LEN..] && t == t[..HEADER_LEN] + t[HEADER_LEN..];
  }

  /** Damage to manifest or payload confined to four consecutive bytes is always reported as a bad checksum. */
  lemma DamageIsBadCrc(s: seq<byte>, t: seq<byte>, w: nat, utf8: seq<byte> -> bool)
    requires Parse(s, utf8).Ok?
    requires DifferWithin(s, t, w) && s != t && s[..HEADER_LEN] == t[..HEADER_LEN]
    ensures Parse(t, utf8) == Err(BadCrc)
  {
    hide Crc32, U32At, U16At, DifferWithin;
    SameLength(s, t, w);
    SameHeader(s, t);
    DamageBelowHeader(s, t, w);
    DetectsFourByteBursts(s[HEADER_LEN..], t[HEADER_LEN..], if w <= HEADER_LEN then 0 else w - HEADER_LEN);
    Rejoin(s, HEADER_LEN, U32At(s, 8));
    Rejoin(t, HEADER_LEN, U32At(s, 8));
  }

  lemma SameLength(s: seq<byte>, t: seq<byte>, w: nat)
    requires DifferWithin(s, t, w)
    ensures |s| == |t|
  {
  }

  lemma Rejoin(s: seq<byte>, n: nat, m: nat)
    requires n + m <= |s|
    ensures s[n..n + m] + s[n + m..] == s[n..]
  {
  }
}

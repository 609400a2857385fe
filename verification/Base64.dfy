/** Base64 decoding (section 4 of RFC 4648), its exact meaning, and the round trip with the encoder. */
module Base64 {
  import opened Arithmetic
  import opened Bytes

  const PAD: byte := 61
  const U32_LIMIT: nat := 0x1_0000_0000

  /** The six bits a character stands for. */
  function Val(c: byte): (v: Option<nat>)
    ensures v.Some? ==> v.value < 64
  {
    if 65 <= c <= 90 then Some(c - 65)
    else if 97 <= c <= 122 then Some(c - 97 + 26)
    else if 48 <= c <= 57 then Some(c - 48 + 52)
    else if c == 43 then Some(62)
    else if c == 47 then Some(63)
    else None
  }

  /** The character for six bits. */
  function Sign(v: nat): (c: byte)
    requires v < 64
    ensures c != PAD && Val(c) == Some(v)
  {
    if v < 26 then v + 65 else if v < 52 then v - 26 + 97 else if v < 62 then v - 52 + 48 else if v == 62 then 43 else 47
  }

  function Run(first: char, n: nat): (s: seq<byte>)
    requires first as int + n <= 256
    ensures |s| == n
  {
    seq(n, i requires 0 <= i < n => first as int + i)
  }

  /** The alphabet of table 1 of RFC 4648: capital letters, small letters, digits, plus and slash. */
  function Alphabet(): (s: seq<byte>)
    ensures |s| == 64
  {
    Run('A', 26) + Run('a', 26) + Run('0', 10) + Run('+', 1) + Run('/', 1)
  }

  /** A character stands for its place in the alphabet, and nothing outside it stands for anything. */
  lemma SignsAreTheAlphabet(c: byte)
    ensures Val(c).Some? ==> Alphabet()[Val(c).value] == c
    ensures Val(c).None? ==> c !in Alphabet()
  {
  }

  // --- Meaning: both strings are numbers ------------------------------------------------

  ghost predicate AllSigns(s: seq<byte>) {
    forall i :: 0 <= i < |s| ==> Val(s[i]).Some?
  }

  /** The number written by the characters `s`, six bits each. */
  ghost function Sextets(s: seq<byte>): nat
    requires AllSigns(s)
  {
    if s == [] then 0 else 64 * Sextets(s[..|s| - 1]) + Val(s[|s| - 1]).value
  }

  /** The number written by the bytes `b`, eight bits each. */
  ghost function Octets(b: seq<byte>): nat {
    if b == [] then 0 else 256 * Octets(b[..|b| - 1]) + b[|b| - 1]
  }

  /** The last `n` bytes of `v`. */
  ghost function Digits(v: nat, n: nat): (b: seq<byte>)
    ensures |b| == n
  {
    if n == 0 then [] else Digits(v / 256, n - 1) + [v % 256]
  }

  /** How many characters precede the first padding character. */
  ghost function BodyLen(s: seq<byte>): (n: nat)
    ensures n <= |s| && (forall i :: 0 <= i < n ==> s[i] != PAD) && (n < |s| ==> s[n] == PAD)
  {
    if s == [] then 0
    else
      var n := BodyLen(s[..|s| - 1]);
      if n == |s| - 1 && s[n] != PAD then |s| else n
  }

  /** Bits of `n` characters that do not fill a byte. */
  ghost function Spare(n: nat): (bits: nat)
    ensures bits == 0 || bits == 2 || bits == 4 || bits == 6
    ensures 6 * n == 8 * (6 * n / 8) + bits
  {
    assert 6 * n == 2 * (3 * n);
    6 * n % 8
  }

  /** `2^bits`, for the shifts the decoder makes. */
  function Scale(bits: nat): (p: nat)
    requires bits == 0 || bits == 2 || bits == 4 || bits == 6
    ensures p > 0
  {
    if bits == 0 then 1 else if bits == 2 then 4 else if bits == 4 then 16 else 64
  }

  /** What a chunk means: alphabet characters, then only padding; the bits that do not fill a byte are zero; and the
      bytes are the number the characters write, without those bits. */
  ghost function Decoded(s: seq<byte>): (b: Option<seq<byte>>) {
    var n := BodyLen(s);
    if !AllSigns(s[..n]) || exists i :: n <= i < |s| && s[i] != PAD then None
    else
      var bytes := 6 * n / 8;
      var v, scale := Sextets(s[..n]), Scale(Spare(n));
      if v % scale != 0 then None else Some(Digits(v / scale, bytes))
  }

  // --- The decoder -----------------------------------------------------------------------

  lemma {:induction false} DigitsOfOctets(b: seq<byte>)
    ensures Digits(Octets(b), |b|) == b
    decreases |b|
  {
    if b != [] {
      var front, last := b[..|b| - 1], b[|b| - 1];
      DigitsOfOctets(front);
      OneMoreDigit(Octets(front), last, |front|);
      assert b == front + [last];
    }
  }

  lemma OneMoreDigit(v: nat, last: byte, n: nat)
    ensures Digits(256 * v + last, n + 1) == Digits(v, n) + [last]
  {
    DivMod(256, v, last, 256 * v + last);
  }

  lemma LowByte(x: nat, y: nat)
    ensures (x + 256 * y) % 256 == x % 256 && (x + 256 * y) / 256 == x / 256 + y
  {
  }

  /** What one more character does to the number, seen through a 32-bit accumulator. */
  lemma Accumulate(v: nat, acc: nat, c: nat)
    requires acc == v % U32_LIMIT && c < 64
    ensures (64 * acc) % U32_LIMIT + c < U32_LIMIT && (64 * acc) % U32_LIMIT + c == (64 * v + c) % U32_LIMIT
  {
    var q := v / U32_LIMIT;
    assert v == U32_LIMIT * q + acc;
    var r, low := acc / 0x400_0000, 64 * (acc % 0x400_0000);
    DivMod(U32_LIMIT, r, low, 64 * acc);
    DivMod(U32_LIMIT, 64 * q + r, low + c, 64 * v + c);
  }

  /** The accumulator holds enough bits to cut the next byte out of it. */
  lemma CutByte(v: nat, acc: nat, bits: nat)
    requires acc == v % U32_LIMIT && (bits == 0 || bits == 2 || bits == 4 || bits == 6)
    ensures acc / Scale(bits) % 256 == v / Scale(bits) % 256
    ensures acc % Scale(bits) == v % Scale(bits)
  {
    var q := v / U32_LIMIT;
    assert v == U32_LIMIT * q + acc;
    if bits == 0 {
      LowByte(acc, 0x100_0000 * q);
    } else if bits == 2 {
      assert v / 4 == acc / 4 + 256 * (0x40_0000 * q);
      LowByte(acc / 4, 0x40_0000 * q);
    } else if bits == 4 {
      assert v / 16 == acc / 16 + 256 * (0x10_0000 * q);
      LowByte(acc / 16, 0x10_0000 * q);
    } else {
      assert v / 64 == acc / 64 + 256 * (0x4_0000 * q);
      LowByte(acc / 64, 0x4_0000 * q);
    }
  }

  lemma DropSextet(v: nat, c: nat, bits: nat)
    requires c < 64 && (bits == 0 || bits == 2 || bits == 4 || bits == 6)
    ensures (64 * v + c) / 64 / Scale(bits) == v / Scale(bits)
    ensures bits == 2 ==> (64 * v + c) / 256 == v / 4
    ensures bits == 4 ==> (64 * v + c) / 4 / 256 == v / 16
    ensures bits == 6 ==> (64 * v + c) / 16 / 256 == v / 64
    ensures bits == 0 ==> (64 * v + c) / 64 == v
  {
  }

  /** One character: either the bits do not fill a byte, or the next byte is cut off. */
  lemma NextSextet(v: nat, c: nat, bits: nat, n: nat)
    requires c < 64 && (bits == 0 || bits == 2 || bits == 4 || bits == 6)
    ensures var w := 64 * v + c;
            if bits == 0 then Digits(w / Scale(6), n) == Digits(v / Scale(0), n)
            else Digits(w / Scale(bits - 2), n + 1) == Digits(v / Scale(bits), n) + [w / Scale(bits - 2) % 256]
  {
    DropSextet(v, c, bits);
  }

  /** The decoder has consumed the first `i` characters and produced `bytes`. */
  ghost predicate Midway(input: seq<byte>, i: nat, acc: nat, bits: nat, bytes: seq<byte>) {
    && i <= |input| && AllSigns(input[..i])
    && (bits == 0 || bits == 2 || bits == 4 || bits == 6)
    && 8 * |bytes| + bits == 6 * i
    && acc == Sextets(input[..i]) % U32_LIMIT
    && bytes == Digits(Sextets(input[..i]) / Scale(bits), |bytes|)
  }

  /** The next character, when it does not complete a byte. */
  lemma MidwayShort(input: seq<byte>, i: nat, acc: nat, bytes: seq<byte>, c: nat)
    requires Midway(input, i, acc, 0, bytes) && i < |input| && Val(input[i]) == Some(c)
    ensures Midway(input, i + 1, (64 * acc) % U32_LIMIT + c, 6, bytes)
  {
    var v := Sextets(input[..i]);
    assert input[..i + 1][..i] == input[..i];
    Accumulate(v, acc, c);
    NextSextet(v, c, 0, |bytes|);
  }

  /** The next character, when it completes a byte. */
  lemma MidwayByte(input: seq<byte>, i: nat, acc: nat, bits: nat, bytes: seq<byte>, c: nat)
    requires Midway(input, i, acc, bits, bytes) && i < |input| && Val(input[i]) == Some(c) && bits > 0
    ensures var acc' := (64 * acc) % U32_LIMIT + c;
            Midway(input, i + 1, acc', bits - 2, bytes + [acc' / Scale(bits - 2) % 256])
  {
    var v := Sextets(input[..i]);
    assert input[..i + 1][..i] == input[..i];
    Accumulate(v, acc, c);
    NextSextet(v, c, bits, |bytes|);
    CutByte(64 * v + c, (64 * acc) % U32_LIMIT + c, bits - 2);
  }

  /** At the end of the characters, the verdict is on the bits left over. */
  lemma MidwayEnd(input: seq<byte>, acc: nat, bits: nat, bytes: seq<byte>)
    requires Midway(input, BodyLen(input), acc, bits, bytes)
    requires forall k :: BodyLen(input) <= k < |input| ==> input[k] == PAD
    ensures Decoded(input) == if acc % Scale(bits) == 0 then Some(bytes) else None
  {
    hide Digits, Sextets, AllSigns, BodyLen;
    CutByte(Sextets(input[..BodyLen(input)]), acc, bits);
    assert 6 * BodyLen(input) / 8 == |bytes|;
  }

  /** `decode`: succeeds exactly on chunks that have a meaning and fit, and then writes that meaning. */
  method Decode(input: seq<byte>, out: array<byte>, from: nat) returns (r: Option<nat>)
    requires from <= out.Length
    modifies out
    ensures r.Some? <==> Decoded(input).Some? && |Decoded(input).value| <= out.Length - from
    ensures r.Some? ==> r.value == |Decoded(input).value| && out[from..from + r.value] == Decoded(input).value
    ensures forall k :: 0 <= k < from ==> out[k] == old(out[k])
  {
    hide Digits, Decoded, Sextets, AllSigns, BodyLen;
    var n: nat, acc: nat, bits: nat, padded := 0, 0, 0, false;
    ghost var body := BodyLen(input);
    MidwayStart(input);
    for i := 0 to |input|
      invariant padded <==> body < i
      invariant forall k :: body <= k < i ==> input[k] == PAD
      invariant from + n <= out.Length
      invariant Midway(input, if padded then body else i, acc, bits, out[from..from + n])
      invariant forall k :: 0 <= k < from ==> out[k] == old(out[k])
    {
      var c := input[i];
      if c == PAD {
        padded := true;
        continue;
      }
      if padded {
        DataAfterPadding(input, i);
        return None;
      }
      var val := Val(c);
      if val.None? {
        NotASign(input, i);
        return None;
      }
      ghost var acc0, bits0, done := acc, bits, out[from..from + n];
      acc := (64 * acc) % U32_LIMIT + val.value;
      bits := bits + 6;
      if bits >= 8 {
        MidwayByte(input, i, acc0, bits0, done, val.value);
        bits := bits - 8;
        if n >= out.Length - from {
          TooLong(input, i, n);
          return None;
        }
        out[from + n] := acc / Scale(bits) % 256;
        n := n + 1;
        assert out[from..from + n] == done + [acc / Scale(bits) % 256];
      } else {
        MidwayShort(input, i, acc0, done, val.value);
      }
    }
    MidwayEnd(input, acc, bits, out[from..from + n]);
    if bits > 0 && acc % Scale(bits) != 0 {
      return None;
    }
    r := Some(n);
  }

  lemma MidwayStart(input: seq<byte>)
    ensures Midway(input, 0, 0, 0, [])
  {
    assert input[..0] == [];
  }

  /** Running out of room in the middle means the whole chunk does not fit. */
  lemma TooLong(input: seq<byte>, i: nat, n: nat)
    requires i < BodyLen(input) && 6 * (i + 1) >= 8 * (n + 1)
    ensures Decoded(input).Some? ==> |Decoded(input).value| > n
  {
  }

  lemma DataAfterPadding(input: seq<byte>, i: nat)
    requires BodyLen(input) < i < |input| && input[i] != PAD
    ensures Decoded(input).None?
  {
  }

  lemma NotASign(input: seq<byte>, i: nat)
    requires i < BodyLen(input) && Val(input[i]).None?
    ensures Decoded(input).None?
  {
    assert input[..BodyLen(input)][i] == input[i];
  }

  // --- The encoder side ---------------------------------------------------------------

  /** Four characters for three bytes. */
  function Group(a: byte, b: byte, c: byte): seq<byte> {
    [Sign(a / 4), Sign(a % 4 * 16 + b / 16), Sign(b % 16 * 4 + c / 64), Sign(c % 64)]
  }

  /** Whole groups of three bytes. */
  function EncodeGroups(b: seq<byte>): (s: seq<byte>)
    requires |b| % 3 == 0
    ensures 3 * |s| == 4 * |b|
  {
    if b == [] then []
    else
      var n := |b| - 3;
      EncodeGroups(b[..n]) + Group(b[n], b[n + 1], b[n + 2])
  }

  /** The one or two bytes left over, without padding. */
  function EncodeRest(b: seq<byte>): (s: seq<byte>)
    requires |b| < 3
  {
    if |b| == 0 then []
    else if |b| == 1 then [Sign(b[0] / 4), Sign(b[0] % 4 * 16)]
    else [Sign(b[0] / 4), Sign(b[0] % 4 * 16 + b[1] / 16), Sign(b[1] % 16 * 4)]
  }

  function Padding(n: nat): seq<byte> {
    if n % 3 == 0 then [] else if n % 3 == 1 then [PAD, PAD] else [PAD]
  }

  /** The encoding of section 4 of RFC 4648, with padding. */
  function Encode(b: seq<byte>): seq<byte> {
    var n := |b| - |b| % 3;
    EncodeGroups(b[..n]) + EncodeRest(b[n..]) + Padding(|b|)
  }

  lemma {:induction false} GroupsMean(b: seq<byte>)
    requires |b| % 3 == 0
    ensures AllSigns(EncodeGroups(b)) && (forall i :: 0 <= i < |EncodeGroups(b)| ==> EncodeGroups(b)[i] != PAD)
    ensures Sextets(EncodeGroups(b)) == Octets(b)
    decreases |b|
  {
    if b != [] {
      var n := |b| - 3;
      GroupsMean(b[..n]);
      var s, g := EncodeGroups(b[..n]), Group(b[n], b[n + 1], b[n + 2]);
      SextetsFour(s, g);
      OctetsThree(b);
    }
  }

  lemma SextetsFour(s: seq<byte>, g: seq<byte>)
    requires AllSigns(s) && AllSigns(g) && |g| == 4
    ensures AllSigns(s + g)
    ensures Sextets(s + g) == 0x100_0000 * Sextets(s) + 0x4_0000 * Val(g[0]).value + 0x1000 * Val(g[1]).value
                              + 64 * Val(g[2]).value + Val(g[3]).value
  {
    SextetsThree(s, g[..3]);
    assert (s + g)[..|s| + 3] == s + g[..3];
  }

  lemma SextetsThree(s: seq<byte>, g: seq<byte>)
    requires AllSigns(s) && AllSigns(g) && |g| == 3
    ensures AllSigns(s + g)
    ensures Sextets(s + g) == 0x4_0000 * Sextets(s) + 0x1000 * Val(g[0]).value + 64 * Val(g[1]).value + Val(g[2]).value
  {
    SextetsTwo(s, g[..2]);
    assert (s + g)[..|s| + 2] == s + g[..2];
  }

  lemma SextetsTwo(s: seq<byte>, g: seq<byte>)
    requires AllSigns(s) && AllSigns(g) && |g| == 2
    ensures AllSigns(s + g)
    ensures Sextets(s + g) == 0x1000 * Sextets(s) + 64 * Val(g[0]).value + Val(g[1]).value
  {
    assert (s + g)[..|s| + 1] == s + g[..1] && (s + g[..1])[..|s|] == s;
    assert Sextets(s + g[..1]) == 64 * Sextets(s) + Val(g[0]).value;
  }

  lemma OctetsThree(b: seq<byte>)
    requires |b| >= 3
    ensures var n := |b| - 3;
            Octets(b) == 0x100_0000 * Octets(b[..n]) + (b[n] as int) * 0x1_0000 + (b[n + 1] as int) * 256 + b[n + 2]
  {
    OctetsTwo(b[..|b| - 1]);
    assert b[..|b| - 1][..|b| - 3] == b[..|b| - 3];
  }

  lemma OctetsTwo(b: seq<byte>)
    requires |b| >= 2
    ensures var n := |b| - 2;
            Octets(b) == 0x1_0000 * Octets(b[..n]) + (b[n] as int) * 256 + b[n + 1]
  {
    assert b[..|b| - 1][..|b| - 2] == b[..|b| - 2];
  }

  lemma BodyOfPadded(s: seq<byte>, pad: seq<byte>)
    requires (forall i :: 0 <= i < |s| ==> s[i] != PAD) && (forall i :: 0 <= i < |pad| ==> pad[i] == PAD)
    ensures BodyLen(s + pad) == |s|
    ensures forall i :: |s| <= i < |s + pad| ==> (s + pad)[i] == PAD
  {
    hide BodyLen;
    var t := s + pad;
    assert forall i :: 0 <= i < |s| ==> t[i] == s[i];
    assert forall i :: |s| <= i < |t| ==> t[i] == pad[i - |s|];
    assert |s| < |t| ==> t[|s|] == PAD;
  }

  lemma WholeMultiple(o: nat, bits: nat)
    requires bits == 0 || bits == 2 || bits == 4
    ensures (o * Scale(bits)) % Scale(bits) == 0 && o * Scale(bits) / Scale(bits) == o
  {
    assert o * 1 == o;
  }

  /** Characters that write the bytes `b` followed by the bits that fill the last character decode to `b`. */
  lemma DecodesTo(s: seq<byte>, pad: seq<byte>, b: seq<byte>, bits: nat)
    requires AllSigns(s) && (forall i :: 0 <= i < |s| ==> s[i] != PAD) && (forall i :: 0 <= i < |pad| ==> pad[i] == PAD)
    requires (bits == 0 || bits == 2 || bits == 4) && 6 * |s| == 8 * |b| + bits && Sextets(s) == Octets(b) * Scale(bits)
    ensures Decoded(s + pad) == Some(b)
  {
    hide Digits, Sextets, AllSigns, BodyLen, Octets, Scale;
    BodyOfPadded(s, pad);
    assert (s + pad)[..|s|] == s;
    assert 6 * |s| / 8 == |b|;
    WholeMultiple(Octets(b), bits);
    DigitsOfOctets(b);
  }

  lemma RestOne(g: seq<byte>, x: byte)
    requires AllSigns(g)
    ensures AllSigns(g + EncodeRest([x])) && Sextets(g + EncodeRest([x])) == (256 * Sextets(g) + x) * 16
  {
    SextetsTwo(g, EncodeRest([x]));
  }

  lemma RestTwo(g: seq<byte>, x: byte, y: byte)
    requires AllSigns(g)
    ensures AllSigns(g + EncodeRest([x, y])) && Sextets(g + EncodeRest([x, y])) == (0x1_0000 * Sextets(g) + (x as int) * 256 + y) * 4
  {
    SextetsThree(g, EncodeRest([x, y]));
  }

  /** Decoding undoes encoding, for every byte string. */
  lemma RoundTrip(b: seq<byte>)
    ensures Decoded(Encode(b)) == Some(b)
  {
    hide Decoded, Sextets, EncodeGroups, Sign, Val;
    var n := |b| - |b| % 3;
    var g, rest := EncodeGroups(b[..n]), b[n..];
    GroupsMean(b[..n]);
    if |b| % 3 == 0 {
      assert b[..n] == b && g + EncodeRest(rest) == g;
      DecodesTo(g, Padding(|b|), b, 0);
    } else if |b| % 3 == 1 {
      assert rest == [b[n]];
      RestOne(g, b[n]);
      DecodesTo(g + EncodeRest(rest), Padding(|b|), b, 4);
    } else {
      assert rest == [b[n], b[n + 1]];
      RestTwo(g, b[n], b[n + 1]);
      OctetsTwo(b);
      DecodesTo(g + EncodeRest(rest), Padding(|b|), b, 2);
    }
  }

  /** Ninety bytes fill exactly one 120-character line. */
  lemma LineLength(b: seq<byte>)
    requires |b| <= 90
    ensures |Encode(b)| <= 120
  {
  }
}

/** Proof-of-work target and hex codec: leading zero bits, per-block work, hex digits. */
module Target {
  import opened Bytes
  import opened Wrappers

  function Pow2(n: nat): (p: nat)
    ensures p > 0
  {
    if n == 0 then 1 else Pow2(n - 1) + Pow2(n - 1)
  }

  // ---- Leading zero bits ----

  // Bits of b above its highest set bit.
  function ByteZeros(b: byte): nat
  {
    if b >= 128 then 0 else if b >= 64 then 1 else if b >= 32 then 2 else if b >= 16 then 3
    else if b >= 8 then 4 else if b >= 4 then 5 else if b >= 2 then 6 else if b >= 1 then 7 else 8
  }

  function LeadingZeros(h: Bytes): nat
  {
    if h == [] then 0 else if h[0] == 0 then 8 + LeadingZeros(h[1..]) else ByteZeros(h[0])
  }

  lemma {:induction false} LeadingZerosBound(h: Bytes)
    ensures LeadingZeros(h) <= 8 * |h|
  {
    if h != [] {
      LeadingZerosBound(h[1..]);
    }
  }

  predicate MeetsDifficulty(h: Digest, D: u32) { LeadingZeros(h) >= D }

  lemma {:induction false} Pow2Add(m: nat, n: nat)
    ensures Pow2(m + n) == Pow2(m) * Pow2(n)
  {
    if m > 0 {
      Pow2Add(m - 1, n);
      assert Pow2(m + n) == 2 * (Pow2(m - 1) * Pow2(n)) == (2 * Pow2(m - 1)) * Pow2(n);
    }
  }

  lemma {:induction false} Pow2Monotone(m: nat, n: nat)
    requires m <= n
    ensures Pow2(m) <= Pow2(n)
  {
    if m < n {
      Pow2Monotone(m, n - 1);
    }
  }

  lemma {:induction false} Pow256IsPow2(n: nat)
    ensures Pow256(n) == Pow2(8 * n)
  {
    if n > 0 {
      Pow256IsPow2(n - 1);
      Pow2Add(8, 8 * (n - 1));
      assert Pow2(8) == 256;
    }
  }

  lemma ByteZerosMeaning(b: byte)
    ensures b < Pow2(8 - ByteZeros(b)) && (b > 0 ==> ByteZeros(b) < 8 && Pow2(7 - ByteZeros(b)) <= b)
  {
    assert Pow2(8) == 256 && Pow2(7) == 128 && Pow2(6) == 64 && Pow2(5) == 32;
    assert Pow2(4) == 16 && Pow2(3) == 8 && Pow2(2) == 4 && Pow2(1) == 2;
  }

  // The count is the width minus the bit length of the digest read as a big-endian integer.
  lemma {:induction false} LeadingZerosMeaning(h: Bytes)
    ensures LeadingZeros(h) <= 8 * |h| && BigEndian(h) < Pow2(8 * |h| - LeadingZeros(h))
    ensures LeadingZeros(h) < 8 * |h| ==> Pow2(8 * |h| - LeadingZeros(h) - 1) <= BigEndian(h)
  {
    LeadingZerosBound(h);
    if h != [] {
      var rest := h[1..];
      assert h == [h[0]] + rest;
      BigEndianCons(h[0], rest);
      BigEndianBound(rest);
      Pow256IsPow2(|rest|);
      if h[0] == 0 {
        LeadingZerosMeaning(rest);
      } else {
        FirstByteDecides(h[0], BigEndian(rest), 8 * |rest|);
      }
    }
  }

  lemma FirstByteDecides(b: byte, v: nat, n: nat)
    requires b > 0 && v < Pow2(n)
    ensures ByteZeros(b) < 8
    ensures var z := ByteZeros(b);
      Pow2(n + 7 - z) <= b * Pow2(n) + v < Pow2(n + 8 - z)
  {
    var z := ByteZeros(b);
    ByteZerosMeaning(b);
    Pow2Add(8 - z, n);
    Pow2Add(7 - z, n);
    MulBounds(b, Pow2(8 - z), Pow2(7 - z), Pow2(n));
  }

  lemma MulBounds(b: nat, hi: nat, lo: nat, w: nat)
    requires lo <= b < hi
    ensures lo * w <= b * w && b * w + w <= hi * w
  {
    assert (b - lo) * w >= 0;
    assert (hi - b - 1) * w >= 0;
  }

  // A digest meets D exactly when D is at most 256 and the digest, as an integer, is below 2^(256-D).
  lemma MeetsDifficultyIsTarget(h: Digest, D: u32)
    ensures MeetsDifficulty(h, D) <==> D <= 256 && BigEndian(h) < Pow2(256 - D)
  {
    LeadingZerosMeaning(h);
    var z := LeadingZeros(h);
    if D <= z {
      Pow2Monotone(256 - z, 256 - D);
    } else if D <= 256 {
      Pow2Monotone(256 - D, 255 - z);
    }
  }

  // The byte-wise reading of the same target: D/8 zero bytes, then D%8 zero bits.
  ghost predicate ZeroPrefix(h: Bytes, D: nat)
  {
    && D <= 8 * |h|
    && (forall i :: 0 <= i < D / 8 ==> h[i] == 0)
    && (D % 8 != 0 ==> h[D / 8] < Pow2(8 - D % 8))
  }

  lemma {:induction false} LeadingZerosIsPrefix(h: Bytes, D: nat)
    ensures LeadingZeros(h) >= D <==> ZeroPrefix(h, D)
  {
    if h == [] {
    } else if D < 8 {
      ByteZerosMeaning(h[0]);
      if h[0] != 0 && D <= ByteZeros(h[0]) {
        Pow2Monotone(8 - ByteZeros(h[0]), 8 - D);
      } else if h[0] != 0 {
        Pow2Monotone(8 - D, 7 - ByteZeros(h[0]));
      } else {
        assert D % 8 == D && D / 8 == 0;
      }
    } else {
      var rest := h[1..];
      LeadingZerosIsPrefix(rest, D - 8);
      assert (D - 8) / 8 == D / 8 - 1 && (D - 8) % 8 == D % 8;
      if h[0] == 0 {
        assert forall i :: 0 <= i < |rest| ==> rest[i] == h[i + 1];
        if ZeroPrefix(rest, D - 8) {
          forall i | 0 <= i < D / 8 ensures h[i] == 0 {
            assert i == 0 || h[i] == rest[i - 1];
          }
        } else if ZeroPrefix(h, D) {
          assert ZeroPrefix(rest, D - 8);
        }
      }
    }
  }

  lemma MeetsDifficultyIsZeroPrefix(h: Digest, D: u32)
    ensures MeetsDifficulty(h, D) <==> ZeroPrefix(h, D)
  {
    LeadingZerosIsPrefix(h, D);
  }

  // Bit `bit` of a byte whose higher bits are clear tells whether the byte reaches 2^bit.
  lemma TopBit(b: byte, bit: nat)
    requires bit < 8 && b < 2 * Pow2(bit)
    ensures (b / Pow2(bit)) % 2 == (if b >= Pow2(bit) then 1 else 0)
  {
    if b >= Pow2(bit) {
      QuotientUnique(b, Pow2(bit), 1, b - Pow2(bit));
    } else {
      QuotientUnique(b, Pow2(bit), 0, b);
    }
  }

  method LeadingZeroBits(hash: Digest) returns (count: nat)
    ensures count == LeadingZeros(hash)
  {
    count := 0;
    var i := 0;
    while i < |hash|
      invariant 0 <= i <= |hash| && count == 8 * i
      invariant LeadingZeros(hash) == count + LeadingZeros(hash[i..])
    {
      var b := hash[i];
      assert hash[i..][1..] == hash[i + 1..];
      i := i + 1;
      if b == 0 {
        count := count + 8;
        continue;
      }
      var bit := 7;
      ByteZerosMeaning(b);
      assert Pow2(8) == 256;
      while bit >= 0
        invariant -1 <= bit <= 7 && b < Pow2(bit + 1)
        invariant count == 8 * (i - 1) + 7 - bit
      {
        TopBit(b, bit);
        if (b / Pow2(bit)) % 2 == 1 {
          ByteZerosUnique(b, 7 - bit);
          return count;
        }
        count := count + 1;
        bit := bit - 1;
      }
    }
  }

  lemma ByteZerosUnique(b: byte, z: nat)
    requires z < 8 && Pow2(7 - z) <= b < Pow2(8 - z)
    ensures ByteZeros(b) == z
  {
    ByteZerosMeaning(b);
    if ByteZeros(b) < z {
      Pow2Monotone(8 - z, 7 - ByteZeros(b));
    } else if ByteZeros(b) > z {
      Pow2Monotone(8 - ByteZeros(b), 7 - z);
    }
  }

  // ---- Work ----

  // 2^D, saturating at the 128-bit maximum from D = 128 on.
  function BlockWork(D: u32): u128
  {
    if D >= 128 then TWO128 - 1
    else
      assert Pow2(D) < TWO128 by { Pow2Fits128(D); }
      Pow2(D)
  }

  lemma Pow2Fits128(D: nat)
    requires D < 128
    ensures Pow2(D) < TWO128
  {
    Pow256IsPow2(16);
    assert Pow256(4) == 0x1_0000_0000;
    assert Pow256(8) == TWO64;
    assert Pow256(12) == 0x1_0000_0000 * TWO64;
    assert Pow256(16) == TWO128;
    Pow2Monotone(D + 1, 128);
  }

  lemma Pow2Doubles(D: nat, n: nat)
    requires D <= n
    ensures Pow2(D) * Pow2(n - D) == Pow2(n)
  {
    Pow2Add(D, n - D);
  }

  lemma ProductOrder(x: nat, y: nat, w: nat)
    requires w > 0
    ensures x * w < y * w <==> x < y
  {
    var d := y - x;
    assert y * w == (x + d) * w == x * w + d * w;
    if d > 0 {
      assert d * w >= w;
    } else {
      assert d * w <= 0;
    }
  }

  // The work of a block is what its target asks for: of the 2^256 digests, those that meet D are the ones
  // whose value times the work stays below 2^256.
  lemma WorkIsTarget(h: Digest, D: u32)
    requires D < 128
    ensures MeetsDifficulty(h, D) <==> BigEndian(h) * BlockWork(D) < Pow2(256)
  {
    MeetsDifficultyIsTarget(h, D);
    Pow2Doubles(D, 256);
    ProductOrder(BigEndian(h), Pow2(256 - D), Pow2(D));
    assert Pow2(256 - D) * Pow2(D) == Pow2(D) * Pow2(256 - D);
  }

  // It is one at D = 0, doubles with every bit up to 127, and is the 128-bit maximum from there on.
  lemma WorkDoubles(D: u32)
    ensures D == 0 ==> BlockWork(D) == 1
    ensures D < 127 ==> BlockWork(D + 1) == 2 * BlockWork(D)
    ensures D >= 128 ==> BlockWork(D) == 0xffff_ffff_ffff_ffff_ffff_ffff_ffff_ffff
  {
  }

  // ---- Hex ----

  const HEX_DIGITS := "0123456789abcdef"

  function HexDigit(v: nat): char
    requires v < 16
  {
    (if v < 10 then '0' as int + v else 'a' as int + v - 10) as char
  }

  lemma HexTable(v: nat)
    requires v < 16
    ensures HEX_DIGITS[v] == HexDigit(v)
  {
  }

  function HexEncode(b: Bytes): (s: string)
    ensures |s| == 2 * |b|
  {
    if b == [] then []
    else HexEncode(b[..|b| - 1]) + [HexDigit(b[|b| - 1] / 16), HexDigit(b[|b| - 1] % 16)]
  }

  function Lower(ch: char): char
  {
    if 'A' <= ch <= 'F' then (ch as int - 'A' as int + 'a' as int) as char else ch
  }

  function LowerAll(s: string): (r: string)
    ensures |r| == |s| && forall i :: 0 <= i < |s| ==> r[i] == Lower(s[i])
  {
    seq(|s|, i requires 0 <= i < |s| => Lower(s[i]))
  }

  predicate IsHexDigit(ch: char) { '0' <= ch <= '9' || 'a' <= ch <= 'f' || 'A' <= ch <= 'F' }

  predicate IsHex(s: string) { forall i :: 0 <= i < |s| ==> IsHexDigit(s[i]) }

  method ToHex(b: Bytes) returns (s: string)
    ensures s == HexEncode(b)
  {
    s := "";
    for i := 0 to |b|
      invariant s == HexEncode(b[..i])
    {
      var byt := b[i];
      HexTable(byt / 16);
      HexTable(byt % 16);
      s := s + [HEX_DIGITS[byt / 16]];
      s := s + [HEX_DIGITS[byt % 16]];
      assert b[..i + 1][..i] == b[..i];
    }
    assert b[..|b|] == b;
  }

  method Nibble(ch: char) returns (ok: bool, v: int)
    ensures ok <==> IsHexDigit(ch)
    ensures ok ==> 0 <= v < 16 && HexDigit(v) == Lower(ch)
  {
    if '0' <= ch <= '9' {
      return true, ch as int - '0' as int;
    }
    if 'a' <= ch <= 'f' {
      return true, ch as int - 'a' as int + 10;
    }
    if 'A' <= ch <= 'F' {
      return true, ch as int - 'A' as int + 10;
    }
    return false, 0;
  }

  // Appending the byte of two decoded digits keeps the encoding in step with the text.
  lemma HexStep(hex: string, i: nat, out: Bytes, hi: int, lo: int)
    requires 2 * i + 2 <= |hex| && |out| == i && 0 <= hi < 16 && 0 <= lo < 16
    requires IsHex(hex[..2 * i]) && HexEncode(out) == LowerAll(hex[..2 * i])
    requires IsHexDigit(hex[2 * i]) && IsHexDigit(hex[2 * i + 1])
    requires HexDigit(hi) == Lower(hex[2 * i]) && HexDigit(lo) == Lower(hex[2 * i + 1])
    ensures IsHex(hex[..2 * i + 2])
    ensures HexEncode(out + [hi * 16 + lo]) == LowerAll(hex[..2 * i + 2])
  {
    var b := out + [hi * 16 + lo];
    assert b[..|b| - 1] == out && b[|b| - 1] / 16 == hi && b[|b| - 1] % 16 == lo;
    var low, lowStep := LowerAll(hex[..2 * i]), LowerAll(hex[..2 * i + 2]);
    assert hex[..2 * i + 2] == hex[..2 * i] + [hex[2 * i], hex[2 * i + 1]];
    assert lowStep == low + [Lower(hex[2 * i]), Lower(hex[2 * i + 1])];
  }

  // Decodes exactly the 2n-digit hex strings, in either letter case; re-encoding gives the lower-case text.
  method FromHex(hex: string, n: nat) returns (ok: bool, out: Bytes)
    ensures ok <==> |hex| == 2 * n && IsHex(hex)
    ensures ok ==> |out| == n && HexEncode(out) == LowerAll(hex)
  {
    out := [];
    if |hex| != 2 * n {
      return false, out;
    }
    for i := 0 to n
      invariant |out| == i && IsHex(hex[..2 * i]) && HexEncode(out) == LowerAll(hex[..2 * i])
    {
      var okHi, hi := Nibble(hex[2 * i]);
      if !okHi {
        return false, out;
      }
      var okLo, lo := Nibble(hex[2 * i + 1]);
      if !okLo {
        return false, out;
      }
      HexStep(hex, i, out, hi, lo);
      out := out + [hi * 16 + lo];
    }
    assert hex[..2 * n] == hex;
    ok := true;
  }

  lemma HexLast(a: Bytes)
    requires a != []
    ensures var n := |a| - 1;
      HexEncode(a)[..2 * n] == HexEncode(a[..n]) &&
      HexEncode(a)[2 * n] == HexDigit(a[n] / 16) && HexEncode(a)[2 * n + 1] == HexDigit(a[n] % 16)
  {
  }

  // Encoding is injective, so with FromHex's contract decoding what was encoded gives back the bytes.
  lemma {:induction false} HexEncodeInjective(a: Bytes, b: Bytes)
    requires HexEncode(a) == HexEncode(b)
    ensures a == b
  {
    if a != [] {
      HexSameLast(a, b);
      HexEncodeInjective(a[..|a| - 1], b[..|a| - 1]);
      InitLast(a);
      InitLast(b);
    }
  }

  lemma HexSameLast(a: Bytes, b: Bytes)
    requires a != [] && HexEncode(a) == HexEncode(b)
    ensures |a| == |b| && a[|a| - 1] == b[|a| - 1] && HexEncode(a[..|a| - 1]) == HexEncode(b[..|a| - 1])
  {
    var n := |a| - 1;
    HexLast(a);
    HexLast(b);
    HexDigitsDistinct(a[n] / 16, b[n] / 16);
    HexDigitsDistinct(a[n] % 16, b[n] % 16);
  }

  lemma HexDigitsDistinct(i: nat, j: nat)
    requires i < 16 && j < 16
    ensures HexDigit(i) == HexDigit(j) ==> i == j
  {
  }

  // What ToHex writes, FromHex reads back.
  method HexRoundTrip(b: Bytes) returns (ok: bool, back: Bytes)
    ensures ok && back == b
  {
    var s := ToHex(b);
    HexTextIsLower(b);
    ok, back := FromHex(s, |b|);
    assert LowerAll(s) == s;
    HexEncodeInjective(back, b);
  }

  lemma {:induction false} HexTextIsLower(b: Bytes)
    ensures IsHex(HexEncode(b)) && LowerAll(HexEncode(b)) == HexEncode(b)
  {
    if b != [] {
      HexTextIsLower(b[..|b| - 1]);
      var s, p := HexEncode(b), HexEncode(b[..|b| - 1]);
      forall i | 0 <= i < |s| ensures IsHexDigit(s[i]) && Lower(s[i]) == s[i] {
        if i < |p| {
          assert s[i] == p[i] && LowerAll(p)[i] == Lower(p[i]);
        } else {
          DigitIsLower(b[|b| - 1] / 16);
          DigitIsLower(b[|b| - 1] % 16);
        }
      }
    }
  }

  lemma DigitIsLower(i: nat)
    requires i < 16
    ensures Lower(HexDigit(i)) == HexDigit(i) && IsHexDigit(HexDigit(i))
  {
  }
}

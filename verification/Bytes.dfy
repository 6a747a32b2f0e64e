/** Machine integers, byte strings and the big-endian codec of 64-bit fields. */
module Bytes {
  import opened Wrappers


  const TWO64 := 0x1_0000_0000_0000_0000
  const TWO128 := 0x1_0000_0000_0000_0000_0000_0000_0000_0000

  type byte = x: int | 0 <= x < 256
  type u32 = x: int | 0 <= x < 0x1_0000_0000
  type u64 = x: int | 0 <= x < TWO64
  type u128 = x: int | 0 <= x < TWO128

  // Unsigned arithmetic in the program wraps; these functions make it explicit. They are reduction
  // modulo the width (WrapIsMod), written by single wraps because most sums wrap at most once.
  function Wrap64(x: int): (w: u64)
    decreases if x < 0 then -x else x
  {
    if x < 0 then (if x + TWO64 >= 0 then x + TWO64 else Wrap64(x + TWO64))
    else if x >= TWO64 then (if x - TWO64 < TWO64 then x - TWO64 else Wrap64(x - TWO64))
    else x
  }

  function Wrap128(x: int): (w: u128)
    decreases if x < 0 then -x else x
  {
    if x < 0 then (if x + TWO128 >= 0 then x + TWO128 else Wrap128(x + TWO128))
    else if x >= TWO128 then (if x - TWO128 < TWO128 then x - TWO128 else Wrap128(x - TWO128))
    else x
  }

  lemma {:induction false} Wraps64(x: int) returns (q: int)
    ensures x == q * 0x1_0000_0000_0000_0000 + Wrap64(x)
    decreases if x < 0 then -x else x
  {
    if x < -TWO64 {
      q := Wraps64(x + TWO64);
      q := q - 1;
    } else if x < 0 {
      q := -1;
    } else if x < TWO64 {
      q := 0;
    } else if x < TWO64 + TWO64 {
      q := 1;
    } else {
      q := Wraps64(x - TWO64);
      q := q + 1;
    }
  }

  lemma WrapIsMod(x: int)
    ensures Wrap64(x) == x % 0x1_0000_0000_0000_0000
  {
    var q := Wraps64(x);
  }

  lemma {:induction false} Wraps128(x: int) returns (q: int)
    ensures x == q * 0x1_0000_0000_0000_0000_0000_0000_0000_0000 + Wrap128(x)
    decreases if x < 0 then -x else x
  {
    if x < -TWO128 {
      q := Wraps128(x + TWO128);
      q := q - 1;
    } else if x < 0 {
      q := -1;
    } else if x < TWO128 {
      q := 0;
    } else if x < TWO128 + TWO128 {
      q := 1;
    } else {
      q := Wraps128(x - TWO128);
      q := q + 1;
    }
  }

  lemma Wrap128IsMod(x: int)
    ensures Wrap128(x) == x % 0x1_0000_0000_0000_0000_0000_0000_0000_0000
  {
    var q := Wraps128(x);
  }

  lemma Wrap128Wrap(x: int, y: int)
    ensures Wrap128(Wrap128(x) + y) == Wrap128(x + y)
  {
    Wrap128IsMod(x);
    Wrap128IsMod(x % 0x1_0000_0000_0000_0000_0000_0000_0000_0000 + y);
    Wrap128IsMod(x + y);
  }

  lemma WrapWrap(x: int, y: int)
    ensures Wrap64(Wrap64(x) + y) == Wrap64(x + y)
  {
    WrapIsMod(x);
    WrapIsMod(x % 0x1_0000_0000_0000_0000 + y);
    WrapIsMod(x + y);
  }

  lemma SameShift(x: int, y: int, s: int)
    ensures Wrap64(s + x) == Wrap64(s + y) <==> Wrap64(x) == Wrap64(y)
  {
    WrapIsMod(s + x);
    WrapIsMod(s + y);
    WrapIsMod(x);
    WrapIsMod(y);
  }

  // n times w by repeated addition: what an accumulator holds after n steps.
  function Times(n: nat, w: nat): nat { if n == 0 then 0 else Times(n - 1, w) + w }

  lemma {:induction false} TimesIsProduct(n: nat, w: nat)
    ensures Times(n, w) == n * w
  {
    if n > 0 {
      TimesIsProduct(n - 1, w);
      assert n * w == (n - 1) * w + w;
    }
  }

  type Bytes = seq<byte>
  type Digest = s: Bytes | |s| == 32 witness seq(32, _ => 0)
  type Address = s: Bytes | |s| == 20 witness seq(20, _ => 0)
  type PubKey = s: Bytes | |s| == 32 witness seq(32, _ => 0)
  type Signature = s: Bytes | |s| == 64 witness seq(64, _ => 0)

  function Zeros(n: nat): (z: Bytes)
    ensures |z| == n
  {
    seq(n, _ => 0)
  }

  function Pow256(n: nat): (p: nat)
    ensures p > 0
  {
    if n == 0 then 1 else 256 * Pow256(n - 1)
  }

  lemma Pow256Values()
    ensures Pow256(0) == 1 && Pow256(1) == 0x100 && Pow256(2) == 0x1_0000 && Pow256(3) == 0x100_0000
    ensures Pow256(4) == 0x1_0000_0000 && Pow256(5) == 0x100_0000_0000 && Pow256(6) == 0x1_0000_0000_0000
    ensures Pow256(7) == 0x100_0000_0000_0000
  {
    assert Pow256(3) == 0x100_0000;
    assert Pow256(6) == 0x1_0000_0000_0000;
  }

  // The integer a byte string denotes, most significant byte first.
  function BigEndian(s: Bytes): nat
  {
    if s == [] then 0 else 256 * BigEndian(s[..|s| - 1]) + s[|s| - 1]
  }

  // The low n bytes of v, most significant first.
  function ToBigEndian(v: nat, n: nat): (s: Bytes)
    ensures |s| == n
  {
    seq(n, i requires 0 <= i < n => (v / Pow256(n - 1 - i)) % 256)
  }

  lemma ToBigEndianInit(v: nat, n: nat)
    requires n > 0
    ensures ToBigEndian(v, n) == ToBigEndian(v / 256, n - 1) + [v % 256]
  {
    var s, t := ToBigEndian(v, n), ToBigEndian(v / 256, n - 1) + [v % 256];
    assert Pow256(n - 1 - (n - 1)) == 1;
    assert s[n - 1] == (v / Pow256(0)) % 256;
    forall i | 0 <= i < n - 1 ensures s[i] == t[i] {
      DigitShift(v, n - 1 - i);
    }
  }

  lemma DigitShift(v: nat, k: nat)
    requires k > 0
    ensures (v / Pow256(k)) % 256 == ((v / 256) / Pow256(k - 1)) % 256
  {
    DivDiv(v, Pow256(k - 1));
  }

  lemma {:induction false} BigEndianBound(s: Bytes)
    ensures BigEndian(s) < Pow256(|s|)
  {
    if s != [] {
      BigEndianBound(s[..|s| - 1]);
    }
  }

  lemma {:induction false} DecodeEncode(v: nat, n: nat)
    requires v < Pow256(n)
    ensures BigEndian(ToBigEndian(v, n)) == v
  {
    if n > 0 {
      DecodeEncode(v / 256, n - 1);
      ToBigEndianInit(v, n);
      var s := ToBigEndian(v, n);
      assert s[..n - 1] == ToBigEndian(v / 256, n - 1);
    }
  }

  lemma BigEndianDigits(s: Bytes)
    requires s != []
    ensures BigEndian(s) / 256 == BigEndian(s[..|s| - 1]) && BigEndian(s) % 256 == s[|s| - 1]
  {
  }

  lemma {:induction false} EncodeDecode(s: Bytes)
    ensures ToBigEndian(BigEndian(s), |s|) == s
  {
    if s != [] {
      EncodeDecode(s[..|s| - 1]);
      ToBigEndianInit(BigEndian(s), |s|);
      BigEndianDigits(s);
      InitLast(s);
    }
  }

  lemma {:induction false} BigEndianCons(b: byte, s: Bytes)
    ensures BigEndian([b] + s) == b * Pow256(|s|) + BigEndian(s)
  {
    if s == [] {
      assert [b] + s == [b];
      assert [b][..0] == [];
      assert BigEndian([b]) == 256 * BigEndian([]) + b;
    } else {
      var init := s[..|s| - 1];
      BigEndianCons(b, init);
      assert ([b] + s)[..|s|] == [b] + init;
    }
  }

  // Dividing by 256 and then by m is dividing by 256 * m.
  lemma DivDiv(v: nat, m: nat)
    requires m > 0
    ensures (v / 256) / m == v / (256 * m)
  {
    var q, r := v / (256 * m), v % (256 * m);
    assert v == q * (256 * m) + r == 256 * (q * m) + r;
    assert v / 256 == q * m + r / 256;
    QuotientUnique(v / 256, m, q, r / 256);
  }

  lemma QuotientUnique(x: nat, m: nat, q: nat, r: nat)
    requires m > 0 && r < m && x == q * m + r
    ensures x / m == q
  {
    var d := x / m - q;
    assert d * m == r - x % m;
  }
}

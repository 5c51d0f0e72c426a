/** Bytes, bits and powers of two, shared by the deflate, zip and evaluator models. */
module Bits {
  type byte = x: int | 0 <= x < 256

  function Pow2(n: nat): (p: nat)
    ensures p > 0
  {
    if n == 0 then 1 else 2 * Pow2(n - 1)
  }

  lemma {:induction false} Pow2Add(m: nat, n: nat)
    ensures Pow2(m + n) == Pow2(m) * Pow2(n)
  {
    if m > 0 {
      Pow2Add(m - 1, n);
      assert Pow2(m + n) == 2 * Pow2(m - 1 + n);
    }
  }

  /** The low `n` bits of `v`, least significant first: the order in which
      deflate packs every field that is not a Huffman code. */
  function BitsOf(v: nat, n: nat): (b: seq<bool>)
    ensures |b| == n
    decreases n, v
  {
    if n == 0 then [] else [v % 2 == 1] + BitsOf(v / 2, n - 1)
  }

  /** The number whose bits are `b`, least significant first. */
  function ValueOf(b: seq<bool>): (v: nat)
  {
    if b == [] then 0 else (if b[0] then 1 else 0) + 2 * ValueOf(b[1..])
  }

  /** The number whose bits are `b`, most significant first: the order of a
      Huffman code. */
  function CodeValue(b: seq<bool>): (v: nat)
  {
    if b == [] then 0
    else 2 * CodeValue(b[..|b| - 1]) + (if b[|b| - 1] then 1 else 0)
  }

  /** The `n` low bits of `v`, most significant first. */
  function CodeBits(v: nat, n: nat): (b: seq<bool>)
    ensures |b| == n
    decreases n, v
  {
    if n == 0 then [] else CodeBits(v / 2, n - 1) + [v % 2 == 1]
  }

  lemma {:induction false} ValueBound(b: seq<bool>)
    ensures ValueOf(b) < Pow2(|b|)
  {
    if b != [] { ValueBound(b[1..]); }
  }

  lemma {:induction false} ValueOfBitsOf(v: nat, n: nat)
    requires v < Pow2(n)
    ensures ValueOf(BitsOf(v, n)) == v
  {
    if n > 0 {
      ValueOfBitsOf(v / 2, n - 1);
      assert BitsOf(v, n)[1..] == BitsOf(v / 2, n - 1);
    }
  }

  lemma {:induction false} BitsOfValueOf(b: seq<bool>)
    ensures BitsOf(ValueOf(b), |b|) == b
  {
    if b != [] {
      BitsOfValueOf(b[1..]);
      assert b == [b[0]] + b[1..];
    }
  }

  lemma {:induction false} CodeValueOfCodeBits(v: nat, n: nat)
    requires v < Pow2(n)
    ensures CodeValue(CodeBits(v, n)) == v
  {
    if n > 0 {
      CodeValueOfCodeBits(v / 2, n - 1);
      assert CodeBits(v, n)[..n - 1] == CodeBits(v / 2, n - 1);
    }
  }

  lemma {:induction false} CodeBitsOfCodeValue(b: seq<bool>)
    ensures CodeBits(CodeValue(b), |b|) == b
  {
    if b != [] {
      CodeBitsOfCodeValue(b[..|b| - 1]);
      assert b == b[..|b| - 1] + [b[|b| - 1]];
    }
  }

  /** A prefix of a code is the code shifted right. */
  lemma {:induction false} CodeValuePrefix(b: seq<bool>, k: nat)
    requires k <= |b|
    ensures CodeValue(b) / Pow2(|b| - k) == CodeValue(b[..k])
    decreases |b| - k
  {
    if k == |b| {
      assert b[..k] == b;
    } else {
      var c := b[..|b| - 1];
      CodeValuePrefix(c, k);
      assert c[..k] == b[..k];
      HalveThenDivide(CodeValue(b), Pow2(|b| - 1 - k));
    }
  }

  lemma HalveThenDivide(v: nat, d: nat)
    requires d > 0
    ensures v / (2 * d) == (v / 2) / d
  {
    var q, r := (v / 2) / d, (v / 2) % d;
    assert v / 2 == q * d + r;
    var s := 2 * r + v % 2;
    assert v == q * (2 * d) + s;
    DivideUnique(v, 2 * d, q, s);
  }

  lemma AtLeastOnce(x: nat, d: nat)
    requires x > 0
    ensures x * d >= d
  {
    var y: nat := x - 1;
    assert y * d >= 0;
    assert x * d == y * d + d;
  }

  lemma SmallMultiple(x: int, d: nat)
    requires -(d as int) < x * d < d
    ensures x == 0
  {
    if x > 0 {
      AtLeastOnce(x, d);
    } else if x < 0 {
      assert (-x) * d == -(x * d);
      AtLeastOnce(-x, d);
    }
  }

  lemma DivideUnique(v: nat, d: nat, q: nat, r: nat)
    requires v == q * d + r && r < d
    ensures v / d == q && v % d == r
  {
    var q', r' := v / d, v % d;
    DivideParts(v, d);
    assert (q - q') * d == r' - r;
    SmallMultiple(q - q', d);
  }

  lemma DivideParts(v: nat, d: nat)
    requires d > 0
    ensures v / d >= 0 && v == v % d + (v / d) * d && v % d < d
  {
  }

  /** Loading `w` above `n` bits already held appends its bits. */
  lemma {:induction false} AppendBits(v: nat, n: nat, w: nat, m: nat)
    requires v < Pow2(n)
    ensures BitsOf(v + w * Pow2(n), n + m) == BitsOf(v, n) + BitsOf(w, m)
  {
    if n == 0 {
      assert BitsOf(w, m) == [] + BitsOf(w, m);
    } else {
      var h := w * Pow2(n - 1);
      assert w * Pow2(n) == 2 * h;
      assert (v + 2 * h) % 2 == v % 2 && (v + 2 * h) / 2 == v / 2 + h;
      AppendBits(v / 2, n - 1, w, m);
    }
  }

  lemma Associate(a: int, b: int, c: int)
    ensures a * (b * c) == (a * b) * c
  {
  }

  lemma Swap(a: int, b: int)
    ensures a * b == b * a
  {
  }

  lemma {:induction false} ValueOfBoth(a: seq<bool>, b: seq<bool>)
    ensures ValueOf(a + b) == ValueOf(a) + ValueOf(b) * Pow2(|a|)
    decreases |a|
  {
    if a == [] {
      assert a + b == b;
    } else {
      assert (a + b)[1..] == a[1..] + b;
      ValueOfBoth(a[1..], b);
      Associate(ValueOf(b), 2, Pow2(|a| - 1));
      Swap(ValueOf(b), 2);
      Associate(2, ValueOf(b), Pow2(|a| - 1));
    }
  }

  /** The bits of a byte string, in the order deflate reads them. */
  function BytesBits(s: seq<byte>): (b: seq<bool>)
    ensures |b| == 8 * |s|
  {
    if s == [] then [] else BitsOf(s[0], 8) + BytesBits(s[1..])
  }

  /** The bytes of a bit string cut into groups of eight. */
  function BitsBytes(b: seq<bool>): (s: seq<byte>)
    requires |b| % 8 == 0
    ensures 8 * |s| == |b|
  {
    if b == [] then [] else
      ValueBound(b[..8]);
      assert Pow2(8) == 256;
      [ValueOf(b[..8])] + BitsBytes(b[8..])
  }

  lemma {:induction false} BitsBytesOfBytesBits(s: seq<byte>)
    ensures BitsBytes(BytesBits(s)) == s
  {
    if s != [] {
      assert Pow2(8) == 256;
      ValueOfBitsOf(s[0], 8);
      assert BytesBits(s)[..8] == BitsOf(s[0], 8);
      assert BytesBits(s)[8..] == BytesBits(s[1..]);
      BitsBytesOfBytesBits(s[1..]);
    }
  }

  lemma {:induction false} BytesBitsOfBitsBytes(b: seq<bool>)
    requires |b| % 8 == 0
    ensures BytesBits(BitsBytes(b)) == b
  {
    if b != [] {
      BytesBitsOfBitsBytes(b[8..]);
      BitsOfValueOf(b[..8]);
      assert b == b[..8] + b[8..];
    }
  }

  lemma {:induction false} BytesBitsConcat(s: seq<byte>, t: seq<byte>)
    ensures BytesBits(s + t) == BytesBits(s) + BytesBits(t)
  {
    if s == [] {
      assert s + t == t;
    } else {
      assert (s + t)[1..] == s[1..] + t;
      BytesBitsConcat(s[1..], t);
    }
  }

  lemma BytesBitsDrop(s: seq<byte>, k: nat)
    requires k <= |s|
    ensures BytesBits(s)[8 * k..] == BytesBits(s[k..])
    ensures BytesBits(s)[..8 * k] == BytesBits(s[..k])
  {
    assert s == s[..k] + s[k..];
    BytesBitsConcat(s[..k], s[k..]);
  }

  // ---- Little-endian fields ----

  function Get16(p: seq<byte>, at: nat): (v: nat)
    requires at + 2 <= |p|
    ensures v < 0x1_0000
  {
    var low: int, high: int := p[at], p[at + 1];
    low + 256 * high
  }

  function Get32(p: seq<byte>, at: nat): (v: nat)
    requires at + 4 <= |p|
    ensures v < 0x1_0000_0000
  {
    Get16(p, at) + 0x1_0000 * Get16(p, at + 2)
  }

  function Put16(v: nat): (b: seq<byte>)
    requires v < 0x1_0000
    ensures |b| == 2
  {
    [v % 256, v / 256]
  }

  function Put32(v: nat): (b: seq<byte>)
    requires v < 0x1_0000_0000
    ensures |b| == 4
  {
    Put16(v % 0x1_0000) + Put16(v / 0x1_0000)
  }
}

/** The CRC-32 of the zip format: `crc32_of` of zip.c, with what it detects.
    A 32-bit word is its bits, least significant first. */
module Crc {
  import opened Bits

  function Zeros(n: nat): (z: seq<bool>)
    ensures |z| == n
  {
    seq(n, _ => false)
  }

  function Xor(a: seq<bool>, b: seq<bool>): (c: seq<bool>)
    requires |a| == |b|
    ensures |c| == |a|
  {
    seq(|a|, i requires 0 <= i < |a| => a[i] != b[i])
  }

  lemma WordSize()
    ensures Pow2(32) == 0x1_0000_0000
  {
    assert Pow2(8) == 256;
    Pow2Add(8, 8);
    Pow2Add(16, 16);
  }

  /** The polynomial of IEEE 802.3, 0xedb88320. */
  function Polynomial(): (p: seq<bool>)
    ensures |p| == 32 && p[31]
  {
    [false, false, false, false, false, true, false, false] + [true, true, false, false, false, false, false, true]
    + [false, false, false, true, true, true, false, true] + [true, false, true, true, false, true, true, true]
  }

  lemma PolynomialLow()
    ensures Polynomial()[..16] == BitsOf(0x20, 8) + BitsOf(0x83, 8)
  {
  }

  lemma PolynomialHigh()
    ensures Polynomial()[16..] == BitsOf(0xb8, 8) + BitsOf(0xed, 8)
  {
  }

  lemma PolynomialBytes()
    ensures Polynomial() == BytesBits([0x20, 0x83]) + BytesBits([0xb8, 0xed])
  {
    PolynomialLow();
    PolynomialHigh();
    BytesOfTwo(0x20, 0x83);
    BytesOfTwo(0xb8, 0xed);
    assert Polynomial() == Polynomial()[..16] + Polynomial()[16..];
  }

  lemma ValueOfTwo(a: byte, b: byte)
    ensures ValueOf(BytesBits([a, b])) == a as int + 0x100 * b as int
  {
    BytesOfTwo(a, b);
    ValueOfBoth(BitsOf(a, 8), BitsOf(b, 8));
    assert Pow2(8) == 256;
    ValueOfBitsOf(a, 8);
    ValueOfBitsOf(b, 8);
  }

  lemma LowAndHigh(low: seq<bool>, high: seq<bool>)
    requires |low| == 16
    ensures ValueOf(low + high) == ValueOf(low) + ValueOf(high) * 0x1_0000
  {
    ValueOfBoth(low, high);
    assert Pow2(8) == 256;
    Pow2Add(8, 8);
  }

  lemma PolynomialIsThatOfTheFormat()
    ensures ValueOf(Polynomial()) == 0xedb8_8320
  {
    var low, high := BytesBits([0x20, 0x83]), BytesBits([0xb8, 0xed]);
    PolynomialBytes();
    ValueOfTwo(0x20, 0x83);
    ValueOfTwo(0xb8, 0xed);
    LowAndHigh(low, high);
  }

  lemma BytesOfTwo(a: byte, b: byte)
    ensures BytesBits([a, b]) == BitsOf(a, 8) + BitsOf(b, 8)
  {
    assert [a, b][1..] == [b] && [b][1..] == [];
  }

  /** A shift, with `p` mixed in where a one falls out. */
  function ShiftMix(crc: seq<bool>, p: seq<bool>): (r: seq<bool>)
    requires |crc| == |p| == 32
    ensures |r| == 32
  {
    Xor(crc[1..] + [false], if crc[0] then p else Zeros(32))
  }

  /** One bit step of the register. */
  function Step(crc: seq<bool>): (r: seq<bool>)
    requires |crc| == 32
    ensures |r| == 32
  {
    ShiftMix(crc, Polynomial())
  }

  function Steps(crc: seq<bool>, n: nat): (r: seq<bool>)
    requires |crc| == 32
    ensures |r| == 32
    decreases n, |crc|
  {
    if n == 0 then crc else Steps(Step(crc), n - 1)
  }

  /** A byte as a word of the register. */
  function Word(b: byte): (w: seq<bool>)
    ensures |w| == 32
  {
    BitsOf(b, 8) + Zeros(24)
  }

  function Feed(crc: seq<bool>, b: byte): (r: seq<bool>)
    requires |crc| == 32
    ensures |r| == 32
  {
    Steps(Xor(crc, Word(b)), 8)
  }

  /** The register after the bytes of `s`. */
  function Register(crc: seq<bool>, s: seq<byte>): (r: seq<bool>)
    requires |crc| == 32
    ensures |r| == 32
    decreases |s|
  {
    if s == [] then crc else Register(Feed(crc, s[0]), s[1..])
  }

  function Ones(): (o: seq<bool>)
    ensures |o| == 32
  {
    seq(32, _ => true)
  }

  /** The CRC of `s`, as the number the format stores. */
  function Crc32(s: seq<byte>): (r: nat)
    ensures r < 0x1_0000_0000
  {
    var c := Xor(Register(Ones(), s), Ones());
    ValueBound(c);
    WordSize();
    ValueOf(c)
  }

  /** The loops of `crc32_of`. */
  method ComputeCrc32(bytes: seq<byte>) returns (crc: nat)
    ensures crc == Crc32(bytes)
  {
    var c := Ones();
    var i := 0;
    while i < |bytes|
      invariant 0 <= i <= |bytes| && |c| == 32
      invariant Register(c, bytes[i..]) == Register(Ones(), bytes)
    {
      ghost var fed := Feed(c, bytes[i]);
      c := Xor(c, Word(bytes[i]));
      var bit := 0;
      while bit < 8
        invariant 0 <= bit <= 8 && |c| == 32 && Steps(c, 8 - bit) == fed
      {
        c := Step(c);
        bit := bit + 1;
      }
      assert bytes[i..][1..] == bytes[i + 1..];
      i := i + 1;
    }
    crc := ValueOf(Xor(c, Ones()));
  }

  // ---- A step is linear and loses nothing ----

  lemma XorLaws(a: seq<bool>, b: seq<bool>)
    requires |a| == |b|
    ensures Xor(a, b) == Zeros(|a|) <==> a == b
    ensures Xor(a, Zeros(|a|)) == a && Xor(Zeros(|a|), a) == a
    ensures Xor(Xor(a, b), b) == a
  {
    if Xor(a, b) == Zeros(|a|) {
      forall i | 0 <= i < |a|
        ensures a[i] == b[i]
      {
        assert !Xor(a, b)[i];
      }
    }
  }

  lemma XorExchange(a: seq<bool>, b: seq<bool>, c: seq<bool>, d: seq<bool>)
    requires |a| == |b| == |c| == |d|
    ensures Xor(Xor(a, b), Xor(c, d)) == Xor(Xor(a, c), Xor(b, d))
  {
  }

  lemma ShiftMixIsLinear(x: seq<bool>, y: seq<bool>, p: seq<bool>)
    requires |x| == |y| == |p| == 32
    ensures ShiftMix(Xor(x, y), p) == Xor(ShiftMix(x, p), ShiftMix(y, p))
  {
  }

  lemma ShiftMixHasNoKernel(x: seq<bool>, p: seq<bool>)
    requires |x| == |p| == 32 && p[31] && ShiftMix(x, p) == Zeros(32)
    ensures x == Zeros(32)
  {
    assert !ShiftMix(x, p)[31];
    assert !x[0];
    forall i | 0 < i < 32
      ensures !x[i]
    {
      assert !ShiftMix(x, p)[i - 1];
    }
  }

  lemma StepIsLinear(x: seq<bool>, y: seq<bool>)
    requires |x| == |y| == 32
    ensures Step(Xor(x, y)) == Xor(Step(x), Step(y))
  {
    ShiftMixIsLinear(x, y, Polynomial());
  }

  lemma StepHasNoKernel(x: seq<bool>)
    requires |x| == 32 && Step(x) == Zeros(32)
    ensures x == Zeros(32)
  {
    ShiftMixHasNoKernel(x, Polynomial());
  }

  /** The register before a shift: the polynomial, whose top bit the shift
      leaves, tells what bit fell out. */
  function Unmixed(r: seq<bool>, p: seq<bool>): (crc: seq<bool>)
    requires |r| == |p| == 32
    ensures |crc| == 32
  {
    [r[31]] + Xor(r, if r[31] then p else Zeros(32))[..31]
  }

  lemma ShiftMixUndone(r: seq<bool>, p: seq<bool>)
    requires |r| == |p| == 32 && p[31]
    ensures ShiftMix(Unmixed(r, p), p) == r && Unmixed(ShiftMix(r, p), p) == r
  {
  }

  /** A bit step is a bijection of the 32-bit states. */
  lemma StepIsBijection(y: seq<bool>)
    requires |y| == 32
    ensures exists x :: |x| == 32 && Step(x) == y && forall x' :: |x'| == 32 && Step(x') == y ==> x' == x
  {
    var p := Polynomial();
    var x := Unmixed(y, p);
    ShiftMixUndone(y, p);
    forall x': seq<bool> | |x'| == 32 && Step(x') == y ensures x' == x { ShiftMixUndone(x', p); }
    assert |x| == 32 && Step(x) == y;
  }

  lemma {:induction false} StepsAreLinear(x: seq<bool>, y: seq<bool>, n: nat)
    requires |x| == |y| == 32
    ensures Steps(Xor(x, y), n) == Xor(Steps(x, n), Steps(y, n))
    decreases n
  {
    if n > 0 {
      StepIsLinear(x, y);
      StepsAreLinear(Step(x), Step(y), n - 1);
    }
  }

  lemma {:induction false} StepsHaveNoKernel(x: seq<bool>, n: nat)
    requires |x| == 32 && Steps(x, n) == Zeros(32)
    ensures x == Zeros(32)
    decreases n
  {
    if n > 0 {
      StepsHaveNoKernel(Step(x), n - 1);
      StepHasNoKernel(x);
    }
  }

  lemma {:induction false} StepsAdd(x: seq<bool>, m: nat, n: nat)
    requires |x| == 32
    ensures Steps(x, m + n) == Steps(Steps(x, m), n)
    decreases m
  {
    if m > 0 {
      StepsAdd(Step(x), m - 1, n);
      assert Steps(x, m + n) == Steps(Step(x), m - 1 + n);
    }
  }

  /** A word moved up by `k` bits; what falls off the end is lost. */
  function Up(y: seq<bool>, k: nat): (z: seq<bool>)
    requires |y| == 32 && k <= 32
    ensures |z| == 32
  {
    Zeros(k) + y[..32 - k]
  }

  /** The top `k` bits are clear. */
  ghost predicate Clear(y: seq<bool>, k: nat)
    requires |y| == 32 && k <= 32
  {
    forall i :: 32 - k <= i < 32 ==> !y[i]
  }

  lemma StepDown(y: seq<bool>, k: nat)
    requires |y| == 32 && 0 < k <= 32 && Clear(y, k)
    ensures Step(Up(y, k)) == Up(y, k - 1)
  {
  }

  /** `k` steps bring a word down by `k` bits. */
  lemma {:induction false} StepsDown(y: seq<bool>, k: nat)
    requires |y| == 32 && k <= 32 && Clear(y, k)
    ensures Steps(Up(y, k), k) == y
    decreases k
  {
    if k == 0 {
      assert Up(y, 0) == y;
    } else {
      StepDown(y, k);
      StepsDown(y, k - 1);
    }
  }

  // ---- Two inputs side by side ----

  /** How two bytes differ, as a word. */
  function Gap(a: byte, b: byte): (e: seq<bool>)
    ensures |e| == 32
  {
    Xor(Word(a), Word(b))
  }

  lemma GapIsZero(a: byte, b: byte)
    ensures Gap(a, b) == Zeros(32) <==> a == b
  {
    XorLaws(Word(a), Word(b));
    if Word(a) == Word(b) {
      assert Word(a)[..8] == BitsOf(a, 8) && Word(b)[..8] == BitsOf(b, 8);
      assert Pow2(8) == 256;
      ValueOfBitsOf(a, 8);
      ValueOfBitsOf(b, 8);
    }
  }

  /** The difference of two registers goes on by itself. */
  lemma DifferenceFed(x: seq<bool>, y: seq<bool>, a: byte, b: byte)
    requires |x| == |y| == 32
    ensures Xor(Feed(x, a), Feed(y, b)) == Steps(Xor(Xor(x, y), Gap(a, b)), 8)
  {
    StepsAreLinear(Xor(x, Word(a)), Xor(y, Word(b)), 8);
    XorExchange(x, Word(a), y, Word(b));
  }

  lemma FeedKeepsApart(x: seq<bool>, y: seq<bool>, b: byte)
    requires |x| == |y| == 32 && x != y
    ensures Feed(x, b) != Feed(y, b)
  {
    DifferenceFed(x, y, b, b);
    GapIsZero(b, b);
    XorLaws(Xor(x, y), Xor(x, y));
    XorLaws(x, y);
    XorLaws(Feed(x, b), Feed(y, b));
    if Feed(x, b) == Feed(y, b) { StepsHaveNoKernel(Xor(x, y), 8); }
  }

  /** Equal bytes never bring two registers together. */
  lemma {:induction false} EqualBytesKeepApart(x: seq<bool>, y: seq<bool>, s: seq<byte>)
    requires |x| == |y| == 32 && x != y
    ensures Register(x, s) != Register(y, s)
    decreases |s|
  {
    if s != [] {
      FeedKeepsApart(x, y, s[0]);
      EqualBytesKeepApart(Feed(x, s[0]), Feed(y, s[0]), s[1..]);
    }
  }

  lemma {:induction false} RegisterConcat(crc: seq<bool>, s: seq<byte>, t: seq<byte>)
    requires |crc| == 32
    ensures Register(crc, s + t) == Register(Register(crc, s), t)
    decreases |s|
  {
    if s == [] {
      assert s + t == t;
    } else {
      assert (s + t)[1..] == s[1..] + t;
      RegisterConcat(Feed(crc, s[0]), s[1..], t);
    }
  }

  /** A word mixed in eight steps later is the same word a byte up. */
  lemma MixLater(x: seq<bool>, y: seq<bool>, n: nat)
    requires |x| == |y| == 32 && Clear(y, 8)
    ensures Steps(Xor(Steps(x, 8), y), n) == Steps(Xor(x, Up(y, 8)), 8 + n)
  {
    StepsAreLinear(x, Up(y, 8), 8);
    StepsDown(y, 8);
    StepsAdd(Xor(x, Up(y, 8)), 8, n);
  }

  /** How two byte strings of up to four bytes differ, as one word. */
  function Packed(a: seq<byte>, b: seq<byte>): (w: seq<bool>)
    requires |a| == |b| <= 4
    ensures |w| == 32
    decreases |a|
  {
    if a == [] then Zeros(32) else Xor(Gap(a[0], b[0]), Up(Packed(a[1..], b[1..]), 8))
  }

  lemma {:induction false} PackedClear(a: seq<byte>, b: seq<byte>)
    requires |a| == |b| <= 4
    ensures Clear(Packed(a, b), 32 - 8 * |a|)
    decreases |a|
  {
    if a != [] { PackedClear(a[1..], b[1..]); }
  }

  lemma {:induction false} PackedIsZero(a: seq<byte>, b: seq<byte>)
    requires |a| == |b| <= 4 && Packed(a, b) == Zeros(32)
    ensures a == b
    decreases |a|
  {
    if a != [] {
      var e, f := Gap(a[0], b[0]), Packed(a[1..], b[1..]);
      PackedClear(a[1..], b[1..]);
      forall i | 0 <= i < 32
        ensures !e[i] && !f[i]
      {
        assert i < 8 ==> !Packed(a, b)[i];
        assert i + 8 < 32 ==> !Packed(a, b)[i + 8];
      }
      assert e == Zeros(32) && f == Zeros(32);
      GapIsZero(a[0], b[0]);
      PackedIsZero(a[1..], b[1..]);
      assert a == [a[0]] + a[1..] && b == [b[0]] + b[1..];
    }
  }

  /** Up to four bytes fed to two registers: their difference, and that of the
      bytes, stepped on as one word. */
  lemma {:induction false} BurstFed(x: seq<bool>, y: seq<bool>, a: seq<byte>, b: seq<byte>)
    requires |x| == |y| == 32 && |a| == |b| <= 4
    ensures Xor(Register(x, a), Register(y, b)) == Steps(Xor(Xor(x, y), Packed(a, b)), 8 * |a|)
    decreases |a|
  {
    XorLaws(Xor(x, y), Xor(x, y));
    if a != [] {
      var d, e, f := Xor(x, y), Gap(a[0], b[0]), Packed(a[1..], b[1..]);
      BurstFed(Feed(x, a[0]), Feed(y, b[0]), a[1..], b[1..]);
      DifferenceFed(x, y, a[0], b[0]);
      PackedClear(a[1..], b[1..]);
      MixLater(Xor(d, e), f, 8 * |a[1..]|);
      XorAssociative(d, e, Up(f, 8));
    }
  }

  lemma XorAssociative(a: seq<bool>, b: seq<bool>, c: seq<bool>)
    requires |a| == |b| == |c|
    ensures Xor(Xor(a, b), c) == Xor(a, Xor(b, c))
  {
  }

  lemma BurstRegister(x: seq<bool>, a: seq<byte>, b: seq<byte>)
    requires |x| == 32 && |a| == |b| <= 4 && a != b
    ensures Register(x, a) != Register(x, b)
  {
    BurstFed(x, x, a, b);
    XorLaws(x, x);
    XorLaws(Packed(a, b), Packed(a, b));
    XorLaws(Register(x, a), Register(x, b));
    if Register(x, a) == Register(x, b) {
      StepsHaveNoKernel(Packed(a, b), 8 * |a|);
      PackedIsZero(a, b);
    }
  }

  lemma CrcOfRegister(s: seq<byte>, t: seq<byte>)
    requires Register(Ones(), s) != Register(Ones(), t)
    ensures Crc32(s) != Crc32(t)
  {
    var x, y := Xor(Register(Ones(), s), Ones()), Xor(Register(Ones(), t), Ones());
    XorLaws(Register(Ones(), s), Ones());
    XorLaws(Register(Ones(), t), Ones());
    BitsOfValueOf(x);
    BitsOfValueOf(y);
  }

  /** Errors within four consecutive bytes always show. */
  lemma BurstDetected(before: seq<byte>, a: seq<byte>, b: seq<byte>, after: seq<byte>)
    requires |a| == |b| <= 4 && a != b
    ensures Crc32(before + a + after) != Crc32(before + b + after)
  {
    var x := Register(Ones(), before);
    RegisterConcat(Ones(), before + a, after);
    RegisterConcat(Ones(), before, a);
    RegisterConcat(Ones(), before + b, after);
    RegisterConcat(Ones(), before, b);
    BurstRegister(x, a, b);
    EqualBytesKeepApart(Register(x, a), Register(x, b), after);
    CrcOfRegister(before + a + after, before + b + after);
  }

  /** One wrong byte always shows. */
  lemma OneWrongByteDetected(s: seq<byte>, i: nat, b: byte)
    requires i < |s| && s[i] != b
    ensures Crc32(s) != Crc32(s[i := b])
  {
    assert s == s[..i] + [s[i]] + s[i + 1..];
    assert s[i := b] == s[..i] + [b] + s[i + 1..];
    BurstDetected(s[..i], [s[i]], [b], s[i + 1..]);
  }
}

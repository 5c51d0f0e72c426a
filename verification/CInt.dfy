/** The integers of the constant evaluator of bindexpr.c: 64 bits that wrap at
    the width of a type. */
module CInt {
  import opened Bits
  import opened Options

  /** The Anti types a constant expression takes. `CSize` stands for those that
      no rank of C's conversions names. */
  datatype IntType =
    | CChar | CUchar | CShort | CUshort | CInt | CUint | CLong | CUlong | CLonglong | CUlonglong | CSize

  const TWO8 := 0x100
  const TWO16 := 0x1_0000
  const TWO32 := 0x1_0000_0000
  const TWO64 := 0x1_0000_0000_0000_0000
  const INT64_MAX := 0x7fff_ffff_ffff_ffff
  const INT64_MIN := -0x8000_0000_0000_0000

  predicate IsUnsigned(t: IntType) {
    t.CUchar? || t.CUshort? || t.CUint? || t.CUlong? || t.CUlonglong? || t.CSize?
  }

  /** The values a type counts modulo. */
  function Modulus(t: IntType): (m: nat) {
    if t.CChar? || t.CUchar? then TWO8
    else if t.CShort? || t.CUshort? then TWO16
    else if t.CInt? || t.CUint? then TWO32
    else TWO64
  }

  predicate Is64(i: int) {
    INT64_MIN <= i <= INT64_MAX
  }

  /** The 64 bits of a value. */
  function Unsigned(i: int): (x: nat)
    ensures x < TWO64
  {
    i % TWO64
  }

  /** The two's complement value of 64 bits, computed as the code does. */
  function Signed(x: nat): (i: int)
    requires x < TWO64
    ensures Is64(i)
  {
    if x <= INT64_MAX then x else -(TWO64 - 1 - x) - 1
  }

  /** The low bits of `x`, the sign bit among them at `sign`, as a signed
      number. */
  function SignExtended(x: nat, sign: nat): (i: int)
    requires x < TWO64 && 0 < sign
    ensures Is64(i)
  {
    var low := x % (2 * sign);
    var flipped := if low >= sign then low - sign else low + sign;
    Signed((flipped - sign) % TWO64)
  }

  /** What the code stores of a result: the low bits the type has room for,
      all 64 of them in the widest types. */
  function Narrow(t: IntType, i: int): (r: int)
    requires Is64(i)
    ensures Is64(r)
  {
    match t
    case CInt => SignExtended(Unsigned(i), 0x8000_0000)
    case CUint => Unsigned(i) % TWO32
    case CShort => SignExtended(Unsigned(i), 0x8000)
    case CUshort => Unsigned(i) % TWO16
    case CChar => SignExtended(Unsigned(i), 0x80)
    case CUchar => Unsigned(i) % TWO8
    case _ => i
  }

  // ---- What the numbers mean ----

  /** The number a value of the type stands for. */
  function Meaning(t: IntType, i: int): (n: int) {
    if IsUnsigned(t) then Unsigned(i) else i
  }

  /** The numbers of the type. */
  predicate InType(t: IntType, n: int) {
    if IsUnsigned(t) then 0 <= n < Modulus(t) else -(Modulus(t) / 2) <= n < Modulus(t) / 2
  }

  /** The number nearest zero from -half to half - 1. */
  function Centered(n: int, half: nat): (r: int)
    requires half > 0
  {
    (n + half) % (2 * half) - half
  }

  /** A number reduced to two's complement at the width of the type. */
  function Reduced(t: IntType, n: int): (r: int) {
    if IsUnsigned(t) then n % Modulus(t) else Centered(n, Modulus(t) / 2)
  }

  lemma CenteredIs(n: int, half: nat, r: int, k: int)
    requires half > 0 && r == n + k * (2 * half) && -(half as int) <= r < half
    ensures Centered(n, half) == r
  {
    assert n + half == (-k) * (2 * half) + (r + half) by { Distribute(k, -k, 2 * half); }
    Remainder(n + half, 2 * half, -k, r + half);
  }

  lemma CenteredFits(n: int, half: nat)
    requires half > 0
    ensures -(half as int) <= Centered(n, half) < half
    ensures Centered(n, half) == n - ((n + half) / (2 * half)) * (2 * half)
  {
  }

  /** The reduction is the one number of the type that differs from `n` by a
      multiple of the modulus. */
  lemma ReducedIsUnique(t: IntType, n: int, r: int, k: int)
    requires InType(t, r) && r == n + k * Modulus(t)
    ensures r == Reduced(t, n)
  {
    if IsUnsigned(t) {
      assert n == (-k) * Modulus(t) + r by { Distribute(k, -k, Modulus(t)); }
      Remainder(n, Modulus(t), -k, r);
    } else {
      CenteredIs(n, Modulus(t) / 2, r, k);
    }
  }

  lemma ReducedFits(t: IntType, n: int) returns (k: int)
    ensures InType(t, Reduced(t, n)) && Reduced(t, n) == n + k * Modulus(t)
  {
    if IsUnsigned(t) {
      k := -(n / Modulus(t));
    } else {
      CenteredFits(n, Modulus(t) / 2);
      k := -((n + Modulus(t) / 2) / Modulus(t));
    }
  }

  /** Numbers that are equal modulo 2^64 reduce to one. */
  lemma ReducedAgain(t: IntType, n: int, k: int)
    ensures Reduced(t, n + k * TWO64) == Reduced(t, n)
  {
    var j := ReducedFits(t, n);
    var c := TWO64 / Modulus(t);
    var m := Modulus(t);
    assert c * m == TWO64;
    assert k * TWO64 == (k * c) * m by { Associate(k, c, m); }
    assert n + j * m == (n + k * TWO64) + (j - k * c) * m by { Distribute(j - k * c, k * c, m); }
    ReducedIsUnique(t, n + k * TWO64, Reduced(t, n), j - k * c);
  }

  /** Numbers that are equal modulo the type reduce to one. */
  lemma ReducedAlike(t: IntType, n: int, c: int)
    ensures Reduced(t, n + c * Modulus(t)) == Reduced(t, n)
  {
    var k := ReducedFits(t, n + c * Modulus(t));
    Distribute(c, k, Modulus(t));
    ReducedIsUnique(t, n, Reduced(t, n + c * Modulus(t)), c + k);
  }

  /** The operations of mathematics that a reduction may come before. */
  function Exact(op: Op, m: int, n: int): (x: int)
    requires op.Mul? || op.Add? || op.Sub?
  {
    if op.Mul? then m * n else if op.Add? then m + n else m - n
  }

  /** Operands moved by multiples of `w` move the result by one. */
  lemma ExactShifts(op: Op, m: int, n: int, j: int, k: int, w: int) returns (c: int)
    requires op.Mul? || op.Add? || op.Sub?
    ensures Exact(op, m + j * w, n + k * w) == Exact(op, m, n) + c * w
  {
    if op.Mul? {
      c := m * k + j * n + (j * k) * w;
      ProductOf(m, n, j, k, w);
    } else if op.Add? {
      c := j + k;
      Distribute(j, k, w);
    } else {
      c := j - k;
      Distribute(j, -k, w);
    }
  }

  /** Sums, differences and products may be reduced before and after. */
  lemma ReducedFirst(op: Op, t: IntType, m: int, n: int)
    requires op.Mul? || op.Add? || op.Sub?
    ensures Reduced(t, Exact(op, Reduced(t, m), Reduced(t, n))) == Reduced(t, Exact(op, m, n))
  {
    hide Reduced, Modulus, Exact, InType;
    var j := ReducedFits(t, m);
    var k := ReducedFits(t, n);
    var c := ExactShifts(op, m, n, j, k, Modulus(t));
    ReducedAlike(t, Exact(op, m, n), c);
  }

  lemma Distribute(a: int, b: int, m: int)
    ensures (a + b) * m == a * m + b * m
  {
  }

  lemma Remainder(n: int, m: nat, q: int, r: int)
    requires m > 0 && n == q * m + r && 0 <= r < m
    ensures n % m == r && n / m == q
  {
    var x := n / m - q;
    assert x * m == (n / m) * m - q * m by { Distribute(n / m, -q, m); }
    assert x * m == r - n % m;
    SmallMultiple(x, m);
  }

  /** The bits of a value are it modulo 2^64. */
  lemma UnsignedOf(i: int) returns (k: int)
    ensures Unsigned(i) == i + k * TWO64
  {
    k := -(i / TWO64);
  }

  lemma SignedOf(x: nat) returns (k: int)
    requires x < TWO64
    ensures Signed(x) == x + k * TWO64 && Unsigned(Signed(x)) == x
  {
    k := if x <= INT64_MAX then 0 else -1;
    Remainder(Signed(x), TWO64, k, x);
  }

  lemma SignExtendedIs(x: nat, sign: nat)
    requires x < TWO64 && 0 < sign <= 0x8000_0000
    ensures SignExtended(x, sign) == Centered(x, sign)
  {
    var low := x % (2 * sign);
    var r := if low >= sign then low - 2 * sign else low;
    assert SignExtended(x, sign) == r;
    var q := x / (2 * sign);
    var k := if low >= sign then -q - 1 else -q;
    assert x == q * (2 * sign) + low;
    assert r == x + k * (2 * sign) by {
      Distribute(q, k, 2 * sign);
      if low >= sign { assert q + k == -1; } else { assert q + k == 0; }
    }
    CenteredIs(x, sign, r, k);
  }

  lemma NarrowSigned(t: IntType, i: int)
    requires Is64(i) && (t.CInt? || t.CShort? || t.CChar?)
    ensures Meaning(t, Narrow(t, i)) == Reduced(t, Unsigned(i))
  {
    SignExtendedIs(Unsigned(i), Modulus(t) / 2);
  }

  lemma NarrowUnsigned(t: IntType, i: int)
    requires Is64(i) && (t.CUint? || t.CUshort? || t.CUchar?)
    ensures Meaning(t, Narrow(t, i)) == Reduced(t, Unsigned(i))
  {
    var x := Unsigned(i) % Modulus(t);
    assert Narrow(t, i) == x && x < TWO64;
    Remainder(x, TWO64, 0, x);
  }

  lemma NarrowWide(t: IntType, i: int)
    requires Is64(i) && Modulus(t) == TWO64
    ensures Meaning(t, Narrow(t, i)) == Reduced(t, i)
  {
    if !IsUnsigned(t) { CenteredIs(i, TWO64 / 2, i, 0); }
  }

  /** Narrowing a value leaves the number reduced at the width of its type. */
  lemma NarrowMeans(t: IntType, i: int)
    requires Is64(i)
    ensures Meaning(t, Narrow(t, i)) == Reduced(t, i) && InType(t, Meaning(t, Narrow(t, i)))
  {
    var k := UnsignedOf(i);
    var j := ReducedFits(t, i);
    if Modulus(t) == TWO64 {
      NarrowWide(t, i);
    } else {
      ReducedAgain(t, i, k);
      if IsUnsigned(t) { NarrowUnsigned(t, i); } else { NarrowSigned(t, i); }
    }
  }

  // ---- The operations ----

  /** Addition, subtraction and multiplication of the bits, narrowed. */
  lemma WrapsLike(t: IntType, x: nat, n: int, k: int)
    requires x < TWO64 && x == n + k * TWO64
    ensures Meaning(t, Narrow(t, Signed(x))) == Reduced(t, n)
  {
    var j := SignedOf(x);
    NarrowMeans(t, Signed(x));
    assert Signed(x) == n + (k + j) * TWO64 by { Distribute(k, j, TWO64); }
    ReducedAgain(t, n, k + j);
  }

  /** Two values of a type stand for the numbers of their bits. */
  lemma MeaningOf(t: IntType, i: int) returns (k: int)
    ensures Unsigned(i) == Meaning(t, i) + k * TWO64
  {
    if IsUnsigned(t) { k := 0; } else { k := UnsignedOf(i); }
  }

  datatype Op = Mul | Div | Mod | Add | Sub | Shl | Shr | And | Xor | Or

  function Magnitude(n: int): (m: nat) {
    if n < 0 then -n else n
  }

  /** Division that drops the fraction, as C does. */
  function Quotient(a: int, b: int): (q: int)
    requires b != 0
  {
    var q := Magnitude(a) / Magnitude(b);
    if (a < 0) == (b < 0) then q else -q
  }

  function Rest(a: int, b: int): (r: int)
    requires b != 0
  {
    var r := Magnitude(a) % Magnitude(b);
    if a < 0 then -r else r
  }

  lemma QuotientIs(a: int, b: int)
    requires b != 0
    ensures a == Quotient(a, b) * b + Rest(a, b)
    ensures Magnitude(Rest(a, b)) < Magnitude(b) && (Rest(a, b) == 0 || (Rest(a, b) < 0 <==> a < 0))
    ensures Magnitude(Quotient(a, b)) <= Magnitude(a)
  {
    var x, y := Magnitude(a), Magnitude(b);
    DivideParts(x, y);
    Shrinks(x, y);
    SignedParts(a, b, x / y, x % y);
  }

  lemma SignedParts(a: int, b: int, q: int, r: int)
    requires b != 0 && q >= 0 && r >= 0 && Magnitude(a) == q * Magnitude(b) + r
    ensures var quotient := if (a < 0) == (b < 0) then q else -q;
            a == quotient * b + if a < 0 then -r else r
  {
    Signs(q, Magnitude(b));
  }

  lemma Signs(q: int, y: int)
    ensures (-q) * y == -(q * y) && q * (-y) == -(q * y) && (-q) * (-y) == q * y
  {
  }

  lemma TooLarge(q: nat, y: nat, x: nat)
    requires y > 0 && q > x
    ensures q * y > x
  {
    var more := y - 1;
    assert q * y == q * more + q by { Distribute(more, 1, q); Swap(q, more); Swap(q, y); }
    assert q * more >= 0;
  }

  /** The bits of one operation, bit by bit. */
  function Zip(op: Op, a: seq<bool>, b: seq<bool>): (r: seq<bool>)
    requires |a| == |b|
    ensures |r| == |a|
  {
    seq(|a|, k requires 0 <= k < |a| =>
      if op.And? then a[k] && b[k] else if op.Or? then a[k] || b[k] else a[k] != b[k])
  }

  const BITS := 64

  function Bitwise(op: Op, x: nat, y: nat): (r: nat)
  {
    ValueOf(Zip(op, BitsOf(x, BITS), BitsOf(y, BITS)))
  }

  /** One operation on two values of type `t`, or none where C has no value
      for it. */
  function Compute(op: Op, t: IntType, a: int, b: int): (r: Option<int>)
    requires Is64(a) && Is64(b)
    ensures r.Some? ==> Is64(r.value)
  {
    var x, y := Unsigned(a), Unsigned(b);
    match op
    case Mul => Some(Narrow(t, Signed((x * y) % TWO64)))
    case Add => Some(Narrow(t, Signed((x + y) % TWO64)))
    case Sub => Some(Narrow(t, Signed((x - y) % TWO64)))
    case Div => Divide(t, a, b, true)
    case Mod => Divide(t, a, b, false)
    case Shl => if y >= 64 then None else Some(Narrow(t, Signed((x * Pow2(y)) % TWO64)))
    case Shr => if y >= 64 then None else Some(Narrow(t, Signed(ShiftRight(t, a, y))))
    case _ =>
      BitwiseFits(op, x, y);
      Some(Narrow(t, Signed(Bitwise(op, x, y))))
  }

  lemma BitwiseFits(op: Op, x: nat, y: nat)
    ensures Bitwise(op, x, y) < TWO64
  {
    ValueBound(Zip(op, BitsOf(x, BITS), BitsOf(y, BITS)));
    Pow64();
  }

  lemma Pow64()
    ensures Pow2(BITS) == TWO64
  {
    assert Pow2(8) == 256;
    Squared(8, 0x100);
    Squared(16, 0x1_0000);
    Squared(32, TWO32);
  }

  lemma Squared(n: nat, p: nat)
    requires Pow2(n) == p
    ensures Pow2(n + n) == p * p
  {
    Pow2Add(n, n);
  }

  function Divide(t: IntType, a: int, b: int, quotient: bool): (r: Option<int>)
    requires Is64(a) && Is64(b)
    ensures r.Some? ==> Is64(r.value)
  {
    var x, y := Unsigned(a), Unsigned(b);
    if y == 0 || (!IsUnsigned(t) && a == INT64_MIN && b == -1) then None
    else if IsUnsigned(t) then
      DivideParts(x, y);
      Some(Narrow(t, Signed((if quotient then x / y else x % y) % TWO64)))
    else
      Some(Narrow(t, Signed((if quotient then Quotient(a, b) else Rest(a, b)) % TWO64)))
  }

  /** The bits of `a` shifted right, ones moving in from the left where a
      signed value is negative. */
  function ShiftRight(t: IntType, a: int, y: nat): (x: nat)
    requires Is64(a)
    ensures x < TWO64
  {
    var x := Unsigned(a);
    if IsUnsigned(t) || a >= 0 then
      Shrinks(x, Pow2(y));
      x / Pow2(y)
    else
      Shrinks(TWO64 - 1 - x, Pow2(y));
      TWO64 - 1 - (TWO64 - 1 - x) / Pow2(y)
  }

  lemma Shrinks(x: nat, d: nat)
    requires d > 0
    ensures 0 <= x / d <= x
  {
    DivideParts(x, d);
    if x / d > x { TooLarge(x / d, d, x); }
  }

  // ---- What each operation computes ----

  lemma ModMultiple(n: int) returns (k: int)
    ensures n % TWO64 == n + k * TWO64
  {
    k := -(n / TWO64);
  }

  /** Sum, difference and product are the ones of mathematics, reduced to the
      width of the type. */
  lemma ArithmeticWraps(op: Op, t: IntType, a: int, b: int)
    requires Is64(a) && Is64(b) && (op.Mul? || op.Add? || op.Sub?)
    ensures Meaning(t, Compute(op, t, a, b).value) == Reduced(t, Exact(op, Meaning(t, a), Meaning(t, b)))
  {
    var j := MeaningOf(t, a);
    var k := MeaningOf(t, b);
    var m, n, x: int, y: int := Meaning(t, a), Meaning(t, b), Unsigned(a), Unsigned(b);
    if op.Mul? {
      ProductOf(m, n, j, k, TWO64);
      WrapsModulo(t, x * y, m * n, m * k + j * n + (j * k) * TWO64);
    } else if op.Add? {
      WrapsModulo(t, x + y, m + n, j + k);
    } else {
      WrapsModulo(t, x - y, m - n, j - k);
    }
  }

  lemma WrapsModulo(t: IntType, bits: int, exact: int, c: int)
    requires bits == exact + c * TWO64
    ensures Meaning(t, Narrow(t, Signed(bits % TWO64))) == Reduced(t, exact)
  {
    var i := ModMultiple(bits);
    assert c * TWO64 + i * TWO64 == (c + i) * TWO64;
    WrapsLike(t, bits % TWO64, exact, c + i);
  }

  lemma ProductOf(m: int, n: int, j: int, k: int, w: int)
    ensures (m + j * w) * (n + k * w) == m * n + (m * k + j * n + (j * k) * w) * w
  {
    Expand(m, j * w, n, k * w);
    assert m * (k * w) == (m * k) * w by { Associate(m, k, w); }
    assert (j * w) * n == (j * n) * w by { Swap(j * w, n); Associate(n, j, w); Swap(n, j); }
    assert (j * w) * (k * w) == ((j * k) * w) * w by { Rearrange(j, k, w); }
    Distribute(m * k, j * n, w);
    Distribute(m * k + j * n, (j * k) * w, w);
  }

  lemma Expand(a: int, b: int, c: int, d: int)
    ensures (a + b) * (c + d) == a * c + a * d + b * c + b * d
  {
    Distribute(a, b, c + d);
    Swap(a, c + d);
    Swap(b, c + d);
    Distribute(c, d, a);
    Distribute(c, d, b);
    Swap(a, c);
    Swap(a, d);
    Swap(b, c);
    Swap(b, d);
  }

  lemma Rearrange(j: int, k: int, w: int)
    ensures (j * w) * (k * w) == ((j * k) * w) * w
  {
    Associate(j * w, k, w);
    Swap(j * w, k);
    Associate(k, j, w);
    Swap(k, j);
  }

  /** A quotient of values that can be divided fits 64 bits. */
  lemma QuotientFits(a: int, b: int)
    requires Is64(a) && Is64(b) && b != 0 && !(a == INT64_MIN && b == -1)
    ensures Is64(Quotient(a, b)) && Is64(Rest(a, b))
  {
    QuotientIs(a, b);
    if Quotient(a, b) == TWO64 / 2 { OnlyByOne(Magnitude(a), Magnitude(b)); }
  }

  lemma OnlyByOne(x: nat, y: nat)
    requires y > 0 && x <= TWO64 / 2 && x / y == TWO64 / 2
    ensures y == 1 && x == TWO64 / 2
  {
    DivideParts(x, y);
    if y > 1 {
      var more := y - 1;
      assert (x / y) * y == (x / y) * more + x / y by {
        Swap(x / y, y);
        Distribute(more, 1, x / y);
        Swap(more, x / y);
      }
      AtLeast(x / y, more);
    }
  }

  lemma AtLeast(q: nat, more: nat)
    requires more >= 1
    ensures q * more >= q
  {
    Swap(q, more);
    if q > 0 { Distribute(more - 1, 1, q); assert (more - 1) * q >= 0; }
  }

  /** Division fails for a zero divisor and for the one signed quotient that 64
      bits do not hold; else it drops the fraction, and the remainder has the
      sign of the dividend. */
  lemma DivisionTruncates(t: IntType, a: int, b: int)
    requires Is64(a) && Is64(b)
    ensures var m, n := Meaning(t, a), Meaning(t, b);
            && (Compute(Div, t, a, b).None? <==> n == 0 || (!IsUnsigned(t) && m == INT64_MIN && n == -1))
            && (Compute(Div, t, a, b).Some? <==> Compute(Mod, t, a, b).Some?)
            && (Compute(Div, t, a, b).Some? ==>
                  && Meaning(t, Compute(Div, t, a, b).value) == Reduced(t, Quotient(m, n))
                  && Meaning(t, Compute(Mod, t, a, b).value) == Reduced(t, Rest(m, n)))
  {
    var m, n := Meaning(t, a), Meaning(t, b);
    assert Unsigned(b) == 0 <==> b == 0 by {
      Remainder(b, TWO64, if b < 0 then -1 else 0, if b < 0 then b + TWO64 else b);
    }
    if Compute(Div, t, a, b).Some? {
      if !IsUnsigned(t) { QuotientFits(a, b); } else { DivideParts(Unsigned(a), Unsigned(b)); }
      var q, r := Quotient(m, n), Rest(m, n);
      var j := ModMultiple(q);
      var k := ModMultiple(r);
      WrapsLike(t, q % TWO64, q, j);
      WrapsLike(t, r % TWO64, r, k);
    }
  }

  /** A left shift multiplies by a power of two, reduced to the width. */
  lemma LeftShiftMultiplies(t: IntType, a: int, b: int)
    requires Is64(a) && Is64(b)
    ensures Compute(Shl, t, a, b).Some? <==> 0 <= b < 64
    ensures 0 <= b < 64 ==> Meaning(t, Compute(Shl, t, a, b).value) == Reduced(t, Meaning(t, a) * Pow2(b))
  {
    Remainder(b, TWO64, if b < 0 then -1 else 0, if b < 0 then b + TWO64 else b);
    if 0 <= b < 64 {
      var m, x, p := Meaning(t, a), Unsigned(a), Pow2(b);
      var k := MeaningOf(t, a);
      var i := ModMultiple(x * p);
      assert x * p == m * p + (k * p) * TWO64 by {
        Distribute(m, k * TWO64, p);
        Associate(k, TWO64, p);
        Swap(TWO64, p);
        Associate(k, p, TWO64);
      }
      assert x * p % TWO64 == m * p + (k * p + i) * TWO64 by { Distribute(k * p, i, TWO64); }
      WrapsLike(t, x * p % TWO64, m * p, k * p + i);
    }
  }

  /** The bits shifted right are those of the quotient rounded down. */
  lemma ShiftedDown(t: IntType, a: int, y: nat)
    requires Is64(a)
    ensures Meaning(t, Narrow(t, Signed(ShiftRight(t, a, y)))) == Reduced(t, Meaning(t, a) / Pow2(y))
  {
    hide Narrow, Reduced, Signed;
    var d, x := Pow2(y), Unsigned(a);
    if IsUnsigned(t) || a >= 0 {
      Remainder(a, TWO64, if a < 0 then -1 else 0, if a < 0 then a + TWO64 else a);
      WrapsLike(t, ShiftRight(t, a, y), x / d, 0);
    } else {
      ShiftOfNegative(t, a, y);
      WrapsLike(t, ShiftRight(t, a, y), a / d, 1);
    }
  }

  lemma ShiftOfNegative(t: IntType, a: int, y: nat)
    requires Is64(a) && a < 0 && !IsUnsigned(t)
    ensures ShiftRight(t, a, y) == a / Pow2(y) + TWO64
  {
    Remainder(a, TWO64, -1, a + TWO64);
    FloorOfNegative(a, Pow2(y));
  }

  /** A right shift is division by a power of two that rounds down, for
      negative values too. */
  lemma RightShiftFloors(t: IntType, a: int, b: int)
    requires Is64(a) && Is64(b)
    ensures Compute(Shr, t, a, b).Some? <==> 0 <= b < 64
    ensures 0 <= b < 64 ==> Meaning(t, Compute(Shr, t, a, b).value) == Reduced(t, Meaning(t, a) / Pow2(b))
  {
    hide Narrow, Reduced, Signed, Meaning, ShiftRight;
    Remainder(b, TWO64, if b < 0 then -1 else 0, if b < 0 then b + TWO64 else b);
    if 0 <= b < 64 { ShiftedDown(t, a, b); }
  }

  lemma FloorOfNegative(a: int, d: nat)
    requires a < 0 && d > 0
    ensures a / d == -((-a - 1) / d) - 1
  {
    var q, r := (-a - 1) / d, (-a - 1) % d;
    assert -a - 1 == q * d + r;
    assert a == (-q - 1) * d + (d - 1 - r) by { Distribute(-q, -1, d); Signs(q, d); }
    Remainder(a, d, -q - 1, d - 1 - r);
  }

  /** The bit operations work on every bit of two values by itself. */
  lemma BitwiseByBit(op: Op, t: IntType, a: int, b: int)
    requires Is64(a) && Is64(b) && (op.And? || op.Xor? || op.Or?)
    requires InType(t, Meaning(t, a)) && InType(t, Meaning(t, b)) && InRank(t)
    ensures var r := Compute(op, t, a, b).value;
            && BitsOf(Unsigned(r), BITS) == Zip(op, BitsOf(Unsigned(a), BITS), BitsOf(Unsigned(b), BITS))
            && InType(t, Meaning(t, r))
  {
    var x, y := Unsigned(a), Unsigned(b);
    var z := Bitwise(op, x, y);
    BitwiseFits(op, x, y);
    BitsOfValueOf(Zip(op, BitsOf(x, BITS), BitsOf(y, BITS)));
    var k := SignedOf(z);
    NarrowMeans(t, Signed(z));
    if Modulus(t) == TWO32 {
      BitwiseStaysNarrow(op, t, a, b);
      ReducedIsUnique(t, Signed(z), Signed(z), 0);
    }
  }

  /** The types the usual conversions end in. */
  predicate InRank(t: IntType) {
    t.CInt? || t.CUint? || t.CLong? || t.CUlong? || t.CLonglong? || t.CUlonglong?
  }

  /** A value of 32 bits is its low bits under bits that are all alike: those
      of the sign, or zeros. */
  lemma HighBitsAlike(x: nat, low: nat, n: nat, m: nat, bit: bool)
    requires low < Pow2(n) && x == low + (if bit then Pow2(m) - 1 else 0) * Pow2(n)
    ensures BitsOf(x, n + m) == BitsOf(low, n) + seq(m, _ => bit)
  {
    AppendBits(low, n, if bit then Pow2(m) - 1 else 0, m);
    AlikeBits(m, bit);
  }

  lemma {:induction false} AlikeBits(m: nat, bit: bool)
    ensures BitsOf(if bit then Pow2(m) - 1 else 0, m) == seq(m, _ => bit)
    ensures ValueOf(seq(m, _ => bit)) == if bit then Pow2(m) - 1 else 0
  {
    if m > 0 {
      AlikeBits(m - 1, bit);
      var all := seq(m, _ => bit);
      assert all[1..] == seq(m - 1, _ => bit);
      assert all == [bit] + all[1..];
      if bit { assert (Pow2(m) - 1) / 2 == Pow2(m - 1) - 1 && (Pow2(m) - 1) % 2 == 1; }
    }
  }

  lemma ZipBoth(op: Op, a: seq<bool>, b: seq<bool>, c: seq<bool>, d: seq<bool>)
    requires |a| == |c| && |b| == |d|
    ensures Zip(op, a + b, c + d) == Zip(op, a, c) + Zip(op, b, d)
  {
  }

  function OneBit(op: Op, a: bool, b: bool): (r: bool) {
    if op.And? then a && b else if op.Or? then a || b else a != b
  }

  lemma ZipAlike(op: Op, m: nat, a: bool, b: bool)
    ensures Zip(op, seq(m, _ => a), seq(m, _ => b)) == seq(m, _ => OneBit(op, a, b))
  {
  }

  /** What a bit operation leaves of two values that are low bits under bits
      all alike is of that form again. */
  lemma BitwiseAlike(op: Op, x: nat, y: nat, lowX: nat, lowY: nat, n: nat, m: nat, bitX: bool, bitY: bool)
      returns (low: nat)
    requires n + m == BITS && lowX < Pow2(n) && lowY < Pow2(n)
    requires x == lowX + (if bitX then Pow2(m) - 1 else 0) * Pow2(n)
    requires y == lowY + (if bitY then Pow2(m) - 1 else 0) * Pow2(n)
    ensures low < Pow2(n)
    ensures Bitwise(op, x, y) == low + (if OneBit(op, bitX, bitY) then Pow2(m) - 1 else 0) * Pow2(n)
  {
    HighBitsAlike(x, lowX, n, m, bitX);
    HighBitsAlike(y, lowY, n, m, bitY);
    var lows := Zip(op, BitsOf(lowX, n), BitsOf(lowY, n));
    ZipBoth(op, BitsOf(lowX, n), seq(m, _ => bitX), BitsOf(lowY, n), seq(m, _ => bitY));
    ZipAlike(op, m, bitX, bitY);
    ValueOfBoth(lows, seq(m, _ => OneBit(op, bitX, bitY)));
    AlikeBits(m, OneBit(op, bitX, bitY));
    ValueBound(lows);
    low := ValueOf(lows);
  }

  lemma Pow32()
    ensures Pow2(31) == 0x8000_0000 && Pow2(32) == TWO32 && Pow2(33) == 2 * TWO32
  {
    assert Pow2(8) == 256;
    Squared(8, 0x100);
    Squared(16, 0x1_0000);
  }

  lemma LowOf(a: int) returns (low: nat)
    requires -0x8000_0000 <= a < 0x8000_0000
    ensures low < 0x8000_0000
    ensures Unsigned(a) == low + (if a < 0 then 2 * TWO32 - 1 else 0) * 0x8000_0000
  {
    low := if a < 0 then a + 0x8000_0000 else a;
    Remainder(a, TWO64, if a < 0 then -1 else 0, if a < 0 then a + TWO64 else a);
  }

  /** A bit operation on two values of 32 bits needs no narrowing. */
  lemma BitwiseStaysNarrow(op: Op, t: IntType, a: int, b: int)
    requires Is64(a) && Is64(b) && (op.And? || op.Xor? || op.Or?) && (t.CInt? || t.CUint?)
    requires InType(t, Meaning(t, a)) && InType(t, Meaning(t, b))
    ensures Bitwise(op, Unsigned(a), Unsigned(b)) < TWO64
    ensures InType(t, Signed(Bitwise(op, Unsigned(a), Unsigned(b))))
  {
    Pow32();
    BitwiseFits(op, Unsigned(a), Unsigned(b));
    if t.CInt? {
      var lowA := LowOf(a);
      var lowB := LowOf(b);
      var low := BitwiseAlike(op, Unsigned(a), Unsigned(b), lowA, lowB, 31, 33, a < 0, b < 0);
    } else {
      var low := BitwiseAlike(op, Unsigned(a), Unsigned(b), Unsigned(a), Unsigned(b), 32, 32, false, false);
    }
  }
}

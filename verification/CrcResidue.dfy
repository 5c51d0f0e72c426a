/** What the CRC of the zip format is at its ends: of nothing, and of a text
    with its own CRC behind it. */
module CrcResidue {
  import opened Bits
  import opened Crc

  // ---- The register by its hexadecimal digits ----

  /** Four bits, the lowest first. */
  datatype Digit = Digit(a: bool, b: bool, c: bool, d: bool)

  /** Eight digits, the lowest first. */
  datatype Hex = Hex(n0: Digit, n1: Digit, n2: Digit, n3: Digit, n4: Digit, n5: Digit, n6: Digit, n7: Digit)

  const O := false
  const I := true

  const X0 := Digit(O, O, O, O)
  const X1 := Digit(I, O, O, O)
  const X2 := Digit(O, I, O, O)
  const X3 := Digit(I, I, O, O)
  const X4 := Digit(O, O, I, O)
  const X5 := Digit(I, O, I, O)
  const X6 := Digit(O, I, I, O)
  const X7 := Digit(I, I, I, O)
  const X8 := Digit(O, O, O, I)
  const X9 := Digit(I, O, O, I)
  const XA := Digit(O, I, O, I)
  const XB := Digit(I, I, O, I)
  const XC := Digit(O, O, I, I)
  const XD := Digit(I, O, I, I)
  const XE := Digit(O, I, I, I)
  const XF := Digit(I, I, I, I)

  const POLYNOMIAL := Hex(X0, X2, X3, X8, X8, XB, XD, XE)

  function Spelled(ds: seq<Digit>): (b: seq<bool>)
    ensures |b| == 4 * |ds|
  {
    if ds == [] then [] else Four(ds[0]) + Spelled(ds[1..])
  }

  function Digits(w: Hex): (ds: seq<Digit>)
    ensures |ds| == 8
  {
    On(w.n0, On(w.n1, On(w.n2, On(w.n3, On(w.n4, On(w.n5, On(w.n6, On(w.n7, []))))))))
  }

  function On(d: Digit, ds: seq<Digit>): (all: seq<Digit>)
    ensures |all| == |ds| + 1
  {
    [d] + ds
  }

  /** A digit moved down by a bit of the next, and `p` mixed in. */
  function Moved(d: Digit, bit: bool, p: Digit): (r: Digit) {
    Digit(d.b != p.a, d.c != p.b, d.d != p.c, bit != p.d)
  }

  function MovedAll(ds: seq<Digit>, ps: seq<Digit>): (rs: seq<Digit>)
    requires |ds| == |ps|
    ensures |rs| == |ds|
  {
    if ds == [] then []
    else [Moved(ds[0], |ds| > 1 && ds[1].a, ps[0])] + MovedAll(ds[1..], ps[1..])
  }

  lemma {:induction false} MovedSpelled(ds: seq<Digit>, ps: seq<Digit>)
    requires |ds| == |ps| && ds != []
    ensures Xor(Spelled(ds)[1..] + [false], Spelled(ps)) == Spelled(MovedAll(ds, ps))
    decreases |ds|
  {
    hide Moved, Xor;
    var d, p, s, t := ds[0], ps[0], Spelled(ds[1..]), Spelled(ps[1..]);
    var bit := |ds| > 1 && ds[1].a;
    FourMixed(d, bit, p);
    if |ds| == 1 {
      assert s == [] && t == [];
      assert Spelled(MovedAll(ds, ps)) == Four(Moved(d, bit, p)) + [];
      LastMoved(Four(d), Four(p));
    } else {
      MovedSpelled(ds[1..], ps[1..]);
      FrontMoved(Four(d), s, Four(p), t);
      assert s[0] == bit;
    }
  }

  function Four(d: Digit): (b: seq<bool>)
    ensures |b| == 4
  {
    [d.a, d.b, d.c, d.d]
  }

  lemma LastMoved(d: seq<bool>, p: seq<bool>)
    requires |d| == |p| == 4
    ensures Xor((d + [])[1..] + [false], p + []) == Xor(d[1..] + [false], p)
  {
    assert d + [] == d && p + [] == p;
  }

  lemma FrontMoved(d: seq<bool>, s: seq<bool>, p: seq<bool>, t: seq<bool>)
    requires |d| == |p| == 4 && |s| == |t| > 0
    ensures Xor((d + s)[1..] + [false], p + t) == Xor(d[1..] + [s[0]], p) + Xor(s[1..] + [false], t)
  {
    assert (d + s)[1..] + [false] == (d[1..] + [s[0]]) + (s[1..] + [false]);
    XorBehind(d[1..] + [s[0]], s[1..] + [false], p, t);
  }

  lemma FourMixed(d: Digit, bit: bool, p: Digit)
    ensures Xor(Four(d)[1..] + [bit], Four(p)) == Four(Moved(d, bit, p))
  {
    assert Four(d)[1..] + [bit] == [d.b, d.c, d.d, bit];
    FourXor(d, bit, p);
  }

  lemma FourXor(d: Digit, bit: bool, p: Digit)
    ensures Xor([d.b, d.c, d.d, bit], [p.a, p.b, p.c, p.d]) == Four(Moved(d, bit, p))
  {
  }

  lemma XorBehind(a: seq<bool>, b: seq<bool>, c: seq<bool>, d: seq<bool>)
    requires |a| == |c| && |b| == |d|
    ensures Xor(a + b, c + d) == Xor(a, c) + Xor(b, d)
  {
  }

  const ZERO := Hex(X0, X0, X0, X0, X0, X0, X0, X0)
  const ALL := Hex(XF, XF, XF, XF, XF, XF, XF, XF)

  function Next(w: Hex): (r: Hex) {
    var p := if w.n0.a then POLYNOMIAL else ZERO;
    Hex(Moved(w.n0, w.n1.a, p.n0), Moved(w.n1, w.n2.a, p.n1), Moved(w.n2, w.n3.a, p.n2), Moved(w.n3, w.n4.a, p.n3),
        Moved(w.n4, w.n5.a, p.n4), Moved(w.n5, w.n6.a, p.n5), Moved(w.n6, w.n7.a, p.n6), Moved(w.n7, false, p.n7))
  }

  function BitsOfHex(w: Hex): (b: seq<bool>)
    ensures |b| == 32
  {
    Spelled(Digits(w))
  }

  lemma SpelledOn(d: Digit, ds: seq<Digit>)
    ensures Spelled(On(d, ds)) == Four(d) + Spelled(ds)
  {
    assert ([d] + ds)[1..] == ds;
  }

  lemma EightSpelled(w: Hex)
    ensures BitsOfHex(w) == Four(w.n0) + (Four(w.n1) + (Four(w.n2) + (Four(w.n3) + (Four(w.n4) + (Four(w.n5) +
                            (Four(w.n6) + (Four(w.n7) + [])))))))
  {
    hide Four, On;
    SpelledOn(w.n7, []);
    SpelledOn(w.n6, On(w.n7, []));
    SpelledOn(w.n5, On(w.n6, On(w.n7, [])));
    SpelledOn(w.n4, On(w.n5, On(w.n6, On(w.n7, []))));
    SpelledOn(w.n3, On(w.n4, On(w.n5, On(w.n6, On(w.n7, [])))));
    SpelledOn(w.n2, On(w.n3, On(w.n4, On(w.n5, On(w.n6, On(w.n7, []))))));
    SpelledOn(w.n1, On(w.n2, On(w.n3, On(w.n4, On(w.n5, On(w.n6, On(w.n7, [])))))));
    SpelledOn(w.n0, On(w.n1, On(w.n2, On(w.n3, On(w.n4, On(w.n5, On(w.n6, On(w.n7, []))))))));
  }

  lemma MovedOn(d: Digit, e: Digit, ds: seq<Digit>, p: Digit, ps: seq<Digit>)
    requires |ds| == |ps| - 1
    ensures MovedAll(On(d, On(e, ds)), On(p, ps)) == On(Moved(d, e.a, p), MovedAll(On(e, ds), ps))
  {
    assert ([d] + ([e] + ds))[1..] == [e] + ds && ([p] + ps)[1..] == ps;
  }

  lemma MovedLast(d: Digit, p: Digit)
    ensures MovedAll(On(d, []), On(p, [])) == On(Moved(d, false, p), [])
  {
    assert [d][1..] == [] && [p][1..] == [] && [d] + [] == [d] && [p] + [] == [p];
  }

  lemma NextMoved(w: Hex)
    ensures MovedAll(Digits(w), Digits(if w.n0.a then POLYNOMIAL else ZERO)) == Digits(Next(w))
  {
    hide Moved, On, MovedAll;
    var p := if w.n0.a then POLYNOMIAL else ZERO;
    var d7, p7 := On(w.n7, []), On(p.n7, []);
    var d6, p6 := On(w.n6, d7), On(p.n6, p7);
    var d5, p5 := On(w.n5, d6), On(p.n5, p6);
    var d4, p4 := On(w.n4, d5), On(p.n4, p5);
    var d3, p3 := On(w.n3, d4), On(p.n3, p4);
    var d2, p2 := On(w.n2, d3), On(p.n2, p3);
    MovedLast(w.n7, p.n7);
    MovedOn(w.n6, w.n7, [], p.n6, p7);
    MovedOn(w.n5, w.n6, d7, p.n5, p6);
    MovedOn(w.n4, w.n5, d6, p.n4, p5);
    MovedOn(w.n3, w.n4, d5, p.n3, p4);
    MovedOn(w.n2, w.n3, d4, p.n2, p3);
    MovedOn(w.n1, w.n2, d3, p.n1, p2);
    MovedOn(w.n0, w.n1, d2, p.n0, On(p.n1, p2));
  }

  lemma Constants()
    ensures BitsOfHex(POLYNOMIAL) == Polynomial() && BitsOfHex(ZERO) == Zeros(32) && BitsOfHex(ALL) == Ones()
  {
    ZerosSpelled();
    OnesSpelled();
    PolynomialSpelled();
  }

  /** Eight digits alike spell 32 bits alike. */
  lemma AlikeSpelled(d: Digit, v: bool)
    requires d == Digit(v, v, v, v)
    ensures BitsOfHex(Hex(d, d, d, d, d, d, d, d)) == seq(32, _ => v)
  {
    hide BitsOfHex, Four;
    var w := Hex(d, d, d, d, d, d, d, d);
    EightSpelled(w);
    FourAlike(d, v);
    var four := Four(d);
    var b2 := Joint(four, four + [], v);
    var b3 := Joint(four, b2, v);
    var b4 := Joint(four, b3, v);
    var b5 := Joint(four, b4, v);
    var b6 := Joint(four, b5, v);
    var b7 := Joint(four, b6, v);
    var b8 := Joint(four, b7, v);
    assert b8 == seq(32, _ => v);
  }

  lemma FourAlike(d: Digit, v: bool)
    requires d == Digit(v, v, v, v)
    ensures AllAre(Four(d), v) && AllAre(Four(d) + [], v)
  {
  }

  predicate AllAre(b: seq<bool>, v: bool) {
    forall i :: 0 <= i < |b| ==> b[i] == v
  }

  lemma Joint(a: seq<bool>, b: seq<bool>, v: bool) returns (c: seq<bool>)
    requires AllAre(a, v) && AllAre(b, v)
    ensures c == a + b && AllAre(c, v)
  {
    c := a + b;
  }

  lemma ZerosSpelled()
    ensures BitsOfHex(ZERO) == Zeros(32)
  {
    hide BitsOfHex;
    AlikeSpelled(X0, false);
    assert Zeros(32) == seq(32, _ => false);
  }

  lemma OnesSpelled()
    ensures BitsOfHex(ALL) == Ones()
  {
    hide BitsOfHex;
    AlikeSpelled(XF, true);
    assert Ones() == seq(32, _ => true);
  }

  lemma PolynomialSpelled()
    ensures BitsOfHex(POLYNOMIAL) == Polynomial()
  {
    EightSpelled(POLYNOMIAL);
  }

  lemma StepOfHex(w: Hex)
    ensures Step(BitsOfHex(w)) == BitsOfHex(Next(w))
  {
    hide Polynomial, Zeros, Next, Xor, MovedAll;
    var p := if w.n0.a then POLYNOMIAL else ZERO;
    Constants();
    NextMoved(w);
    MovedSpelled(Digits(w), Digits(p));
    assert BitsOfHex(w)[0] == w.n0.a by { EightSpelled(w); }
  }

  function After(w: Hex, n: nat): (r: Hex)
    decreases n
  {
    if n == 0 then w else After(Next(w), n - 1)
  }

  lemma {:induction false} StepsOfHex(w: Hex, n: nat)
    ensures Steps(BitsOfHex(w), n) == BitsOfHex(After(w, n))
    decreases n
  {
    hide BitsOfHex, Step, Next;
    if n > 0 {
      StepOfHex(w);
      StepsOfHex(Next(w), n - 1);
    }
  }

  const AFTER8 := Hex(X2, X7, X0, X1, XD, XF, XD, X2)
  const AFTER16 := Hex(X0, X0, XD, XE, X6, X2, XE, XB)
  const AFTER24 := Hex(XD, XE, X6, X2, XE, XB, X0, X0)
  const AFTER32 := Hex(X3, XE, X0, X2, XB, XB, XE, XD)

  lemma EightA()
    ensures After(ALL, 8) == AFTER8
  {
    assert Next(Hex(XF, XF, XF, XF, XF, XF, XF, XF)) == Hex(XF, XD, XC, X7, X7, X4, X2, X9);
    assert Next(Hex(XF, XD, XC, X7, X7, X4, X2, X9)) == Hex(XF, X4, XD, X3, XB, X9, X4, XA);
    assert Next(Hex(XF, X4, XD, X3, XB, X9, X4, XA)) == Hex(X7, X8, XD, X1, X5, XF, XF, XB);
    assert Next(Hex(X7, X8, XD, X1, X5, XF, XF, XB)) == Hex(X3, XE, XD, X0, X2, X4, X2, XB);
    assert Next(Hex(X3, XE, XD, X0, X2, X4, X2, XB)) == Hex(X1, XD, X5, X8, X9, X9, X4, XB);
    assert Next(Hex(X1, XD, X5, X8, X9, X9, X4, XB)) == Hex(X8, XC, X1, X4, X4, XF, X7, XB);
    assert Next(Hex(X8, XC, X1, X4, X4, XF, X7, XB)) == Hex(X4, XE, X0, X2, XA, XF, XB, X5);
    assert Next(Hex(X4, XE, X0, X2, XA, XF, XB, X5)) == Hex(X2, X7, X0, X1, XD, XF, XD, X2);
  }

  lemma EightB()
    ensures After(AFTER8, 8) == AFTER16
  {
    assert Next(Hex(X2, X7, X0, X1, XD, XF, XD, X2)) == Hex(X9, X3, X8, X8, XE, XF, X6, X1);
    assert Next(Hex(X9, X3, X8, X8, XE, XF, X6, X1)) == Hex(XC, X3, X7, XC, X7, XC, X6, XE);
    assert Next(Hex(XC, X3, X7, XC, X7, XC, X6, XE)) == Hex(XE, X9, X3, XE, X3, X6, X3, X7);
    assert Next(Hex(XE, X9, X3, XE, X3, X6, X3, X7)) == Hex(XF, XC, X1, XF, X1, XB, X9, X3);
    assert Next(Hex(XF, XC, X1, XF, X1, XB, X9, X3)) == Hex(X7, XC, XB, X7, X0, X6, X1, XF);
    assert Next(Hex(X7, XC, XB, X7, X0, X6, X1, XF)) == Hex(X3, XC, XE, XB, X8, X0, X5, X9);
    assert Next(Hex(X3, XC, XE, XB, X8, X0, X5, X9)) == Hex(X1, X4, XC, XD, XC, X3, X7, XA);
    assert Next(Hex(X1, X4, XC, XD, XC, X3, X7, XA)) == Hex(X0, X0, XD, XE, X6, X2, XE, XB);
  }

  lemma EightC()
    ensures After(AFTER16, 8) == AFTER24
  {
    assert Next(Hex(X0, X0, XD, XE, X6, X2, XE, XB)) == Hex(X0, X8, X6, X7, X3, X1, XF, X5);
    assert Next(Hex(X0, X8, X6, X7, X3, X1, XF, X5)) == Hex(X0, X4, XB, XB, X9, X8, XF, X2);
    assert Next(Hex(X0, X4, XB, XB, X9, X8, XF, X2)) == Hex(X0, XA, XD, XD, X4, XC, X7, X1);
    assert Next(Hex(X0, XA, XD, XD, X4, XC, X7, X1)) == Hex(X0, XD, XE, X6, X2, XE, XB, X0);
    assert Next(Hex(X0, XD, XE, X6, X2, XE, XB, X0)) == Hex(X8, X6, X7, X3, X1, XF, X5, X0);
    assert Next(Hex(X8, X6, X7, X3, X1, XF, X5, X0)) == Hex(X4, XB, XB, X9, X8, XF, X2, X0);
    assert Next(Hex(X4, XB, XB, X9, X8, XF, X2, X0)) == Hex(XA, XD, XD, X4, XC, X7, X1, X0);
    assert Next(Hex(XA, XD, XD, X4, XC, X7, X1, X0)) == Hex(XD, XE, X6, X2, XE, XB, X0, X0);
  }

  lemma EightD()
    ensures After(AFTER24, 8) == AFTER32
  {
    assert Next(Hex(XD, XE, X6, X2, XE, XB, X0, X0)) == Hex(X6, X5, X0, X9, X7, XE, XD, XE);
    assert Next(Hex(X6, X5, X0, X9, X7, XE, XD, XE)) == Hex(XB, X2, X8, XC, X3, XF, X6, X7);
    assert Next(Hex(XB, X2, X8, XC, X3, XF, X6, X7)) == Hex(X5, X3, X7, X6, X1, XC, X6, XD);
    assert Next(Hex(X5, X3, X7, X6, X1, XC, X6, XD)) == Hex(XA, XB, X0, X3, X8, XD, X6, X8);
    assert Next(Hex(XA, XB, X0, X3, X8, XD, X6, X8)) == Hex(XD, X5, X8, X1, XC, X6, X3, X4);
    assert Next(Hex(XD, X5, X8, X1, XC, X6, X3, X4)) == Hex(XE, X0, XF, X8, XE, X0, XC, XC);
    assert Next(Hex(XE, X0, XF, X8, XE, X0, XC, XC)) == Hex(X7, X8, X7, X4, X7, X0, X6, X6);
    assert Next(Hex(X7, X8, X7, X4, X7, X0, X6, X6)) == Hex(X3, XE, X0, X2, XB, XB, XE, XD);
  }

  lemma ThirtyTwoSteps()
    ensures Steps(Ones(), 32) == BitsOfHex(AFTER32) && Steps(Ones(), 8) == BitsOfHex(AFTER8)
  {
    hide Steps, BitsOfHex, After;
    Constants();
    EightA();
    EightB();
    EightC();
    EightD();
    StepsOfHex(ALL, 8);
    StepsOfHex(AFTER8, 8);
    StepsOfHex(AFTER16, 8);
    StepsOfHex(AFTER24, 8);
    StepsAdd(Ones(), 8, 8);
    StepsAdd(Ones(), 16, 8);
    StepsAdd(Ones(), 24, 8);
  }

  // ---- The number a register spells ----

  function ValueOfDigit(d: Digit): (v: nat) {
    (if d.a then 1 else 0) + (if d.b then 2 else 0) + (if d.c then 4 else 0) + (if d.d then 8 else 0)
  }

  lemma ValueOn(bit: bool, b: seq<bool>)
    ensures ValueOf([bit] + b) == (if bit then 1 else 0) + 2 * ValueOf(b)
  {
    assert ([bit] + b)[1..] == b;
  }

  lemma ValueOfFour(d: Digit)
    ensures ValueOf(Four(d)) == ValueOfDigit(d)
  {
    var none: seq<bool> := [];
    ValueOn(d.d, none);
    ValueOn(d.c, [d.d] + none);
    ValueOn(d.b, [d.c] + ([d.d] + none));
    ValueOn(d.a, [d.b] + ([d.c] + ([d.d] + none)));
    hide ValueOf;
    assert Four(d) == [d.a] + ([d.b] + ([d.c] + ([d.d] + none)));
    assert ValueOf(none) == 0 by { NoValue(); }
  }

  lemma NoValue()
    ensures ValueOf([]) == 0
  {
  }

  lemma DigitBehind(d: Digit, b: seq<bool>)
    ensures ValueOf(Four(d) + b) == ValueOfDigit(d) + 16 * ValueOf(b)
  {
    assert Pow2(4) == 16;
    hide ValueOf, Four, ValueOfDigit;
    ValueOfBoth(Four(d), b);
    ValueOfFour(d);
  }

  lemma ValueOfHex(w: Hex)
    ensures ValueOf(BitsOfHex(w)) ==
            ValueOfDigit(w.n0) + 16 * (ValueOfDigit(w.n1) + 16 * (ValueOfDigit(w.n2) + 16 * (ValueOfDigit(w.n3) +
            16 * (ValueOfDigit(w.n4) + 16 * (ValueOfDigit(w.n5) + 16 * (ValueOfDigit(w.n6) +
            16 * ValueOfDigit(w.n7)))))))
  {
    hide Four, ValueOfDigit;
    EightSpelled(w);
    var b7 := Four(w.n7) + [];
    var b6 := Four(w.n6) + b7;
    var b5 := Four(w.n5) + b6;
    var b4 := Four(w.n4) + b5;
    var b3 := Four(w.n3) + b4;
    var b2 := Four(w.n2) + b3;
    DigitBehind(w.n7, []);
    DigitBehind(w.n6, b7);
    DigitBehind(w.n5, b6);
    DigitBehind(w.n4, b5);
    DigitBehind(w.n3, b4);
    DigitBehind(w.n2, b3);
    DigitBehind(w.n1, b2);
    DigitBehind(w.n0, Four(w.n1) + b2);
  }

  /** A word with every bit turned over. */
  function Turned(w: Hex): (r: Hex) {
    Hex(Over(w.n0), Over(w.n1), Over(w.n2), Over(w.n3), Over(w.n4), Over(w.n5), Over(w.n6), Over(w.n7))
  }

  function Over(d: Digit): (r: Digit) {
    Digit(!d.a, !d.b, !d.c, !d.d)
  }

  lemma OverSpelled(d: Digit, b: seq<bool>, n: nat)
    requires |b| == n
    ensures Xor(Four(d) + b, seq(4 + n, _ => true)) == Four(Over(d)) + Xor(b, seq(n, _ => true))
  {
    assert seq(4 + n, _ => true) == [true, true, true, true] + seq(n, _ => true);
    XorBehind(Four(d), b, [true, true, true, true], seq(n, _ => true));
  }

  lemma TurnedOver(w: Hex)
    ensures Xor(BitsOfHex(w), Ones()) == BitsOfHex(Turned(w))
  {
    hide Four, Xor, Over;
    EightSpelled(w);
    EightSpelled(Turned(w));
    var b7 := Four(w.n7) + [];
    var b6 := Four(w.n6) + b7;
    var b5 := Four(w.n5) + b6;
    var b4 := Four(w.n4) + b5;
    var b3 := Four(w.n3) + b4;
    var b2 := Four(w.n2) + b3;
    OverSpelled(w.n7, [], 0);
    OverSpelled(w.n6, b7, 4);
    OverSpelled(w.n5, b6, 8);
    OverSpelled(w.n4, b5, 12);
    OverSpelled(w.n3, b4, 16);
    OverSpelled(w.n2, b3, 20);
    OverSpelled(w.n1, b2, 24);
    OverSpelled(w.n0, Four(w.n1) + b2, 28);
    assert Xor([], seq(0, _ => true)) == [];
  }

  // ---- A text and its own CRC ----

  lemma CrcOfNothing()
    ensures Crc32([]) == 0
  {
    Constants();
    XorLaws(Ones(), Ones());
    ValueOfHex(ZERO);
  }

  lemma {:induction false} PackedAlone(a: seq<byte>)
    requires |a| <= 4
    ensures Packed(a, seq(|a|, _ => 0 as byte)) == BytesBits(a) + Zeros(32 - 8 * |a|)
    decreases |a|
  {
    var none := seq(|a|, _ => 0 as byte);
    if a != [] {
      PackedAlone(a[1..]);
      assert none[1..] == seq(|a[1..]|, _ => 0 as byte);
      WordOfZero();
      XorLaws(Crc.Word(a[0]), Crc.Word(0));
      ByteBelow(BitsOf(a[0], 8), BytesBits(a[1..]), 32 - 8 * |a|);
    }
  }

  lemma WordOfZero()
    ensures Crc.Word(0) == Zeros(32)
  {
    assert BitsOf(0, 8) == Zeros(8);
  }

  lemma ByteBelow(low: seq<bool>, more: seq<bool>, n: nat)
    requires |low| == 8 && |more| + n == 24
    ensures Xor(low + Zeros(24), Up(more + Zeros(n + 8), 8)) == low + more + Zeros(n)
  {
  }

  /** Up to four bytes fed to the register are one word mixed in and stepped
      on. */
  lemma FedAtOnce(x: seq<bool>, a: seq<byte>)
    requires |x| == 32 && |a| == 4
    ensures Register(x, a) == Steps(Xor(x, BytesBits(a)), 32)
  {
    hide Steps, Step, Packed;
    var none := seq(4, _ => 0 as byte);
    BurstFed(x, Zeros(32), a, none);
    PackedAlone(a);
    NothingFed(4);
    XorLaws(x, x);
    XorLaws(Register(x, a), Register(x, a));
    assert BytesBits(a) + Zeros(0) == BytesBits(a);
  }

  lemma {:induction false} NothingFed(n: nat)
    ensures Register(Zeros(32), seq(n, _ => 0 as byte)) == Zeros(32)
    decreases n
  {
    if n > 0 {
      WordOfZero();
      XorLaws(Zeros(32), Zeros(32));
      NoSteps(8);
      NothingFed(n - 1);
      assert seq(n, _ => 0 as byte)[1..] == seq(n - 1, _ => 0 as byte);
    }
  }

  lemma {:induction false} NoSteps(n: nat)
    ensures Steps(Zeros(32), n) == Zeros(32)
    decreases n
  {
    if n > 0 {
      assert Step(Zeros(32)) == Zeros(32);
      NoSteps(n - 1);
    }
  }

  lemma Put32IsBits(v: nat)
    requires v < 0x1_0000_0000
    ensures BytesBits(Put32(v)) == BitsOf(v, 32)
  {
    var low, high := v % 0x1_0000, v / 0x1_0000;
    WordSize();
    assert Pow2(8) == 256;
    Pow2Add(8, 8);
    BytesBitsConcat(Put16(low), Put16(high));
    Put16IsBits(low);
    Put16IsBits(high);
    AppendBits(low, 16, high, 16);
  }

  lemma Put16IsBits(v: nat)
    requires v < 0x1_0000
    ensures BytesBits(Put16(v)) == BitsOf(v, 16)
  {
    assert Pow2(8) == 256;
    BytesOfTwo(v % 256, v / 256);
    AppendBits(v % 256, 8, v / 256, 8);
  }

  /** The check the format is known by: a text with its own CRC behind it, the
      lowest byte first, always has one and the same CRC. */
  lemma CrcOfCrc(s: seq<byte>)
    ensures Crc32(s + Put32(Crc32(s))) == 0x2144_df1c
  {
    hide Steps, Step, Put32, Ones;
    var r := Register(Ones(), s);
    var c := Xor(r, Ones());
    BitsOfValueOf(c);
    Put32IsBits(Crc32(s));
    RegisterConcat(Ones(), s, Put32(Crc32(s)));
    FedAtOnce(r, Put32(Crc32(s)));
    XorLaws(r, r);
    XorAssociative(r, r, Ones());
    XorLaws(Ones(), Ones());
    ThirtyTwoSteps();
    TurnedOver(AFTER32);
    ValueOfHex(Turned(AFTER32));
  }

  /** And the CRC of one byte. */
  lemma CrcOfZero()
    ensures Crc32([0]) == 0xd202_ef8d
  {
    hide Steps, Step;
    WordOfZero();
    XorLaws(Ones(), Ones());
    ThirtyTwoSteps();
    assert [0 as byte][1..] == [];
    TurnedOver(AFTER8);
    ValueOfHex(Turned(AFTER8));
  }
}

/** Runs of digits and the numbers they spell, which the readers of versions
    and of the symbols map share. */
module Numerals {
  function DigitIn(c: char, base: nat): (d: int)
    ensures -1 <= d < 16 && (base == 10 ==> d < 10)
  {
    if '0' <= c <= '9' then c as int - '0' as int
    else if base == 16 && 'a' <= c <= 'f' then c as int - 'a' as int + 10
    else if base == 16 && 'A' <= c <= 'F' then c as int - 'A' as int + 10
    else -1
  }

  predicate Digits(s: string, base: nat) {
    forall i :: 0 <= i < |s| ==> DigitIn(s[i], base) >= 0
  }

  /** The number a string of digits spells. */
  function ValueIn(s: string, base: nat): (n: nat)
    requires Digits(s, base)
  {
    if s == "" then 0 else ValueIn(s[..|s| - 1], base) * base + DigitIn(s[|s| - 1], base)
  }

  lemma {:induction false} ValueGrows(s: string, base: nat, k: nat)
    requires Digits(s, base) && k <= |s| && base >= 1
    ensures ValueIn(s[..k], base) <= ValueIn(s, base)
    decreases |s|
  {
    if k == |s| {
      assert s[..k] == s;
    } else {
      assert s[..|s| - 1][..k] == s[..k];
      ValueGrows(s[..|s| - 1], base, k);
      Times(ValueIn(s[..|s| - 1], base), base);
    }
  }

  lemma Times(v: nat, base: nat)
    requires base >= 1
    ensures v * base >= v
  {
    assert v * base == v + v * (base - 1);
    assert v * (base - 1) >= 0;
  }

  function RunEnd(s: string, at: nat, base: nat): (e: nat)
    requires at <= |s|
    ensures at <= e <= |s| && Digits(s[at..e], base) && (e < |s| ==> DigitIn(s[e], base) < 0)
    decreases |s| - at
  {
    if at < |s| && DigitIn(s[at], base) >= 0 then
      var e := RunEnd(s, at + 1, base);
      assert s[at..e] == [s[at]] + s[at + 1..e];
      e
    else at
  }

  lemma {:induction false} RunEndIs(s: string, at: nat, base: nat, e: nat)
    requires at <= e <= |s| && Digits(s[at..e], base) && (e < |s| ==> DigitIn(s[e], base) < 0)
    ensures RunEnd(s, at, base) == e
    decreases e - at
  {
    if at < e {
      assert s[at] == s[at..e][0];
      assert s[at + 1..e] == s[at..e][1..];
      RunEndIs(s, at + 1, base, e);
    }
  }

  lemma {:induction false} RunReaches(s: string, at: nat, base: nat, e: nat)
    requires at <= e <= |s| && Digits(s[at..e], base)
    ensures RunEnd(s, at, base) >= e
    decreases e - at
  {
    if at < e {
      assert s[at] == s[at..e][0];
      assert s[at + 1..e] == s[at..e][1..];
      RunReaches(s, at + 1, base, e);
    }
  }

  // ---- Decimal numbers ----

  function Tens(k: nat): (n: nat)
    ensures n > 0
  {
    if k == 0 then 1 else 10 * Tens(k - 1)
  }

  function DigitChar(d: nat): (c: char)
    requires d < 10
    ensures DigitIn(c, 10) == d
  {
    '0' + d as char
  }

  /** The spelling of a number, with no zero before it. */
  function Spell(n: nat): (s: string)
    ensures |s| > 0 && Digits(s, 10) && ValueIn(s, 10) == n
  {
    var last := [DigitChar(n % 10)];
    if n < 10 then
      assert last[..0] == "";
      last
    else
      var s := Spell(n / 10) + last;
      assert s[..|s| - 1] == Spell(n / 10);
      s
  }

  /** A string of k digits stays below the power of ten. */
  lemma {:induction false} ValueBound(s: string)
    requires Digits(s, 10)
    ensures ValueIn(s, 10) < Tens(|s|)
  {
    if s != "" { ValueBound(s[..|s| - 1]); }
  }
}

/** The readers of cursor.c: each looks at one place of a text, takes what it
    understands, and moves the place behind it. */
module Cursor {
  import opened Numerals

  const UINT64_MAX := 0xffff_ffff_ffff_ffff

  predicate IsBlank(c: char) {
    c == ' ' || c == '\t' || c == '\r'
  }

  function BlanksEnd(s: string, at: nat): (e: nat)
    requires at <= |s|
    ensures at <= e <= |s|
    decreases |s| - at
  {
    if at < |s| && IsBlank(s[at]) then BlanksEnd(s, at + 1) else at
  }

  /** The number at a place reads: there is one, and 64 bits hold it. */
  predicate NumberFits(s: string, at: nat, base: nat)
    requires at <= |s|
  {
    var e := RunEnd(s, at, base);
    e > at && ValueIn(s[at..e], base) <= 0xffff_ffff_ffff_ffff
  }

  /** Past a `0x` that stands before more. */
  function HexStart(s: string, at: nat): (p: nat)
    requires at <= |s|
    ensures at <= p <= |s|
  {
    if |s| - at > 2 && s[at] == '0' && (s[at + 1] == 'x' || s[at + 1] == 'X') then at + 2 else at
  }

  /** One more digit passes 64 bits exactly where the check says so, although
      it never computes a number that does. */
  lemma OverflowCheck(value: nat, d: nat, base: nat)
    requires base > 0 && d <= UINT64_MAX
    ensures value > (UINT64_MAX - d) / base <==> value * base + d > 0xffff_ffff_ffff_ffff
  {
    var room := UINT64_MAX - d;
    var q, r := room / base, room % base;
    assert room == q * base + r;
    if value > q {
      var over := value - q - 1;
      assert value * base == q * base + base + over * base;
      assert over * base >= 0;
    } else {
      var under := q - value;
      assert q * base == value * base + under * base;
      assert under * base >= 0;
    }
  }

  lemma OneDigit(s: string, from: nat, at: nat, base: nat, value: nat, d: nat)
    requires from <= at < |s| && base > 0 && Digits(s[from..at], base) && DigitIn(s[at], base) == d
    requires value == ValueIn(s[from..at], base)
    ensures Digits(s[from..at + 1], base) && ValueIn(s[from..at + 1], base) == value * base + d
  {
    var more := s[from..at + 1];
    assert more[..|more| - 1] == s[from..at] && more[|more| - 1] == s[at];
  }

  /** A run with a part past 64 bits does not fit them. */
  lemma PassesOver(s: string, from: nat, at: nat, base: nat)
    requires from <= at < |s| && base > 0 && Digits(s[from..at + 1], base)
    requires ValueIn(s[from..at + 1], base) > UINT64_MAX
    ensures !NumberFits(s, from, base)
  {
    RunReaches(s, from, base, at + 1);
    var run := s[from..RunEnd(s, from, base)];
    assert run[..at + 1 - from] == s[from..at + 1];
    ValueGrows(run, base, at + 1 - from);
  }

  /** One more digit behind a value, where 64 bits hold it. */
  method Push(value: nat, d: nat, base: nat) returns (ok: bool, next: nat)
    requires base > 0 && d <= UINT64_MAX
    ensures ok <==> value * base + d <= 0xffff_ffff_ffff_ffff
    ensures next == if ok then value * base + d else value
  {
    OverflowCheck(value, d, base);
    ok := value <= (UINT64_MAX - d) / base;
    next := if ok then value * base + d else value;
  }

  class Reader {
    const s: string
    var at: nat

    constructor (s: string)
      ensures this.s == s && at == 0
    {
      this.s, this.at := s, 0;
    }

    ghost predicate Valid()
      reads this
    {
      at <= |s|
    }

    method Blank() returns (some: bool)
      requires Valid()
      modifies this
      ensures Valid() && at == BlanksEnd(s, old(at)) && (some <==> at > old(at))
      ensures (forall i :: old(at) <= i < at ==> s[i] in " \t\r") && (at < |s| ==> s[at] !in " \t\r")
    {
      var from := at;
      while at < |s| && IsBlank(s[at])
        invariant from <= at <= |s| && BlanksEnd(s, from) == BlanksEnd(s, at)
        invariant forall i :: from <= i < at ==> s[i] in " \t\r"
      {
        at := at + 1;
      }
      some := at > from;
    }

    /** The number at the cursor, exact, or a refusal precisely where there is
        none or it passes 2^64 - 1. */
    method Number(base: nat) returns (ok: bool, value: nat)
      requires Valid() && (base == 10 || base == 16)
      modifies this
      ensures Valid() && (ok <==> NumberFits(s, old(at), base))
      ensures ok ==> at == RunEnd(s, old(at), base) && value == ValueIn(s[old(at)..at], base)
    {
      value := 0;
      var from := at;
      assert s[from..from] == "";
      while at < |s| && DigitIn(s[at], base) >= 0
        invariant from <= at <= |s| && Digits(s[from..at], base)
        invariant value == ValueIn(s[from..at], base) && value <= UINT64_MAX
      {
        var d := DigitIn(s[at], base);
        ghost var before := value;
        ok, value := Push(value, d, base);
        OneDigit(s, from, at, base, before, d);
        if !ok {
          PassesOver(s, from, at, base);
          return;
        }
        at := at + 1;
      }
      RunEndIs(s, from, base, at);
      ok := at > from;
    }

    method Hex() returns (ok: bool, value: nat)
      requires Valid()
      modifies this
      ensures Valid() && (ok <==> NumberFits(s, HexStart(s, old(at)), 16))
      ensures ok ==> at == RunEnd(s, HexStart(s, old(at)), 16) && value == ValueIn(s[HexStart(s, old(at))..at], 16)
    {
      if |s| - at > 2 && s[at] == '0' && (s[at + 1] == 'x' || s[at + 1] == 'X') {
        at := at + 2;
      }
      ok, value := Number(16);
    }

    method Char(want: char) returns (ok: bool)
      requires Valid()
      modifies this
      ensures Valid() && (ok <==> old(at) < |s| && s[old(at)] == want) && at == old(at) + if ok then 1 else 0
    {
      ok := at < |s| && s[at] == want;
      if ok { at := at + 1; }
    }
  }
}

/** The reading of an escaped symbol: `anti_rt_symbol_unescape` of rt/symbols.c,
    and `symmap_readable_name` of symmap.c, which calls it. */
module Symbols {
  import opened Options

  predicate IsPlain(c: char) {
    'a' <= c <= 'z' || 'A' <= c <= 'Z' || '0' <= c <= '9' || c == '_' || c == '.'
  }

  function HexValue(c: char): (d: int)
    ensures -1 <= d < 16
  {
    if '0' <= c <= '9' then c as int - '0' as int
    else if 'a' <= c <= 'f' then c as int - 'a' as int + 10
    else -1
  }

  /** The byte the escape at `i` stands for, or none where it is no escape a
      symbol has. */
  function EscapeAt(name: string, i: nat): (c: Option<char>)
    requires i < |name|
  {
    if i + 2 >= |name| || HexValue(name[i + 1]) < 0 || HexValue(name[i + 2]) < 0 then None
    else
      var b := HexValue(name[i + 1]) * 16 + HexValue(name[i + 2]);
      if b == 0 || IsPlain(b as char) then None else Some(b as char)
  }

  function Before(c: char, rest: Option<string>): (s: Option<string>) {
    match rest case None => None case Some(t) => Some([c] + t)
  }

  /** What the symbol spells from `i` on, or none where it is none of ours. */
  function Decoded(name: string, i: nat): (s: Option<string>)
    requires i <= |name|
    decreases |name| - i
  {
    if i == |name| then Some("")
    else if name[i] == '$' then
      match EscapeAt(name, i)
      case None => None
      case Some(c) => Before(c, Decoded(name, i + 3))
    else if IsPlain(name[i]) then Before(name[i], Decoded(name, i + 1))
    else None
  }

  /** The name an escaped symbol spells: it has an escape and a dot. */
  function Unescaped(name: string): (s: Option<string>) {
    if '$' in name && '.' in name then Decoded(name, 0) else None
  }

  function Readable(name: string): (s: string) {
    if Unescaped(name).Some? then Unescaped(name).value else name
  }

  /** What is decoded so far, put before what is left. */
  ghost predicate Decoding(name: string, i: nat, out: string)
    requires i <= |name|
  {
    match Decoded(name, i)
    case None => Decoded(name, 0).None?
    case Some(t) => Decoded(name, 0) == Some(out + t)
  }

  lemma DecodingStart(name: string)
    ensures Decoding(name, 0, "")
  {
    if Decoded(name, 0).Some? { assert "" + Decoded(name, 0).value == Decoded(name, 0).value; }
  }

  lemma DecodingStep(name: string, i: nat, out: string, c: char, next: nat)
    requires i < next <= |name| && Decoding(name, i, out) && Decoded(name, i) == Before(c, Decoded(name, next))
    ensures Decoding(name, next, out + [c])
  {
    if Decoded(name, next).Some? {
      var t := Decoded(name, next).value;
      assert out + ([c] + t) == (out + [c]) + t;
    }
  }

  /** What the counters of the loop say of the text behind it. */
  predicate Counted(name: string, i: nat, escapes: nat, dot: bool)
    requires i <= |name|
  {
    (escapes > 0 <==> '$' in name[..i]) && (dot <==> '.' in name[..i])
  }

  lemma CountedPlain(name: string, i: nat, escapes: nat, dot: bool)
    requires i < |name| && name[i] != '$' && Counted(name, i, escapes, dot)
    ensures Counted(name, i + 1, escapes, dot || name[i] == '.')
  {
    assert name[..i + 1] == name[..i] + [name[i]];
  }

  /** An escape holds no dot and no other escape. */
  lemma CountedEscape(name: string, i: nat, escapes: nat, dot: bool)
    requires i < |name| && name[i] == '$' && EscapeAt(name, i).Some? && Counted(name, i, escapes, dot)
    ensures Counted(name, i + 3, escapes + 1, dot)
  {
    assert name[..i + 3] == name[..i] + ['$', name[i + 1], name[i + 2]];
    assert name[i + 1] != '.' && name[i + 2] != '.';
  }

  method SymbolUnescape(name: string) returns (s: Option<string>)
    ensures s == Unescaped(name)
  {
    var out, i, escapes, dot := "", 0, 0, false;
    DecodingStart(name);
    while i < |name|
      invariant 0 <= i <= |name| && 0 <= escapes
      invariant Decoding(name, i, out) && Counted(name, i, escapes, dot)
    {
      if name[i] == '$' {
        var c := EscapeAt(name, i);
        if c.None? { return None; }
        CountedEscape(name, i, escapes, dot);
        DecodingStep(name, i, out, c.value, i + 3);
        out, i, escapes := out + [c.value], i + 3, escapes + 1;
      } else {
        if !IsPlain(name[i]) { return None; }
        CountedPlain(name, i, escapes, dot);
        DecodingStep(name, i, out, name[i], i + 1);
        out, dot, i := out + [name[i]], dot || name[i] == '.', i + 1;
      }
    }
    assert name[..i] == name && out + "" == out;
    s := if escapes > 0 && dot then Some(out) else None;
  }

  method ReadableName(name: string) returns (s: string)
    ensures s == Readable(name)
  {
    var unescaped := SymbolUnescape(name);
    s := if unescaped.Some? then unescaped.value else name;
  }

  lemma {:induction false} DecodedIsShorter(name: string, i: nat)
    requires i <= |name| && Decoded(name, i).Some?
    ensures |Decoded(name, i).value| <= |name| - i
    ensures '$' in name[i..] ==> |Decoded(name, i).value| < |name| - i
    decreases |name| - i
  {
    if i < |name| {
      assert name[i..] == [name[i]] + name[i + 1..];
      DecodedIsShorter(name, if name[i] == '$' then i + 3 else i + 1);
    }
  }

  /** A name reads as itself exactly where it is no escaped symbol. */
  lemma ReadsAsItself(name: string)
    ensures Readable(name) == name <==> Unescaped(name).None?
  {
    if Unescaped(name).Some? {
      assert name[0..] == name;
      DecodedIsShorter(name, 0);
    }
  }

  // ---- The escape ----

  function HexChar(d: nat): (c: char)
    requires d < 16
    ensures HexValue(c) == d
  {
    if d < 10 then '0' + d as char else 'a' + (d - 10) as char
  }

  /** A byte of a name: a name of C holds no zero. */
  predicate IsByte(c: char) {
    0 < c as int < 256
  }

  /** The symbol of a name. */
  function Escaped(name: string): (s: string)
    requires forall i :: 0 <= i < |name| ==> IsByte(name[i])
    decreases |name|
  {
    if name == "" then ""
    else if IsPlain(name[0]) then [name[0]] + Escaped(name[1..])
    else
      assert IsByte(name[0]);
      ['$', HexChar(name[0] as int / 16), HexChar(name[0] as int % 16)] + Escaped(name[1..])
  }

  lemma {:induction false} EscapedDecodes(name: string, symbol: string, i: nat)
    requires forall k :: 0 <= k < |name| ==> IsByte(name[k])
    requires i <= |symbol| && symbol[i..] == Escaped(name)
    ensures Decoded(symbol, i) == Some(name)
    decreases |name|
  {
    if name != "" {
      var next := if IsPlain(name[0]) then i + 1 else i + 3;
      var left := symbol[i..];
      assert left[next - i..] == Escaped(name[1..]) && symbol[next..] == left[next - i..];
      EscapedDecodes(name[1..], symbol, next);
      assert symbol[i] == left[0] && name == [name[0]] + name[1..];
      if !IsPlain(name[0]) {
        assert symbol[i + 1] == left[1] && symbol[i + 2] == left[2];
        assert EscapeAt(symbol, i) == Some(name[0]);
      }
    }
  }

  /** Two names never have one symbol. */
  lemma EscapedIsInjective(a: string, b: string)
    requires forall k :: 0 <= k < |a| ==> IsByte(a[k])
    requires forall k :: 0 <= k < |b| ==> IsByte(b[k])
    requires Escaped(a) == Escaped(b)
    ensures a == b
  {
    var symbol := Escaped(a);
    assert symbol[0..] == symbol;
    EscapedDecodes(a, symbol, 0);
    EscapedDecodes(b, symbol, 0);
  }

  lemma {:induction false} EscapedHolds(name: string)
    requires forall k :: 0 <= k < |name| ==> IsByte(name[k])
    ensures '.' in name ==> '.' in Escaped(name)
    ensures '$' !in Escaped(name) ==> Escaped(name) == name
    decreases |name|
  {
    if name != "" {
      var rest := Escaped(name[1..]);
      EscapedHolds(name[1..]);
      assert name == [name[0]] + name[1..];
      if IsPlain(name[0]) {
        assert Escaped(name) == [name[0]] + rest;
      } else {
        assert Escaped(name)[0] == '$';
      }
    }
  }

  /** The symbol of a name with a dot in it, which every name of the language
      has behind its module, reads back as the name. */
  lemma EscapedReadsBack(name: string)
    requires '.' in name && forall k :: 0 <= k < |name| ==> IsByte(name[k])
    ensures Readable(Escaped(name)) == name
  {
    var symbol := Escaped(name);
    assert symbol[0..] == symbol;
    EscapedDecodes(name, symbol, 0);
    EscapedHolds(name);
  }

  // ---- The form of a symbol ----

  const SMALL := "abcdefghijklmnopqrstuvwxyz"
  const LARGE := "ABCDEFGHIJKLMNOPQRSTUVWXYZ"
  const DECIMAL := "0123456789"
  const HEX := "0123456789abcdef"

  lemma InSmall(c: char)
    ensures c in SMALL <==> 'a' <= c <= 'z'
  {
    if 'a' <= c <= 'z' { assert c == SMALL[c as int - 'a' as int]; }
  }

  lemma InLarge(c: char)
    ensures c in LARGE <==> 'A' <= c <= 'Z'
  {
    if 'A' <= c <= 'Z' { assert c == LARGE[c as int - 'A' as int]; }
  }

  lemma InDigits(c: char)
    ensures c in DECIMAL <==> '0' <= c <= '9'
  {
    if '0' <= c <= '9' { assert c == DECIMAL[c as int - '0' as int]; }
  }

  lemma HexCharIs(d: nat)
    requires d < 16
    ensures HexChar(d) == HEX[d]
  {
  }

  /** The symbol of one byte: a letter, a digit, `_` and `.` as it is, and any
      other behind a `$` as two small digits in base 16. */
  lemma ByteEscaped(c: char)
    requires IsByte(c)
    ensures Escaped([c]) ==
            if c in SMALL || c in LARGE || c in DECIMAL || c in "_." then [c]
            else ['$', HEX[c as int / 16], HEX[c as int % 16]]
  {
    hide HexChar;
    InSmall(c);
    InLarge(c);
    InDigits(c);
    assert [c][1..] == "";
    if !IsPlain(c) {
      HexCharIs(c as int / 16);
      HexCharIs(c as int % 16);
    }
  }

  /** The symbol of a name is that of its bytes, one after another. */
  lemma {:induction false} EscapedOfBoth(a: string, b: string)
    requires forall i :: 0 <= i < |a| ==> IsByte(a[i])
    requires forall i :: 0 <= i < |b| ==> IsByte(b[i])
    ensures Escaped(a + b) == Escaped(a) + Escaped(b)
    decreases |a|
  {
    if a == "" {
      assert a + b == b;
    } else {
      assert (a + b)[1..] == a[1..] + b;
      EscapedOfBoth(a[1..], b);
    }
  }

  lemma EscapeAtIs(symbol: string, i: nat)
    requires i < |symbol| && EscapeAt(symbol, i).Some?
    ensures var c := EscapeAt(symbol, i).value;
            && i + 2 < |symbol| && IsByte(c) && !IsPlain(c)
            && symbol[i + 1] == HexChar(c as int / 16) && symbol[i + 2] == HexChar(c as int % 16)
  {
  }

  lemma {:induction false} DecodedIsEscaped(symbol: string, i: nat, name: string)
    requires i <= |symbol| && Decoded(symbol, i) == Some(name)
    ensures forall k :: 0 <= k < |name| ==> IsByte(name[k])
    ensures Escaped(name) == symbol[i..]
    decreases |symbol| - i
  {
    hide EscapeAt, IsPlain, HexChar;
    if i == |symbol| {
      assert name == "";
    } else {
      var c, next := symbol[i], i + 1;
      if symbol[i] == '$' {
        c, next := EscapeAt(symbol, i).value, i + 3;
        EscapeAtIs(symbol, i);
        assert symbol[i..] == ['$', symbol[i + 1], symbol[i + 2]] + symbol[next..];
      } else {
        PlainIsByte(c);
        assert symbol[i..] == [c] + symbol[next..];
      }
      var tail := Decoded(symbol, next).value;
      DecodedIsEscaped(symbol, next, tail);
      assert name == [c] + tail && name[1..] == tail;
    }
  }

  lemma PlainIsByte(c: char)
    requires IsPlain(c)
    ensures IsByte(c) && c != '$'
  {
  }

  /** A symbol is read exactly as the one name it is the symbol of, where the
      name has a dot and the symbol an escape, and else not at all. */
  lemma UnescapedIs(symbol: string, name: string)
    ensures Unescaped(symbol) == Some(name) <==>
            && (forall k :: 0 <= k < |name| ==> IsByte(name[k]))
            && Escaped(name) == symbol && '$' in symbol && '.' in symbol
  {
    if Unescaped(symbol) == Some(name) {
      DecodedIsEscaped(symbol, 0, name);
      assert symbol[0..] == symbol;
    }
    if (forall k :: 0 <= k < |name| ==> IsByte(name[k])) && Escaped(name) == symbol {
      assert symbol[0..] == symbol;
      EscapedDecodes(name, symbol, 0);
    }
  }

  // ---- Reading twice ----

  lemma OnePlain(name: string, i: nat, t: string, u: string)
    requires i < |name| && name[i] != '$' && IsPlain(name[i])
    requires Decoded(name, i + 1) == Some(t) && u == [name[i]] + t
    ensures Decoded(name, i) == Some(u)
  {
  }

  lemma OneEscape(name: string, i: nat, t: string, c: char, u: string)
    requires i < |name| && name[i] == '$' && EscapeAt(name, i) == Some(c)
    requires Decoded(name, i + 3) == Some(t) && u == [c] + t
    ensures Decoded(name, i) == Some(u)
  {
  }

  /** Reading a symbol twice is not reading it once: the escape of a `$` may
      make a new escape of what stands behind it. */
  lemma ReadTwice()
    ensures Readable("a.b$243c") == "a.b$3c" && Readable("a.b$3c") == "a.b<"
  {
    var s, t := "a.b$243c", "a.b$3c";
    OnePlain(s, 7, "", "c");
    OnePlain(s, 6, "c", "3c");
    OneEscape(s, 3, "3c", '$', "$3c");
    OnePlain(s, 2, "$3c", "b$3c");
    OnePlain(s, 1, "b$3c", ".b$3c");
    OnePlain(s, 0, ".b$3c", "a.b$3c");
    OneEscape(t, 3, "", '<', "<");
    OnePlain(t, 2, "<", "b<");
    OnePlain(t, 1, "b<", ".b<");
    OnePlain(t, 0, ".b<", "a.b<");
    assert s[1] == '.' && s[3] == '$' && t[1] == '.' && t[3] == '$';
  }
}

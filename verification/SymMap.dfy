/** The map from addresses to functions: how symmap.c writes it as text, and
    how syms.c answers an address from that text. */
module SymMap {
  import opened Options
  import opened Cursor
  import opened Symbols
  import opened Numerals

  const TWO64 := 0x1_0000_0000_0000_0000

  /** One function of the map. */
  datatype Entry = Entry(name: string, file: string, vaddr: nat, size: nat, line: int)

  predicate InRange(entries: seq<Entry>) {
    forall i :: 0 <= i < |entries| ==> entries[i].vaddr < TWO64 && entries[i].size < TWO64
  }

  // ---- The map as it is written ----

  function HexDigit(d: nat): (c: char)
    requires d < 16
    ensures DigitIn(c, 16) == d && c != 'x' && c != 'X' && c != '#' && !IsBlank(c) && c != '\n'
  {
    if d < 10 then '0' + d as char else 'a' + (d - 10) as char
  }

  function HexDigits(n: nat, k: nat): (s: string)
    ensures |s| == k
    decreases k, n
  {
    if k == 0 then "" else HexDigits(n / 16, k - 1) + [HexDigit(n % 16)]
  }

  const HEX := 16

  /** The number of a line, with a sign where it is negative. */
  function LineNumber(n: int): (s: string) {
    if n < 0 then "-" + Spell(-n) else Spell(n)
  }

  /** The end of a range: a function without a size reaches to the next one,
      and the last of them is one address. */
  function EndOf(entries: seq<Entry>, i: nat): (end: nat)
    requires i < |entries| && InRange(entries)
    ensures end < TWO64
  {
    if entries[i].size > 0 then (entries[i].vaddr + entries[i].size) % TWO64
    else if i + 1 < |entries| then entries[i + 1].vaddr
    else entries[i].vaddr
  }

  function Location(e: Entry): (s: string) {
    if e.file == "" then "" else e.file + ":" + LineNumber(e.line)
  }

  function RangeText(start: nat, end: nat): (s: string)
    ensures |s| == 2 * HEX + 1
  {
    HexDigits(start, HEX) + "-" + HexDigits(end, HEX)
  }

  function LineText(e: Entry, end: nat): (s: string) {
    RangeText(e.vaddr, end) + " " + e.name + (if e.file == "" then "" else " " + Location(e))
  }

  /** The lines of the functions from `i` on. */
  function EntriesText(entries: seq<Entry>, i: nat): (s: string)
    requires i <= |entries| && InRange(entries)
    decreases |entries| - i
  {
    if i == |entries| then "" else LineText(entries[i], EndOf(entries, i)) + "\n" + EntriesText(entries, i + 1)
  }

  function HeaderText(header: seq<string>): (s: string) {
    if header == [] then "" else header[0] + "\n" + HeaderText(header[1..])
  }

  lemma Reassociate(a: string, b: string, c: string)
    ensures (a + b) + c == a + (b + c)
  {
  }

  datatype Format = Elf | MachO | Coff

  /** The comments a map opens with. A Mach-O program with a text segment names
      the address of it. */
  function Header(format: Format, id: string, target: string, textAddress: Option<nat>): (header: seq<string>) {
    ["# The map of a symbols archive of Anti.", "# build " + id, "# target " + target]
    + (if format.MachO? && textAddress.Some? then ["# text " + HexDigits(textAddress.value, HEX)] else [])
    + if format.Coff? then
        ["# A Windows program carries no symbol" + " table. The PDB of this archive",
         "# holds the functions, the files" + " and the lines of this build."]
      else []
  }

  method MakeHeader(format: Format, id: string, target: string, textAddress: Option<nat>)
      returns (header: seq<string>)
    ensures header == Header(format, id, target, textAddress)
  {
    header := ["# The map of a symbols archive of Anti."];
    header := header + ["# build " + id];
    header := header + ["# target " + target];
    if format.MachO? && textAddress.Some? { header := header + ["# text " + HexDigits(textAddress.value, HEX)]; }
    if format.Coff? {
      header := header + ["# A Windows program carries no symbol" + " table. The PDB of this archive"];
      header := header + ["# holds the functions, the files" + " and the lines of this build."];
    }
  }

  method WriteHeader(header: seq<string>) returns (out: string)
    ensures out == HeaderText(header)
  {
    out := "";
    var i := 0;
    assert header[0..] == header;
    while i < |header|
      invariant 0 <= i <= |header| && out + HeaderText(header[i..]) == HeaderText(header)
    {
      assert header[i..][1..] == header[i + 1..];
      Reassociate(out, header[i] + "\n", HeaderText(header[i + 1..]));
      out := out + (header[i] + "\n");
      i := i + 1;
    }
    assert out + "" == out;
  }

  method WriteLine(out: string, e: Entry, end: nat) returns (more: string)
    ensures more == out + (LineText(e, end) + "\n")
  {
    var line := HexDigits(e.vaddr, HEX) + "-" + HexDigits(end, HEX) + " " + e.name;
    if |e.file| > 0 { line := line + " " + e.file + ":" + LineNumber(e.line); }
    assert line == LineText(e, end);
    more := out + (line + "\n");
  }

  lemma OneEntry(out: string, line: string, entries: seq<Entry>, i: nat, whole: string)
    requires i < |entries| && InRange(entries) && line == LineText(entries[i], EndOf(entries, i)) + "\n"
    requires out + EntriesText(entries, i) == whole
    ensures (out + line) + EntriesText(entries, i + 1) == whole
  {
    Reassociate(out, line, EntriesText(entries, i + 1));
  }

  /** The end of a range, as the writer finds it. */
  method FindEnd(entries: seq<Entry>, i: nat) returns (end: nat)
    requires i < |entries| && InRange(entries)
    ensures end == EndOf(entries, i)
  {
    var e := entries[i];
    end := if e.size > 0 then (e.vaddr + e.size) % TWO64
           else if i + 1 < |entries| then entries[i + 1].vaddr else e.vaddr;
  }

  /** The map of a program whose functions are `entries`. */
  function MapText(header: seq<string>, entries: seq<Entry>): (text: string)
    requires InRange(entries)
  {
    HeaderText(header) + EntriesText(entries, 0)
  }

  method SymmapWrite(format: Format, id: string, target: string, textAddress: Option<nat>, entries: seq<Entry>)
      returns (out: string)
    requires InRange(entries)
    ensures out == MapText(Header(format, id, target, textAddress), entries)
  {
    var header := MakeHeader(format, id, target, textAddress);
    out := WriteHeader(header);
    ghost var whole := out + EntriesText(entries, 0);
    var i := 0;
    while i < |entries|
      invariant 0 <= i <= |entries| && out + EntriesText(entries, i) == whole
    {
      ghost var before := out;
      var end := FindEnd(entries, i);
      out := WriteLine(out, entries[i], end);
      OneEntry(before, LineText(entries[i], end) + "\n", entries, i, whole);
      i := i + 1;
    }
    assert out + "" == out;
  }

  // ---- One line as the lookup reads it ----

  /** The number of digits at the end. */
  function TrailingDigits(s: string): (n: nat)
    ensures n <= |s|
  {
    if s == "" || !('0' <= s[|s| - 1] <= '9') then 0 else 1 + TrailingDigits(s[..|s| - 1])
  }

  predicate IsLocation(s: string) {
    var digits := TrailingDigits(s);
    digits > 0 && digits + 1 < |s| && s[|s| - 1 - digits] == ':'
  }

  method IsLocationText(s: string) returns (yes: bool)
    ensures yes <==> IsLocation(s)
  {
    var digits := 0;
    assert s[..|s|] == s;
    while digits < |s| && '0' <= s[|s| - 1 - digits] <= '9'
      invariant 0 <= digits <= |s| && TrailingDigits(s) == digits + TrailingDigits(s[..|s| - digits])
    {
      assert s[..|s| - digits][..|s| - digits - 1] == s[..|s| - digits - 1];
      digits := digits + 1;
    }
    yes := digits > 0 && digits + 1 < |s| && s[|s| - 1 - digits] == ':';
  }

  /** The end of the text before the blanks that end at `stop`. */
  function TrimEnd(s: string, from: nat, stop: nat): (e: nat)
    requires from <= stop <= |s|
    ensures from <= e <= stop
  {
    if stop > from && IsBlank(s[stop - 1]) then TrimEnd(s, from, stop - 1) else stop
  }

  /** The start of the word that ends at `stop`. */
  function WordStart(s: string, from: nat, stop: nat): (w: nat)
    requires from <= stop <= |s|
    ensures from <= w <= stop
  {
    if stop > from && !IsBlank(s[stop - 1]) then WordStart(s, from, stop - 1) else stop
  }

  /** The range a line opens with, and where its name starts. */
  datatype Range = Range(start: nat, end: nat, name: nat)

  function RangeOf(line: string): (r: Option<Range>)
    ensures r.Some? ==> r.value.name < |line|
  {
    var a := HexStart(line, BlanksEnd(line, 0));
    if (line != "" && line[0] == '#') || !NumberFits(line, a, 16) then None
    else
      var b := RunEnd(line, a, 16);
      if b == |line| || line[b] != '-' then None
      else
        var c := HexStart(line, b + 1);
        if !NumberFits(line, c, 16) then None
        else
          var d := RunEnd(line, c, 16);
          var e := BlanksEnd(line, d);
          if e == d || e == |line| then None
          else Some(Range(ValueIn(line[a..b], 16), ValueIn(line[c..d], 16), e))
  }

  predicate Covers(start: nat, end: nat, vaddr: nat) {
    vaddr >= start && (vaddr < end || (end == start && vaddr == start))
  }

  /** The name and the location of a line. */
  function NameOf(line: string, from: nat): (r: (string, string))
    requires from <= |line|
  {
    var stop := TrimEnd(line, from, |line|);
    var word := WordStart(line, from, stop);
    if word > from && IsLocation(line[word..stop]) then (line[from..TrimEnd(line, from, word)], line[word..stop])
    else (line[from..stop], "")
  }

  function LookupLine(line: string, vaddr: nat): (r: Option<(string, string)>) {
    match RangeOf(line)
    case None => None
    case Some(range) => if Covers(range.start, range.end, vaddr) then Some(NameOf(line, range.name)) else None
  }

  /** The end of the line at `at`. */
  function LineEnd(text: string, at: nat): (e: nat)
    requires at <= |text|
    ensures at <= e <= |text| && (e < |text| ==> text[e] == '\n')
    decreases |text| - at
  {
    if at < |text| && text[at] != '\n' then LineEnd(text, at + 1) else at
  }

  /** What one line says. */
  type Says = string -> Option<(string, string)>

  function About(vaddr: nat): (f: Says) {
    line => LookupLine(line, vaddr)
  }

  function LinesFrom(text: string, at: nat): (lines: seq<string>)
    requires at <= |text|
    decreases |text| - at
  {
    if at == |text| then []
    else
      var e := LineEnd(text, at);
      [text[at..e]] + if e == |text| then [] else LinesFrom(text, e + 1)
  }

  /** What the first line that says something says. */
  function FirstSaid(lines: seq<string>, f: Says): (r: Option<(string, string)>) {
    if lines == [] then None else if f(lines[0]).Some? then f(lines[0]) else FirstSaid(lines[1..], f)
  }

  /** The lookup of an address in a map. */
  function Lookup(text: string, vaddr: nat): (r: Option<(string, string)>) {
    FirstSaid(LinesFrom(text, 0), About(vaddr))
  }

  method LookupOne(line: string, vaddr: nat) returns (r: Option<(string, string)>)
    ensures r == LookupLine(line, vaddr)
  {
    var range := ReadRange(line);
    if range.None? || !Covers(range.value.start, range.value.end, vaddr) { return None; }
    var name := range.value.name;
    var stop := |line|;
    while stop > name && IsBlank(line[stop - 1])
      invariant name <= stop <= |line| && TrimEnd(line, name, |line|) == TrimEnd(line, name, stop)
    {
      stop := stop - 1;
    }
    var where := stop;
    while where > name && !IsBlank(line[where - 1])
      invariant name <= where <= stop && WordStart(line, name, stop) == WordStart(line, name, where)
    {
      where := where - 1;
    }
    var found := "";
    var located := false;
    if where > name { located := IsLocationText(line[where..stop]); }
    if located {
      found := line[where..stop];
      stop := where;
      while stop > name && IsBlank(line[stop - 1])
        invariant name <= stop <= where && TrimEnd(line, name, where) == TrimEnd(line, name, stop)
      {
        stop := stop - 1;
      }
    }
    r := Some((line[name..stop], found));
  }

  method ReadRange(line: string) returns (r: Option<Range>)
    ensures r == RangeOf(line)
  {
    hide NumberFits, RunEnd, ValueIn, BlanksEnd, HexStart;
    var c := new Reader(line);
    var some := c.Blank();
    if line != "" && line[0] == '#' { return None; }
    var ok, start := c.Hex();
    if !ok { return None; }
    ok := c.Char('-');
    if !ok { return None; }
    var end;
    ok, end := c.Hex();
    if !ok { return None; }
    ok := c.Blank();
    if !ok || c.at == |line| { return None; }
    r := Some(Range(start, end, c.at));
  }

  lemma NextLine(text: string, at: nat, stop: nat, f: Says)
    requires at < |text| && stop == LineEnd(text, at)
    ensures FirstSaid(LinesFrom(text, at), f) ==
            if f(text[at..stop]).Some? then f(text[at..stop])
            else FirstSaid(LinesFrom(text, if stop < |text| then stop + 1 else stop), f)
  {
    var rest := if stop == |text| then [] else LinesFrom(text, stop + 1);
    assert LinesFrom(text, at) == [text[at..stop]] + rest;
    assert ([text[at..stop]] + rest)[1..] == rest;
  }

  method FindLineEnd(text: string, at: nat) returns (stop: nat)
    requires at <= |text|
    ensures stop == LineEnd(text, at)
  {
    stop := at;
    while stop < |text| && text[stop] != '\n'
      invariant at <= stop <= |text| && LineEnd(text, at) == LineEnd(text, stop)
    {
      stop := stop + 1;
    }
  }

  /** The name of an answer, with the escapes of a symbol read back. */
  function Answer(r: Option<(string, string)>): (a: Option<(string, string)>) {
    match r case None => None case Some((name, where)) => Some((Readable(name), where))
  }

  /** The function of an address, and where the map gives them its file and
      line. */
  method MapLookup(text: string, vaddr: nat) returns (found: Option<(string, string)>)
    ensures found == Answer(Lookup(text, vaddr))
  {
    var line := 0;
    ghost var f := About(vaddr);
    while line < |text|
      invariant 0 <= line <= |text| && Lookup(text, vaddr) == FirstSaid(LinesFrom(text, line), f)
      decreases |text| - line
    {
      var stop := FindLineEnd(text, line);
      var here := LookupOne(text[line..stop], vaddr);
      NextLine(text, line, stop, f);
      if here.Some? {
        var name := ReadableName(here.value.0);
        return Some((name, here.value.1));
      }
      line := if stop < |text| then stop + 1 else stop;
    }
    found := None;
  }

  // ---- The lookup gives back what was written ----

  predicate NoNewline(s: string) {
    forall i :: 0 <= i < |s| ==> s[i] != '\n'
  }

  predicate NoBlank(s: string) {
    forall i :: 0 <= i < |s| ==> !IsBlank(s[i])
  }

  /** A name that can be told from the location behind it: it neither starts
      nor ends with a blank, and where no location follows, its last word is
      none. */
  predicate Plain(e: Entry) {
    && |e.name| > 0 && !IsBlank(e.name[0]) && !IsBlank(e.name[|e.name| - 1])
    && NoNewline(e.name) && NoNewline(e.file) && NoBlank(e.file)
    && (e.file != "" ==> e.line >= 0)
    && (e.file == "" ==> var w := WordStart(e.name, 0, |e.name|); w > 0 ==> !IsLocation(e.name[w..]))
  }

  lemma {:induction false} HexSpells(n: nat, k: nat)
    requires n < Sixteens(k)
    ensures Digits(HexDigits(n, k), 16) && ValueIn(HexDigits(n, k), 16) == n
    decreases k, n
  {
    if k > 0 {
      HexSpells(n / 16, k - 1);
      var s := HexDigits(n, k);
      assert s[..k - 1] == HexDigits(n / 16, k - 1);
    }
  }

  function Sixteens(k: nat): (n: nat)
    ensures n > 0
  {
    if k == 0 then 1 else 16 * Sixteens(k - 1)
  }

  lemma SixteenDigits()
    ensures Sixteens(HEX) == TWO64
  {
    assert Sixteens(4) == 0x1_0000;
    MoreDigits(4, 0x1_0000);
    MoreDigits(8, 0x1_0000_0000);
    MoreDigits(12, 0x1_0000_0000_0000);
  }

  lemma MoreDigits(k: nat, n: nat)
    requires Sixteens(k) == n
    ensures Sixteens(k + 4) == 0x1_0000 * n
  {
    assert Sixteens(k + 4) == 16 * Sixteens(k + 3) == 256 * Sixteens(k + 2) == 4096 * Sixteens(k + 1);
  }

  /** A number of 16 digits, read where it stands. */
  lemma HexHere(line: string, at: nat, n: nat)
    requires n < TWO64 && at + HEX < |line| && line[at..at + HEX] == HexDigits(n, HEX)
    requires DigitIn(line[at + HEX], 16) < 0
    ensures BlanksEnd(line, at) == at && HexStart(line, at) == at && line[at] != '#'
    ensures NumberFits(line, at, 16) && RunEnd(line, at, 16) == at + HEX
    ensures ValueIn(line[at..at + HEX], 16) == n
  {
    SixteenDigits();
    HexSpells(n, HEX);
    RunEndIs(line, at, 16, at + HEX);
    HexChars(n, HEX, 0);
    HexChars(n, HEX, 1);
    assert line[at] == line[at..at + HEX][0] && line[at + 1] == line[at..at + HEX][1];
  }

  lemma {:induction false} HexChars(n: nat, k: nat, i: nat)
    requires i < k
    ensures exists d: nat :: d < 16 && HexDigits(n, k)[i] == HexDigit(d)
    decreases k, n
  {
    if i < k - 1 {
      HexChars(n / 16, k - 1, i);
    } else {
      assert HexDigits(n, k)[i] == HexDigit(n % 16);
    }
  }

  lemma {:induction false} WordStartIs(s: string, from: nat, w: nat, stop: nat)
    requires from <= w <= stop <= |s| && (forall i :: w <= i < stop ==> !IsBlank(s[i]))
    requires w == from || IsBlank(s[w - 1])
    ensures WordStart(s, from, stop) == w
    decreases stop
  {
    if stop > w { WordStartIs(s, from, w, stop - 1); }
  }

  lemma {:induction false} WordStartShifts(s: string, from: nat, t: string, stop: nat)
    requires stop <= |t| && from + |t| <= |s| && s[from..from + |t|] == t
    ensures WordStart(s, from, from + stop) == from + WordStart(t, 0, stop)
    decreases stop
  {
    if stop > 0 {
      assert s[from + stop - 1] == t[stop - 1];
      WordStartShifts(s, from, t, stop - 1);
    }
  }

  lemma {:induction false} TrailingIs(head: string, digits: string)
    requires Digits(digits, 10) && head != "" && !('0' <= head[|head| - 1] <= '9')
    ensures TrailingDigits(head + digits) == |digits|
    decreases |digits|
  {
    var s := head + digits;
    if digits == "" {
      assert s == head;
    } else {
      assert s[..|s| - 1] == head + digits[..|digits| - 1];
      TrailingIs(head, digits[..|digits| - 1]);
    }
  }

  /** A location is a word of its own form. */
  lemma LocationIs(e: Entry)
    requires Plain(e) && e.file != ""
    ensures IsLocation(Location(e)) && NoBlank(Location(e)) && NoNewline(Location(e)) && |Location(e)| > 0
  {
    var head, digits := e.file + ":", LineNumber(e.line);
    assert Location(e) == head + digits;
    TrailingIs(head, digits);
    assert forall i :: 0 <= i < |digits| ==> DigitIn(digits[i], 10) >= 0;
  }

  lemma TrimNone(s: string, from: nat, stop: nat)
    requires from < stop <= |s| && !IsBlank(s[stop - 1])
    ensures TrimEnd(s, from, stop) == stop
  {
  }

  lemma NameAlone(line: string, from: nat, word: nat)
    requires from <= |line| && TrimEnd(line, from, |line|) == |line| && word == WordStart(line, from, |line|)
    requires word > from ==> !IsLocation(line[word..|line|])
    ensures NameOf(line, from) == (line[from..|line|], "")
  {
  }

  /** The name of a line without a location. */
  lemma BareName(line: string, from: nat, e: Entry)
    requires Plain(e) && e.file == "" && from <= |line| && line[from..] == e.name
    ensures NameOf(line, from) == (e.name, "")
  {
    hide IsLocation, Location, LineNumber, TrimEnd, WordStart, NameOf;
    assert line[|line| - 1] == line[from..][|e.name| - 1];
    assert line[from..from + |e.name|] == e.name;
    TrimNone(line, from, |line|);
    WordStartShifts(line, from, e.name, |e.name|);
    var w := WordStart(e.name, 0, |e.name|);
    assert line[from + w..|line|] == e.name[w..];
    NameAlone(line, from, from + w);
    assert line[from..|line|] == e.name;
  }

  /** The name of a line with one. */
  lemma LocatedName(line: string, from: nat, e: Entry)
    requires Plain(e) && e.file != "" && from <= |line| && line[from..] == e.name + (" " + Location(e))
    ensures NameOf(line, from) == (e.name, Location(e))
  {
    LocationIs(e);
    var name, loc := e.name, Location(e);
    var rest, stop := line[from..], |line|;
    var word := from + |name| + 1;
    assert rest[..|name|] == name && rest[|name|] == ' ' && rest[|name| + 1..] == loc;
    assert line[word..stop] == loc && line[from..from + |name|] == name;
    assert line[word - 1] == rest[|name|] && line[word - 2] == rest[|name| - 1] == name[|name| - 1];
    forall i | word <= i < stop ensures !IsBlank(line[i]) { assert line[i] == loc[i - word]; }
    assert TrimEnd(line, from, stop) == stop;
    WordStartIs(line, from, word, stop);
    assert TrimEnd(line, from, word - 1) == word - 1;
    assert TrimEnd(line, from, word) == word - 1;
  }

  lemma RangeHere(line: string, start: nat, end: nat)
    requires start < TWO64 && end < TWO64 && |line| > 2 * HEX + 2
    requires line[..2 * HEX + 1] == RangeText(start, end) && line[2 * HEX + 1] == ' ' && !IsBlank(line[2 * HEX + 2])
    ensures RangeOf(line) == Some(Range(start, end, 2 * HEX + 2))
  {
    var head := line[..2 * HEX + 1];
    var a, b := HexDigits(start, HEX), HexDigits(end, HEX);
    assert head[..HEX] == a && head[HEX] == '-' && head[HEX + 1..] == b;
    assert line[0..HEX] == a && line[HEX] == '-' && line[HEX + 1..HEX + 1 + HEX] == b;
    HexHere(line, 0, start);
    HexHere(line, HEX + 1, end);
    assert BlanksEnd(line, 2 * HEX + 2) == 2 * HEX + 2;
    assert BlanksEnd(line, 2 * HEX + 1) == 2 * HEX + 2;
  }

  lemma LineParts(e: Entry, end: nat)
    requires Plain(e)
    ensures var line := LineText(e, end);
            && |line| > 2 * HEX + 2 && line[..2 * HEX + 1] == RangeText(e.vaddr, end)
            && line[2 * HEX + 1] == ' ' && line[2 * HEX + 2] == e.name[0]
            && line[2 * HEX + 2..] == e.name + (if e.file == "" then "" else " " + Location(e))
  {
    var head := RangeText(e.vaddr, end);
    var tail := if e.file == "" then "" else " " + Location(e);
    assert LineText(e, end) == head + (" " + (e.name + tail));
  }

  /** One written line, read back: the name and the location of the function
      for the addresses of its range, and nothing for others. */
  lemma LineReadBack(e: Entry, end: nat, vaddr: nat)
    requires Plain(e) && e.vaddr < TWO64 && end < TWO64
    ensures LookupLine(LineText(e, end), vaddr) ==
            if Covers(e.vaddr, end, vaddr) then Some((e.name, Location(e))) else None
  {
    var line := LineText(e, end);
    LineParts(e, end);
    RangeHere(line, e.vaddr, end);
    if e.file == "" {
      assert e.name + "" == e.name;
      BareName(line, 2 * HEX + 2, e);
    } else {
      LocatedName(line, 2 * HEX + 2, e);
    }
  }

  // ---- The whole map ----

  /** The first function whose range holds the address. */
  function FirstFrom(entries: seq<Entry>, i: nat, vaddr: nat): (r: Option<(string, string)>)
    requires i <= |entries| && InRange(entries)
    decreases |entries| - i
  {
    if i == |entries| then None
    else if Covers(entries[i].vaddr, EndOf(entries, i), vaddr) then Some((entries[i].name, Location(entries[i])))
    else FirstFrom(entries, i + 1, vaddr)
  }

  lemma {:induction false} LineEndIs(text: string, at: nat, e: nat)
    requires at <= e < |text| && text[e] == '\n' && forall i :: at <= i < e ==> text[i] != '\n'
    ensures LineEnd(text, at) == e
    decreases e - at
  {
    if at < e { LineEndIs(text, at + 1, e); }
  }

  /** One line at the front of what is left of a map. */
  lemma OneLine(text: string, at: nat, line: string, rest: string) returns (next: nat)
    requires at <= |text| && NoNewline(line) && text[at..] == line + "\n" + rest
    ensures next <= |text| && text[next..] == rest
    ensures LinesFrom(text, at) == [line] + LinesFrom(text, next)
  {
    var e := LineSplits(text, at, line, rest, text[at..]);
    LineEndHere(text, at, e, line);
    next := e + 1;
    LinesUnfold(text, at, e, line, next);
  }

  lemma LineEndHere(text: string, at: nat, e: nat, line: string)
    requires at <= e < |text| && text[e] == '\n' && text[at..e] == line && NoNewline(line)
    ensures LineEnd(text, at) == e
  {
    forall i | at <= i < e ensures text[i] != '\n' { assert text[i] == line[i - at]; }
    LineEndIs(text, at, e);
  }

  lemma LinesUnfold(text: string, at: nat, e: nat, line: string, next: nat)
    requires at <= e < |text| && LineEnd(text, at) == e && text[at..e] == line && next == e + 1
    ensures LinesFrom(text, at) == [line] + LinesFrom(text, next)
  {
  }

  lemma LineSplits(text: string, at: nat, line: string, rest: string, left: string) returns (e: nat)
    requires at <= |text| && left == text[at..] && left == line + "\n" + rest
    ensures at <= e < |text| && text[e] == '\n' && text[at..e] == line && text[e + 1..] == rest
  {
    var n := |line|;
    e := at + n;
    assert left[..n] == line && left[n] == '\n' && left[n + 1..] == rest;
    assert text[at..at + n] == left[..n] && text[at + n] == left[n] && text[at + n + 1..] == left[n + 1..];
  }

  lemma LineHasNoNewline(e: Entry, end: nat)
    requires Plain(e)
    ensures NoNewline(LineText(e, end))
  {
    HexPlain(e.vaddr, HEX);
    HexPlain(end, HEX);
    if e.file != "" { LocationIs(e); }
  }

  lemma {:induction false} HexPlain(n: nat, k: nat)
    ensures NoNewline(HexDigits(n, k))
    decreases k, n
  {
    if k > 0 { HexPlain(n / 16, k - 1); }
  }

  function EntryLines(entries: seq<Entry>, i: nat): (lines: seq<string>)
    requires i <= |entries| && InRange(entries)
    decreases |entries| - i
  {
    if i == |entries| then [] else [LineText(entries[i], EndOf(entries, i))] + EntryLines(entries, i + 1)
  }

  lemma {:induction false} LinesOfEntries(entries: seq<Entry>, i: nat, text: string, at: nat)
    requires i <= |entries| && InRange(entries) && forall k :: 0 <= k < |entries| ==> Plain(entries[k])
    requires at <= |text| && text[at..] == EntriesText(entries, i)
    ensures LinesFrom(text, at) == EntryLines(entries, i)
    decreases |entries| - i
  {
    if i < |entries| {
      var line := LineText(entries[i], EndOf(entries, i));
      LineHasNoNewline(entries[i], EndOf(entries, i));
      var next := OneLine(text, at, line, EntriesText(entries, i + 1));
      LinesOfEntries(entries, i + 1, text, next);
    }
  }

  lemma {:induction false} EntriesReadBack(entries: seq<Entry>, i: nat, vaddr: nat)
    requires i <= |entries| && InRange(entries) && forall k :: 0 <= k < |entries| ==> Plain(entries[k])
    ensures FirstSaid(EntryLines(entries, i), About(vaddr)) == FirstFrom(entries, i, vaddr)
    decreases |entries| - i
  {
    if i < |entries| {
      LineReadBack(entries[i], EndOf(entries, i), vaddr);
      EntriesReadBack(entries, i + 1, vaddr);
      assert EntryLines(entries, i)[1..] == EntryLines(entries, i + 1);
    }
  }

  predicate IsComment(line: string) {
    |line| > 0 && line[0] == '#' && NoNewline(line)
  }

  predicate Comments(header: seq<string>) {
    forall i :: 0 <= i < |header| ==> IsComment(header[i])
  }

  lemma CommentMore(head: string, tail: string)
    requires IsComment(head) && NoNewline(tail)
    ensures IsComment(head + tail)
  {
  }

  lemma FixedComments()
    ensures IsComment("# The map of a symbols archive of Anti.")
    ensures IsComment("# build ") && IsComment("# target ") && IsComment("# text ")
    ensures IsComment("# A Windows program carries no symbol" + " table. The PDB of this archive")
    ensures IsComment("# holds the functions, the files" + " and the lines of this build.")
  {
    CommentMore("# A Windows program carries no symbol", " table. The PDB of this archive");
    CommentMore("# holds the functions, the files", " and the lines of this build.");
  }

  /** The header of every map is comments. */
  lemma HeaderComments(format: Format, id: string, target: string, textAddress: Option<nat>)
    requires NoNewline(id) && NoNewline(target)
    ensures Comments(Header(format, id, target, textAddress))
  {
    FixedComments();
    CommentMore("# build ", id);
    CommentMore("# target ", target);
    if textAddress.Some? {
      HexPlain(textAddress.value, HEX);
      CommentMore("# text ", HexDigits(textAddress.value, HEX));
    }
  }

  lemma {:induction false} LinesOfHeader(header: seq<string>, rest: string, text: string, at: nat, all: seq<string>)
      returns (end: nat, lines: seq<string>)
    requires Comments(header) && at <= |text| && text[at..] == HeaderText(header) + rest
    requires all == LinesFrom(text, at)
    ensures end <= |text| && text[end..] == rest && lines == LinesFrom(text, end)
    ensures all == header + lines
    decreases |header|
  {
    if header == [] {
      assert HeaderText(header) + rest == rest;
      end, lines := at, all;
    } else {
      var next := HeaderLine(header, rest, text, at);
      end, lines := LinesOfHeader(header[1..], rest, text, next, LinesFrom(text, next));
      PutBack(header, lines);
    }
  }

  lemma HeaderLine(header: seq<string>, rest: string, text: string, at: nat) returns (next: nat)
    requires header != [] && Comments(header) && at <= |text| && text[at..] == HeaderText(header) + rest
    ensures next <= |text| && text[next..] == HeaderText(header[1..]) + rest
    ensures LinesFrom(text, at) == [header[0]] + LinesFrom(text, next)
  {
    var tail := HeaderStep(header, rest);
    next := OneLine(text, at, header[0], tail);
  }

  lemma {:induction false} HeaderSkipped(header: seq<string>, lines: seq<string>, f: Says)
    requires forall i :: 0 <= i < |header| ==> f(header[i]).None?
    ensures FirstSaid(header + lines, f) == FirstSaid(lines, f)
    decreases |header|
  {
    if header == [] {
      assert header + lines == lines;
    } else {
      assert (header + lines)[1..] == header[1..] + lines;
      HeaderSkipped(header[1..], lines, f);
    }
  }

  lemma HeaderStep(header: seq<string>, rest: string) returns (tail: string)
    requires header != []
    ensures tail == HeaderText(header[1..]) + rest
    ensures HeaderText(header) + rest == header[0] + "\n" + tail
  {
    tail := HeaderText(header[1..]) + rest;
    Reassociate(header[0] + "\n", HeaderText(header[1..]), rest);
  }

  lemma PutBack(header: seq<string>, lines: seq<string>)
    requires header != []
    ensures [header[0]] + (header[1..] + lines) == header + lines
  {
  }

  lemma CommentHasNone(line: string, vaddr: nat)
    requires |line| > 0 && line[0] == '#'
    ensures LookupLine(line, vaddr) == None
  {
  }

  /** The round trip: looking an address up in a written map gives the first
      function whose range holds it, and none where none does. */
  lemma MapReadBack(header: seq<string>, entries: seq<Entry>, vaddr: nat)
    requires Comments(header) && InRange(entries) && forall k :: 0 <= k < |entries| ==> Plain(entries[k])
    ensures Lookup(MapText(header, entries), vaddr) == FirstFrom(entries, 0, vaddr)
  {
    var text := MapText(header, entries);
    assert text[0..] == text;
    var end, lines := LinesOfHeader(header, EntriesText(entries, 0), text, 0, LinesFrom(text, 0));
    LinesOfEntries(entries, 0, text, end);
    forall i | 0 <= i < |header| ensures About(vaddr)(header[i]).None? { CommentHasNone(header[i], vaddr); }
    HeaderSkipped(header, EntryLines(entries, 0), About(vaddr));
    EntriesReadBack(entries, 0, vaddr);
  }

  lemma {:induction false} FirstIs(entries: seq<Entry>, i: nat, k: nat, vaddr: nat)
    requires i <= k < |entries| && InRange(entries) && Covers(entries[k].vaddr, EndOf(entries, k), vaddr)
    requires forall j :: i <= j < k ==> !Covers(entries[j].vaddr, EndOf(entries, j), vaddr)
    ensures FirstFrom(entries, i, vaddr) == Some((entries[k].name, Location(entries[k])))
    decreases k - i
  {
    if i < k { FirstIs(entries, i + 1, k, vaddr); }
  }

  lemma {:induction false} NoneHolds(entries: seq<Entry>, i: nat, vaddr: nat)
    requires i <= |entries| && InRange(entries)
    ensures FirstFrom(entries, i, vaddr).None? <==>
            forall j :: i <= j < |entries| ==> !Covers(entries[j].vaddr, EndOf(entries, j), vaddr)
    decreases |entries| - i
  {
    if i < |entries| { NoneHolds(entries, i + 1, vaddr); }
  }

  /** Functions in the order of their addresses, each ending before the next
      starts, and ending past its start where it has a size. */
  predicate Sorted(entries: seq<Entry>) {
    && InRange(entries)
    && (forall i :: 0 <= i < |entries| ==> entries[i].vaddr + entries[i].size < TWO64)
    && forall i, j :: 0 <= i < j < |entries| ==>
         entries[i].vaddr < entries[j].vaddr && entries[i].vaddr + entries[i].size <= entries[j].vaddr
  }

  /** With disjoint ranges, the lookup answers with the one function that holds
      the address, and with its name exactly where the name is no escaped
      symbol. */
  lemma DisjointReadBack(header: seq<string>, entries: seq<Entry>, vaddr: nat, k: nat)
    requires Comments(header) && Sorted(entries) && forall i :: 0 <= i < |entries| ==> Plain(entries[i])
    requires k < |entries| && Covers(entries[k].vaddr, EndOf(entries, k), vaddr)
    ensures var e, answer := entries[k], Answer(Lookup(MapText(header, entries), vaddr));
            && answer == Some((Readable(e.name), Location(e)))
            && (answer == Some((e.name, Location(e))) <==> Unescaped(e.name).None?)
    ensures forall j :: 0 <= j < |entries| && j != k ==> !Covers(entries[j].vaddr, EndOf(entries, j), vaddr)
  {
    MapReadBack(header, entries, vaddr);
    forall j | 0 <= j < |entries| && j != k ensures !Covers(entries[j].vaddr, EndOf(entries, j), vaddr) {
      if j < k { EndsBefore(entries, j, k); } else { EndsBefore(entries, k, j); }
    }
    FirstIs(entries, 0, k, vaddr);
    ReadsAsItself(entries[k].name);
  }

  /** A function named `a.b$3c` is answered by another name: the map holds its
      name with the escapes read back, and the lookup reads them once more. */
  lemma NameReadTwice(header: seq<string>, vaddr: nat)
    requires Comments(header) && vaddr < TWO64
    ensures var e := Entry(Readable("a.b$243c"), "", vaddr, 0, 0);
            && e.name == "a.b$3c"
            && Answer(Lookup(MapText(header, [e]), vaddr)) == Some(("a.b<", ""))
  {
    hide Lookup, MapText, LinesFrom, LookupLine, EntriesText, LineText;
    ReadTwice();
    var e := Entry("a.b$3c", "", vaddr, 0, 0);
    OneIsPlain(e);
    MapReadBack(header, [e], vaddr);
    FirstIs([e], 0, 0, vaddr);
  }

  lemma OneIsPlain(e: Entry)
    requires e.name == "a.b$3c" && e.file == ""
    ensures Plain(e)
  {
    hide IsLocation;
    assert WordStart(e.name, 0, 2) == 0;
    assert WordStart(e.name, 0, 4) == WordStart(e.name, 0, 2);
    assert WordStart(e.name, 0, 6) == WordStart(e.name, 0, 4);
  }

  lemma EndsBefore(entries: seq<Entry>, i: nat, j: nat)
    requires Sorted(entries) && i < j < |entries|
    ensures entries[i].vaddr < EndOf(entries, i) <= entries[j].vaddr
  {
    if entries[i].size == 0 && i + 1 < j { assert entries[i + 1].vaddr < entries[j].vaddr; }
  }
}

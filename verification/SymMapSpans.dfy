/** What a symbols map answers, in the addresses of its functions, and the form
    of one line. */
module SymMapSpans {
  import opened Options
  import opened Numerals
  import opened Symbols
  import opened SymMap

  const SMALL := "0123456789abcdef"
  const LARGE := "0123456789ABCDEF"

  /** The digits of the two bases, by their order. */
  lemma DigitsSpelled(c: char)
    ensures forall k :: 0 <= k < 10 && c == SMALL[k] ==> DigitIn(c, 10) == k
    ensures c !in SMALL[..10] ==> DigitIn(c, 10) == -1
    ensures forall k :: 0 <= k < 16 && (c == SMALL[k] || c == LARGE[k]) ==> DigitIn(c, 16) == k
    ensures c !in SMALL && c !in LARGE ==> DigitIn(c, 16) == -1
  {
    var d := DigitIn(c, 16);
    if 0 <= d < 10 { assert c == '0' + d as char && c == SMALL[d]; assert SMALL[..10][d] == c; }
    if d >= 10 && c >= 'a' { assert c == SMALL[d]; }
    if d >= 10 && c < 'a' { assert c == LARGE[d]; }
  }

  /** The addresses of function `k`: as many as its size; for one without a size
      up to the next function; and one address for the last. */
  predicate Spans(entries: seq<Entry>, k: nat, vaddr: nat)
    requires k < |entries|
  {
    var e := entries[k];
    if e.size > 0 then e.vaddr <= vaddr < e.vaddr + e.size
    else if k + 1 < |entries| then e.vaddr <= vaddr < entries[k + 1].vaddr
    else vaddr == e.vaddr
  }

  lemma SpansIsCovers(entries: seq<Entry>, k: nat, vaddr: nat)
    requires Sorted(entries) && k < |entries|
    ensures Spans(entries, k, vaddr) <==> Covers(entries[k].vaddr, EndOf(entries, k), vaddr)
  {
    if k + 1 < |entries| { assert entries[k].vaddr < entries[k + 1].vaddr; }
  }

  /** What stands behind the name of a function. */
  function Place(e: Entry): (s: string) {
    if e.file == "" then "" else e.file + ":" + (if e.line < 0 then "-" + Spell(-e.line) else Spell(e.line))
  }

  /** The lookup in a written map whose functions lie apart: the function whose
      addresses hold the one asked for, its name read once more and its place
      as written; and no answer exactly where there is none. */
  lemma AnswerOf(header: seq<string>, entries: seq<Entry>, vaddr: nat)
    requires Comments(header) && Sorted(entries) && forall i :: 0 <= i < |entries| ==> Plain(entries[i])
    ensures var answer := Answer(Lookup(MapText(header, entries), vaddr));
            && (answer.None? <==> forall k :: 0 <= k < |entries| ==> !Spans(entries, k, vaddr))
            && forall k :: 0 <= k < |entries| && Spans(entries, k, vaddr) ==>
                 answer == Some((Readable(entries[k].name), Place(entries[k])))
  {
    hide Lookup, MapText, Covers, EndOf, Spans, Sorted;
    InRangeOf(entries);
    MapReadBack(header, entries, vaddr);
    forall k | 0 <= k < |entries|
      ensures Spans(entries, k, vaddr) <==> Covers(entries[k].vaddr, EndOf(entries, k), vaddr)
    {
      SpansIsCovers(entries, k, vaddr);
    }
    NoneHolds(entries, 0, vaddr);
    forall k | 0 <= k < |entries| && Spans(entries, k, vaddr)
      ensures Answer(Lookup(MapText(header, entries), vaddr)) == Some((Readable(entries[k].name), Place(entries[k])))
    {
      DisjointReadBack(header, entries, vaddr, k);
    }
  }

  lemma InRangeOf(entries: seq<Entry>)
    requires Sorted(entries)
    ensures InRange(entries)
  {
  }

  // ---- One line ----

  /** A line: sixteen digits of each end of the range, small ones, with a dash
      between; a blank and the name; and a blank and the place, where there is
      one. */
  lemma LineForm(e: Entry, end: nat)
    requires e.vaddr < TWO64 && end < TWO64
    ensures var line := LineText(e, end);
            && |line| >= 34 && line[16] == '-' && line[33] == ' '
            && SmallDigits(line[..16], e.vaddr) && SmallDigits(line[17..33], end)
            && line[34..] == e.name + if e.file == "" then "" else " " + Place(e)
  {
    hide HexDigits;
    var a, b, rest := HexDigits(e.vaddr, 16), HexDigits(end, 16), e.name + if e.file == "" then "" else " " + Place(e);
    var line := LineText(e, end);
    assert line == ((a + "-" + b) + " " + e.name) + (if e.file == "" then "" else " " + Place(e));
    Parts(line, a, b, e.name, if e.file == "" then "" else " " + Place(e));
    DigitsForm(e.vaddr);
    DigitsForm(end);
  }

  lemma Parts(line: string, a: string, b: string, name: string, place: string)
    requires line == ((a + "-" + b) + " " + name) + place && |a| == |b| == 16
    ensures |line| >= 34 && line[..16] == a && line[16] == '-' && line[17..33] == b && line[33] == ' '
    ensures line[34..] == name + place
  {
  }

  predicate SmallDigits(s: string, n: nat) {
    && |s| == 16 && (forall i :: 0 <= i < 16 ==> s[i] in SMALL)
    && Digits(s, 16) && ValueIn(s, 16) == n
  }

  lemma DigitsForm(n: nat)
    requires n < TWO64
    ensures SmallDigits(HexDigits(n, 16), n)
  {
    SixteenDigits();
    HexSpells(n, 16);
    DigitsAreSmall(n, 16);
  }

  lemma {:induction false} DigitsAreSmall(n: nat, k: nat)
    ensures forall i :: 0 <= i < k ==> HexDigits(n, k)[i] in SMALL
    decreases k
  {
    if k > 0 {
      DigitsAreSmall(n / 16, k - 1);
      var c := HexDigit(n % 16);
      assert c == SMALL[n % 16];
    }
  }
}

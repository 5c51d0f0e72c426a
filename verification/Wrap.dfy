/** The fill of a paragraph of a doc comment: `wrap_paragraph` and
    `columns_of` of fmt.c. A text is its bytes, as characters below 256. */
module Wrap {
  const TAB_COLUMNS := 4

  /** What one byte adds to the width: only the byte that starts a character
      does. */
  function ColumnsOfByte(c: char): (n: nat) {
    if c == '\t' then TAB_COLUMNS else if 0x80 <= c as int % 0x100 < 0xc0 then 0 else 1
  }

  function Columns(s: string): (n: nat) {
    if s == "" then 0 else Columns(s[..|s| - 1]) + ColumnsOfByte(s[|s| - 1])
  }

  method ColumnsOf(s: string) returns (columns: nat)
    ensures columns == Columns(s)
  {
    columns := 0;
    assert s[..0] == "";
    for i := 0 to |s|
      invariant columns == Columns(s[..i])
    {
      assert s[..i + 1][..i] == s[..i];
      columns := columns + ColumnsOfByte(s[i]);
    }
    assert s[..|s|] == s;
  }

  // ---- Words ----

  function SpacesEnd(s: string, at: nat): (e: nat)
    requires at <= |s|
    ensures at <= e <= |s| && (e < |s| ==> s[e] != ' ')
    decreases |s| - at
  {
    if at < |s| && s[at] == ' ' then SpacesEnd(s, at + 1) else at
  }

  function WordEnd(s: string, at: nat): (e: nat)
    requires at <= |s|
    ensures at <= e <= |s| && (e < |s| ==> s[e] == ' ') && (at < |s| && s[at] != ' ' ==> at < e)
    decreases |s| - at
  {
    if at < |s| && s[at] != ' ' then WordEnd(s, at + 1) else at
  }

  /** The words of the body from `at` on. */
  function Words(body: string, at: nat): (ws: seq<string>)
    requires at <= |body|
    decreases |body| - at
  {
    var start := SpacesEnd(body, at);
    if start == |body| then [] else [body[start..WordEnd(body, start)]] + Words(body, WordEnd(body, start))
  }

  // ---- Lines ----

  /** The columns of the words of a line with one blank between them. */
  function LineWidth(ws: seq<string>, a: nat, b: nat): (n: nat)
    requires a < b <= |ws|
  {
    if b == a + 1 then Columns(ws[a]) else LineWidth(ws, a, b - 1) + 1 + Columns(ws[b - 1])
  }

  /** A line stays within the columns, or holds one word. */
  predicate Fits(ws: seq<string>, prefix: nat, columns: nat, a: nat, b: nat)
    requires a < b <= |ws|
  {
    b == a + 1 || prefix + LineWidth(ws, a, b) <= columns
  }

  /** A legal breaking of the words from `from` on, as the end of each line. */
  predicate Breaks(ws: seq<string>, cuts: seq<nat>, from: nat, prefix: nat, rest: nat, columns: nat)
    requires from <= |ws|
    decreases |cuts|
  {
    if cuts == [] then from == |ws|
    else
      && from < cuts[0] <= |ws| && Fits(ws, prefix, columns, from, cuts[0])
      && Breaks(ws, cuts[1..], cuts[0], rest, rest, columns)
  }

  /** How far a line that has reached `column` goes on. */
  function Reach(ws: seq<string>, columns: nat, e: nat, column: nat): (r: nat)
    requires e <= |ws|
    ensures e <= r <= |ws|
    decreases |ws| - e
  {
    if e < |ws| && column + 1 + Columns(ws[e]) <= columns then Reach(ws, columns, e + 1, column + 1 + Columns(ws[e]))
    else e
  }

  function LineEnd(ws: seq<string>, columns: nat, from: nat, prefix: nat): (e: nat)
    requires from < |ws|
    ensures from < e <= |ws|
  {
    Reach(ws, columns, from + 1, prefix + Columns(ws[from]))
  }

  function Greedy(ws: seq<string>, from: nat, prefix: nat, rest: nat, columns: nat): (cuts: seq<nat>)
    requires from <= |ws|
    decreases |ws| - from
  {
    if from == |ws| then []
    else
      var e := LineEnd(ws, columns, from, prefix);
      [e] + Greedy(ws, e, rest, rest, columns)
  }

  lemma {:induction false} ReachIs(ws: seq<string>, columns: nat, from: nat, prefix: nat, e: nat)
    requires from < e <= |ws|
    ensures var r := Reach(ws, columns, e, prefix + LineWidth(ws, from, e));
            && (r == e || prefix + LineWidth(ws, from, r) <= columns)
            && (r < |ws| ==> prefix + LineWidth(ws, from, r + 1) > columns)
    decreases |ws| - e
  {
    if e < |ws| && prefix + LineWidth(ws, from, e) + 1 + Columns(ws[e]) <= columns {
      ReachIs(ws, columns, from, prefix, e + 1);
    }
  }

  lemma {:induction false} WidthGrows(ws: seq<string>, from: nat, a: nat, b: nat)
    requires from < a <= b <= |ws|
    ensures LineWidth(ws, from, a) <= LineWidth(ws, from, b)
    decreases b
  {
    if a < b { WidthGrows(ws, from, a, b - 1); }
  }

  /** A line without its first words is no wider. */
  lemma {:induction false} WidthShrinks(ws: seq<string>, a: nat, a': nat, b: nat)
    requires a <= a' < b <= |ws|
    ensures LineWidth(ws, a', b) <= LineWidth(ws, a, b)
    decreases b
  {
    if a < a' && b > a' + 1 { WidthShrinks(ws, a, a', b - 1); }
  }

  /** The line of the fill fits, and no line that fits goes further. */
  lemma LineEndIsFurthest(ws: seq<string>, columns: nat, from: nat, prefix: nat)
    requires from < |ws|
    ensures var e := LineEnd(ws, columns, from, prefix);
            && Fits(ws, prefix, columns, from, e)
            && forall b :: from < b <= |ws| && Fits(ws, prefix, columns, from, b) ==> b <= e
  {
    var e := LineEnd(ws, columns, from, prefix);
    ReachIs(ws, columns, from, prefix, from + 1);
    forall b | from < b <= |ws| && Fits(ws, prefix, columns, from, b) ensures b <= e {
      if b > e { WidthGrows(ws, from, e + 1, b); }
    }
  }

  /** The fill is a legal breaking. */
  lemma {:induction false} GreedyBreaks(ws: seq<string>, from: nat, prefix: nat, rest: nat, columns: nat)
    requires from <= |ws|
    ensures Breaks(ws, Greedy(ws, from, prefix, rest, columns), from, prefix, rest, columns)
    decreases |ws| - from
  {
    if from < |ws| {
      var e := LineEnd(ws, columns, from, prefix);
      LineEndIsFurthest(ws, columns, from, prefix);
      GreedyBreaks(ws, e, rest, rest, columns);
      assert Greedy(ws, from, prefix, rest, columns)[1..] == Greedy(ws, e, rest, rest, columns);
    }
  }

  /** Fewer words never need more lines. */
  lemma {:induction false} FewerWords(ws: seq<string>, from: nat, later: nat, rest: nat, columns: nat)
    requires from <= later <= |ws|
    ensures |Greedy(ws, later, rest, rest, columns)| <= |Greedy(ws, from, rest, rest, columns)|
    decreases |ws| - from
  {
    if from < later < |ws| {
      var e, e' := LineEnd(ws, columns, from, rest), LineEnd(ws, columns, later, rest);
      if later >= e {
        FewerWords(ws, e, later, rest, columns);
      } else {
        LineEndIsFurthest(ws, columns, from, rest);
        LineEndIsFurthest(ws, columns, later, rest);
        WidthShrinks(ws, from, later, e);
        assert Fits(ws, rest, columns, later, e);
        FewerWords(ws, e, e', rest, columns);
      }
    }
  }

  /** No other legal breaking of the same words uses fewer lines. */
  lemma {:induction false} GreedyIsShortest(ws: seq<string>, cuts: seq<nat>, from: nat, prefix: nat, rest: nat,
                                            columns: nat)
    requires from <= |ws| && Breaks(ws, cuts, from, prefix, rest, columns)
    ensures |Greedy(ws, from, prefix, rest, columns)| <= |cuts|
    decreases |cuts|
  {
    if cuts != [] {
      LineEndIsFurthest(ws, columns, from, prefix);
      GreedyIsShortest(ws, cuts[1..], cuts[0], rest, rest, columns);
      FewerWords(ws, cuts[0], LineEnd(ws, columns, from, prefix), rest, columns);
    }
  }

  // ---- The text ----

  /** The words of a line with one blank between them. */
  function Joined(ws: seq<string>, a: nat, b: nat): (s: string)
    requires a < b <= |ws|
    decreases b - a
  {
    if b == a + 1 then ws[a] else ws[a] + " " + Joined(ws, a + 1, b)
  }

  function Rendered(ws: seq<string>, cuts: seq<nat>, from: nat, prefix: nat, rest: string, columns: nat): (s: string)
    requires from <= |ws| && Breaks(ws, cuts, from, prefix, Columns(rest), columns)
    decreases |cuts|
  {
    if cuts == [] then ""
    else
      Joined(ws, from, cuts[0]) +
      if |cuts| == 1 then ""
      else "\n" + rest + Rendered(ws, cuts[1..], cuts[0], Columns(rest), rest, columns)
  }

  /** A paragraph: its first line opens with `first`, the others with
      `rest`. */
  function Paragraph(first: string, rest: string, ws: seq<string>, columns: nat): (s: string) {
    GreedyBreaks(ws, 0, Columns(first), Columns(rest), columns);
    first + Rendered(ws, Greedy(ws, 0, Columns(first), Columns(rest), columns), 0, Columns(first), rest, columns)
  }

  /** What the fill writes from a word on, where the line has reached
      `column`. */
  function Filled(ws: seq<string>, i: nat, column: nat, rest: string, columns: nat): (s: string)
    requires i <= |ws|
    decreases |ws| - i
  {
    if i == |ws| then ""
    else if column + 1 + Columns(ws[i]) <= columns then
      " " + ws[i] + Filled(ws, i + 1, column + 1 + Columns(ws[i]), rest, columns)
    else "\n" + rest + ws[i] + Filled(ws, i + 1, Columns(rest) + Columns(ws[i]), rest, columns)
  }

  lemma Associate(a: string, b: string, c: string)
    ensures (a + b) + c == a + (b + c)
  {
  }

  lemma {:induction false} JoinedMore(ws: seq<string>, a: nat, b: nat)
    requires a < b < |ws|
    ensures Joined(ws, a, b + 1) == Joined(ws, a, b) + " " + ws[b]
    decreases b - a
  {
    if b > a + 1 {
      JoinedMore(ws, a + 1, b);
      Associate(ws[a] + " ", Joined(ws, a + 1, b), " ");
      Associate(ws[a] + " ", Joined(ws, a + 1, b) + " ", ws[b]);
    }
  }

  /** What the fill writes is the fill: a line that has come to word `e`, and
      the rest behind it. */
  lemma {:induction false} FilledIsRendered(ws: seq<string>, from: nat, prefix: nat, e: nat, rest: string, columns: nat,
                                            line: string, column: nat)
    requires from < e <= |ws| && line == Joined(ws, from, e) && column == prefix + LineWidth(ws, from, e)
    requires Reach(ws, columns, e, column) == LineEnd(ws, columns, from, prefix)
    ensures Breaks(ws, Greedy(ws, from, prefix, Columns(rest), columns), from, prefix, Columns(rest), columns)
    ensures line + Filled(ws, e, column, rest, columns) ==
            Rendered(ws, Greedy(ws, from, prefix, Columns(rest), columns), from, prefix, rest, columns)
    decreases |ws| - e
  {
    GreedyBreaks(ws, from, prefix, Columns(rest), columns);
    if e == |ws| {
      assert Greedy(ws, from, prefix, Columns(rest), columns) == [e];
    } else if column + 1 + Columns(ws[e]) <= columns {
      var more := Filled(ws, e + 1, column + 1 + Columns(ws[e]), rest, columns);
      JoinedMore(ws, from, e);
      FilledIsRendered(ws, from, prefix, e + 1, rest, columns, line + " " + ws[e], column + 1 + Columns(ws[e]));
      Associate(line, " " + ws[e], more);
      Associate(line, " ", ws[e]);
    } else {
      NextLine(ws, from, prefix, e, rest, columns, line);
    }
  }

  lemma {:induction false} NextLine(ws: seq<string>, from: nat, prefix: nat, e: nat, rest: string, columns: nat,
                                    line: string)
    requires from < e < |ws| && line == Joined(ws, from, e) && LineEnd(ws, columns, from, prefix) == e
    ensures Breaks(ws, Greedy(ws, from, prefix, Columns(rest), columns), from, prefix, Columns(rest), columns)
    ensures line + ("\n" + rest + ws[e] + Filled(ws, e + 1, Columns(rest) + Columns(ws[e]), rest, columns)) ==
            Rendered(ws, Greedy(ws, from, prefix, Columns(rest), columns), from, prefix, rest, columns)
    decreases |ws| - e, 0
  {
    GreedyBreaks(ws, from, prefix, Columns(rest), columns);
    var cuts := Greedy(ws, from, prefix, Columns(rest), columns);
    assert cuts[1..] == Greedy(ws, e, Columns(rest), Columns(rest), columns);
    FilledIsRendered(ws, e, Columns(rest), e + 1, rest, columns, ws[e], Columns(rest) + Columns(ws[e]));
    Associate("\n" + rest, ws[e], Filled(ws, e + 1, Columns(rest) + Columns(ws[e]), rest, columns));
  }

  lemma ParagraphStarts(first: string, rest: string, ws: seq<string>, columns: nat)
    requires ws != []
    ensures Paragraph(first, rest, ws, columns) ==
            (first + ws[0]) + Filled(ws, 1, Columns(first) + Columns(ws[0]), rest, columns)
  {
    FilledIsRendered(ws, 0, Columns(first), 1, rest, columns, ws[0], Columns(first) + Columns(ws[0]));
    Associate(first, ws[0], Filled(ws, 1, Columns(first) + Columns(ws[0]), rest, columns));
  }

  /** One word put behind what is written. */
  method PutWord(out: string, word: string, column: nat, rest: string, columns: nat) returns (more: string, at: nat)
    ensures if column + 1 + Columns(word) <= columns
            then more == out + (" " + word) && at == column + 1 + Columns(word)
            else more == out + ("\n" + rest + word) && at == Columns(rest) + Columns(word)
  {
    var width := ColumnsOf(word);
    if column + 1 + width <= columns {
      more, at := out + " ", column + 1;
      Associate(out, " ", word);
    } else {
      more := out + "\n" + rest;
      at := ColumnsOf(rest);
      Associate(out, "\n", rest);
      Associate(out, "\n" + rest, word);
    }
    more, at := more + word, at + width;
  }

  /** The next word of the body and where it ends, or none. */
  method NextWord(body: string, from: nat) returns (start: nat, end: nat)
    requires from <= |body|
    ensures start == SpacesEnd(body, from) && end == WordEnd(body, start)
  {
    start := from;
    while start < |body| && body[start] == ' '
      invariant from <= start <= |body| && SpacesEnd(body, from) == SpacesEnd(body, start)
    {
      start := start + 1;
    }
    end := start;
    while end < |body| && body[end] != ' '
      invariant start <= end <= |body| && WordEnd(body, start) == WordEnd(body, end)
    {
      end := end + 1;
    }
  }

  lemma PutIs(ws: seq<string>, k: nat, column: nat, rest: string, columns: nat, out: string, whole: string)
    requires k < |ws| && out + Filled(ws, k, column, rest, columns) == whole
    ensures column + 1 + Columns(ws[k]) <= columns ==>
              (out + (" " + ws[k])) + Filled(ws, k + 1, column + 1 + Columns(ws[k]), rest, columns) == whole
    ensures column + 1 + Columns(ws[k]) > columns ==>
              (out + ("\n" + rest + ws[k])) + Filled(ws, k + 1, Columns(rest) + Columns(ws[k]), rest, columns) == whole
  {
    if column + 1 + Columns(ws[k]) <= columns {
      Associate(out, " " + ws[k], Filled(ws, k + 1, column + 1 + Columns(ws[k]), rest, columns));
    } else {
      Associate(out, "\n" + rest + ws[k], Filled(ws, k + 1, Columns(rest) + Columns(ws[k]), rest, columns));
    }
  }

  method PutNext(out: string, word: string, column: nat, rest: string, columns: nat, ghost ws: seq<string>,
                 ghost k: nat, ghost whole: string)
      returns (more: string, at: nat)
    requires k < |ws| && word == ws[k] && out + Filled(ws, k, column, rest, columns) == whole
    ensures more + Filled(ws, k + 1, at, rest, columns) == whole
  {
    PutIs(ws, k, column, rest, columns, out, whole);
    more, at := PutWord(out, word, column, rest, columns);
  }

  method OpenParagraph(first: string, word: string, ghost rest: string, ghost columns: nat, ghost ws: seq<string>,
                       ghost whole: string)
      returns (out: string, column: nat)
    requires ws != [] && word == ws[0] && whole == Paragraph(first, rest, ws, columns)
    ensures out + Filled(ws, 1, column, rest, columns) == whole
  {
    ParagraphStarts(first, rest, ws, columns);
    out := first + word;
    var open := ColumnsOf(first);
    var width := ColumnsOf(word);
    column := open + width;
  }

  lemma WordsStep(body: string, i: nat, ws: seq<string>, k: nat)
    requires i <= |body| && k <= |ws| && Words(body, i) == ws[k..] && SpacesEnd(body, i) < |body|
    ensures var start := SpacesEnd(body, i);
            var end := WordEnd(body, start);
            k < |ws| && ws[k] == body[start..end] && Words(body, end) == ws[k + 1..]
  {
    assert ws[k..][0] == ws[k] && ws[k..][1..] == ws[k + 1..];
  }

  /** One paragraph, filled to the width. */
  method WrapParagraph(first: string, rest: string, body: string, columns: nat) returns (out: string)
    ensures out == Paragraph(first, rest, Words(body, 0), columns)
  {
    ghost var ws, k := Words(body, 0), 0;
    ghost var whole := Paragraph(first, rest, ws, columns);
    out := "";
    var column, i, unopened := 0, 0, true;
    assert ws[0..] == ws;
    while i < |body|
      invariant 0 <= i <= |body| && 0 <= k <= |ws| && Words(body, i) == ws[k..] && (unopened <==> k == 0)
      invariant !unopened ==> out + Filled(ws, k, column, rest, columns) == whole
      invariant unopened ==> out == ""
      decreases |body| - i
    {
      var start, end := NextWord(body, i);
      if start == |body| { break; }
      var word := body[start..end];
      WordsStep(body, i, ws, k);
      i := end;
      if unopened {
        out, column := OpenParagraph(first, word, rest, columns, ws, whole);
        unopened := false;
      } else {
        out, column := PutNext(out, word, column, rest, columns, ws, k, whole);
      }
      k := k + 1;
    }
    assert Words(body, i) == [];
    Finished(ws, k, column, rest, columns, out, first);
    if unopened { out := first; }
  }

  lemma Finished(ws: seq<string>, k: nat, column: nat, rest: string, columns: nat, out: string, first: string)
    requires k == |ws|
    ensures out + Filled(ws, k, column, rest, columns) == out
    ensures ws == [] ==> Paragraph(first, rest, ws, columns) == first
  {
  }

  // ---- Wrapping what is wrapped ----

  /** A word of a body: not empty, and without a blank. */
  predicate Word(w: string) {
    w != "" && forall i :: 0 <= i < |w| ==> w[i] != ' '
  }

  lemma {:induction false} WordEndIs(s: string, at: nat, e: nat)
    requires at <= e <= |s| && (e < |s| ==> s[e] == ' ') && forall i :: at <= i < e ==> s[i] != ' '
    ensures WordEnd(s, at) == e
    decreases e - at
  {
    if at < e { WordEndIs(s, at + 1, e); }
  }

  lemma {:induction false} WordsAreWords(body: string, at: nat)
    requires at <= |body|
    ensures forall k :: 0 <= k < |Words(body, at)| ==> Word(Words(body, at)[k])
    decreases |body| - at
  {
    var start := SpacesEnd(body, at);
    if start < |body| {
      var e := WordEnd(body, start);
      NoBlank(body, start);
      WordsAreWords(body, e);
    }
  }

  lemma {:induction false} NoBlank(s: string, at: nat)
    requires at <= |s|
    ensures forall i :: at <= i < WordEnd(s, at) ==> s[i] != ' '
    decreases |s| - at
  {
    if at < |s| && s[at] != ' ' { NoBlank(s, at + 1); }
  }

  lemma NoWords(text: string, at: nat)
    requires at == |text|
    ensures Words(text, at) == []
  {
  }

  /** The words of joined words are the words. */
  lemma {:induction false} WordsOfJoined(ws: seq<string>, a: nat, b: nat, text: string, at: nat, all: seq<string>)
    requires a < b <= |ws| && forall k :: a <= k < b ==> Word(ws[k])
    requires at <= |text| && text[at..] == Joined(ws, a, b) && all == Words(text, at)
    ensures all == ws[a..b]
    decreases b - a
  {
    hide Word, Words, SpacesEnd, WordEnd;
    if b == a + 1 {
      assert ws[a] + "" == ws[a];
      var e := WordHere(text, at, ws[a], "");
      NoWords(text, e);
    } else {
      var next := FirstOfTwo(text, at, ws, a, b);
      WordsOfJoined(ws, a + 1, b, text, next, Words(text, next));
    }
    assert ws[a..b] == [ws[a]] + ws[a + 1..b];
  }

  lemma FirstOfTwo(text: string, at: nat, ws: seq<string>, a: nat, b: nat) returns (next: nat)
    requires a + 1 < b <= |ws| && forall k :: a <= k < b ==> Word(ws[k])
    requires at <= |text| && text[at..] == Joined(ws, a, b)
    ensures next <= |text| && text[next..] == Joined(ws, a + 1, b)
    ensures Words(text, at) == [ws[a]] + Words(text, next)
  {
    var more := Joined(ws, a + 1, b);
    Associate(ws[a], " ", more);
    assert (" " + more)[1..] == more && more[0] == ws[a + 1][0];
    var e := WordHere(text, at, ws[a], " " + more);
    assert text[e + 1..] == text[e..][1..];
    BlankBefore(text, e, ws[a + 1], more);
    next := e + 1;
  }

  /** A word at the front, and what stands behind it. */
  lemma WordHere(text: string, at: nat, w: string, tail: string) returns (e: nat)
    requires Word(w) && at <= |text| && text[at..] == w + tail && (tail != "" ==> tail[0] == ' ')
    ensures e == at + |w| && e <= |text| && text[e..] == tail && Words(text, at) == [w] + Words(text, e)
  {
    e := at + |w|;
    var left := text[at..];
    assert left[..|w|] == w && left[|w|..] == tail;
    assert text[at..e] == left[..|w|] && text[e..] == left[|w|..];
    forall i | at <= i < e ensures text[i] != ' ' { assert text[i] == w[i - at]; }
    if tail != "" { assert text[e] == text[e..][0]; }
    WordEndIs(text, at, e);
  }

  lemma BlankBefore(text: string, at: nat, w: string, tail: string)
    requires Word(w) && at <= |text| && text[at..] == " " + tail && |tail| > 0 && tail[0] == w[0]
    ensures at + 1 <= |text| && Words(text, at) == Words(text, at + 1)
  {
    assert text[at] == text[at..][0] && text[at + 1] == text[at..][1];
  }

  lemma {:induction false} JoinedBoth(ws: seq<string>, a: nat, m: nat, b: nat)
    requires a < m < b <= |ws|
    ensures Joined(ws, a, b) == Joined(ws, a, m) + (" " + Joined(ws, m, b))
    decreases m - a
  {
    if m > a + 1 {
      JoinedBoth(ws, a + 1, m, b);
      Associate(ws[a] + " ", Joined(ws, a + 1, m), " " + Joined(ws, m, b));
    }
  }

  predicate NoNewline(s: string) {
    forall i :: 0 <= i < |s| ==> s[i] != '\n'
  }

  /** Where the line that `at` stands in ends. */
  function LineStop(text: string, at: nat): (e: nat)
    requires at <= |text|
    ensures at <= e <= |text| && (e < |text| ==> text[e] == '\n')
    decreases |text| - at
  {
    if at < |text| && text[at] != '\n' then LineStop(text, at + 1) else at
  }

  /** The body of a text read back: its lines joined by blanks, the first
      without its `indent` characters and every other without `rest`. */
  function Unwrapped(text: string, indent: nat, rest: nat): (body: string)
    decreases |text|
  {
    var stop := LineStop(text, 0);
    var line := if indent <= stop then text[indent..stop] else "";
    if stop == |text| then line else line + " " + Unwrapped(text[stop + 1..], rest, rest)
  }

  lemma {:induction false} LineStopIs(text: string, at: nat, e: nat)
    requires at <= e <= |text| && (e < |text| ==> text[e] == '\n')
    requires forall i :: at <= i < e ==> text[i] != '\n'
    ensures LineStop(text, at) == e
    decreases e - at
  {
    if at < e { LineStopIs(text, at + 1, e); }
  }

  lemma LastLine(lead: string, line: string, rest: nat)
    requires NoNewline(lead) && NoNewline(line)
    ensures Unwrapped(lead + line, |lead|, rest) == line
  {
    var text := lead + line;
    LineStopIs(text, 0, |text|);
    assert text[|lead|..|text|] == line;
  }

  lemma LineBefore(lead: string, line: string, more: string, rest: nat)
    requires NoNewline(lead) && NoNewline(line)
    ensures Unwrapped(lead + line + ("\n" + more), |lead|, rest) == line + " " + Unwrapped(more, rest, rest)
  {
    var front, tail := lead + line, "\n" + more;
    var text := front + tail;
    FrontOf(text, front, tail);
    assert tail[0] == '\n' && tail[1..] == more;
    LineStopIs(text, 0, |front|);
    assert front[|lead|..] == line;
    FirstLine(text, |front|, |lead|, rest, line, more);
  }

  lemma FrontOf(text: string, front: string, tail: string)
    requires text == front + tail && tail != ""
    ensures |front| < |text| && text[|front|] == tail[0] && text[|front| + 1..] == tail[1..]
    ensures forall i :: 0 <= i < |front| ==> text[i] == front[i]
    ensures forall k :: 0 <= k <= |front| ==> text[k..|front|] == front[k..]
  {
  }

  lemma FirstLine(text: string, stop: nat, indent: nat, rest: nat, line: string, more: string)
    requires indent <= stop < |text| && LineStop(text, 0) == stop
    requires text[indent..stop] == line && text[stop + 1..] == more
    ensures Unwrapped(text, indent, rest) == line + " " + Unwrapped(more, rest, rest)
  {
  }

  lemma {:induction false} JoinedHasNoNewline(ws: seq<string>, a: nat, b: nat)
    requires a < b <= |ws| && forall k :: 0 <= k < |ws| ==> NoNewline(ws[k])
    ensures NoNewline(Joined(ws, a, b))
    decreases b - a
  {
    if b > a + 1 { JoinedHasNoNewline(ws, a + 1, b); }
  }

  /** The lines of a breaking, read back behind their prefixes, are its words
      on one line. */
  lemma {:induction false} RenderedReadBack(ws: seq<string>, cuts: seq<nat>, from: nat, prefix: nat, lead: string,
                                            rest: string, columns: nat)
    requires from <= |ws| && cuts != [] && Breaks(ws, cuts, from, prefix, Columns(rest), columns)
    requires NoNewline(lead) && NoNewline(rest) && forall k :: 0 <= k < |ws| ==> NoNewline(ws[k])
    ensures from < |ws|
    ensures Unwrapped(lead + Rendered(ws, cuts, from, prefix, rest, columns), |lead|, |rest|) == Joined(ws, from, |ws|)
    decreases |cuts|
  {
    var line := Joined(ws, from, cuts[0]);
    JoinedHasNoNewline(ws, from, cuts[0]);
    if |cuts| == 1 {
      assert cuts[1..] == [];
      assert line + "" == line;
      LastLine(lead, line, |rest|);
    } else {
      var behind := Rendered(ws, cuts[1..], cuts[0], Columns(rest), rest, columns);
      RenderedReadBack(ws, cuts[1..], cuts[0], Columns(rest), rest, rest, columns);
      LineBefore(lead, line, rest + behind, |rest|);
      Associate("\n", rest, behind);
      Associate(lead, line, "\n" + (rest + behind));
      JoinedBoth(ws, from, cuts[0], |ws|);
      Associate(line, " ", Joined(ws, cuts[0], |ws|));
    }
  }

  lemma {:induction false} WordsHaveNoNewline(body: string, at: nat)
    requires at <= |body| && NoNewline(body)
    ensures forall k :: 0 <= k < |Words(body, at)| ==> NoNewline(Words(body, at)[k])
    decreases |body| - at
  {
    var start := SpacesEnd(body, at);
    if start < |body| { WordsHaveNoNewline(body, WordEnd(body, start)); }
  }

  /** What a wrapped paragraph reads back as holds the words it was made of. */
  lemma WordsReadBack(first: string, rest: string, ws: seq<string>, columns: nat)
    requires NoNewline(first) && NoNewline(rest) && forall k :: 0 <= k < |ws| ==> Word(ws[k]) && NoNewline(ws[k])
    ensures Words(Unwrapped(Paragraph(first, rest, ws, columns), |first|, |rest|), 0) == ws
  {
    var cuts := Greedy(ws, 0, Columns(first), Columns(rest), columns);
    GreedyBreaks(ws, 0, Columns(first), Columns(rest), columns);
    if ws == [] {
      LastLine(first, "", |rest|);
    } else {
      RenderedReadBack(ws, cuts, 0, Columns(first), first, rest, columns);
      var again := Joined(ws, 0, |ws|);
      assert again[0..] == again;
      WordsOfJoined(ws, 0, |ws|, again, 0, Words(again, 0));
      assert ws[0..|ws|] == ws;
    }
  }

  /** Reading a wrapped paragraph back and wrapping it again changes nothing. */
  lemma WrapIsFixpoint(first: string, rest: string, body: string, columns: nat)
    requires NoNewline(first) && NoNewline(rest) && NoNewline(body)
    ensures var out := Paragraph(first, rest, Words(body, 0), columns);
            Paragraph(first, rest, Words(Unwrapped(out, |first|, |rest|), 0), columns) == out
  {
    WordsAreWords(body, 0);
    WordsHaveNoNewline(body, 0);
    WordsReadBack(first, rest, Words(body, 0), columns);
  }
}

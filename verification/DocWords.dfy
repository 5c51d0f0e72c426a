/** What wrapping a doc comment never changes: its words and their order, and
    what stands between fences. */
module DocWords {
  import opened Wrap
  import opened DocComment

  // ---- The words of a text ----

  lemma {:induction false} WordEndShift(s: string, at: nat, from: nat)
    requires from <= at <= |s|
    ensures WordEnd(s, at) == from + WordEnd(s[from..], at - from)
    decreases |s| - at
  {
    if at < |s| && s[at] != ' ' { WordEndShift(s, at + 1, from); }
  }

  lemma {:induction false} SpacesEndShift(s: string, at: nat, from: nat)
    requires from <= at <= |s|
    ensures SpacesEnd(s, at) == from + SpacesEnd(s[from..], at - from)
    decreases |s| - at
  {
    if at < |s| && s[at] == ' ' { SpacesEndShift(s, at + 1, from); }
  }

  lemma {:induction false} WordsShift(s: string, at: nat, from: nat)
    requires from <= at <= |s|
    ensures Words(s, at) == Words(s[from..], at - from)
    decreases |s| - at
  {
    var start := SpacesEnd(s, at);
    SpacesEndShift(s, at, from);
    if start < |s| {
      var e := WordEnd(s, start);
      WordEndShift(s, start, from);
      assert s[start..e] == s[from..][start - from..e - from];
      WordsShift(s, e, from);
    }
  }

  /** The words of a line or of a text on one line. */
  function WordsOf(s: string): (ws: seq<string>) {
    Words(s, 0)
  }

  lemma BlankFirst(s: string)
    requires s != "" && s[0] == ' '
    ensures WordsOf(s) == WordsOf(s[1..])
  {
    WordsShift(s, 1, 1);
    assert SpacesEnd(s, 0) == SpacesEnd(s, 1);
  }

  lemma WordFirst(w: string, tail: string)
    requires Word(w) && (tail != "" ==> tail[0] == ' ')
    ensures WordsOf(w + tail) == [w] + WordsOf(tail)
  {
    var s := w + tail;
    assert s[0..] == s;
    var e := WordHere(s, 0, w, tail);
    WordsShift(s, e, e);
  }

  /** A text that does not start with a blank starts with a word. */
  lemma FirstWord(s: string) returns (w: string, tail: string)
    requires s != "" && s[0] != ' '
    ensures s == w + tail && Word(w) && (tail != "" ==> tail[0] == ' ') && |tail| < |s|
  {
    var e := WordEnd(s, 0);
    NoBlank(s, 0);
    w, tail := s[..e], s[e..];
  }

  /** A blank parts the words of two texts. */
  lemma {:induction false} WordsOfTwo(a: string, b: string)
    ensures WordsOf(a + (" " + b)) == WordsOf(a) + WordsOf(b)
    decreases |a|
  {
    var s := a + (" " + b);
    if a == "" {
      assert s == " " + b && s[1..] == b;
      BlankFirst(s);
      assert WordsOf(a) == [];
    } else if a[0] == ' ' {
      assert s[1..] == a[1..] + (" " + b);
      BlankFirst(s);
      BlankFirst(a);
      WordsOfTwo(a[1..], b);
    } else {
      var w, tail := FirstWord(a);
      WordFirst(w, tail);
      var more := tail + (" " + b);
      assert s == w + more;
      WordFirst(w, more);
      WordsOfTwo(tail, b);
      assert [w] + (WordsOf(tail) + WordsOf(b)) == [w] + WordsOf(tail) + WordsOf(b);
    }
  }

  lemma {:induction false} WordsBehindBlanks(n: nat, s: string)
    ensures WordsOf(Blanks(n) + s) == WordsOf(s)
    decreases n
  {
    var t := Blanks(n) + s;
    if n == 0 {
      assert t == s;
    } else {
      assert t[1..] == Blanks(n - 1) + s;
      BlankFirst(t);
      WordsBehindBlanks(n - 1, s);
    }
  }

  /** The words of some lines, one after another. */
  function AllWords(lines: seq<string>): (ws: seq<string>) {
    if lines == [] then [] else WordsOf(lines[0]) + AllWords(lines[1..])
  }

  lemma {:induction false} AllWordsOfBoth(a: seq<string>, b: seq<string>)
    ensures AllWords(a + b) == AllWords(a) + AllWords(b)
    decreases |a|
  {
    if a == [] {
      assert a + b == b;
    } else {
      assert (a + b)[1..] == a[1..] + b;
      AllWordsOfBoth(a[1..], b);
      assert WordsOf(a[0]) + (AllWords(a[1..]) + AllWords(b)) == WordsOf(a[0]) + AllWords(a[1..]) + AllWords(b);
    }
  }

  // ---- The words of a paragraph ----

  lemma WordsOfStripped(line: string)
    ensures WordsOf(Stripped(line)) == WordsOf(line)
  {
    IndentOf(line);
    WordsBehindBlanks(Indent(line), Stripped(line));
  }

  lemma {:induction false} WordsOfTail(lines: seq<string>, a: nat, b: nat)
    requires a <= b <= |lines|
    ensures WordsOf(Tail(lines, a, b)) == AllWords(lines[a..b])
    ensures Tail(lines, a, b) != "" ==> Tail(lines, a, b)[0] == ' '
    decreases b - a
  {
    hide WordsOf, Stripped;
    if a == b {
      NoWords();
      assert lines[a..b] == [];
    } else {
      var line, rest := Stripped(lines[a]), Tail(lines, a + 1, b);
      WordsOfTail(lines, a + 1, b);
      WordsOfStripped(lines[a]);
      assert lines[a..b] == [lines[a]] + lines[a + 1..b];
      FirstLine(lines[a], lines[a + 1..b]);
      BehindBlank(line, rest);
    }
  }

  lemma NoWords()
    ensures WordsOf("") == []
  {
  }

  lemma BehindBlank(line: string, rest: string)
    requires rest != "" ==> rest[0] == ' '
    ensures WordsOf(" " + line + rest) == WordsOf(line) + WordsOf(rest)
    ensures (" " + line + rest)[0] == ' '
  {
    hide WordsOf;
    var text := line + rest;
    assert " " + line + rest == " " + text && (" " + text)[1..] == text;
    BlankFirst(" " + text);
    if rest != "" {
      BehindText(line, rest);
    } else {
      NoWords();
      assert text == line;
    }
  }

  lemma BehindText(line: string, rest: string)
    requires rest != "" && rest[0] == ' '
    ensures WordsOf(line + rest) == WordsOf(line) + WordsOf(rest)
  {
    assert rest == " " + rest[1..];
    WordsOfTwo(line, rest[1..]);
    BlankFirst(rest);
  }

  /** The dash of an item counts as a word. */
  function Mark(item: bool): (ws: seq<string>) {
    if item then ["-"] else []
  }

  lemma MarkedWords(n: nat, item: bool, text: string)
    ensures WordsOf((Blanks(n) + if item then "- " else "") + text) == Mark(item) + WordsOf(text)
  {
    if item {
      var rest := " " + text;
      assert (Blanks(n) + "- ") + text == Blanks(n) + ("-" + rest);
      WordsBehindBlanks(n, "-" + rest);
      WordFirst("-", rest);
      assert rest[1..] == text;
      BlankFirst(rest);
    } else {
      assert (Blanks(n) + "") + text == Blanks(n) + text;
      WordsBehindBlanks(n, text);
    }
  }

  /** The lines of a paragraph hold its mark and the words of its text. */
  lemma WordsOfUnit(lines: seq<string>, k: nat)
    requires 0 < k <= |lines|
    ensures AllWords(lines[..k]) == Mark(Item(lines[0])) + WordsOf(Unit(lines, k))
  {
    hide WordsOf, AllWords, Lead, Item, Tail;
    var line := lines[0];
    LeadFits(line);
    var text, tail := line[|Lead(line)|..], Tail(lines, 1, k);
    WordsOfTail(lines, 1, k);
    assert lines[..k] == [line] + lines[1..k];
    FirstLine(line, lines[1..k]);
    OpeningWords(line);
    if tail == "" { assert text + tail == text; NoWords(); } else { BehindText(text, tail); }
    assert Unit(lines, k) == text + tail;
    Together(Mark(Item(line)), WordsOf(text), AllWords(lines[1..k]));
  }

  lemma OpeningWords(line: string)
    ensures |Lead(line)| <= |line| && WordsOf(line) == Mark(Item(line)) + WordsOf(line[|Lead(line)|..])
  {
    hide WordsOf, Mark;
    LeadOf(line);
    MarkedWords(Indent(line), Item(line), line[|Lead(line)|..]);
  }

  lemma LeadOf(line: string)
    ensures |Lead(line)| <= |line| && line == Lead(line) + line[|Lead(line)|..]
  {
    IndentOf(line);
    LeadFits(line);
    var n := Indent(line);
    if Item(line) {
      assert Stripped(line) == "- " + Stripped(line)[2..];
      assert Lead(line) == Blanks(n) + "- ";
    }
    assert Lead(line) <= line;
  }

  lemma WordsOfJoin(ws: seq<string>, a: nat, b: nat)
    requires a < b <= |ws| && forall k :: 0 <= k < |ws| ==> Word(ws[k])
    ensures WordsOf(Joined(ws, a, b)) == ws[a..b]
  {
    var s := Joined(ws, a, b);
    assert s[0..] == s;
    WordsOfJoined(ws, a, b, s, 0, Words(s, 0));
  }

  /** The lines of a breaking hold its words. */
  lemma {:induction false} WordsOfFilled(ws: seq<string>, cuts: seq<nat>, from: nat, n: nat, item: bool, rest: nat,
                                         columns: nat)
    requires from <= |ws| && forall k :: 0 <= k < |ws| ==> Word(ws[k])
    requires var lead := Blanks(n) + if item then "- " else "";
             Breaks(ws, cuts, from, Columns(lead), Columns(Blanks(rest)), columns)
    ensures var lead := Blanks(n) + if item then "- " else "";
            cuts != [] ==>
              AllWords(FilledLines(ws, cuts, from, lead, Blanks(rest), columns)) == Mark(item) + ws[from..]
    ensures cuts == [] ==> ws[from..] == []
    decreases |cuts|
  {
    hide WordsOf, Words, AllWords, Joined, Mark, Columns;
    if cuts != [] {
      var lead, line := Blanks(n) + (if item then "- " else ""), Joined(ws, from, cuts[0]);
      assert Blanks(rest) + "" == Blanks(rest);
      WordsOfFilled(ws, cuts[1..], cuts[0], rest, false, rest, columns);
      MarkedWords(n, item, line);
      WordsOfJoin(ws, from, cuts[0]);
      var behind := FilledLines(ws, cuts[1..], cuts[0], Blanks(rest), Blanks(rest), columns);
      assert FilledLines(ws, cuts, from, lead, Blanks(rest), columns) == [lead + line] + behind;
      LineAndBehind(ws, from, cuts[0], lead + line, behind, Mark(item), cuts[1..] == []);
    }
  }

  lemma LineAndBehind(ws: seq<string>, from: nat, e: nat, line: string, behind: seq<string>, mark: seq<string>,
                      last: bool)
    requires from <= e <= |ws| && WordsOf(line) == mark + ws[from..e]
    requires if last then behind == [] && ws[e..] == [] else AllWords(behind) == Mark(false) + ws[e..]
    ensures AllWords([line] + behind) == mark + ws[from..]
  {
    hide WordsOf;
    var tail := ws[e..];
    assert AllWords(behind) == tail;
    FirstLine(line, behind);
    assert ws[from..] == ws[from..e] + tail;
    Together(mark, ws[from..e], tail);
  }

  lemma FirstLine(line: string, behind: seq<string>)
    ensures AllWords([line] + behind) == WordsOf(line) + AllWords(behind)
  {
    hide WordsOf;
    assert ([line] + behind)[1..] == behind;
  }

  lemma Together(a: seq<string>, b: seq<string>, c: seq<string>)
    ensures (a + b) + c == a + (b + c)
  {
  }

  lemma WordsOfParagraph(b: Block, n: nat, item: bool, columns: nat)
    requires Paragraphs(b, n, item)
    ensures AllWords(LinesOf(b, columns)) == Mark(item) + b.words
  {
    var ws := b.words;
    if ws == [] {
      assert LinesOf(b, columns) == [b.lead] && [b.lead][1..] == [];
      assert b.lead + "" == b.lead;
      MarkedWords(n, item, "");
      assert WordsOf("") == [];
    } else {
      var cuts := Greedy(ws, 0, Columns(b.lead), Columns(b.rest), columns);
      GreedyBreaks(ws, 0, Columns(b.lead), Columns(b.rest), columns);
      WordsOfFilled(ws, cuts, 0, n, item, |b.rest|, columns);
      assert ws[0..] == ws;
    }
  }

  // ---- The words of a doc comment ----

  /** Wrapping keeps every word, in order, at every width, whatever the lines
      open. */
  lemma {:induction false} WordsKept(lines: seq<string>, fenced: bool, columns: nat)
    ensures AllWords(Written(Blocks(lines, fenced), columns)) == AllWords(lines)
    decreases |lines|
  {
    hide WordsOf, Unit, ParagraphLines, LinesOf, AllWords;
    if lines != [] {
      var line := lines[0];
      if Kept(line, fenced) {
        var within := fenced != Fence(line);
        WordsKept(lines[1..], within, columns);
        CopiedWords(lines, fenced, within, columns);
      } else {
        var k := Extent(lines, 1, |Rest(line)|);
        HeadParagraph(lines);
        WordsKept(lines[k..], false, columns);
        FilledWords(lines, k, columns);
      }
    }
  }

  lemma CopiedWords(lines: seq<string>, fenced: bool, within: bool, columns: nat)
    requires lines != [] && Kept(lines[0], fenced) && within == (fenced != Fence(lines[0]))
    requires AllWords(Written(Blocks(lines[1..], within), columns)) == AllWords(lines[1..])
    ensures AllWords(Written(Blocks(lines, fenced), columns)) == AllWords(lines)
  {
    hide WordsOf, Kept, Fence;
    var rest := Blocks(lines[1..], within);
    var behind := Written(rest, columns);
    OneWritten(Copied(lines[0]), rest, columns);
    assert ([lines[0]] + behind)[1..] == behind;
  }

  lemma FilledWords(lines: seq<string>, k: nat, columns: nat)
    requires lines != [] && !Kept(lines[0], false) && 0 < k <= |lines|
    requires k == Extent(lines, 1, |Rest(lines[0])|)
    requires AllWords(Written(Blocks(lines[k..], false), columns)) == AllWords(lines[k..])
    ensures AllWords(Written(Blocks(lines, false), columns)) == AllWords(lines)
  {
    hide WordsOf, AllWords, Written, LinesOf, Unit, Kept, Extent;
    var b := Blocks(lines, false)[0];
    var rest := Blocks(lines[k..], false);
    HeadParagraph(lines);
    assert Blocks(lines, false) == [b] + rest;
    OneWritten(b, rest, columns);
    AllWordsOfBoth(LinesOf(b, columns), Written(rest, columns));
    WordsOfParagraph(b, Indent(lines[0]), Item(lines[0]), columns);
    WordsOfUnit(lines, k);
    WordsAre(lines, k);
    assert lines == lines[..k] + lines[k..];
    AllWordsOfBoth(lines[..k], lines[k..]);
  }

  lemma OneWritten(b: Block, bs: seq<Block>, columns: nat)
    ensures Written([b] + bs, columns) == LinesOf(b, columns) + Written(bs, columns)
  {
    assert ([b] + bs)[1..] == bs;
  }

  lemma WordsAre(lines: seq<string>, k: nat)
    requires lines != [] && !Kept(lines[0], false) && k == Extent(lines, 1, |Rest(lines[0])|)
    ensures Blocks(lines, false)[0].words == WordsOf(Unit(lines, k))
  {
  }

  /** The same of the text. */
  lemma DocWordsKept(text: string, columns: nat)
    ensures AllWords(Split(WrapText(text, columns), 0)) == AllWords(Split(text, 0))
  {
    var lines := Split(text, 0);
    var ls := Written(Blocks(lines, false), columns);
    SplitHasNoNewline(text, 0);
    WrittenIsClean(lines, false, columns);
    assert WrapText(text, columns)[0..] == JoinLines(ls);
    SplitJoined(ls, WrapText(text, columns), 0);
    WordsKept(lines, false, columns);
  }

  // ---- The width of a line ----

  lemma {:induction false} ColumnsOfBoth(a: string, b: string)
    ensures Columns(a + b) == Columns(a) + Columns(b)
    decreases |b|
  {
    if b == "" {
      assert a + b == a;
    } else {
      assert (a + b)[..|a + b| - 1] == a + b[..|b| - 1];
      ColumnsOfBoth(a, b[..|b| - 1]);
    }
  }

  lemma {:induction false} ContinuationIsFree(more: string)
    requires forall i :: 0 <= i < |more| ==> 0x80 <= more[i] as int <= 0xbf
    ensures Columns(more) == 0
    decreases |more|
  {
    if more != "" { ContinuationIsFree(more[..|more| - 1]); }
  }

  lemma OneByte(c: char)
    ensures Columns([c]) == ColumnsOfByte(c)
  {
    assert [c][..0] == "";
  }

  lemma FirstByte(c: char)
    requires c as int < 0x80 || 0xc0 <= c as int <= 0xff
    ensures ColumnsOfByte(c) == if c == '\t' then 4 else 1
  {
  }

  /** A character takes one column however many bytes it has, and a tab
      four. */
  lemma CharacterColumns(first: char, more: string)
    requires first as int < 0x80 || 0xc0 <= first as int <= 0xff
    requires forall i :: 0 <= i < |more| ==> 0x80 <= more[i] as int <= 0xbf
    ensures Columns([first] + more) == if first == '\t' then 4 else 1
  {
    hide Columns, ColumnsOfByte;
    ContinuationIsFree(more);
    ColumnsOfBoth([first], more);
    OneByte(first);
    FirstByte(first);
  }

  /** The width the fill counts is that of the line it writes. */
  lemma {:induction false} JoinedColumns(ws: seq<string>, a: nat, b: nat)
    requires a < b <= |ws|
    ensures Columns(Joined(ws, a, b)) == LineWidth(ws, a, b)
    decreases b
  {
    if b > a + 1 {
      JoinedColumns(ws, a, b - 1);
      JoinedMore(ws, a, b - 1);
      ColumnsOfBoth(Joined(ws, a, b - 1) + " ", ws[b - 1]);
      ColumnsOfBoth(Joined(ws, a, b - 1), " ");
      CharacterColumns(' ', "");
      assert " " + "" == " ";
    }
  }

  /** A line within the columns, or one that opens with `lead` or `rest` and
      holds one word. */
  predicate WithinOrOneWord(line: string, lead: string, rest: string, ws: seq<string>, columns: nat) {
    Columns(line) <= columns || exists k :: 0 <= k < |ws| && (line == lead + ws[k] || line == rest + ws[k])
  }

  lemma {:induction false} FilledWithin(ws: seq<string>, cuts: seq<nat>, from: nat, lead: string, rest: string,
                                        columns: nat, ls: seq<string>)
    requires from <= |ws| && Breaks(ws, cuts, from, Columns(lead), Columns(rest), columns)
    requires ls == FilledLines(ws, cuts, from, lead, rest, columns)
    ensures forall i :: 0 <= i < |ls| ==> WithinOrOneWord(ls[i], lead, rest, ws, columns)
    decreases |cuts|
  {
    hide WithinOrOneWord, Columns;
    if cuts != [] {
      var e := cuts[0];
      var behind := FilledLines(ws, cuts[1..], e, rest, rest, columns);
      assert ls == [lead + Joined(ws, from, e)] + behind;
      FilledWithin(ws, cuts[1..], e, rest, rest, columns, behind);
      LineWithin(ws, from, e, lead, rest, columns);
      forall i | 0 <= i < |behind| ensures WithinOrOneWord(behind[i], lead, rest, ws, columns) {
        LaterWithin(behind[i], lead, rest, ws, columns);
      }
    }
  }

  lemma LineWithin(ws: seq<string>, a: nat, b: nat, lead: string, rest: string, columns: nat)
    requires a < b <= |ws| && Fits(ws, Columns(lead), columns, a, b)
    ensures WithinOrOneWord(lead + Joined(ws, a, b), lead, rest, ws, columns)
  {
    ColumnsOfBoth(lead, Joined(ws, a, b));
    JoinedColumns(ws, a, b);
    if b == a + 1 { assert Joined(ws, a, b) == ws[a]; }
  }

  lemma LaterWithin(line: string, lead: string, rest: string, ws: seq<string>, columns: nat)
    requires WithinOrOneWord(line, rest, rest, ws, columns)
    ensures WithinOrOneWord(line, lead, rest, ws, columns)
  {
  }

  /** No line of a paragraph passes the columns unless it holds one word. */
  lemma LinesWithin(lead: string, rest: string, ws: seq<string>, columns: nat, ls: seq<string>)
    requires ws != [] && ls == LinesOf(Filling(lead, rest, ws), columns)
    ensures forall i :: 0 <= i < |ls| ==> WithinOrOneWord(ls[i], lead, rest, ws, columns)
  {
    GreedyBreaks(ws, 0, Columns(lead), Columns(rest), columns);
    FilledWithin(ws, Greedy(ws, 0, Columns(lead), Columns(rest), columns), 0, lead, rest, columns, ls);
  }

  // ---- The lines that stand, and those that are filled ----

  /** Fenced lines stand as they are, from the fence that opens to the one
      that closes. */
  lemma {:induction false} FencedStands(inner: seq<string>, fence: string, tail: seq<string>, n: nat)
    requires "```" <= fence
    requires forall i :: 0 <= i < |inner| ==> !("```" <= Stripped(inner[i]))
    ensures Blocks(inner + [Blanks(n) + fence] + tail, true) ==
            seq(|inner|, i requires 0 <= i < |inner| => Copied(inner[i])) + [Copied(Blanks(n) + fence)] +
            Blocks(tail, false)
    decreases |inner|
  {
    hide Indent, Blank, Item, Blanks, Stripped;
    var lines := inner + [Blanks(n) + fence] + tail;
    if inner == [] {
      IndentIs(n, fence);
      assert lines[1..] == tail;
    } else {
      assert lines[1..] == inner[1..] + [Blanks(n) + fence] + tail;
      FencedStands(inner[1..], fence, tail, n);
      var copies := seq(|inner|, i requires 0 <= i < |inner| => Copied(inner[i]));
      assert copies == [copies[0]] + seq(|inner| - 1, i requires 0 <= i < |inner| - 1 => Copied(inner[1..][i]));
    }
  }

  /** The line of an indent and a text stands where the text is empty or opens
      a fence, or where the indent leaves no room. */
  lemma StandsWhere(n: nat, text: string)
    requires text != "" ==> text[0] != ' '
    ensures Kept(Blanks(n) + text, false) <==> text == "" || "```" <= text || n >= 78
  {
    IndentIs(n, text);
  }

  /** A line carries on the paragraph above it exactly where it stands at the
      indent of its text and is not blank, a fence or an item. */
  lemma CarriesOn(n: nat, text: string, m: nat, next: string)
    requires n < 78 && text != "" && text[0] != ' ' && !("```" <= text)
    requires next != "" ==> next[0] != ' '
    ensures var item := "- " <= text;
            |Blocks([Blanks(n) + text, Blanks(m) + next], false)| == 1 <==>
            next != "" && !("```" <= next) && !("- " <= next) && m == if item then n + 2 else n
  {
    var a, b := Blanks(n) + text, Blanks(m) + next;
    var lines := [a, b];
    IndentIs(n, text);
    IndentIs(m, next);
    var k := Extent(lines, 1, |Rest(a)|);
    if k == 1 {
      assert lines[1..] == [b] && |Blocks([b], false)| >= 1;
    } else {
      assert lines[2..] == [];
    }
  }
}

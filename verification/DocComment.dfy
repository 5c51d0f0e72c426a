/** The text of a doc comment wrapped to the width: `wrap_doc` of fmt.c, over
    the fill of its paragraphs. */
module DocComment {
  import opened Wrap

  const WRAP_COLUMNS := 80

  /** The room of the buffers for the opening of a line. */
  const LEAD_ROOM := 80

  // ---- Lines ----

  function Indent(line: string): (n: nat)
    ensures n <= |line|
  {
    SpacesEnd(line, 0)
  }

  predicate Blank(line: string) {
    Indent(line) == |line|
  }

  function Stripped(line: string): (s: string) {
    line[Indent(line)..]
  }

  predicate Fence(line: string) {
    "```" <= Stripped(line)
  }

  predicate Item(line: string) {
    "- " <= Stripped(line)
  }

  function Blanks(n: nat): (s: string)
    ensures |s| == n && forall i :: 0 <= i < n ==> s[i] == ' '
  {
    seq(n, _ => ' ')
  }

  /** What opens the first line of a paragraph, and every line after it. */
  function Lead(line: string): (s: string) {
    Blanks(Indent(line)) + if Item(line) then "- " else ""
  }

  function Rest(line: string): (s: string) {
    Blanks(|Lead(line)|)
  }

  /** The lines that stand as they are. */
  predicate Kept(line: string, fenced: bool) {
    Fence(line) || fenced || Blank(line) || Indent(line) + 2 >= LEAD_ROOM
  }

  /** The lines that carry on a paragraph. */
  predicate Continues(line: string, rest: nat) {
    !Blank(line) && !Fence(line) && !Item(line) && Indent(line) == rest
  }

  function Extent(lines: seq<string>, k: nat, rest: nat): (e: nat)
    requires k <= |lines|
    ensures k <= e <= |lines|
    ensures e < |lines| ==> !Continues(lines[e], rest)
    ensures forall j :: k <= j < e ==> Continues(lines[j], rest)
    decreases |lines| - k
  {
    if k < |lines| && Continues(lines[k], rest) then Extent(lines, k + 1, rest) else k
  }

  function Tail(lines: seq<string>, a: nat, b: nat): (s: string)
    requires a <= b <= |lines|
    decreases b - a
  {
    if a == b then "" else " " + Stripped(lines[a]) + Tail(lines, a + 1, b)
  }

  /** The text of the paragraph of the first `k` lines. */
  function Unit(lines: seq<string>, k: nat): (s: string)
    requires 0 < k <= |lines|
  {
    LeadFits(lines[0]);
    lines[0][|Lead(lines[0])|..] + Tail(lines, 1, k)
  }

  lemma LeadFits(line: string)
    ensures |Lead(line)| <= |line|
  {
  }

  // ---- Blocks ----

  /** A line that stands, or a paragraph. */
  datatype Block = Copied(line: string) | Filling(lead: string, rest: string, words: seq<string>)

  function Blocks(lines: seq<string>, fenced: bool): (bs: seq<Block>)
    decreases |lines|
  {
    if lines == [] then []
    else if Kept(lines[0], fenced) then [Copied(lines[0])] + Blocks(lines[1..], fenced != Fence(lines[0]))
    else
      var k := Extent(lines, 1, |Rest(lines[0])|);
      [Filling(Lead(lines[0]), Rest(lines[0]), Words(Unit(lines, k), 0))] + Blocks(lines[k..], fenced)
  }

  function FilledLines(ws: seq<string>, cuts: seq<nat>, from: nat, lead: string, rest: string, columns: nat)
      : (ls: seq<string>)
    requires from <= |ws| && Breaks(ws, cuts, from, Columns(lead), Columns(rest), columns)
    ensures |ls| == |cuts|
    decreases |cuts|
  {
    if cuts == [] then []
    else [lead + Joined(ws, from, cuts[0])] + FilledLines(ws, cuts[1..], cuts[0], rest, rest, columns)
  }

  /** The lines of a paragraph. */
  function ParagraphLines(lead: string, rest: string, ws: seq<string>, columns: nat): (ls: seq<string>)
    ensures ls != []
  {
    GreedyBreaks(ws, 0, Columns(lead), Columns(rest), columns);
    if ws == [] then [lead]
    else FilledLines(ws, Greedy(ws, 0, Columns(lead), Columns(rest), columns), 0, lead, rest, columns)
  }

  function LinesOf(b: Block, columns: nat): (ls: seq<string>)
    ensures ls != []
  {
    match b
    case Copied(line) => [line]
    case Filling(lead, rest, words) => ParagraphLines(lead, rest, words, columns)
  }

  function Written(bs: seq<Block>, columns: nat): (ls: seq<string>)
    ensures bs != [] ==> ls != []
  {
    if bs == [] then [] else LinesOf(bs[0], columns) + Written(bs[1..], columns)
  }

  /** No line the fill has written opens a fence, or an item other than its
      own. */
  predicate Tame(bs: seq<Block>, columns: nat) {
    forall i :: 0 <= i < |bs| ==> BlockTame(bs[i], columns)
  }

  predicate BlockTame(b: Block, columns: nat) {
    b.Filling? ==> LinesTame(LinesOf(b, columns), Item(b.lead))
  }

  predicate LinesTame(ls: seq<string>, item: bool) {
    forall j :: 0 <= j < |ls| ==> !Fence(ls[j]) && (Item(ls[j]) <==> j == 0 && item)
  }

  // ---- What stands at the front of a written line ----

  lemma {:induction false} SpacesEndIs(s: string, at: nat, e: nat)
    requires at <= e <= |s| && (e < |s| ==> s[e] != ' ') && forall i :: at <= i < e ==> s[i] == ' '
    ensures SpacesEnd(s, at) == e
    decreases e - at
  {
    if at < e { SpacesEndIs(s, at + 1, e); }
  }

  lemma IndentIs(n: nat, text: string)
    requires text != "" ==> text[0] != ' '
    ensures Indent(Blanks(n) + text) == n && Stripped(Blanks(n) + text) == text
  {
    var line := Blanks(n) + text;
    if text != "" { assert line[n] == text[0]; }
    SpacesEndIs(line, 0, n);
    assert line[n..] == text;
  }

  /** A line is its blanks and what it strips to. */
  lemma {:induction false} IndentOf(line: string)
    ensures line == Blanks(Indent(line)) + Stripped(line)
    ensures Stripped(line) != "" ==> Stripped(line)[0] != ' '
  {
    SpacesBefore(line, 0);
    assert line == line[..Indent(line)] + line[Indent(line)..];
    assert line[..Indent(line)] == Blanks(Indent(line));
  }

  lemma {:induction false} SpacesBefore(s: string, at: nat)
    requires at <= |s|
    ensures forall i :: at <= i < SpacesEnd(s, at) ==> s[i] == ' '
    decreases |s| - at
  {
    if at < |s| && s[at] == ' ' { SpacesBefore(s, at + 1); }
  }

  /** What a paragraph opens with, as `Lead` and `Rest` make it. */
  ghost predicate Opens(lead: string, rest: string, n: nat, item: bool) {
    lead == Blanks(n) + (if item then "- " else "") && rest == Blanks(|lead|) && n + 2 < LEAD_ROOM
  }

  /** The block of a paragraph: its words are words, and only an item may have
      none. */
  ghost predicate Paragraphs(b: Block, n: nat, item: bool) {
    && b.Filling? && Opens(b.lead, b.rest, n, item) && (item || b.words != [])
    && forall k :: 0 <= k < |b.words| ==> Word(b.words[k])
  }

  lemma JoinedStarts(ws: seq<string>, a: nat, b: nat)
    requires a < b <= |ws| && Word(ws[a])
    ensures Joined(ws, a, b) != "" && Joined(ws, a, b)[0] != ' '
  {
  }

  /** The first line of a paragraph opens as the paragraph did; whether it is
      an item can change only where it was none. */
  lemma FirstLineIs(b: Block, n: nat, item: bool, columns: nat)
    requires Paragraphs(b, n, item)
    ensures var line := LinesOf(b, columns)[0];
            && Indent(line) == n && !Blank(line) && b.lead <= line && (item ==> Item(line))
            && (Item(line) == item ==> Lead(line) == b.lead && Rest(line) == b.rest)
            && (Item(line) != item ==> Lead(line) != b.lead)
  {
    var ls := LinesOf(b, columns);
    var line, ws := ls[0], b.words;
    var tail := if ws == [] then "" else Joined(ws, 0, FirstCut(b, columns));
    assert line == b.lead + tail by { if ws == [] { assert b.lead + "" == b.lead; } }
    var mark := if item then "- " else "";
    Associate(Blanks(n), mark, tail);
    if ws != [] { JoinedStarts(ws, 0, FirstCut(b, columns)); }
    if item { assert ("- " + tail)[0] == '-'; } else { assert "" + tail == tail; }
    IndentIs(n, mark + tail);
    assert Stripped(line) == mark + tail;
    if Item(line) != item { assert |Lead(line)| == n + 2 && |b.lead| == n; }
  }

  function FirstCut(b: Block, columns: nat): (cut: nat)
    requires b.Filling? && b.words != []
    ensures 0 < cut <= |b.words|
  {
    LineEnd(b.words, columns, 0, Columns(b.lead))
  }

  // ---- A written paragraph read back ----

  lemma {:induction false} TailBehind(x: string, ls: seq<string>, a: nat, b: nat)
    requires a <= b <= |ls|
    ensures Tail([x] + ls, a + 1, b + 1) == Tail(ls, a, b)
    decreases b - a
  {
    if a < b { TailBehind(x, ls, a + 1, b); }
  }

  lemma {:induction false} TailBefore(ls: seq<string>, more: seq<string>, a: nat, b: nat)
    requires a <= b <= |ls|
    ensures Tail(ls + more, a, b) == Tail(ls, a, b)
    decreases b - a
  {
    hide Stripped;
    if a < b { TailBefore(ls, more, a + 1, b); }
  }

  /** The lines of a breaking behind blanks, joined without them, are its words
      on one line. */
  lemma {:induction false} TailJoined(ws: seq<string>, cuts: seq<nat>, from: nat, r: nat, columns: nat, j: nat)
    requires from <= |ws| && 0 < j <= |cuts| && forall k :: 0 <= k < |ws| ==> Word(ws[k])
    requires Breaks(ws, cuts, from, Columns(Blanks(r)), Columns(Blanks(r)), columns)
    ensures from < cuts[j - 1] <= |ws| && (cuts[j - 1] == |ws| <==> j == |cuts|)
    ensures var ls := FilledLines(ws, cuts, from, Blanks(r), Blanks(r), columns);
            Tail(ls, 0, j) == " " + Joined(ws, from, cuts[j - 1])
    decreases j
  {
    var rest := Blanks(r);
    var ls := FilledLines(ws, cuts, from, rest, rest, columns);
    var behind := FilledLines(ws, cuts[1..], cuts[0], rest, rest, columns);
    var line := Joined(ws, from, cuts[0]);
    JoinedStarts(ws, from, cuts[0]);
    IndentIs(r, line);
    assert ls == [rest + line] + behind;
    TailBehind(rest + line, behind, 0, j - 1);
    assert Tail(ls, 0, j) == " " + line + Tail(behind, 0, j - 1);
    if j == 1 {
      assert Tail(behind, 0, 0) == "" && " " + line + "" == " " + line;
      if |cuts| > 1 { assert cuts[0] < cuts[1..][0]; }
    } else {
      TailJoined(ws, cuts[1..], cuts[0], r, columns, j - 1);
      JoinedBoth(ws, from, cuts[0], cuts[j - 1]);
      Associate(" ", line, " " + Joined(ws, cuts[0], cuts[j - 1]));
    }
  }

  lemma {:induction false} LaterLines(ws: seq<string>, cuts: seq<nat>, from: nat, r: nat, columns: nat, j: nat)
    requires from <= |ws| && j < |cuts| && forall k :: 0 <= k < |ws| ==> Word(ws[k])
    requires Breaks(ws, cuts, from, Columns(Blanks(r)), Columns(Blanks(r)), columns)
    ensures var line := FilledLines(ws, cuts, from, Blanks(r), Blanks(r), columns)[j];
            Indent(line) == r && !Blank(line)
    decreases j
  {
    if j == 0 {
      JoinedStarts(ws, from, cuts[0]);
      IndentIs(r, Joined(ws, from, cuts[0]));
    } else {
      LaterLines(ws, cuts[1..], cuts[0], r, columns, j - 1);
    }
  }

  /** The lines of a paragraph after its first stand at its own columns. */
  lemma BehindFirst(b: Block, n: nat, item: bool, columns: nat, j: nat)
    requires Paragraphs(b, n, item) && 0 < j < |LinesOf(b, columns)|
    ensures var line := LinesOf(b, columns)[j]; Indent(line) == |b.rest| && !Blank(line)
  {
    var ws, cuts := b.words, Greedy(b.words, 0, Columns(b.lead), Columns(b.rest), columns);
    GreedyBreaks(ws, 0, Columns(b.lead), Columns(b.rest), columns);
    LaterLines(ws, cuts[1..], cuts[0], |b.rest|, columns, j - 1);
  }

  /** The first `j` lines of a paragraph hold its first words: all of them
      exactly where no line is left. */
  lemma UnitWords(b: Block, n: nat, item: bool, columns: nat, j: nat) returns (e: nat)
    requires Paragraphs(b, n, item) && 0 < j <= |LinesOf(b, columns)| && Lead(LinesOf(b, columns)[0]) == b.lead
    ensures e <= |b.words| && (e == |b.words| <==> j == |LinesOf(b, columns)|)
    ensures Words(Unit(LinesOf(b, columns), j), 0) == b.words[..e]
  {
    var ls, ws := LinesOf(b, columns), b.words;
    if ws == [] {
      e := 0;
      assert Unit(ls, j) == "";
    } else {
      var cuts := Greedy(ws, 0, Columns(b.lead), Columns(b.rest), columns);
      GreedyBreaks(ws, 0, Columns(b.lead), Columns(b.rest), columns);
      e := cuts[j - 1];
      var line := Joined(ws, 0, cuts[0]);
      var behind := FilledLines(ws, cuts[1..], cuts[0], b.rest, b.rest, columns);
      assert ls == [b.lead + line] + behind && (b.lead + line)[|b.lead|..] == line;
      TailBehind(b.lead + line, behind, 0, j - 1);
      assert Unit(ls, j) == line + Tail(behind, 0, j - 1);
      if j == 1 {
        assert line + "" == line;
        if |cuts| > 1 { TailJoined(ws, cuts[1..], cuts[0], |b.rest|, columns, 1); }
      } else {
        TailJoined(ws, cuts[1..], cuts[0], |b.rest|, columns, j - 1);
        JoinedBoth(ws, 0, cuts[0], e);
      }
      assert Unit(ls, j) == Joined(ws, 0, e);
      assert Unit(ls, j)[0..] == Unit(ls, j);
      WordsOfJoined(ws, 0, e, Unit(ls, j), 0, Words(Unit(ls, j), 0));
      assert ws[0..e] == ws[..e];
    }
  }

  /** The first block of what stands behind `ls` lines. */
  lemma FirstBlock(ls: seq<string>, more: seq<string>, k: nat)
    requires ls != [] && !Kept(ls[0], false) && 0 < k <= |ls| && k == Extent(ls + more, 1, |Rest(ls[0])|)
    ensures Blocks(ls + more, false) ==
            [Filling(Lead(ls[0]), Rest(ls[0]), Words(Unit(ls, k), 0))] + Blocks((ls + more)[k..], false)
  {
    TailBefore(ls, more, 1, k);
    assert (ls + more)[0] == ls[0];
  }

  /** A written paragraph before what does not carry it on reads back as the
      paragraph exactly where its lines open nothing of their own. */
  lemma BlockReadBack(b: Block, n: nat, item: bool, columns: nat, more: seq<string>)
    requires Paragraphs(b, n, item) && (more != [] ==> !Continues(more[0], |b.rest|))
    ensures BlockTame(b, columns) ==> Blocks(LinesOf(b, columns) + more, false) == [b] + Blocks(more, false)
    ensures Blocks(LinesOf(b, columns) + more, false)[0] == b ==> BlockTame(b, columns)
  {
    var ls := LinesOf(b, columns);
    var all := ls + more;
    assert all[0] == ls[0];
    FirstLineIs(b, n, item, columns);
    LeadsAnItem(b, n, item);
    if Fence(ls[0]) {
      assert Kept(all[0], false) && Blocks(all, false)[0].Copied?;
    } else if Item(ls[0]) == item {
      var k := Extent(all, 1, |b.rest|);
      if more != [] { assert all[|ls|] == more[0]; }
      var e := UnitWords(b, n, item, columns, k);
      FirstBlock(ls, more, k);
      if k == |ls| {
        assert all[k..] == more && b.words[..e] == b.words;
        forall j | 0 <= j < |ls| ensures !Fence(ls[j]) && (Item(ls[j]) <==> j == 0 && item) {
          if j > 0 { assert Continues(all[j], |b.rest|); }
        }
      } else {
        BehindFirst(b, n, item, columns, k);
        assert all[k] == ls[k];
        assert Fence(ls[k]) || Item(ls[k]);
        assert |b.words[..e]| < |b.words|;
      }
    } else {
      var k := Extent(all, 1, |Rest(ls[0])|);
      assert Blocks(all, false)[0].lead == Lead(ls[0]);
    }
  }

  lemma LeadsAnItem(b: Block, n: nat, item: bool)
    requires Paragraphs(b, n, item)
    ensures Item(b.lead) == item
  {
    IndentIs(n, if item then "- " else "");
  }

  // ---- A written text read back ----

  /** What a paragraph of a text is made of. */
  lemma HeadParagraph(lines: seq<string>)
    requires lines != [] && !Kept(lines[0], false)
    ensures Blocks(lines, false) != [] && Paragraphs(Blocks(lines, false)[0], Indent(lines[0]), Item(lines[0]))
    ensures Blocks(lines, false)[0].lead == Lead(lines[0])
  {
    var line, k := lines[0], Extent(lines, 1, |Rest(lines[0])|);
    var text := Unit(lines, k);
    WordsAreWords(text, 0);
    IndentOf(line);
    if !Item(line) {
      assert text[0] == Stripped(line)[0];
      assert SpacesEnd(text, 0) == 0;
    }
  }

  /** A line that does not carry a paragraph on does not when it is written
      again. */
  lemma HeadStays(lines: seq<string>, fenced: bool, r: nat, columns: nat)
    requires lines != [] && !Continues(lines[0], r)
    ensures var ls := Written(Blocks(lines, fenced), columns); ls != [] && !Continues(ls[0], r)
  {
    if !Kept(lines[0], fenced) {
      HeadParagraph(lines);
      FirstLineIs(Blocks(lines, false)[0], Indent(lines[0]), Item(lines[0]), columns);
    }
  }

  /** A wrapped text reads back as the paragraphs and the lines it was made of
      exactly where no wrapped line opens a fence or an item of its own. */
  lemma {:induction false} TextReadsBack(lines: seq<string>, fenced: bool, columns: nat)
    ensures var bs := Blocks(lines, fenced);
            Blocks(Written(bs, columns), fenced) == bs <==> Tame(bs, columns)
    decreases |lines|
  {
    if lines != [] {
      if Kept(lines[0], fenced) {
        KeptReadsBack(lines, fenced, columns);
      } else {
        ParagraphReadsBack(lines, columns);
      }
    }
  }

  lemma TameBoth(b: Block, bs: seq<Block>, columns: nat)
    ensures Tame([b] + bs, columns) <==> BlockTame(b, columns) && Tame(bs, columns)
  {
    var all := [b] + bs;
    assert all[0] == b;
    forall i | 0 <= i < |bs| ensures BlockTame(bs[i], columns) <==> BlockTame(all[i + 1], columns) {
      assert all[i + 1] == bs[i];
    }
    if BlockTame(b, columns) && Tame(bs, columns) {
      forall i | 0 <= i < |all| ensures BlockTame(all[i], columns) {
        if i > 0 { assert all[i] == bs[i - 1]; }
      }
    }
  }

  lemma {:induction false} KeptReadsBack(lines: seq<string>, fenced: bool, columns: nat)
    requires lines != [] && Kept(lines[0], fenced)
    ensures var bs := Blocks(lines, fenced);
            Blocks(Written(bs, columns), fenced) == bs <==> Tame(bs, columns)
    decreases |lines|, 0
  {
    var within := fenced != Fence(lines[0]);
    var line, behind := lines[0], Blocks(lines[1..], within);
    TextReadsBack(lines[1..], within, columns);
    TameBoth(Copied(line), behind, columns);
    var more := Written(behind, columns);
    assert Written([Copied(line)] + behind, columns) == [line] + more;
    assert ([line] + more)[1..] == more;
    assert Blocks([line] + more, fenced) == [Copied(line)] + Blocks(more, within);
    SameBehind(Copied(line), Blocks(more, within), behind);
  }

  lemma SameBehind(b: Block, xs: seq<Block>, ys: seq<Block>)
    ensures [b] + xs == [b] + ys <==> xs == ys
  {
    assert ([b] + xs)[1..] == xs && ([b] + ys)[1..] == ys;
  }

  lemma {:induction false} ParagraphReadsBack(lines: seq<string>, columns: nat)
    requires lines != [] && !Kept(lines[0], false)
    ensures var bs := Blocks(lines, false);
            Blocks(Written(bs, columns), false) == bs <==> Tame(bs, columns)
    decreases |lines|, 0
  {
    var k := Extent(lines, 1, |Rest(lines[0])|);
    var b, behind := Blocks(lines, false)[0], Blocks(lines[k..], false);
    assert Blocks(lines, false) == [b] + behind;
    HeadParagraph(lines);
    TextReadsBack(lines[k..], false, columns);
    TameBoth(b, behind, columns);
    var more := Written(behind, columns);
    assert Written([b] + behind, columns) == LinesOf(b, columns) + more;
    if more != [] { HeadStays(lines[k..], false, |b.rest|, columns); }
    BlockReadBack(b, Indent(lines[0]), Item(lines[0]), columns, more);
    SameBehind(b, Blocks(more, false), behind);
  }

  // ---- The text ----

  /** The lines of a text from `at` on. */
  function Split(text: string, at: nat): (ls: seq<string>)
    requires at <= |text|
    ensures ls != []
    decreases |text| - at
  {
    var stop := LineStop(text, at);
    [text[at..stop]] + if stop == |text| then [] else Split(text, stop + 1)
  }

  function JoinLines(ls: seq<string>): (text: string) {
    if ls == [] then "" else if |ls| == 1 then ls[0] else ls[0] + ("\n" + JoinLines(ls[1..]))
  }

  function WrapText(text: string, columns: nat): (out: string) {
    JoinLines(Written(Blocks(Split(text, 0), false), columns))
  }

  lemma {:induction false} SplitJoined(ls: seq<string>, text: string, at: nat)
    requires ls != [] && at <= |text| && text[at..] == JoinLines(ls) && forall k :: 0 <= k < |ls| ==> NoNewline(ls[k])
    ensures Split(text, at) == ls
    decreases |ls|
  {
    hide Split, JoinLines;
    var line := ls[0];
    JoinsFirst(ls);
    if |ls| == 1 {
      assert line + "" == line;
      SplitFirst(text, at, line, "");
      assert ls == [line];
    } else {
      var behind := JoinLines(ls[1..]);
      SplitFirst(text, at, line, "\n" + behind);
      assert ("\n" + behind)[1..] == behind;
      SplitJoined(ls[1..], text, at + |line| + 1);
      assert ls == [line] + ls[1..];
    }
  }

  lemma JoinsFirst(ls: seq<string>)
    requires ls != []
    ensures JoinLines(ls) == if |ls| == 1 then ls[0] else ls[0] + ("\n" + JoinLines(ls[1..]))
  {
  }

  lemma SplitFirst(text: string, at: nat, line: string, tail: string)
    requires at <= |text| && text[at..] == line + tail && NoNewline(line) && (tail != "" ==> tail[0] == '\n')
    ensures tail == "" ==> Split(text, at) == [line]
    ensures tail != "" ==> var next := at + |line| + 1;
              next <= |text| && text[next..] == tail[1..] && Split(text, at) == [line] + Split(text, next)
  {
    var stop := at + |line|;
    FrontAt(text, at, line, tail);
    LineStopIs(text, at, stop);
    if tail == "" {
      assert text[stop..] == "" && Split(text, at) == [line] + [];
    } else {
      assert text[stop..][1..] == text[stop + 1..];
    }
  }

  lemma FrontAt(text: string, at: nat, line: string, tail: string)
    requires at <= |text| && text[at..] == line + tail
    ensures at + |line| <= |text| && text[at..at + |line|] == line && text[at + |line|..] == tail
    ensures forall i :: at <= i < at + |line| ==> text[i] == line[i - at]
    ensures tail != "" ==> at + |line| < |text| && text[at + |line|] == tail[0]
  {
    var left := text[at..];
    assert left[..|line|] == line && left[|line|..] == tail;
    assert text[at..at + |line|] == left[..|line|] && text[at + |line|..] == left[|line|..];
    forall i | at <= i < at + |line| ensures text[i] == line[i - at] { assert left[i - at] == text[i]; }
    if tail != "" { assert text[at + |line|] == text[at + |line|..][0]; }
  }

  lemma {:induction false} SplitHasNoNewline(text: string, at: nat)
    requires at <= |text|
    ensures forall k :: 0 <= k < |Split(text, at)| ==> NoNewline(Split(text, at)[k])
    decreases |text| - at
  {
    var stop := LineStop(text, at);
    NoNewlineBefore(text, at);
    if stop < |text| { SplitHasNoNewline(text, stop + 1); }
  }

  lemma {:induction false} NoNewlineBefore(text: string, at: nat)
    requires at <= |text|
    ensures forall i :: at <= i < LineStop(text, at) ==> text[i] != '\n'
    decreases |text| - at
  {
    if at < |text| && text[at] != '\n' { NoNewlineBefore(text, at + 1); }
  }

  // ---- No newline comes in ----

  ghost predicate Clean(ls: seq<string>) {
    forall k :: 0 <= k < |ls| ==> NoNewline(ls[k])
  }

  lemma {:induction false} TailIsClean(lines: seq<string>, a: nat, b: nat)
    requires a <= b <= |lines| && Clean(lines)
    ensures NoNewline(Tail(lines, a, b))
    decreases b - a
  {
    if a < b { TailIsClean(lines, a + 1, b); }
  }

  lemma {:induction false} FilledIsClean(ws: seq<string>, cuts: seq<nat>, from: nat, lead: string, rest: string,
                                         columns: nat)
    requires from <= |ws| && Breaks(ws, cuts, from, Columns(lead), Columns(rest), columns)
    requires Clean(ws) && NoNewline(lead) && NoNewline(rest)
    ensures Clean(FilledLines(ws, cuts, from, lead, rest, columns))
    decreases |cuts|
  {
    if cuts != [] {
      JoinedHasNoNewline(ws, from, cuts[0]);
      FilledIsClean(ws, cuts[1..], cuts[0], rest, rest, columns);
    }
  }

  lemma {:induction false} WrittenIsClean(lines: seq<string>, fenced: bool, columns: nat)
    requires Clean(lines)
    ensures Clean(Written(Blocks(lines, fenced), columns))
    decreases |lines|
  {
    if lines != [] {
      var line := lines[0];
      if Kept(line, fenced) {
        WrittenIsClean(lines[1..], fenced != Fence(line), columns);
      } else {
        var k := Extent(lines, 1, |Rest(line)|);
        WrittenIsClean(lines[k..], fenced, columns);
        ParagraphIsClean(lines, k, columns);
      }
    }
  }

  lemma ParagraphIsClean(lines: seq<string>, k: nat, columns: nat)
    requires 0 < k <= |lines| && Clean(lines)
    ensures Clean(ParagraphLines(Lead(lines[0]), Rest(lines[0]), Words(Unit(lines, k), 0), columns))
  {
    var lead, rest, ws := Lead(lines[0]), Rest(lines[0]), Words(Unit(lines, k), 0);
    TailIsClean(lines, 1, k);
    LeadFits(lines[0]);
    WordsHaveNoNewline(Unit(lines, k), 0);
    GreedyBreaks(ws, 0, Columns(lead), Columns(rest), columns);
    FilledIsClean(ws, Greedy(ws, 0, Columns(lead), Columns(rest), columns), 0, lead, rest, columns);
  }

  /** A wrapped text reads back as what it was made of exactly where no wrapped
      line opens a fence or an item of its own. */
  lemma DocReadsBack(text: string, columns: nat)
    ensures var bs := Blocks(Split(text, 0), false);
            Blocks(Split(WrapText(text, columns), 0), false) == bs <==> Tame(bs, columns)
  {
    var lines := Split(text, 0);
    var bs := Blocks(lines, false);
    var ls := Written(bs, columns);
    SplitHasNoNewline(text, 0);
    WrittenIsClean(lines, false, columns);
    assert WrapText(text, columns)[0..] == JoinLines(ls);
    SplitJoined(ls, WrapText(text, columns), 0);
    TextReadsBack(lines, false, columns);
  }

  /** Then wrapping it again changes nothing. */
  lemma WrapDocIsFixpoint(text: string, columns: nat)
    requires Tame(Blocks(Split(text, 0), false), columns)
    ensures WrapText(WrapText(text, columns), columns) == WrapText(text, columns)
  {
    DocReadsBack(text, columns);
  }

  // ---- The loops ----

  lemma {:induction false} BlanksColumns(n: nat)
    ensures Columns(Blanks(n)) == n
  {
    if n > 0 {
      BlanksColumns(n - 1);
      assert Blanks(n)[..n - 1] == Blanks(n - 1);
    }
  }

  lemma {:induction false} TailMore(lines: seq<string>, a: nat, b: nat)
    requires a <= b < |lines|
    ensures Tail(lines, a, b + 1) == Tail(lines, a, b) + " " + Stripped(lines[b])
    decreases b - a
  {
    hide Stripped;
    var word := " " + Stripped(lines[b]);
    if a == b {
      assert Tail(lines, b + 1, b + 1) == "" && word + "" == word && "" + " " + Stripped(lines[b]) == word;
    } else {
      TailMore(lines, a + 1, b);
      Associate(" " + Stripped(lines[a]), Tail(lines, a + 1, b), " ");
      Associate(" " + Stripped(lines[a]), Tail(lines, a + 1, b) + " ", Stripped(lines[b]));
    }
  }

  method FindLineEnd(text: string, at: nat) returns (end: nat)
    requires at <= |text|
    ensures end == LineStop(text, at)
  {
    end := at;
    while end < |text| && text[end] != '\n'
      invariant at <= end <= |text| && LineStop(text, at) == LineStop(text, end)
    {
      end := end + 1;
    }
  }

  method DocIndent(line: string) returns (n: nat)
    ensures n == Indent(line)
  {
    n := 0;
    while n < |line| && line[n] == ' '
      invariant 0 <= n <= |line| && SpacesEnd(line, 0) == SpacesEnd(line, n)
    {
      n := n + 1;
    }
  }

  /** Behind the first `k` lines of the text from `at` on, `stop` is the end of
      the last of them. */
  ghost predicate Behind(text: string, lines: seq<string>, k: nat, stop: nat) {
    && k <= |lines| && stop <= |text|
    && (if stop == |text| then k == |lines| else lines[k..] == Split(text, stop + 1))
  }

  lemma NextLineOf(text: string, at: nat)
    requires at <= |text|
    ensures var (lines, stop) := (Split(text, at), LineStop(text, at));
            lines[0] == text[at..stop] && Behind(text, lines, 1, stop)
  {
  }

  lemma BehindNext(text: string, lines: seq<string>, k: nat, stop: nat)
    requires Behind(text, lines, k, stop) && stop < |text|
    ensures var next := LineStop(text, stop + 1);
            k < |lines| && lines[k] == text[stop + 1..next] && Behind(text, lines, k + 1, next)
  {
    var behind := Split(text, stop + 1);
    NextLineOf(text, stop + 1);
    assert behind[0] == lines[k] && behind[1..] == lines[k + 1..];
  }

  lemma UnitMore(opening: string, lines: seq<string>, k: nat)
    requires 1 <= k < |lines|
    ensures opening + Tail(lines, 1, k) + " " + Stripped(lines[k]) == opening + Tail(lines, 1, k + 1)
  {
    TailMore(lines, 1, k);
    Associate(opening, Tail(lines, 1, k), " ");
    Associate(opening, Tail(lines, 1, k) + " ", Stripped(lines[k]));
  }

  lemma TailOfNone(lines: seq<string>, a: nat)
    requires a <= |lines|
    ensures Tail(lines, a, a) == ""
  {
  }

  lemma ExtentMore(lines: seq<string>, k: nat, rest: nat)
    requires k <= |lines|
    ensures Extent(lines, k, rest) ==
            if k < |lines| && Continues(lines[k], rest) then Extent(lines, k + 1, rest) else k
  {
  }

  /** The lines that carry on the paragraph that opens at `at`, put behind its
      first. */
  method Gather(text: string, ghost at: nat, end: nat, opening: string, rest: string)
      returns (unit: string, stop: nat)
    requires at <= end <= |text| && end == LineStop(text, at) && |Lead(text[at..end])| <= end - at
    requires var line := text[at..end]; opening == line[|Lead(line)|..] && rest == Rest(line)
    ensures var (lines, r) := (Split(text, at), |rest|);
            var k := Extent(lines, 1, r);
            unit == Unit(lines, k) && Behind(text, lines, k, stop)
    ensures end <= stop <= |text|
  {
    hide Split, Extent, Tail, LineStop, Columns;
    ghost var lines, k := Split(text, at), 1;
    NextLineOf(text, at);
    BlanksColumns(|rest|);
    unit, stop := opening, end;
    assert Tail(lines, 1, 1) == "" by { TailOfNone(lines, 1); }
    assert unit + "" == unit;
    while stop < |text|
      invariant 1 <= k <= |lines| && Behind(text, lines, k, stop) && end <= stop <= |text|
      invariant Extent(lines, 1, |rest|) == Extent(lines, k, |rest|)
      invariant unit == opening + Tail(lines, 1, k)
    {
      BehindNext(text, lines, k, stop);
      var tail := FindLineEnd(text, stop + 1);
      var line := text[stop + 1..tail];
      var leadIn := DocIndent(line);
      ExtentMore(lines, k, |rest|);
      var columns := ColumnsOf(rest);
      if leadIn == |line| || "```" <= line[leadIn..] || "- " <= line[leadIn..] || leadIn != columns { break; }
      UnitMore(opening, lines, k);
      unit := unit + " " + line[leadIn..];
      stop := tail;
      k := k + 1;
    }
  }

  // ---- What is still to be written ----

  /** What the loop writes from `at` on, behind what it has written. */
  function Pending(text: string, at: nat, fenced: bool, first: bool, columns: nat): (s: string) {
    if at > |text| then ""
    else (if first then "" else "\n") + JoinLines(Written(Blocks(Split(text, at), fenced), columns))
  }

  lemma {:induction false} JoinsBoth(ls: seq<string>, more: seq<string>)
    requires ls != []
    ensures JoinLines(ls + more) == JoinLines(ls) + if more == [] then "" else "\n" + JoinLines(more)
    decreases |ls|
  {
    hide JoinLines;
    JoinsFirst(ls);
    JoinsFirst(ls + more);
    var tail := if more == [] then "" else "\n" + JoinLines(more);
    assert more == [] ==> ls + more == ls && JoinLines(ls) + "" == JoinLines(ls);
    if more != [] {
      assert (ls + more)[0] == ls[0];
      if |ls| == 1 {
        assert (ls + more)[1..] == more;
      } else {
        assert (ls + more)[1..] == ls[1..] + more;
        JoinsBoth(ls[1..], more);
        Associate("\n", JoinLines(ls[1..]), tail);
        Associate(ls[0], "\n" + JoinLines(ls[1..]), tail);
      }
    }
  }

  /** One block written, and the text behind it. */
  lemma OneBlock(text: string, at: nat, fenced: bool, columns: nat, b: Block, k: nat, stop: nat, within: bool)
    requires at <= |text| && k > 0 && Behind(text, Split(text, at), k, stop)
    requires Blocks(Split(text, at), fenced) == [b] + Blocks(Split(text, at)[k..], within)
    ensures Pending(text, at, fenced, true, columns) ==
            JoinLines(LinesOf(b, columns)) + Pending(text, stop + 1, within, false, columns)
  {
    hide JoinLines, Split, LinesOf;
    var lines := Split(text, at);
    var behind := Blocks(lines[k..], within);
    var more := Written(behind, columns);
    assert Written([b] + behind, columns) == LinesOf(b, columns) + more;
    JoinsBoth(LinesOf(b, columns), more);
    assert Pending(text, at, fenced, true, columns) == JoinLines(LinesOf(b, columns) + more) by {
      assert "" + JoinLines(LinesOf(b, columns) + more) == JoinLines(LinesOf(b, columns) + more);
    }
  }

  lemma NoBlocks(fenced: bool, columns: nat)
    ensures Blocks([], fenced) == [] && Written([], columns) == []
  {
  }

  /** The lines of a paragraph are the text the fill of it writes. */
  lemma {:induction false} FilledIsText(ws: seq<string>, cuts: seq<nat>, from: nat, lead: string, rest: string,
                                        columns: nat)
    requires from <= |ws| && cuts != [] && Breaks(ws, cuts, from, Columns(lead), Columns(rest), columns)
    ensures JoinLines(FilledLines(ws, cuts, from, lead, rest, columns)) ==
            lead + Rendered(ws, cuts, from, Columns(lead), rest, columns)
    decreases |cuts|
  {
    hide JoinLines;
    var ls, line := FilledLines(ws, cuts, from, lead, rest, columns), Joined(ws, from, cuts[0]);
    JoinsFirst(ls);
    if |cuts| == 1 {
      assert line + "" == line;
    } else {
      var behind := Rendered(ws, cuts[1..], cuts[0], Columns(rest), rest, columns);
      FilledIsText(ws, cuts[1..], cuts[0], rest, rest, columns);
      assert ls[1..] == FilledLines(ws, cuts[1..], cuts[0], rest, rest, columns);
      Associate("\n", rest, behind);
      Associate(lead, line, "\n" + (rest + behind));
    }
  }

  lemma ParagraphIsText(lead: string, rest: string, ws: seq<string>, columns: nat)
    ensures JoinLines(ParagraphLines(lead, rest, ws, columns)) == Paragraph(lead, rest, ws, columns)
  {
    if ws == [] {
      assert lead + "" == lead;
    } else {
      GreedyBreaks(ws, 0, Columns(lead), Columns(rest), columns);
      FilledIsText(ws, Greedy(ws, 0, Columns(lead), Columns(rest), columns), 0, lead, rest, columns);
    }
  }

  lemma KeptPending(text: string, at: nat, fenced: bool, columns: nat)
    requires at <= |text| && Kept(text[at..LineStop(text, at)], fenced)
    ensures var end := LineStop(text, at);
            var line := text[at..end];
            Pending(text, at, fenced, true, columns) ==
            line + Pending(text, end + 1, fenced != Fence(line), false, columns)
  {
    var end := LineStop(text, at);
    var line := text[at..end];
    NextLineOf(text, at);
    OneBlock(text, at, fenced, columns, Copied(line), 1, end, fenced != Fence(line));
  }

  lemma PlacePending(text: string, at: nat, columns: nat, k: nat, stop: nat)
    requires at <= |text| && !Kept(text[at..LineStop(text, at)], false)
    requires var lines := Split(text, at);
             k == Extent(lines, 1, |Rest(lines[0])|) && Behind(text, lines, k, stop)
    ensures var lines := Split(text, at);
            Pending(text, at, false, true, columns) ==
            Paragraph(Lead(lines[0]), Rest(lines[0]), Words(Unit(lines, k), 0), columns) +
            Pending(text, stop + 1, false, false, columns)
  {
    var lines := Split(text, at);
    var b := Filling(Lead(lines[0]), Rest(lines[0]), Words(Unit(lines, k), 0));
    NextLineOf(text, at);
    OneBlock(text, at, false, columns, b, k, stop, false);
    ParagraphIsText(b.lead, b.rest, b.words, columns);
  }

  /** The text of a doc comment wrapped to what `used` columns leave. */
  method WrapDoc(text: string, used: nat) returns (out: string)
    ensures out == WrapText(text, if used < 80 then 80 - used else 1)
  {
    hide Pending, WrapText, LineStop, SpacesEnd;
    var columns := if used < WRAP_COLUMNS then WRAP_COLUMNS - used else 1;
    ghost var whole := WrapText(text, columns);
    out := "";
    var i, fenced, first := 0, false, true;
    FirstPending(text, columns);
    while i <= |text|
      invariant 0 <= i <= |text| + 1
      invariant out + Pending(text, i, fenced, first, columns) == whole
      decreases |text| + 1 - i
    {
      var end := FindLineEnd(text, i);
      Opened(out, text, i, fenced, first, columns, whole);
      if !first { out := out + "\n"; }
      first := false;
      var line := text[i..end];
      var indent := DocIndent(line);
      if "```" <= line[indent..] {
        KeptPending(text, i, fenced, columns);
        Associate(out, line, Pending(text, end + 1, !fenced, false, columns));
        fenced := !fenced;
        out, i := out + line, end + 1;
        continue;
      }
      if fenced || indent == |line| {
        KeptPending(text, i, fenced, columns);
        Associate(out, line, Pending(text, end + 1, fenced, false, columns));
        out, i := out + line, end + 1;
        continue;
      }
      var bullet := "- " <= line[indent..];
      if indent + 2 >= LEAD_ROOM {
        KeptPending(text, i, fenced, columns);
        Associate(out, line, Pending(text, end + 1, fenced, false, columns));
        out, i := out + line, end + 1;
        continue;
      }
      var filled, stop := WrapOne(text, i, end, line, indent, bullet, columns);
      Associate(out, filled, Pending(text, stop + 1, false, false, columns));
      out, i := out + filled, stop + 1;
    }
    assert Pending(text, i, fenced, first, columns) == "" by { LastPending(text, i, fenced, first, columns); }
    assert out + "" == out;
  }

  lemma FirstPending(text: string, columns: nat)
    ensures "" + Pending(text, 0, false, true, columns) == WrapText(text, columns)
  {
    assert "" + WrapText(text, columns) == WrapText(text, columns);
  }

  lemma LastPending(text: string, at: nat, fenced: bool, first: bool, columns: nat)
    requires at > |text|
    ensures Pending(text, at, fenced, first, columns) == ""
  {
  }

  lemma Opened(out: string, text: string, at: nat, fenced: bool, first: bool, columns: nat, whole: string)
    requires at <= |text| && out + Pending(text, at, fenced, first, columns) == whole
    ensures (if first then out else out + "\n") + Pending(text, at, fenced, true, columns) == whole
  {
    var s := JoinLines(Written(Blocks(Split(text, at), fenced), columns));
    assert "" + s == s;
    Associate(out, "\n", s);
  }

  /** The paragraph that opens with `line`. */
  method WrapOne(text: string, ghost at: nat, end: nat, line: string, indent: nat, bullet: bool, columns: nat)
      returns (filled: string, stop: nat)
    requires at <= |text| && end == LineStop(text, at) && line == text[at..end] && !Kept(line, false)
    requires indent == Indent(line) && (bullet <==> Item(line))
    ensures end <= stop <= |text|
    ensures Pending(text, at, false, true, columns) == filled + Pending(text, stop + 1, false, false, columns)
  {
    var mark := if bullet then "- " else "";
    var lead, rest := Blanks(indent) + mark, Blanks(indent + |mark|);
    NextLineOf(text, at);
    LeadFits(line);
    var unit;
    unit, stop := Gather(text, at, end, line[|lead|..], rest);
    filled := WrapParagraph(lead, rest, unit, columns);
    PlacePending(text, at, columns, Extent(Split(text, at), 1, |rest|), stop);
  }

  // ---- A text that changes when it is wrapped again ----

  /** A line that is a dash alone, and what carries its paragraph on. */
  const DASHED := "-\nx\n  y"

  lemma OneLine(lead: string, rest: string, ws: seq<string>, columns: nat)
    requires ws != [] && Columns(lead) + LineWidth(ws, 0, |ws|) <= columns
    ensures ParagraphLines(lead, rest, ws, columns) == [lead + Joined(ws, 0, |ws|)]
  {
    LineEndIsFurthest(ws, columns, 0, Columns(lead));
    assert Fits(ws, Columns(lead), columns, 0, |ws|);
    assert Greedy(ws, 0, Columns(lead), Columns(rest), columns) == [|ws|];
  }

  lemma TwoWords(a: string, b: string)
    requires Word(a) && Word(b) && Columns(a) == 1 && Columns(b) == 1
    ensures Words(a + " " + b, 0) == [a, b] && Joined([a, b], 0, 2) == a + " " + b && LineWidth([a, b], 0, 2) == 3
  {
    var text := a + " " + b;
    assert Joined([a, b], 0, 2) == text && text[0..] == text;
    WordsOfJoined([a, b], 0, 2, text, 0, Words(text, 0));
    assert [a, b][0..2] == [a, b];
  }

  lemma OneWord(a: string)
    requires Word(a) && Columns(a) == 1
    ensures Words(a, 0) == [a] && Joined([a], 0, 1) == a && LineWidth([a], 0, 1) == 1
  {
    assert Joined([a], 0, 1) == a && a[0..] == a;
    WordsOfJoined([a], 0, 1, a, 0, Words(a, 0));
    assert [a][0..1] == [a];
  }

  lemma ShortColumns()
    ensures Columns("") == 0 && Columns("-") == 1 && Columns("x") == 1 && Columns("y") == 1
    ensures Columns("  ") == 2 && Columns("- ") == 2
  {
    assert "-"[..0] == "" && "x"[..0] == "" && "y"[..0] == "" && "  "[..1] == " " && " "[..0] == "" && "- "[..1] == "-";
  }

  lemma ShortLines()
    ensures Indent("-") == 0 && Stripped("-") == "-" && Indent("x") == 0 && Stripped("x") == "x"
    ensures Indent("  y") == 2 && Stripped("  y") == "y" && Indent("- x") == 0 && Stripped("- x") == "- x"
    ensures Blanks(0) == "" && Blanks(2) == "  "
  {
    assert Blanks(0) == "" && Blanks(2) == "  ";
    assert "" + "-" == "-" && "" + "x" == "x" && "  " + "y" == "  y" && "" + "- x" == "- x";
    IndentIs(0, "-");
    IndentIs(0, "x");
    IndentIs(2, "y");
    IndentIs(0, "- x");
  }

  /** The first paragraph of some lines, on one line of its own. */
  lemma FirstOfLines(lines: seq<string>, k: nat, lead: string, rest: string, ws: seq<string>, columns: nat)
    requires lines != [] && !Kept(lines[0], false) && k == Extent(lines, 1, |rest|)
    requires lead == Lead(lines[0]) && rest == Rest(lines[0]) && ws == Words(Unit(lines, k), 0)
    requires ws != [] && Columns(lead) + LineWidth(ws, 0, |ws|) <= columns
    ensures Blocks(lines, false) == [Filling(lead, rest, ws)] + Blocks(lines[k..], false)
    ensures Written(Blocks(lines, false), columns) ==
            [lead + Joined(ws, 0, |ws|)] + Written(Blocks(lines[k..], false), columns)
  {
    var b, behind := Filling(lead, rest, ws), Blocks(lines[k..], false);
    OneLine(lead, rest, ws, columns);
    assert ([b] + behind)[1..] == behind;
  }

  lemma OneContinues(lines: seq<string>, rest: nat)
    requires |lines| >= 2 && Continues(lines[1], rest) && (|lines| > 2 ==> !Continues(lines[2], rest))
    ensures Extent(lines, 1, rest) == 2 && Tail(lines, 1, 2) == " " + Stripped(lines[1])
  {
    assert Tail(lines, 2, 2) == "";
    assert " " + Stripped(lines[1]) + "" == " " + Stripped(lines[1]);
  }

  lemma LastOfThree(columns: nat)
    requires columns >= 5
    ensures Blocks(["  y"], false) == [Filling("  ", "  ", ["y"])]
    ensures Written(Blocks(["  y"], false), columns) == ["  y"]
  {
    hide Blocks, Words, Columns, Extent, Written, Joined, LineWidth;
    ShortLines();
    ShortColumns();
    OneWord("y");
    var lines := ["  y"];
    assert "y" + "" == "y" && "  " + "" == "  " && "  y"[2..] == "y" && lines[1..] == [];
    assert Extent(lines, 1, 2) == 1 && "  " + "y" == "  y" && Joined(["y"], 0, |["y"]|) == "y";
    TailOfNone(lines, 1);
    assert Unit(lines, 1) == "y";
    FirstOfLines(lines, 1, "  ", "  ", ["y"], columns);
    NoBlocks(false, columns);
  }

  lemma FirstPass(columns: nat)
    requires columns >= 5
    ensures Written(Blocks(["-", "x", "  y"], false), columns) == ["- x", "  y"]
  {
    hide Blocks, Words, Columns, Extent, Written, Joined, LineWidth, Tail;
    ShortLines();
    ShortColumns();
    TwoWords("-", "x");
    LastOfThree(columns);
    var lines := ["-", "x", "  y"];
    assert lines[2..] == ["  y"] && "" + "" == "" && "-"[0..] == "-" && "-" + (" " + "x") == "- x";
    OneContinues(lines, 0);
    assert Lead("-") == "" && Rest("-") == "" && Unit(lines, 2) == "- x" && "-" + " " + "x" == "- x";
    assert "" + Joined(["-", "x"], 0, 2) == "- x";
    FirstOfLines(lines, 2, "", "", ["-", "x"], columns);
  }

  lemma SecondPass(columns: nat)
    requires columns >= 5
    ensures Written(Blocks(["- x", "  y"], false), columns) == ["- x y"]
  {
    hide Blocks, Words, Columns, Extent, Written, Joined, LineWidth, Tail;
    ShortLines();
    ShortColumns();
    TwoWords("x", "y");
    var lines := ["- x", "  y"];
    assert lines[2..] == [] && "" + "- " == "- " && "- x"[2..] == "x" && "x" + (" " + "y") == "x y";
    OneContinues(lines, 2);
    assert Lead("- x") == "- " && Rest("- x") == "  " && Unit(lines, 2) == "x y" && "x" + " " + "y" == "x y";
    assert "- " + Joined(["x", "y"], 0, 2) == "- x y";
    FirstOfLines(lines, 2, "- ", "  ", ["x", "y"], columns);
    NoBlocks(false, columns);
  }

  /** The dash comes to open its line, so the text behind it is taken for the
      rest of an item, and wrapping again joins what was apart. */
  lemma WrappedTwiceChanges(columns: nat)
    requires columns >= 5
    ensures WrapText(DASHED, columns) == "- x\n  y" && WrapText("- x\n  y", columns) == "- x y"
    ensures !Tame(Blocks(Split(DASHED, 0), false), columns)
  {
    hide JoinLines, Split, Blocks, Written;
    var once := "- x\n  y";
    SplitDashed();
    FirstPass(columns);
    SecondPass(columns);
    if Tame(Blocks(Split(DASHED, 0), false), columns) { WrapDocIsFixpoint(DASHED, columns); }
  }

  lemma SplitDashed()
    ensures Split(DASHED, 0) == ["-", "x", "  y"] && Split("- x\n  y", 0) == ["- x", "  y"]
    ensures JoinLines(["- x", "  y"]) == "- x\n  y" && JoinLines(["- x y"]) == "- x y"
  {
    hide Split;
    var once := "- x\n  y";
    var three, two: seq<string> := ["-", "x", "  y"], ["- x", "  y"];
    assert three[1..] == ["x", "  y"] && ["x", "  y"][1..] == ["  y"] && two[1..] == ["  y"];
    assert JoinLines(three) == DASHED && DASHED[0..] == DASHED;
    SplitJoined(three, DASHED, 0);
    assert JoinLines(two) == once && once[0..] == once;
    SplitJoined(two, once, 0);
  }
}

/** The reader of Deflate.dfy undoes the written form, and takes nothing
    else: both directions, from one symbol up to a whole stream. */
module DeflateTheorems {
  import opened Bits
  import opened Huffman
  import opened Options
  import opened Deflate

  // ---- One symbol, one field ----

  lemma SymbolRead(lens: seq<nat>, s: nat, rest: seq<bool>)
    requires Codeable(lens) && Coded(lens, s)
    ensures NextSymbol(lens, Code(lens, s) + rest) == Got(s, rest)
  {
    var bits := Code(lens, s) + rest;
    assert Code(lens, s) <= bits;
    var r := NextSymbol(lens, bits);
    UniqueSymbol(lens, s, r.value, bits);
    assert bits[lens[s]..] == rest;
  }

  lemma FieldRead(v: nat, n: nat, rest: seq<bool>)
    requires v < Pow2(n)
    ensures Take(BitsOf(v, n) + rest, n) == Got(v, rest)
  {
    ValueOfBitsOf(v, n);
    assert (BitsOf(v, n) + rest)[..n] == BitsOf(v, n);
    assert (BitsOf(v, n) + rest)[n..] == rest;
  }

  lemma FieldWritten(bits: seq<bool>, n: nat)
    requires Take(bits, n).Got?
    ensures bits == BitsOf(Take(bits, n).value, n) + Take(bits, n).rest
  {
    BitsOfValueOf(bits[..n]);
  }

  // ---- Tokens ----

  /** The output a reader may hold: none past the limit. */
  function Within(r: Option<seq<byte>>, limit: nat): (r': Option<seq<byte>>) {
    if r.Some? && |r.value| <= limit then r else None
  }

  lemma {:induction false} ExpandGrows(w: seq<byte>, ts: seq<Token>)
    ensures Expand(w, ts).Some? ==> |w| <= |Expand(w, ts).value|
    decreases |ts|
  {
    if ts != [] && ExpandToken(w, ts[0]).Some? {
      ExpandGrows(ExpandToken(w, ts[0]).value, ts[1..]);
    }
  }

  lemma Reassociate(a: seq<bool>, b: seq<bool>, c: seq<bool>)
    ensures a + b + c == a + (b + c)
  {
  }

  lemma Reassociate3(a: seq<bool>, b: seq<bool>, c: seq<bool>, d: seq<bool>)
    ensures a + b + c + d == a + (b + (c + d))
  {
  }

  lemma CopyRead(dists: seq<nat>, t: Token, rest: seq<bool>)
    requires Codeable(dists) && ValidCopy(dists, t)
    ensures ReadCopyToken(dists, t.length, CopyBits(dists, t) + rest) == Got(t, rest)
  {
    var bits2 := BitsOf(t.dmore, DEXTRA[t.distance]) + rest;
    var bits1 := Code(dists, t.distance) + bits2;
    Reassociate3(BitsOf(t.more, EXTRA[t.length]), Code(dists, t.distance),
                 BitsOf(t.dmore, DEXTRA[t.distance]), rest);
    FieldRead(t.more, EXTRA[t.length], bits1);
    SymbolRead(dists, t.distance, bits2);
    FieldRead(t.dmore, DEXTRA[t.distance], rest);
  }

  /** What a block gives from behind one of its symbols. */
  ghost function OnSymbol(lens: seq<nat>, dists: seq<nat>, symbol: nat, rest: seq<bool>, w: seq<byte>, limit: nat)
      : (r: Read<seq<byte>>)
    requires |w| <= limit
  {
    if symbol < 256 then
      if |w| < limit then ReadTokens(lens, dists, rest, w + [symbol], limit) else Fail
    else if symbol == 256 then Got(w, rest)
    else if symbol - 257 >= 29 then Fail
    else
      match ReadCopy(dists, symbol - 257, rest, w, limit)
      case Fail => Fail
      case Got(w', rest') => ReadTokens(lens, dists, rest', w', limit)
  }

  lemma TokensUnfold(lens: seq<nat>, dists: seq<nat>, bits: seq<bool>, w: seq<byte>, limit: nat, s: Read<nat>,
                     r: Read<seq<byte>>)
    requires |w| <= limit && s == NextSymbol(lens, bits) && r == ReadTokens(lens, dists, bits, w, limit)
    ensures s.Fail? ==> r.Fail?
    ensures s.Got? ==> r == OnSymbol(lens, dists, s.value, s.rest, w, limit) && |s.rest| < |bits|
  {
  }

  lemma CopyUnfolds(dists: seq<nat>, bits: seq<bool>, t: Token, rest: seq<bool>, w: seq<byte>, limit: nat,
                    e: Option<seq<byte>>)
    requires t.Copy? && t.length < 29 && |w| <= limit && ReadCopyToken(dists, t.length, bits) == Got(t, rest)
    requires e == ExpandToken(w, t)
    ensures ReadCopy(dists, t.length, bits, w, limit) ==
            if e.Some? && |e.value| <= limit then Got(e.value, rest) else Fail
  {
  }

  lemma TokenRead(lens: seq<nat>, dists: seq<nat>, t: Token, rest: seq<bool>, w: seq<byte>, limit: nat)
    requires Codeable(lens) && Codeable(dists) && ValidToken(lens, dists, t) && |w| <= limit
    ensures ReadTokens(lens, dists, TokenBits(lens, dists, t) + rest, w, limit)
         == match Within(ExpandToken(w, t), limit)
            case None => Fail
            case Some(w') => ReadTokens(lens, dists, rest, w', limit)
  {
    if t.Literal? {
      var bits := TokenBits(lens, dists, t) + rest;
      SymbolRead(lens, t.b, rest);
      TokensUnfold(lens, dists, bits, w, limit, NextSymbol(lens, bits), ReadTokens(lens, dists, bits, w, limit));
    } else {
      CopyTokenRead(lens, dists, t, rest, w, limit);
    }
  }

  lemma CopyTokenRead(lens: seq<nat>, dists: seq<nat>, t: Token, rest: seq<bool>, w: seq<byte>, limit: nat)
    requires Codeable(lens) && Codeable(dists) && t.Copy? && ValidToken(lens, dists, t) && |w| <= limit
    ensures ReadTokens(lens, dists, TokenBits(lens, dists, t) + rest, w, limit)
         == match Within(ExpandToken(w, t), limit)
            case None => Fail
            case Some(w') => ReadTokens(lens, dists, rest, w', limit)
  {
    var bits, tail := CopyHead(lens, dists, t, rest);
    CopyFollows(lens, dists, bits, tail, t, rest, w, limit, ExpandToken(w, t));
  }

  /** The symbol of a copy read, and the copy behind it. */
  lemma CopyHead(lens: seq<nat>, dists: seq<nat>, t: Token, rest: seq<bool>) returns (bits: seq<bool>, tail: seq<bool>)
    requires Codeable(lens) && Codeable(dists) && t.Copy? && ValidToken(lens, dists, t)
    ensures bits == TokenBits(lens, dists, t) + rest
    ensures NextSymbol(lens, bits) == Got(257 + t.length, tail)
    ensures ReadCopyToken(dists, t.length, tail) == Got(t, rest)
  {
    tail := CopyBits(dists, t) + rest;
    bits := Code(lens, 257 + t.length) + tail;
    Reassociate(Code(lens, 257 + t.length), CopyBits(dists, t), rest);
    SymbolRead(lens, 257 + t.length, tail);
    CopyRead(dists, t, rest);
  }

  lemma CopyFollows(lens: seq<nat>, dists: seq<nat>, bits: seq<bool>, tail: seq<bool>, t: Token, rest: seq<bool>,
                    w: seq<byte>, limit: nat, e: Option<seq<byte>>)
    requires t.Copy? && t.length < 29 && |w| <= limit && e == ExpandToken(w, t)
    requires NextSymbol(lens, bits) == Got(257 + t.length, tail)
    requires ReadCopyToken(dists, t.length, tail) == Got(t, rest)
    ensures ReadTokens(lens, dists, bits, w, limit)
         == match Within(e, limit)
            case None => Fail
            case Some(w') => ReadTokens(lens, dists, rest, w', limit)
  {
    CopyUnfolds(dists, tail, t, rest, w, limit, e);
    TokensUnfold(lens, dists, bits, w, limit, Got(257 + t.length, tail), ReadTokens(lens, dists, bits, w, limit));
  }

  /** Reading written tokens expands them, unless they pass the limit. */
  lemma {:induction false} TokensRead(lens: seq<nat>, dists: seq<nat>, ts: seq<Token>, rest: seq<bool>,
                                      w: seq<byte>, limit: nat)
    requires Codeable(lens) && Codeable(dists) && Coded(lens, END_OF_BLOCK)
    requires ValidTokens(lens, dists, ts) && |w| <= limit
    ensures ReadTokens(lens, dists, TokensBits(lens, dists, ts) + rest, w, limit)
         == match Within(Expand(w, ts), limit)
            case None => Fail
            case Some(w') => Got(w', rest)
    decreases |ts|
  {
    if ts == [] {
      SymbolRead(lens, END_OF_BLOCK, rest);
    } else {
      var rest' := TokensBits(lens, dists, ts[1..]) + rest;
      assert TokensBits(lens, dists, ts) + rest == TokenBits(lens, dists, ts[0]) + rest';
      TokenRead(lens, dists, ts[0], rest', w, limit);
      match ExpandToken(w, ts[0])
      case None =>
      case Some(w') =>
        ExpandGrows(w', ts[1..]);
        if |w'| <= limit { TokensRead(lens, dists, ts[1..], rest, w', limit); }
    }
  }

  /** Whatever the reader takes as a block of tokens is one. */
  lemma {:induction false} TokensWritten(lens: seq<nat>, dists: seq<nat>, bits: seq<bool>, w: seq<byte>,
                                         limit: nat) returns (ts: seq<Token>)
    requires |w| <= limit && ReadTokens(lens, dists, bits, w, limit).Got?
    ensures ValidTokens(lens, dists, ts) && Coded(lens, END_OF_BLOCK)
    ensures bits == TokensBits(lens, dists, ts) + ReadTokens(lens, dists, bits, w, limit).rest
    ensures Expand(w, ts) == Some(ReadTokens(lens, dists, bits, w, limit).value)
    decreases |bits|
  {
    var Got(symbol, rest1) := NextSymbol(lens, bits);
    if symbol == 256 {
      ts := [];
    } else {
      var t, rest, w' := OneTokenWritten(lens, dists, bits, w, limit);
      var more := TokensWritten(lens, dists, rest, w', limit);
      ts := [t] + more;
      assert ts[1..] == more;
      Reassociate(TokenBits(lens, dists, t), TokensBits(lens, dists, more),
                  ReadTokens(lens, dists, rest, w', limit).rest);
    }
  }

  lemma CopyWritten(dists: seq<nat>, l: nat, bits: seq<bool>)
    requires l < 29 && ReadCopyToken(dists, l, bits).Got?
    ensures bits == CopyBits(dists, ReadCopyToken(dists, l, bits).value) + ReadCopyToken(dists, l, bits).rest
  {
    var Got(more, bits1) := Take(bits, EXTRA[l]);
    var Got(d, bits2) := NextSymbol(dists, bits1);
    var Got(dmore, bits3) := Take(bits2, DEXTRA[d]);
    FieldWritten(bits, EXTRA[l]);
    FieldWritten(bits2, DEXTRA[d]);
    Reassociate3(BitsOf(more, EXTRA[l]), Code(dists, d), BitsOf(dmore, DEXTRA[d]), bits3);
  }

  lemma OneTokenWritten(lens: seq<nat>, dists: seq<nat>, bits: seq<bool>, w: seq<byte>, limit: nat)
      returns (t: Token, rest: seq<bool>, w': seq<byte>)
    requires |w| <= limit && ReadTokens(lens, dists, bits, w, limit).Got?
    requires NextSymbol(lens, bits).value != 256
    ensures ValidToken(lens, dists, t) && bits == TokenBits(lens, dists, t) + rest
    ensures ExpandToken(w, t) == Some(w') && |w'| <= limit && |rest| < |bits|
    ensures ReadTokens(lens, dists, bits, w, limit) == ReadTokens(lens, dists, rest, w', limit)
  {
    var Got(symbol, rest1) := NextSymbol(lens, bits);
    if symbol < 256 {
      t, rest, w' := Literal(symbol), rest1, w + [symbol];
    } else {
      CopyWritten(dists, symbol - 257, rest1);
      t := ReadCopyToken(dists, symbol - 257, rest1).value;
      var r := ReadCopy(dists, symbol - 257, rest1, w, limit);
      rest, w' := r.rest, r.value;
      Reassociate(Code(lens, symbol), CopyBits(dists, t), rest);
    }
  }

  // ---- The lengths of a dynamic block ----

  lemma {:induction false} AddItemsGrow(lens: seq<nat>, items: seq<LengthItem>)
    ensures AddItems(lens, items).Some? ==> |lens| <= |AddItems(lens, items).value|
    decreases |items|
  {
    if items != [] && AddItem(lens, items[0]).Some? {
      AddItemsGrow(AddItem(lens, items[0]).value, items[1..]);
    }
  }

  lemma RunRead(item: LengthItem, total: nat, rest: seq<bool>, lens: seq<nat>)
    requires !item.OneLength? && RunSymbol(item).2 <= item.times
    requires item.times - RunSymbol(item).2 < Pow2(RunSymbol(item).1)
    requires AddItem(lens, item).Some? && |AddItem(lens, item).value| <= total
    ensures ReadRun(RunSymbol(item).0, total,
                    BitsOf(item.times - RunSymbol(item).2, RunSymbol(item).1) + rest, lens)
         == Got(AddItem(lens, item).value, rest)
  {
    var (symbol, width, least) := RunSymbol(item);
    FieldRead(item.times - least, width, rest);
  }

  lemma LengthsStep(table: seq<nat>, total: nat, bits: seq<bool>, lens: seq<nat>,
                    symbol: nat, rest: seq<bool>)
    requires |lens| < total && NextSymbol(table, bits) == Got(symbol, rest) && symbol >= 16
    ensures ReadLengths(table, total, bits, lens)
         == match ReadRun(symbol, total, rest, lens)
            case Fail => Fail
            case Got(lens', rest') => ReadLengths(table, total, rest', lens')
  {
  }

  lemma ItemRead(table: seq<nat>, total: nat, item: LengthItem, rest: seq<bool>, lens: seq<nat>)
    requires Codeable(table) && ValidItem(table, item)
    requires AddItem(lens, item).Some? && |lens| < |AddItem(lens, item).value| <= total
    ensures ReadLengths(table, total, ItemBits(table, item) + rest, lens)
         == ReadLengths(table, total, rest, AddItem(lens, item).value)
  {
    if item.OneLength? {
      SymbolRead(table, item.n, rest);
    } else {
      var (symbol, width, least) := RunSymbol(item);
      var count := BitsOf(item.times - least, width);
      Reassociate(Code(table, symbol), count, rest);
      SymbolRead(table, symbol, count + rest);
      RunRead(item, total, rest, lens);
      LengthsStep(table, total, ItemBits(table, item) + rest, lens, symbol, count + rest);
    }
  }

  lemma {:induction false} ItemsRead(table: seq<nat>, total: nat, items: seq<LengthItem>, rest: seq<bool>,
                                     lens: seq<nat>)
    requires Codeable(table) && ValidItems(table, items)
    requires AddItems(lens, items).Some? && |AddItems(lens, items).value| == total
    requires |lens| <= total
    ensures ReadLengths(table, total, ItemsBits(table, items) + rest, lens)
         == Got(AddItems(lens, items).value, rest)
    decreases |items|
  {
    if items == [] {
      assert ItemsBits(table, items) + rest == rest;
    } else {
      var lens' := AddItem(lens, items[0]).value;
      var rest' := ItemsBits(table, items[1..]) + rest;
      assert ItemsBits(table, items) + rest == ItemBits(table, items[0]) + rest';
      AddItemsGrow(lens', items[1..]);
      ItemRead(table, total, items[0], rest', lens);
      ItemsRead(table, total, items[1..], rest, lens');
    }
  }

  lemma RunWritten(symbol: nat, total: nat, bits: seq<bool>, lens: seq<nat>) returns (item: LengthItem)
    requires 16 <= symbol < 19 && ReadRun(symbol, total, bits, lens).Got?
    ensures !item.OneLength? && RunSymbol(item).0 == symbol && RunSymbol(item).2 <= item.times
    ensures item.times - RunSymbol(item).2 < Pow2(RunSymbol(item).1)
    ensures bits == BitsOf(item.times - RunSymbol(item).2, RunSymbol(item).1)
                    + ReadRun(symbol, total, bits, lens).rest
    ensures AddItem(lens, item) == Some(ReadRun(symbol, total, bits, lens).value)
  {
    var width := if symbol == 16 then 2 else if symbol == 17 then 3 else 7;
    var Got(times, rest) := Take(bits, width);
    FieldWritten(bits, width);
    item := if symbol == 16 then RepeatLast(times + 3)
            else if symbol == 17 then FewZeros(times + 3)
            else ManyZeros(times + 11);
  }

  lemma OneItemWritten(table: seq<nat>, total: nat, bits: seq<bool>, lens: seq<nat>)
      returns (item: LengthItem, rest: seq<bool>, lens': seq<nat>)
    requires |table| == 19 && |lens| < total && ReadLengths(table, total, bits, lens).Got?
    ensures ValidItem(table, item) && bits == ItemBits(table, item) + rest && |rest| < |bits|
    ensures AddItem(lens, item) == Some(lens') && |lens'| <= total
    ensures ReadLengths(table, total, bits, lens) == ReadLengths(table, total, rest, lens')
  {
    var Got(symbol, rest1) := NextSymbol(table, bits);
    if symbol < 16 {
      item, rest, lens' := OneLength(symbol), rest1, lens + [symbol];
    } else {
      LengthsStep(table, total, bits, lens, symbol, rest1);
      item := RunWritten(symbol, total, rest1, lens);
      var r := ReadRun(symbol, total, rest1, lens);
      rest, lens' := r.rest, r.value;
      Reassociate(Code(table, symbol), BitsOf(item.times - RunSymbol(item).2, RunSymbol(item).1), rest);
    }
  }

  lemma {:induction false} ItemsWritten(table: seq<nat>, total: nat, bits: seq<bool>, lens: seq<nat>)
      returns (items: seq<LengthItem>)
    requires |table| == 19 && |lens| <= total && ReadLengths(table, total, bits, lens).Got?
    ensures ValidItems(table, items)
    ensures bits == ItemsBits(table, items) + ReadLengths(table, total, bits, lens).rest
    ensures AddItems(lens, items) == Some(ReadLengths(table, total, bits, lens).value)
    decreases |bits|
  {
    if |lens| == total {
      items := [];
    } else {
      var item, rest, lens' := OneItemWritten(table, total, bits, lens);
      var more := ItemsWritten(table, total, rest, lens');
      items := [item] + more;
      assert items[1..] == more;
      Reassociate(ItemBits(table, item), ItemsBits(table, more), ReadLengths(table, total, rest, lens').rest);
    }
  }

  lemma {:induction false} FirstRead(first: seq<nat>, rest: seq<bool>)
    requires forall i :: 0 <= i < |first| ==> first[i] < 8
    ensures ReadFirst(|first|, Bits3(first) + rest) == Got(first, rest)
  {
    if first == [] {
      assert Bits3(first) + rest == rest;
    } else {
      var m := |first| - 1;
      var rest' := BitsOf(first[m], 3) + rest;
      assert Bits3(first) + rest == Bits3(first[..m]) + rest';
      FirstRead(first[..m], rest');
      assert Pow2(3) == 8;
      FieldRead(first[m], 3, rest);
      assert first[..m] + [first[m]] == first;
    }
  }

  lemma {:induction false} FirstWritten(n: nat, bits: seq<bool>)
    requires ReadFirst(n, bits).Got?
    ensures bits == Bits3(ReadFirst(n, bits).value) + ReadFirst(n, bits).rest
  {
    if n > 0 {
      FirstWritten(n - 1, bits);
      FieldWritten(ReadFirst(n - 1, bits).rest, 3);
      var first := ReadFirst(n, bits).value;
      assert first[..n - 1] == ReadFirst(n - 1, bits).value;
    }
  }

  lemma CodesSteps(literals: nat, distances: nat, bits: seq<bool>, first: seq<nat>, bits1: seq<bool>,
                   lens: seq<nat>, rest: seq<bool>)
    requires |first| <= 19 && ReadFirst(|first|, bits) == Got(first, bits1)
    requires Codeable(LengthTable(first))
    requires ReadLengths(LengthTable(first), literals + distances, bits1, []) == Got(lens, rest)
    ensures ReadCodes(literals, distances, |first|, bits)
         == if Codeable(lens[..literals]) && Codeable(lens[literals..])
            then Got((lens[..literals], lens[literals..]), rest) else Fail
  {
  }

  lemma PartsRead(first: seq<nat>, literals: nat, distances: nat, items: seq<LengthItem>, lens: seq<nat>,
                  rest: seq<bool>)
    requires |first| <= 19 && (forall i :: 0 <= i < |first| ==> first[i] < 8)
    requires Codeable(LengthTable(first)) && ValidItems(LengthTable(first), items)
    requires AddItems([], items) == Some(lens) && |lens| == literals + distances
    requires Codeable(lens[..literals]) && Codeable(lens[literals..])
    ensures ReadCodes(literals, distances, |first|, Bits3(first) + ItemsBits(LengthTable(first), items) + rest)
         == Got((lens[..literals], lens[literals..]), rest)
  {
    var table := LengthTable(first);
    var bits := ItemsBits(table, items) + rest;
    Reassociate(Bits3(first), ItemsBits(table, items), rest);
    FirstRead(first, bits);
    ItemsRead(table, literals + distances, items, rest, []);
    CodesSteps(literals, distances, Bits3(first) + bits, first, bits, lens, rest);
  }

  lemma CodesRead(h: Header, rest: seq<bool>)
    requires ValidHeader(h)
    ensures ReadCodes(h.literals, h.distances, |h.first|, CodesBits(h) + rest) == Got(HeaderLengths(h), rest)
  {
    PartsRead(h.first, h.literals, h.distances, h.items, AddItems([], h.items).value, rest);
  }

  /** The three counts in front of the codes. */
  lemma CountsRead(literals: nat, distances: nat, n: nat, rest: seq<bool>)
    requires 257 <= literals <= 286 && 1 <= distances <= 30 && 4 <= n <= 19
    ensures ReadCounts(CountsBits(literals, distances, n) + rest) == Got((literals, distances, n), rest)
  {
    hide Take, ReadCounts, BitsOf;
    var nlen, ndist, ncode := literals - 257, distances - 1, n - 4;
    var a, b, c := BitsOf(nlen, 5), BitsOf(ndist, 5), BitsOf(ncode, 4);
    Reassociate3(a, b, c, rest);
    assert Pow2(5) == 32 && Pow2(4) == 16;
    FieldRead(nlen, 5, b + (c + rest));
    FieldRead(ndist, 5, c + rest);
    FieldRead(ncode, 4, rest);
    CountsSteps(a + (b + (c + rest)), nlen, b + (c + rest), ndist, c + rest, ncode, rest);
  }

  lemma CountsSteps(bits: seq<bool>, nlen: nat, bits1: seq<bool>, ndist: nat, bits2: seq<bool>, ncode: nat,
                    rest: seq<bool>)
    requires Take(bits, 5) == Got(nlen, bits1) && Take(bits1, 5) == Got(ndist, bits2)
    requires Take(bits2, 4) == Got(ncode, rest)
    ensures ReadCounts(bits) == Got((nlen + 257, ndist + 1, ncode + 4), rest)
  {
    hide Take;
  }

  lemma HeaderRead(h: Header, rest: seq<bool>)
    requires ValidHeader(h)
    ensures ReadHeader(HeaderBits(h) + rest) == Got(HeaderLengths(h), rest)
  {
    Reassociate(CountsBits(h.literals, h.distances, |h.first|), CodesBits(h), rest);
    CountsRead(h.literals, h.distances, |h.first|, CodesBits(h) + rest);
    CodesRead(h, rest);
  }

  lemma CodesParts(literals: nat, distances: nat, n: nat, bits: seq<bool>)
      returns (first: seq<nat>, bits1: seq<bool>, lens: seq<nat>, rest: seq<bool>)
    requires n <= 19 && ReadCodes(literals, distances, n, bits).Got?
    ensures |first| == n && ReadFirst(n, bits) == Got(first, bits1) && Codeable(LengthTable(first))
    ensures forall i :: 0 <= i < n ==> first[i] < 8
    ensures ReadLengths(LengthTable(first), literals + distances, bits1, []) == Got(lens, rest)
    ensures |lens| == literals + distances && Codeable(lens[..literals]) && Codeable(lens[literals..])
    ensures ReadCodes(literals, distances, n, bits) == Got((lens[..literals], lens[literals..]), rest)
  {
    first, bits1 := ReadFirst(n, bits).value, ReadFirst(n, bits).rest;
    var r := ReadLengths(LengthTable(first), literals + distances, bits1, []);
    lens, rest := r.value, r.rest;
  }

  lemma CodesWritten(literals: nat, distances: nat, n: nat, bits: seq<bool>) returns (h: Header)
    requires 4 <= n <= 19 && 257 <= literals <= 286 && 1 <= distances <= 30
    requires ReadCodes(literals, distances, n, bits).Got?
    ensures ValidHeader(h) && |h.first| == n && h.literals == literals && h.distances == distances
    ensures bits == CodesBits(h) + ReadCodes(literals, distances, n, bits).rest
    ensures HeaderLengths(h) == ReadCodes(literals, distances, n, bits).value
  {
    hide ReadFirst, ReadLengths, LengthTable;
    var first, bits1, lens, rest := CodesParts(literals, distances, n, bits);
    FirstWritten(n, bits);
    var items := ItemsWritten(LengthTable(first), literals + distances, bits1, []);
    h := Header(first, literals, distances, items);
    assert Announces(h, lens);
    Reassociate(Bits3(first), ItemsBits(LengthTable(first), items), rest);
  }

  lemma CountsWritten(bits: seq<bool>) returns (literals: nat, distances: nat, n: nat)
    requires ReadCounts(bits).Got?
    ensures 257 <= literals && 1 <= distances && 4 <= n <= 19
    ensures ReadCounts(bits).value == (literals, distances, n)
    ensures bits == CountsBits(literals, distances, n) + ReadCounts(bits).rest
  {
    var r1 := Take(bits, 5);
    var r2 := Take(r1.rest, 5);
    var r3 := Take(r2.rest, 4);
    literals, distances, n := r1.value + 257, r2.value + 1, r3.value + 4;
    CountsParts(bits, r1.value, r1.rest, r2.value, r2.rest, r3.value, r3.rest);
  }

  lemma FieldIs(bits: seq<bool>, n: nat, v: nat, rest: seq<bool>)
    requires Take(bits, n) == Got(v, rest)
    ensures bits == BitsOf(v, n) + rest
  {
    FieldWritten(bits, n);
  }

  lemma CountsParts(bits: seq<bool>, a: nat, bits1: seq<bool>, b: nat, bits2: seq<bool>, c: nat, bits3: seq<bool>)
    requires Take(bits, 5) == Got(a, bits1) && Take(bits1, 5) == Got(b, bits2) && Take(bits2, 4) == Got(c, bits3)
    ensures bits == CountsBits(a + 257, b + 1, c + 4) + bits3
  {
    FieldIs(bits, 5, a, bits1);
    FieldIs(bits1, 5, b, bits2);
    FieldIs(bits2, 4, c, bits3);
    Reassociate3(BitsOf(a, 5), BitsOf(b, 5), BitsOf(c, 4), bits3);
  }

  lemma HeaderWritten(bits: seq<bool>) returns (h: Header)
    requires ReadHeader(bits).Got?
    ensures ValidHeader(h) && bits == HeaderBits(h) + ReadHeader(bits).rest
    ensures HeaderLengths(h) == ReadHeader(bits).value
  {
    var literals, distances, n := CountsWritten(bits);
    var codes := ReadCounts(bits).rest;
    h := CodesWritten(literals, distances, n, codes);
    Reassociate(CountsBits(literals, distances, n), CodesBits(h), ReadHeader(bits).rest);
  }

  // ---- Blocks ----

  lemma BytesSteps(bits: seq<bool>, length: nat, bits1: seq<bool>, check: nat, bits2: seq<bool>,
                   w: seq<byte>, limit: nat, data: seq<byte>, rest: seq<bool>)
    requires Take(bits, 16) == Got(length, bits1) && Take(bits1, 16) == Got(check, bits2)
    requires length + check == 0xffff && |data| == length && bits2 == BytesBits(data) + rest
    requires |w| <= limit
    ensures ReadBytes(bits, w, limit) == if |w + data| <= limit then Got(w + data, rest) else Fail
  {
    assert bits2[..8 * length] == BytesBits(data) && bits2[8 * length..] == rest;
    BitsBytesOfBytesBits(data);
  }

  lemma BytesRead(data: seq<byte>, rest: seq<bool>, w: seq<byte>, limit: nat)
    requires |data| < 0x1_0000 && |w| <= limit
    ensures ReadBytes(StoredBits(data) + rest, w, limit)
         == if |w + data| <= limit then Got(w + data, rest) else Fail
  {
    hide ReadBytes, BytesBits, BitsOf;
    var bits2 := BytesBits(data) + rest;
    var bits1 := BitsOf(0xffff - |data|, 16) + bits2;
    Reassociate3(BitsOf(|data|, 16), BitsOf(0xffff - |data|, 16), BytesBits(data), rest);
    Powers();
    FieldRead(|data|, 16, bits1);
    FieldRead(0xffff - |data|, 16, bits2);
    BytesSteps(BitsOf(|data|, 16) + bits1, |data|, bits1, 0xffff - |data|, bits2, w, limit, data, rest);
  }

  lemma BytesUnfold(bits: seq<bool>, w: seq<byte>, limit: nat)
      returns (length: nat, bits1: seq<bool>, check: nat, bits2: seq<bool>, front: seq<bool>, rest: seq<bool>)
    requires |w| <= limit && ReadBytes(bits, w, limit).Got?
    ensures Take(bits, 16) == Got(length, bits1) && Take(bits1, 16) == Got(check, bits2)
    ensures length + check == 0xffff && 8 * length <= |bits2|
    ensures front == bits2[..8 * length] && rest == bits2[8 * length..]
    ensures ReadBytes(bits, w, limit) == Got(w + BitsBytes(front), rest)
  {
    var first := Take(bits, 16);
    length, bits1 := first.value, first.rest;
    var second := Take(bits1, 16);
    check, bits2 := second.value, second.rest;
    front, rest := bits2[..8 * length], bits2[8 * length..];
  }

  lemma BytesWritten(bits: seq<bool>, w: seq<byte>, limit: nat) returns (data: seq<byte>)
    requires |w| <= limit && ReadBytes(bits, w, limit).Got?
    ensures |data| < 0x1_0000 && bits == StoredBits(data) + ReadBytes(bits, w, limit).rest
    ensures ReadBytes(bits, w, limit).value == w + data
  {
    var length, bits1, check, bits2, front, rest := BytesUnfold(bits, w, limit);
    data := WholeBytesOf(front, length);
    BytesParts(bits, length, bits1, check, bits2, data, front, rest);
  }

  lemma WholeBytesOf(front: seq<bool>, length: nat) returns (data: seq<byte>)
    requires |front| == 8 * length
    ensures data == BitsBytes(front) && |data| == length && BytesBits(data) == front
  {
    assert |front| % 8 == 0 by { Eights(length, |front|); }
    data := BitsBytes(front);
    BytesBitsOfBitsBytes(front);
  }

  lemma Eights(n: nat, m: nat)
    requires m == 8 * n
    ensures m % 8 == 0
  {
  }

  lemma BytesParts(bits: seq<bool>, length: nat, bits1: seq<bool>, check: nat, bits2: seq<bool>, data: seq<byte>,
                   front: seq<bool>, rest: seq<bool>)
    requires Take(bits, 16) == Got(length, bits1) && Take(bits1, 16) == Got(check, bits2)
    requires length + check == 0xffff && 8 * length <= |bits2| && |data| == length && front == BytesBits(data)
    requires front == bits2[..8 * length] && rest == bits2[8 * length..]
    ensures bits == StoredBits(data) + rest
  {
    FieldIs(bits, 16, length, bits1);
    FieldIs(bits1, 16, check, bits2);
    CutAndJoin(bits2, 8 * length, front, rest);
    ThreeParts(bits, BitsOf(length, 16), bits1, BitsOf(check, 16), bits2, front, rest);
  }

  lemma CutAndJoin(bits: seq<bool>, n: nat, front: seq<bool>, rest: seq<bool>)
    requires n <= |bits| && front == bits[..n] && rest == bits[n..]
    ensures bits == front + rest
  {
  }

  lemma ThreeParts(bits: seq<bool>, a: seq<bool>, bits1: seq<bool>, b: seq<bool>, bits2: seq<bool>, c: seq<bool>,
                   rest: seq<bool>)
    requires bits == a + bits1 && bits1 == b + bits2 && bits2 == c + rest
    ensures bits == (a + b + c) + rest
  {
    Reassociate3(a, b, c, rest);
  }

  /** The end of a bit string that starts `pos` bits in, on the byte grid. */
  ghost predicate OnGrid(pos: nat, bits: seq<bool>) {
    (pos + |bits|) % 8 == 0
  }

  lemma GridPast(pos: nat, n: nat, bits: seq<bool>, rest: seq<bool>)
    requires OnGrid(pos, bits) && |bits| == n + |rest|
    ensures OnGrid(pos + n, rest)
  {
    assert pos + |bits| == pos + n + |rest|;
  }

  lemma WholeBytes(bits: seq<bool>)
    ensures |bits[|bits| % 8..]| % 8 == 0
    ensures bits == bits[..|bits| % 8] + bits[|bits| % 8..]
  {
    var n := |bits|;
    assert n - n % 8 == 8 * (n / 8);
  }

  lemma Padded(pos: nat, padding: seq<bool>, rest: seq<bool>)
    requires |rest| % 8 == 0
    ensures OnGrid(pos, padding + rest) && |padding| < 8 <==> |padding| == PadTo8(pos)
    ensures |padding| < 8 ==> (padding + rest)[|padding + rest| % 8..] == rest
  {
    assert |padding + rest| % 8 == |padding| % 8;
  }

  lemma BlockRead(b: Block, pos: nat, rest: seq<bool>, w: seq<byte>, limit: nat)
    requires ValidBlock(b, pos) && |w| <= limit && OnGrid(pos + 3, BodyBits(b, pos) + rest)
    ensures ReadBlock(BlockType(b), BodyBits(b, pos) + rest, w, limit)
         == match Within(ExpandBlock(w, b), limit)
            case None => Fail
            case Some(w') => Got(w', rest)
  {
    hide ReadTokens, ReadStored, ReadDynamic, Expand, TokensBits, HeaderBits, StoredBits;
    hide Codeable, ValidTokens, ValidHeader, FixedLengths, FixedDistances;
    match b
    case StoredBlock(padding, data) =>
      StoredBodyRead(padding, data, pos, rest, w, limit);
    case FixedBlock(ts) =>
      FixedCodes();
      FixedCodesEnd();
      TokensRead(FixedLengths(), FixedDistances(), ts, rest, w, limit);
    case DynamicBlock(h, ts) =>
      DynamicRead(h, ts, rest, w, limit);
  }

  lemma StoredBodyRead(padding: seq<bool>, data: seq<byte>, pos: nat, rest: seq<bool>, w: seq<byte>, limit: nat)
    requires |padding| == PadTo8(pos + 3) && |data| < 0x1_0000 && |w| <= limit
    requires OnGrid(pos + 3, padding + StoredBits(data) + rest)
    ensures ReadStored(padding + StoredBits(data) + rest, w, limit)
         == if |w + data| <= limit then Got(w + data, rest) else Fail
  {
    Reassociate(padding, StoredBits(data), rest);
    PaddedRead(padding, StoredBits(data) + rest, pos + 3, w, limit);
    BytesRead(data, rest, w, limit);
  }

  /** The padding of a stored block is what its reader drops. */
  lemma PaddedRead(padding: seq<bool>, tail: seq<bool>, pos: nat, w: seq<byte>, limit: nat)
    requires |padding| == PadTo8(pos) && OnGrid(pos, padding + tail) && |w| <= limit
    ensures ReadStored(padding + tail, w, limit) == ReadBytes(tail, w, limit)
  {
    hide ReadStored, ReadBytes;
    GridPast(pos, |padding|, padding + tail, tail);
    Padded(pos, padding, tail);
    StoredUnfolds(padding + tail, tail, w, limit, ReadBytes(tail, w, limit));
  }

  lemma StoredUnfolds(bits: seq<bool>, tail: seq<bool>, w: seq<byte>, limit: nat, r: Read<seq<byte>>)
    requires |w| <= limit && bits[|bits| % 8..] == tail && r == ReadBytes(tail, w, limit)
    ensures ReadStored(bits, w, limit) == r
  {
  }

  lemma DynamicRead(h: Header, ts: seq<Token>, rest: seq<bool>, w: seq<byte>, limit: nat)
    requires ValidHeader(h) && Coded(HeaderLengths(h).0, END_OF_BLOCK) && |w| <= limit
    requires ValidTokens(HeaderLengths(h).0, HeaderLengths(h).1, ts)
    ensures ReadDynamic(HeaderBits(h) + TokensBits(HeaderLengths(h).0, HeaderLengths(h).1, ts) + rest, w, limit)
         == match Within(Expand(w, ts), limit)
            case None => Fail
            case Some(w') => Got(w', rest)
  {
    var (lens, dists) := HeaderLengths(h);
    var tokens := TokensBits(lens, dists, ts);
    Reassociate(HeaderBits(h), tokens, rest);
    HeaderRead(h, tokens + rest);
    TokensRead(lens, dists, ts, rest, w, limit);
  }

  lemma StoredBodyWritten(pos: nat, bits: seq<bool>, w: seq<byte>, limit: nat) returns (b: Block)
    requires |w| <= limit && OnGrid(pos + 3, bits) && ReadStored(bits, w, limit).Got?
    ensures b.StoredBlock? && ValidBlock(b, pos)
    ensures bits == BodyBits(b, pos) + ReadStored(bits, w, limit).rest
    ensures ExpandBlock(w, b) == Some(ReadStored(bits, w, limit).value)
  {
    var padding, bits' := bits[..|bits| % 8], bits[|bits| % 8..];
    var data := BytesWritten(bits', w, limit);
    WholeBytes(bits);
    Padded(pos + 3, padding, bits');
    b := StoredBlock(padding, data);
    Reassociate(padding, StoredBits(data), ReadBytes(bits', w, limit).rest);
  }

  lemma DynamicWritten(bits: seq<bool>, pos: nat, w: seq<byte>, limit: nat) returns (b: Block)
    requires |w| <= limit && ReadDynamic(bits, w, limit).Got?
    ensures b.DynamicBlock? && ValidBlock(b, pos)
    ensures bits == BodyBits(b, pos) + ReadDynamic(bits, w, limit).rest
    ensures ExpandBlock(w, b) == Some(ReadDynamic(bits, w, limit).value)
  {
    var Got(codes, rest) := ReadHeader(bits);
    var h := HeaderWritten(bits);
    var ts := TokensWritten(codes.0, codes.1, rest, w, limit);
    b := DynamicBlock(h, ts);
    Reassociate(HeaderBits(h), TokensBits(codes.0, codes.1, ts),
                ReadTokens(codes.0, codes.1, rest, w, limit).rest);
  }

  lemma BlockWritten(kind: nat, pos: nat, bits: seq<bool>, w: seq<byte>, limit: nat) returns (b: Block)
    requires |w| <= limit && OnGrid(pos + 3, bits) && ReadBlock(kind, bits, w, limit).Got?
    ensures ValidBlock(b, pos) && BlockType(b) == kind
    ensures bits == BodyBits(b, pos) + ReadBlock(kind, bits, w, limit).rest
    ensures ExpandBlock(w, b) == Some(ReadBlock(kind, bits, w, limit).value)
  {
    if kind == 0 {
      b := StoredBodyWritten(pos, bits, w, limit);
    } else if kind == 1 {
      var ts := TokensWritten(FixedLengths(), FixedDistances(), bits, w, limit);
      b := FixedBlock(ts);
    } else {
      b := DynamicWritten(bits, pos, w, limit);
    }
  }

  // ---- The fixed code ----

  lemma {:induction false} KraftConcat(a: seq<nat>, b: seq<nat>)
    requires Lengths(a) && Lengths(b)
    ensures Lengths(a + b) && KraftSum(a + b) == KraftSum(a) + KraftSum(b)
  {
    if b == [] {
      assert a + b == a;
    } else {
      var m := |b| - 1;
      assert (a + b)[..|a + b| - 1] == a + b[..m];
      KraftConcat(a, b[..m]);
    }
  }

  lemma {:induction false} KraftSame(n: nat, times: nat)
    requires 0 < n <= MAX_BITS
    ensures Lengths(Same(n, times)) && KraftSum(Same(n, times)) == times * Pow2(MAX_BITS - n)
  {
    if times > 0 {
      KraftSame(n, times - 1);
      assert Same(n, times)[..times - 1] == Same(n, times - 1);
      var p := Pow2(MAX_BITS - n);
      assert times * p == (times - 1) * p + p;
    }
  }

  /** The fixed lengths are a complete code; the fixed distances leave the
      codes of 30 and 31 unused. */
  lemma FixedCodes()
    ensures Codeable(FixedLengths()) && KraftSum(FixedLengths()) == Pow2(MAX_BITS)
    ensures Codeable(FixedDistances())
  {
    KraftSame(8, 144);
    KraftSame(9, 112);
    KraftSame(7, 24);
    KraftSame(8, 8);
    KraftSame(5, 30);
    KraftConcat(Same(8, 144), Same(9, 112));
    KraftConcat(Same(8, 144) + Same(9, 112), Same(7, 24));
    KraftConcat(Same(8, 144) + Same(9, 112) + Same(7, 24), Same(8, 8));
    Powers();
  }

  lemma Powers()
    ensures Pow2(6) == 64 && Pow2(7) == 128 && Pow2(8) == 256 && Pow2(10) == 1024
    ensures Pow2(15) == 0x8000 && Pow2(16) == 0x1_0000
  {
    assert Pow2(8) == 256;
    Pow2Add(8, 8);
  }

  // ---- Streams ----

  lemma {:induction false} ExpandStreamGrows(w: seq<byte>, bs: seq<Block>)
    ensures ExpandStream(w, bs).Some? ==> |w| <= |ExpandStream(w, bs).value|
    decreases |bs|
  {
    if bs != [] && ExpandBlock(w, bs[0]).Some? {
      match bs[0] {
        case StoredBlock(_, _) =>
        case FixedBlock(ts) => ExpandGrows(w, ts);
        case DynamicBlock(_, ts) => ExpandGrows(w, ts);
      }
      ExpandStreamGrows(ExpandBlock(w, bs[0]).value, bs[1..]);
    }
  }

  lemma StreamSteps(bits: seq<bool>, last: nat, bits1: seq<bool>, kind: nat, bits2: seq<bool>, w: seq<byte>,
                    limit: nat)
    requires Take(bits, 1) == Got(last, bits1) && Take(bits1, 2) == Got(kind, bits2) && |w| <= limit
    ensures ReadStream(bits, w, limit)
         == match ReadBlock(kind, bits2, w, limit)
            case Fail => Fail
            case Got(w', rest) => if last == 1 then Got(w', rest) else ReadStream(rest, w', limit)
  {
  }

  lemma BlockStep(b: Block, last: bool, pos: nat, rest: seq<bool>, w: seq<byte>, limit: nat)
    requires ValidBlock(b, pos) && |w| <= limit && OnGrid(pos, BlockBits(b, last, pos) + rest)
    ensures ReadStream(BlockBits(b, last, pos) + rest, w, limit)
         == match Within(ExpandBlock(w, b), limit)
            case None => Fail
            case Some(w') => if last then Got(w', rest) else ReadStream(rest, w', limit)
  {
    hide BodyBits, ExpandBlock, ReadStream, Take, BitsOf, Within, ValidBlock;
    var tail := BodyBits(b, pos) + rest;
    var kind := BitsOf(BlockType(b), 2);
    Reassociate3([last], kind, BodyBits(b, pos), rest);
    BlockHead(last, BlockType(b), tail);
    BlockRead(b, pos, rest, w, limit);
    StreamSteps([last] + (kind + tail), if last then 1 else 0, kind + tail, BlockType(b), tail, w, limit);
  }

  lemma BlockHead(last: bool, kind: nat, tail: seq<bool>)
    requires kind < 4
    ensures Take([last] + (BitsOf(kind, 2) + tail), 1) == Got(if last then 1 else 0, BitsOf(kind, 2) + tail)
    ensures Take(BitsOf(kind, 2) + tail, 2) == Got(kind, tail)
  {
    var mark := if last then 1 else 0;
    assert Pow2(1) == 2 && Pow2(2) == 4;
    assert BitsOf(mark, 1) == [last];
    FieldRead(mark, 1, BitsOf(kind, 2) + tail);
    FieldRead(kind, 2, tail);
  }

  lemma StreamOne(b: Block, pos: nat)
    requires ValidBlock(b, pos)
    ensures ValidStream([b], pos) && StreamBits([b], pos) == BlockBits(b, true, pos)
    ensures forall w :: ExpandStream(w, [b]) == ExpandBlock(w, b)
  {
    assert BlockBits(b, true, pos) + [] == BlockBits(b, true, pos);
  }

  lemma StreamCons(b: Block, more: seq<Block>, pos: nat)
    requires ValidBlock(b, pos) && ValidStream(more, After(b, pos))
    ensures ValidStream([b] + more, pos)
    ensures StreamBits([b] + more, pos) == BlockBits(b, false, pos) + StreamBits(more, After(b, pos))
    ensures forall w :: ExpandStream(w, [b] + more)
                     == match ExpandBlock(w, b) case None => None case Some(w') => ExpandStream(w', more)
  {
    var bs := [b] + more;
    assert bs[0] == b && bs[1..] == more && |bs| > 1;
  }

  lemma GridAfter(b: Block, last: bool, pos: nat, rest: seq<bool>)
    requires ValidBlock(b, pos)
    ensures OnGrid(pos, BlockBits(b, last, pos) + rest) <==> OnGrid(After(b, pos), rest)
  {
    assert pos + |BlockBits(b, last, pos) + rest| == After(b, pos) + |rest|;
  }

  /** Reading a written stream expands it, unless it passes the limit. */
  lemma {:induction false} StreamRead(bs: seq<Block>, pos: nat, rest: seq<bool>, w: seq<byte>, limit: nat)
    requires ValidStream(bs, pos) && |w| <= limit && OnGrid(pos, StreamBits(bs, pos) + rest)
    ensures ReadStream(StreamBits(bs, pos) + rest, w, limit)
         == match Within(ExpandStream(w, bs), limit)
            case None => Fail
            case Some(w') => Got(w', rest)
    decreases |bs|
  {
    hide ReadBlock, BlockBits, ExpandBlock, ValidBlock;
    var b, more := bs[0], bs[1..];
    if |bs| == 1 {
      assert bs == [b];
      StreamOne(b, pos);
      BlockStep(b, true, pos, rest, w, limit);
    } else {
      assert bs == [b] + more;
      StreamCons(b, more, pos);
      var next := After(b, pos);
      var tail := StreamBits(more, next);
      Reassociate(BlockBits(b, false, pos), tail, rest);
      GridAfter(b, false, pos, tail + rest);
      BlockStep(b, false, pos, tail + rest, w, limit);
      if ExpandBlock(w, b).Some? {
        var w' := ExpandBlock(w, b).value;
        ExpandStreamGrows(w', more);
        if |w'| <= limit { StreamRead(more, next, rest, w', limit); }
      }
    }
  }

  lemma MarkWritten(bits: seq<bool>)
    requires Take(bits, 1).Got?
    ensures bits == [Take(bits, 1).value == 1] + Take(bits, 1).rest
  {
    assert bits[..1] == [bits[0]];
    assert ValueOf([bits[0]]) == if bits[0] then 1 else 0;
  }

  lemma HeadWritten(bits: seq<bool>, pos: nat, w: seq<byte>, limit: nat) returns (b: Block, last: bool)
    requires |w| <= limit && OnGrid(pos, bits) && ReadStream(bits, w, limit).Got?
    ensures ValidBlock(b, pos) && ExpandBlock(w, b).Some? && |ExpandBlock(w, b).value| <= limit
    ensures exists rest :: bits == BlockBits(b, last, pos) + rest
              && ReadStream(bits, w, limit)
              == if last then Got(ExpandBlock(w, b).value, rest)
                 else ReadStream(rest, ExpandBlock(w, b).value, limit)
  {
    var Got(mark, bits1) := Take(bits, 1);
    var Got(kind, bits2) := Take(bits1, 2);
    MarkWritten(bits);
    FieldWritten(bits1, 2);
    StreamSteps(bits, mark, bits1, kind, bits2, w, limit);
    GridPast(pos, 3, bits, bits2);
    b := BlockWritten(kind, pos, bits2, w, limit);
    last := mark == 1;
    var rest := ReadBlock(kind, bits2, w, limit).rest;
    Reassociate3([last], BitsOf(kind, 2), BodyBits(b, pos), rest);
    assert bits == BlockBits(b, last, pos) + rest;
  }

  /** Whatever the reader takes as a stream is one. */
  lemma {:induction false} StreamWritten(bits: seq<bool>, pos: nat, w: seq<byte>, limit: nat)
      returns (bs: seq<Block>)
    requires |w| <= limit && OnGrid(pos, bits) && ReadStream(bits, w, limit).Got?
    ensures ValidStream(bs, pos) && bits == StreamBits(bs, pos) + ReadStream(bits, w, limit).rest
    ensures ExpandStream(w, bs) == Some(ReadStream(bits, w, limit).value)
    decreases |bits|
  {
    var b, last := HeadWritten(bits, pos, w, limit);
    var w' := ExpandBlock(w, b).value;
    var head := BlockBits(b, last, pos);
    var rest :| bits == head + rest &&
      ReadStream(bits, w, limit) == if last then Got(w', rest) else ReadStream(rest, w', limit);
    if last {
      bs := [b];
      StreamOne(b, pos);
    } else {
      GridAfter(b, false, pos, rest);
      var more := StreamWritten(rest, After(b, pos), w', limit);
      bs := [b] + more;
      StreamCons(b, more, pos);
      Reassociate(head, StreamBits(more, After(b, pos)), ReadStream(rest, w', limit).rest);
    }
  }

  /** A byte string deflate accepts within `limit` bytes of output: it starts
      with the bits of a list of blocks that expand to `out`. */
  ghost predicate Deflates(input: seq<byte>, limit: nat, out: seq<byte>) {
    |out| <= limit &&
    exists bs: seq<Block>, rest: seq<bool> ::
      ValidStream(bs, 0) && BytesBits(input) == StreamBits(bs, 0) + rest &&
      ExpandStream([], bs) == Some(out)
  }

  /** The reader takes exactly the streams of RFC 1951 that stay within the
      limit, and gives exactly the bytes they stand for. */
  lemma ReaderIsExact(input: seq<byte>, limit: nat, out: seq<byte>)
    ensures Deflates(input, limit, out)
       <==> ReadStream(BytesBits(input), [], limit).Got?
            && ReadStream(BytesBits(input), [], limit).value == out
  {
    var bits := BytesBits(input);
    assert OnGrid(0, bits) by { assert |bits| == 8 * |input|; }
    if Deflates(input, limit, out) {
      var bs: seq<Block>, rest: seq<bool> :|
        ValidStream(bs, 0) && bits == StreamBits(bs, 0) + rest && ExpandStream([], bs) == Some(out);
      StreamRead(bs, 0, rest, [], limit);
    }
    if ReadStream(bits, [], limit).Got? {
      var bs := StreamWritten(bits, 0, [], limit);
      assert bits == StreamBits(bs, 0) + ReadStream(bits, [], limit).rest;
    }
  }

  /** No input stands for two outputs: a stream is read in one way. */
  lemma DeflateIsUnambiguous(input: seq<byte>, limit: nat, out: seq<byte>, out': seq<byte>)
    requires Deflates(input, limit, out) && Deflates(input, limit, out')
    ensures out == out'
  {
    ReaderIsExact(input, limit, out);
    ReaderIsExact(input, limit, out');
  }
}

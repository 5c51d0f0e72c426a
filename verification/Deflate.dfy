/** The deflate format of RFC 1951, twice: as the bits a list of blocks is
    written with (sections 3.2.3 to 3.2.7), and as a reader of a bit string.
    The theorems of DeflateTheorems.dfy say the two agree; the class of
    Inflate.dfy refines the reader. */
module Deflate {
  import opened Bits
  import opened Huffman
  import opened Options

  /* The tables of section 3.2.5: the least length or distance of a symbol,
     and how many extra bits follow its code. */
  const BASE: seq<nat> := [3, 4, 5, 6, 7, 8, 9, 10, 11, 13, 15, 17, 19, 23, 27, 31, 35, 43, 51, 59,
                           67, 83, 99, 115, 131, 163, 195, 227, 258]
  const EXTRA: seq<nat> := [0, 0, 0, 0, 0, 0, 0, 0, 1, 1, 1, 1, 2, 2, 2, 2, 3, 3, 3, 3, 4, 4, 4, 4,
                            5, 5, 5, 5, 0]
  const DBASE: seq<nat> := [1, 2, 3, 4, 5, 7, 9, 13, 17, 25, 33, 49, 65, 97, 129, 193, 257, 385, 513,
                            769, 1025, 1537, 2049, 3073, 4097, 6145, 8193, 12289, 16385, 24577]
  const DEXTRA: seq<nat> := [0, 0, 0, 0, 1, 1, 2, 2, 3, 3, 4, 4, 5, 5, 6, 6, 7, 7, 8, 8, 9, 9, 10,
                             10, 11, 11, 12, 12, 13, 13]
  /* The order in which section 3.2.7 sends the lengths of the length codes. */
  const ORDER: seq<nat> := [16, 17, 18, 0, 8, 7, 9, 6, 10, 5, 11, 4, 12, 3, 13, 2, 14, 1, 15]

  const END_OF_BLOCK: nat := 256

  // ---- The written form ----

  /** A literal byte, or a copy named by its symbols and their extra bits. */
  datatype Token =
    | Literal(b: byte)
    | Copy(length: nat, more: nat, distance: nat, dmore: nat)

  /** One item of the run-length form of the code lengths. */
  datatype LengthItem =
    | OneLength(n: nat)
    | RepeatLast(times: nat)
    | FewZeros(times: nat)
    | ManyZeros(times: nat)

  /** The header of a dynamic block: HCLEN, HLIT and HDIST with the lengths
      they announce. */
  datatype Header = Header(first: seq<nat>, literals: nat, distances: nat, items: seq<LengthItem>)

  datatype Block =
    | StoredBlock(padding: seq<bool>, data: seq<byte>)
    | FixedBlock(tokens: seq<Token>)
    | DynamicBlock(header: Header, tokens: seq<Token>)

  function Same(n: nat, times: nat): (s: seq<nat>)
    ensures |s| == times
  {
    seq(times, _ => n)
  }

  /** The fixed code of section 3.2.6. */
  function FixedLengths(): (lens: seq<nat>)
    ensures |lens| == 288
  {
    Same(8, 144) + Same(9, 112) + Same(7, 24) + Same(8, 8)
  }

  function FixedDistances(): (lens: seq<nat>)
    ensures |lens| == 30
  {
    Same(5, 30)
  }

  ghost predicate ValidCopy(dists: seq<nat>, t: Token) {
    && t.Copy? && t.length < 29 && t.more < Pow2(EXTRA[t.length])
    && t.distance < 30 && Coded(dists, t.distance) && t.dmore < Pow2(DEXTRA[t.distance])
  }

  ghost predicate ValidToken(lens: seq<nat>, dists: seq<nat>, t: Token) {
    match t
    case Literal(b) => Coded(lens, b)
    case Copy(l, _, _, _) => ValidCopy(dists, t) && Coded(lens, 257 + l)
  }

  ghost predicate ValidTokens(lens: seq<nat>, dists: seq<nat>, ts: seq<Token>) {
    forall i :: 0 <= i < |ts| ==> ValidToken(lens, dists, ts[i])
  }

  /** What follows the length symbol of a copy. */
  ghost function CopyBits(dists: seq<nat>, t: Token): (b: seq<bool>)
    requires ValidCopy(dists, t)
  {
    BitsOf(t.more, EXTRA[t.length]) + Code(dists, t.distance) + BitsOf(t.dmore, DEXTRA[t.distance])
  }

  ghost function TokenBits(lens: seq<nat>, dists: seq<nat>, t: Token): (b: seq<bool>)
    requires ValidToken(lens, dists, t)
  {
    match t
    case Literal(b) => Code(lens, b)
    case Copy(l, _, _, _) => Code(lens, 257 + l) + CopyBits(dists, t)
  }

  /** The bits of the tokens, followed by the end-of-block code. */
  ghost function TokensBits(lens: seq<nat>, dists: seq<nat>, ts: seq<Token>): (b: seq<bool>)
    requires ValidTokens(lens, dists, ts) && Coded(lens, END_OF_BLOCK)
  {
    if ts == [] then Code(lens, END_OF_BLOCK)
    else TokenBits(lens, dists, ts[0]) + TokensBits(lens, dists, ts[1..])
  }

  /** The `n` bytes a copy from `d` back appends: the last `d` bytes, over and
      over. */
  function Repeated(w: seq<byte>, d: nat, n: nat): (s: seq<byte>)
    requires 0 < d <= |w|
    ensures |s| == n
  {
    seq(n, i requires 0 <= i < n => w[|w| - d + i % d])
  }

  /** The output after one token, or none for a copy from before the output. */
  function ExpandToken(w: seq<byte>, t: Token): (r: Option<seq<byte>>)
  {
    match t
    case Literal(b) => Some(w + [b])
    case Copy(l, more, d, dmore) =>
      if l < 29 && d < 30 && 0 < DBASE[d] + dmore <= |w|
      then Some(w + Repeated(w, DBASE[d] + dmore, BASE[l] + more))
      else None
  }

  function Expand(w: seq<byte>, ts: seq<Token>): (r: Option<seq<byte>>)
    decreases |ts|
  {
    if ts == [] then Some(w)
    else match ExpandToken(w, ts[0])
      case None => None
      case Some(w') => Expand(w', ts[1..])
  }

  /** The symbol of a run, the width of its count and the least count. */
  function RunSymbol(item: LengthItem): (r: (nat, nat, nat))
    requires !item.OneLength?
  {
    match item
    case RepeatLast(_) => (16, 2, 3)
    case FewZeros(_) => (17, 3, 3)
    case ManyZeros(_) => (18, 7, 11)
  }

  ghost predicate ValidItem(table: seq<nat>, item: LengthItem) {
    if item.OneLength? then item.n < 16 && Coded(table, item.n)
    else
      var (symbol, width, least) := RunSymbol(item);
      Coded(table, symbol) && least <= item.times < least + Pow2(width)
  }

  ghost predicate ValidItems(table: seq<nat>, items: seq<LengthItem>) {
    forall i :: 0 <= i < |items| ==> ValidItem(table, items[i])
  }

  ghost function ItemBits(table: seq<nat>, item: LengthItem): (b: seq<bool>)
    requires ValidItem(table, item)
  {
    if item.OneLength? then Code(table, item.n)
    else
      var (symbol, width, least) := RunSymbol(item);
      Code(table, symbol) + BitsOf(item.times - least, width)
  }

  ghost function ItemsBits(table: seq<nat>, items: seq<LengthItem>): (b: seq<bool>)
    requires ValidItems(table, items)
  {
    if items == [] then [] else ItemBits(table, items[0]) + ItemsBits(table, items[1..])
  }

  /** The lengths after one item, or none for a repeat of nothing. */
  function AddItem(lens: seq<nat>, item: LengthItem): (r: Option<seq<nat>>) {
    match item
    case OneLength(n) => Some(lens + [n])
    case RepeatLast(times) =>
      if lens == [] then None else Some(lens + Same(lens[|lens| - 1], times))
    case FewZeros(times) => Some(lens + Same(0, times))
    case ManyZeros(times) => Some(lens + Same(0, times))
  }

  function AddItems(lens: seq<nat>, items: seq<LengthItem>): (r: Option<seq<nat>>)
    decreases |items|
  {
    if items == [] then Some(lens)
    else match AddItem(lens, items[0])
      case None => None
      case Some(lens') => AddItems(lens', items[1..])
  }

  /** The lengths of the 19 length codes, from the ones sent. */
  function LengthTable(first: seq<nat>): (table: seq<nat>)
    requires |first| <= 19
    ensures |table| == 19
  {
    if first == [] then Same(0, 19)
    else LengthTable(first[..|first| - 1])[ORDER[|first| - 1] := first[|first| - 1]]
  }

  function Bits3(first: seq<nat>): (b: seq<bool>)
    ensures |b| == 3 * |first|
  {
    if first == [] then []
    else Bits3(first[..|first| - 1]) + BitsOf(first[|first| - 1], 3)
  }

  /** Whether the items of a header give these lengths, as codes can be. */
  ghost predicate Announces(h: Header, lens: seq<nat>) {
    && AddItems([], h.items) == Some(lens) && |lens| == h.literals + h.distances
    && Codeable(lens[..h.literals]) && Codeable(lens[h.literals..])
  }

  ghost predicate ValidHeader(h: Header) {
    && 4 <= |h.first| <= 19 && (forall i :: 0 <= i < |h.first| ==> h.first[i] < 8)
    && 257 <= h.literals <= 286 && 1 <= h.distances <= 30
    && Codeable(LengthTable(h.first)) && ValidItems(LengthTable(h.first), h.items)
    && AddItems([], h.items).Some? && Announces(h, AddItems([], h.items).value)
  }

  ghost function HeaderLengths(h: Header): (r: (seq<nat>, seq<nat>))
    requires ValidHeader(h)
  {
    var lens := AddItems([], h.items).value;
    (lens[..h.literals], lens[h.literals..])
  }

  ghost function CodesBits(h: Header): (b: seq<bool>)
    requires ValidHeader(h)
  {
    Bits3(h.first) + ItemsBits(LengthTable(h.first), h.items)
  }

  /** HLIT, HDIST and HCLEN. */
  function CountsBits(literals: nat, distances: nat, n: nat): (b: seq<bool>)
    requires literals >= 257 && distances >= 1 && n >= 4
  {
    BitsOf(literals - 257, 5) + BitsOf(distances - 1, 5) + BitsOf(n - 4, 4)
  }

  ghost function HeaderBits(h: Header): (b: seq<bool>)
    requires ValidHeader(h)
  {
    CountsBits(h.literals, h.distances, |h.first|) + CodesBits(h)
  }

  /** How many bits bring `pos` to the next byte boundary. */
  function PadTo8(pos: nat): (n: nat)
    ensures n < 8 && (pos + n) % 8 == 0
  {
    (8 - pos % 8) % 8
  }

  /** A block that may start `pos` bits into the stream. */
  ghost predicate ValidBlock(b: Block, pos: nat) {
    match b
    case StoredBlock(padding, data) => |padding| == PadTo8(pos + 3) && |data| < 0x1_0000
    case FixedBlock(ts) => ValidTokens(FixedLengths(), FixedDistances(), ts)
    case DynamicBlock(h, ts) =>
      && ValidHeader(h) && Coded(HeaderLengths(h).0, END_OF_BLOCK)
      && ValidTokens(HeaderLengths(h).0, HeaderLengths(h).1, ts)
  }

  function BlockType(b: Block): (t: nat) {
    match b case StoredBlock(_, _) => 0 case FixedBlock(_) => 1 case DynamicBlock(_, _) => 2
  }

  /** What follows the padding of a stored block. */
  function StoredBits(data: seq<byte>): (bits: seq<bool>)
    requires |data| < 0x1_0000
    ensures |bits| == 32 + 8 * |data|
  {
    BitsOf(|data|, 16) + BitsOf(0xffff - |data|, 16) + BytesBits(data)
  }

  ghost function BodyBits(b: Block, pos: nat): (bits: seq<bool>)
    requires ValidBlock(b, pos)
  {
    match b
    case StoredBlock(padding, data) =>
      padding + StoredBits(data)
    case FixedBlock(ts) =>
      FixedCodesEnd();
      TokensBits(FixedLengths(), FixedDistances(), ts)
    case DynamicBlock(h, ts) =>
      HeaderBits(h) + TokensBits(HeaderLengths(h).0, HeaderLengths(h).1, ts)
  }

  lemma FixedCodesEnd()
    ensures Coded(FixedLengths(), END_OF_BLOCK)
  {
  }

  ghost function BlockBits(b: Block, last: bool, pos: nat): (bits: seq<bool>)
    requires ValidBlock(b, pos)
    ensures |bits| == 3 + |BodyBits(b, pos)|
  {
    [last] + BitsOf(BlockType(b), 2) + BodyBits(b, pos)
  }

  /** Where the block after `b` starts. */
  ghost function After(b: Block, pos: nat): (pos': nat)
    requires ValidBlock(b, pos)
  {
    pos + 3 + |BodyBits(b, pos)|
  }

  ghost predicate ValidStream(bs: seq<Block>, pos: nat)
    decreases |bs|
  {
    bs != [] && ValidBlock(bs[0], pos) && (|bs| > 1 ==> ValidStream(bs[1..], After(bs[0], pos)))
  }

  /** The bits of a stream of blocks, the last one marked. */
  ghost function StreamBits(bs: seq<Block>, pos: nat): (bits: seq<bool>)
    requires ValidStream(bs, pos)
    decreases |bs|
  {
    BlockBits(bs[0], |bs| == 1, pos) +
    if |bs| == 1 then [] else StreamBits(bs[1..], After(bs[0], pos))
  }

  function ExpandBlock(w: seq<byte>, b: Block): (r: Option<seq<byte>>) {
    match b
    case StoredBlock(_, data) => Some(w + data)
    case FixedBlock(ts) => Expand(w, ts)
    case DynamicBlock(_, ts) => Expand(w, ts)
  }

  /** The bytes a stream stands for. */
  function ExpandStream(w: seq<byte>, bs: seq<Block>): (r: Option<seq<byte>>)
    decreases |bs|
  {
    if bs == [] then Some(w)
    else match ExpandBlock(w, bs[0])
      case None => None
      case Some(w') => ExpandStream(w', bs[1..])
  }

  // ---- The reader ----

  /** What a reader took from a bit string, and the bits it left. */
  datatype Read<+T> = Got(value: T, rest: seq<bool>) | Fail

  ghost function Take(bits: seq<bool>, n: nat): (r: Read<nat>)
    ensures r.Got? ==> |r.rest| == |bits| - n && r.value < Pow2(n)
  {
    if |bits| < n then Fail else
      ValueBound(bits[..n]);
      Got(ValueOf(bits[..n]), bits[n..])
  }

  /** The symbol whose code the bits start with. */
  ghost function NextSymbol(lens: seq<nat>, bits: seq<bool>): (r: Read<nat>)
    ensures r.Got? ==> Coded(lens, r.value) && bits == Code(lens, r.value) + r.rest
                       && |r.rest| < |bits|
    ensures r.Fail? ==> forall s: nat :: Coded(lens, s) ==> !(Code(lens, s) <= bits)
  {
    if s: nat :| Coded(lens, s) && Code(lens, s) <= bits
    then Got(s, bits[lens[s]..])
    else Fail
  }

  /** Read what follows the length symbol `257 + l`. */
  ghost function ReadCopyToken(dists: seq<nat>, l: nat, bits: seq<bool>): (r: Read<Token>)
    requires l < 29
    ensures r.Got? ==> |r.rest| < |bits| && ValidCopy(dists, r.value) && r.value.length == l
  {
    match Take(bits, EXTRA[l]) case Fail => Fail case Got(more, bits1) =>
    match NextSymbol(dists, bits1) case Fail => Fail case Got(d, bits2) =>
    if d >= 30 then Fail else
    match Take(bits2, DEXTRA[d]) case Fail => Fail case Got(dmore, bits3) =>
    Got(Copy(l, more, d, dmore), bits3)
  }

  /** Read a copy and make it. */
  ghost function ReadCopy(dists: seq<nat>, l: nat, bits: seq<bool>, w: seq<byte>, limit: nat)
      : (r: Read<seq<byte>>)
    requires l < 29 && |w| <= limit
    ensures r.Got? ==> |r.rest| < |bits| && |r.value| <= limit
  {
    match ReadCopyToken(dists, l, bits)
    case Fail => Fail
    case Got(t, rest) =>
      match ExpandToken(w, t)
      case None => Fail
      case Some(w') => if |w'| <= limit then Got(w', rest) else Fail
  }

  /** Read tokens up to the end of a block onto the output `w`, which may not
      pass `limit` bytes. */
  ghost function ReadTokens(lens: seq<nat>, dists: seq<nat>, bits: seq<bool>, w: seq<byte>,
                            limit: nat): (r: Read<seq<byte>>)
    requires |w| <= limit
    ensures r.Got? ==> |r.rest| < |bits| && |r.value| <= limit
    decreases |bits|
  {
    match NextSymbol(lens, bits)
    case Fail => Fail
    case Got(symbol, rest) =>
      if symbol < 256 then
        if |w| < limit then ReadTokens(lens, dists, rest, w + [symbol], limit) else Fail
      else if symbol == 256 then Got(w, rest)
      else if symbol - 257 >= 29 then Fail
      else match ReadCopy(dists, symbol - 257, rest, w, limit)
        case Fail => Fail
        case Got(w', rest') => ReadTokens(lens, dists, rest', w', limit)
  }

  /** Read what follows the run symbol 16, 17 or 18, and repeat. */
  ghost function ReadRun(symbol: nat, total: nat, bits: seq<bool>, lens: seq<nat>)
      : (r: Read<seq<nat>>)
    requires 16 <= symbol
    ensures r.Got? ==> |lens| < |r.value| <= total && |r.rest| <= |bits|
    ensures r.Got? && Lengths(lens) ==> Lengths(r.value)
  {
    if symbol == 16 && lens == [] then Fail else
    var again := if symbol == 16 then lens[|lens| - 1] else 0;
    match Take(bits, if symbol == 16 then 2 else if symbol == 17 then 3 else 7)
    case Fail => Fail
    case Got(times, rest) =>
      var n := times + if symbol < 18 then 3 else 11;
      if |lens| + n <= total then Got(lens + Same(again, n), rest) else Fail
  }

  /** Read the code lengths of a dynamic block, `total` of them. */
  ghost function ReadLengths(table: seq<nat>, total: nat, bits: seq<bool>, lens: seq<nat>)
      : (r: Read<seq<nat>>)
    requires |lens| <= total
    ensures r.Got? ==> |r.value| == total && |r.rest| <= |bits|
    ensures r.Got? && Lengths(lens) ==> Lengths(r.value)
    decreases |bits|
  {
    if |lens| == total then Got(lens, bits)
    else match NextSymbol(table, bits)
      case Fail => Fail
      case Got(symbol, rest) =>
        if symbol < 16 then ReadLengths(table, total, rest, lens + [symbol])
        else match ReadRun(symbol, total, rest, lens)
          case Fail => Fail
          case Got(lens', rest') => ReadLengths(table, total, rest', lens')
  }

  ghost function ReadFirst(n: nat, bits: seq<bool>): (r: Read<seq<nat>>)
    ensures r.Got? ==> |r.value| == n && |r.rest| == |bits| - 3 * n
    ensures r.Got? ==> forall i :: 0 <= i < n ==> r.value[i] < 8
  {
    if n == 0 then Got([], bits)
    else match ReadFirst(n - 1, bits)
      case Fail => Fail
      case Got(first, rest) =>
        match Take(rest, 3)
        case Fail => Fail
        case Got(value, rest) =>
          assert Pow2(3) == 8;
          Got(first + [value], rest)
  }

  /** Read HLIT, HDIST and HCLEN. */
  ghost function ReadCounts(bits: seq<bool>): (r: Read<(nat, nat, nat)>)
    ensures r.Got? ==> |r.rest| < |bits| && r.value.2 <= 19
  {
    match Take(bits, 5) case Fail => Fail case Got(nlen, bits1) =>
    match Take(bits1, 5) case Fail => Fail case Got(ndist, bits2) =>
    match Take(bits2, 4) case Fail => Fail case Got(ncode, bits3) =>
    assert Pow2(4) == 16;
    Got((nlen + 257, ndist + 1, ncode + 4), bits3)
  }

  /** Read the header of a dynamic block: the lengths of its two codes. */
  ghost function ReadHeader(bits: seq<bool>): (r: Read<(seq<nat>, seq<nat>)>)
    ensures r.Got? ==> |r.rest| <= |bits|
  {
    match ReadCounts(bits)
    case Fail => Fail
    case Got(counts, rest) =>
      if counts.0 > 286 || counts.1 > 30 then Fail
      else ReadCodes(counts.0, counts.1, counts.2, rest)
  }

  ghost function ReadCodes(literals: nat, distances: nat, n: nat, bits: seq<bool>)
      : (r: Read<(seq<nat>, seq<nat>)>)
    requires n <= 19
    ensures r.Got? ==> |r.rest| <= |bits|
  {
    match ReadFirst(n, bits) case Fail => Fail case Got(first, bits1) =>
    if !Codeable(LengthTable(first)) then Fail else
    match ReadLengths(LengthTable(first), literals + distances, bits1, [])
    case Fail => Fail
    case Got(lens, bits2) =>
      if Codeable(lens[..literals]) && Codeable(lens[literals..])
      then Got((lens[..literals], lens[literals..]), bits2)
      else Fail
  }

  ghost function ReadDynamic(bits: seq<bool>, w: seq<byte>, limit: nat): (r: Read<seq<byte>>)
    requires |w| <= limit
    ensures r.Got? ==> |r.rest| < |bits| && |r.value| <= limit
  {
    match ReadHeader(bits)
    case Fail => Fail
    case Got(codes, rest) => ReadTokens(codes.0, codes.1, rest, w, limit)
  }

  /** Read a stored block: the bits up to the byte boundary are dropped. */
  ghost function ReadStored(bits: seq<bool>, w: seq<byte>, limit: nat): (r: Read<seq<byte>>)
    requires |w| <= limit
    ensures r.Got? ==> |r.rest| < |bits| && |r.value| <= limit
  {
    ReadBytes(bits[|bits| % 8..], w, limit)
  }

  ghost function ReadBytes(bits: seq<bool>, w: seq<byte>, limit: nat): (r: Read<seq<byte>>)
    requires |w| <= limit
    ensures r.Got? ==> |r.rest| < |bits| && |r.value| <= limit
  {
    match Take(bits, 16) case Fail => Fail case Got(length, bits1) =>
    match Take(bits1, 16) case Fail => Fail case Got(check, bits2) =>
    if length + check == 0xffff && 8 * length <= |bits2| && |w| + length <= limit
    then Got(w + BitsBytes(bits2[..8 * length]), bits2[8 * length..])
    else Fail
  }

  /** Read a whole stream onto the output `w`. */
  ghost function ReadStream(bits: seq<bool>, w: seq<byte>, limit: nat): (r: Read<seq<byte>>)
    requires |w| <= limit
    ensures r.Got? ==> |r.value| <= limit
    decreases |bits|
  {
    match Take(bits, 1) case Fail => Fail case Got(last, bits1) =>
    match Take(bits1, 2) case Fail => Fail case Got(kind, bits2) =>
    match ReadBlock(kind, bits2, w, limit)
    case Fail => Fail
    case Got(w', bits3) =>
      if last == 1 then Got(w', bits3)
      else ReadStream(bits3, w', limit)
  }

  ghost function ReadBlock(kind: nat, bits: seq<bool>, w: seq<byte>, limit: nat): (r: Read<seq<byte>>)
    requires |w| <= limit
    ensures r.Got? ==> |r.rest| < |bits| && |r.value| <= limit
  {
    if kind == 0 then ReadStored(bits, w, limit)
    else if kind == 1 then ReadTokens(FixedLengths(), FixedDistances(), bits, w, limit)
    else if kind == 2 then ReadDynamic(bits, w, limit)
    else Fail
  }
}

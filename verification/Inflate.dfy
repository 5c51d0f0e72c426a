/** The deflate decoder of zip.c, as the state machine it is. Each method
    refines the reader of Deflate.dfy. */
module Inflate {
  import opened Bits
  import opened Huffman
  import opened Options
  import opened Deflate
  import opened DeflateTheorems

  lemma OneMoreBit(b: seq<bool>, k: nat)
    requires 0 < k <= |b|
    ensures CodeValue(b[..k]) == 2 * CodeValue(b[..k - 1]) + BitAt(b, k - 1)
  {
    assert b[..k][..k - 1] == b[..k - 1];
  }

  function BitAt(b: seq<bool>, k: nat): (bit: nat)
    requires k < |b|
  {
    if b[k] then 1 else 0
  }

  lemma TakeOne(b: seq<bool>, k: nat)
    requires k < |b|
    ensures Take(b[k..], 1) == Got(BitAt(b, k), b[k + 1..])
  {
    assert b[k..][..1] == [b[k]] && b[k..][1..] == b[k + 1..];
    assert [b[k]][1..] == [];
  }

  /** `k` bits whose number lies among the codes of `k` bits are a code. */
  lemma DecodeHit(lens: seq<nat>, b: seq<bool>, k: nat) returns (s: nat)
    requires Codeable(lens) && 0 < k <= MAX_BITS && k <= |b|
    requires First(lens, k) <= CodeValue(b[..k]) < First(lens, k) + Count(lens, k)
    ensures Coded(lens, s) && Slot(lens, s) == Offset(lens, k) + (CodeValue(b[..k]) - First(lens, k))
    ensures NextSymbol(lens, b) == Got(s, b[k..])
  {
    hide NextSymbol, First, Count, Offset, KraftSum;
    s := SymbolOfRank(lens, k, CodeValue(b[..k]) - First(lens, k));
    CodeBitsOfCodeValue(b[..k]);
    assert Code(lens, s) == b[..k];
    assert b == b[..k] + b[k..];
    SymbolRead(lens, s, b[k..]);
  }

  /** The first `k` bits lie past every code of `k` bits. */
  ghost predicate PastCodesOf(lens: seq<nat>, b: seq<bool>, k: nat)
    requires 0 < k <= |b|
  {
    CodeValue(b[..k]) >= First(lens, k) + Count(lens, k)
  }

  /** The first `n` bits lie past every code of up to `n` bits. */
  ghost predicate PastCodes(lens: seq<nat>, b: seq<bool>, n: nat) {
    n <= |b| && forall k :: 1 <= k <= n ==> PastCodesOf(lens, b, k)
  }

  lemma PastNext(lens: seq<nat>, b: seq<bool>, n: nat)
    requires 0 < n <= |b| && PastCodes(lens, b, n - 1) && PastCodesOf(lens, b, n)
    ensures PastCodes(lens, b, n)
  {
  }

  /** What the walk of `decode` knows before it reads bit `length` of `b`. */
  ghost predicate Walking(lens: seq<nat>, b: seq<bool>, length: nat, code: int, first: int, index: int) {
    && 1 <= length <= 16 && length - 1 <= |b| && PastCodes(lens, b, length - 1)
    && code == 2 * CodeValue(b[..length - 1]) && first <= code
    && first == First(lens, length) && index == Offset(lens, length)
  }

  lemma WalkStart(lens: seq<nat>, b: seq<bool>)
    ensures Walking(lens, b, 1, 0, 0, 0)
  {
    assert b[..0] == [];
  }

  lemma WalkCode(lens: seq<nat>, b: seq<bool>, length: nat, code: int, first: int, index: int, bit: nat)
    requires Walking(lens, b, length, code, first, index) && length <= |b|
    requires bit == BitAt(b, length - 1)
    ensures CodeValue(b[..length]) == code + bit >= First(lens, length) == first
    ensures index == Offset(lens, length)
  {
    OneMoreBit(b, length);
  }

  lemma WalkOn(lens: seq<nat>, b: seq<bool>, length: nat, code: int, first: int, index: int, bit: nat)
    requires Walking(lens, b, length, code, first, index) && length < 16 && length <= |b|
    requires bit == BitAt(b, length - 1)
    requires code + bit - Count(lens, length) >= first
    ensures Walking(lens, b, length + 1, 2 * (code + bit), 2 * (first + Count(lens, length)),
                    index + Count(lens, length))
  {
    WalkCode(lens, b, length, code, first, index, bit);
    PastNext(lens, b, length);
  }

  lemma TableHit(h: Table, s: nat)
    requires h.Valid() && Coded(h.lens, s)
    ensures Slot(h.lens, s) < h.symbol.Length && h.symbol[Slot(h.lens, s)] == s
  {
    assert h.symbol[..][Slot(h.lens, s)] == s;
  }

  /** Where the table holds the symbol the walk has found. */
  lemma WalkHit(h: Table, b: seq<bool>, length: nat, code: int, first: int, index: int, bit: nat)
    requires h.Valid() && Walking(h.lens, b, length, code, first, index) && length < 16 && length <= |b|
    requires bit == BitAt(b, length - 1)
    requires code + bit - Count(h.lens, length) < first
    ensures 0 <= index + (code + bit - first) < h.symbol.Length
    ensures NextSymbol(h.lens, b) == Got(h.symbol[index + (code + bit - first)], b[length..])
  {
    WalkCode(h.lens, b, length, code, first, index, bit);
    var s := DecodeHit(h.lens, b, length);
    TableHit(h, s);
  }

  /** No prefix of up to `n` bits is a code, and there is no longer one. */
  lemma DecodeMiss(lens: seq<nat>, b: seq<bool>, n: nat)
    requires Codeable(lens) && PastCodes(lens, b, n) && (n == MAX_BITS || n == |b|)
    ensures NextSymbol(lens, b).Fail?
  {
    var r := NextSymbol(lens, b);
    if r.Got? {
      var k := lens[r.value];
      assert b[..k] == Code(lens, r.value) && PastCodesOf(lens, b, k);
      CodeRead(lens, r.value);
      RankBelowCount(lens, r.value);
    }
  }

  /** `struct inflate` of zip.c: the input with the place read next, the bits
      read and not used, and the output, which holds `start` bytes from before
      the entry and takes at most `limit` more. */
  class Inflater {
    const input: seq<byte>
    const start: nat
    const limit: nat
    var at: nat
    var bits: nat
    var held: nat
    var out: seq<byte>

    constructor (input: seq<byte>, limit: nat, out: seq<byte>)
      ensures Valid() && Remaining() == BytesBits(input) && Window() == []
      ensures this.input == input && this.limit == limit && this.out == out && start == |out|
    {
      this.input, this.limit, this.out, this.start := input, limit, out, |out|;
      at, bits, held := 0, 0, 0;
      new;
      assert input[0..] == input;
    }

    /** The output stays within its bounds, whatever was read. */
    ghost predicate Bounded()
      reads this
    {
      at <= |input| && start <= |out| && |out| - start <= limit
    }

    /** Between two reads fewer than 8 bits are held, so the place read next is
        the byte after the one being used. */
    ghost predicate Valid()
      reads this
    {
      Bounded() && held < 8 && bits < Pow2(held)
    }

    /** The bits not yet used. */
    ghost function Remaining(): (b: seq<bool>)
      requires at <= |input|
      reads this
    {
      BitsOf(bits, held) + BytesBits(input[at..])
    }

    /** The bytes of this entry so far. */
    ghost function Window(): (w: seq<byte>)
      requires start <= |out|
      reads this
    {
      out[start..]
    }

    /** Append to the output, unless it would pass the limit. */
    method Emit(bytes: seq<byte>) returns (ok: bool)
      requires Bounded()
      modifies this`out
      ensures ok <==> old(|Window()|) + |bytes| <= limit
      ensures out == if ok then old(out) + bytes else old(out)
      ensures Bounded()
    {
      if |bytes| > limit - (|out| - start) {
        return false;
      }
      out := out + bytes;
      return true;
    }

    /** Load one byte above the bits held. */
    method LoadByte()
      requires Bounded() && bits < Pow2(held) && at < |input|
      modifies this`at, this`bits, this`held
      ensures Bounded() && bits < Pow2(held) && held == old(held) + 8 && at == old(at) + 1
      ensures Remaining() == old(Remaining())
    {
      Load(bits, held, input[at], input[at..]);
      bits := bits + input[at] * Pow2(held);
      at := at + 1;
      held := held + 8;
    }

    /** Load bytes until `n` bits are held. */
    method Fill(n: nat) returns (ok: bool)
      requires Valid()
      modifies this`at, this`bits, this`held
      ensures Bounded() && bits < Pow2(held) && Remaining() == old(Remaining())
      ensures ok ==> n <= held < n + 8
      ensures !ok ==> |Remaining()| < n
    {
      while held < n
        invariant Bounded() && held < n + 8 && bits < Pow2(held)
        invariant Remaining() == old(Remaining())
        decreases n - held
      {
        if at == |input| {
          assert |Remaining()| == held;
          return false;
        }
        LoadByte();
      }
      return true;
    }

    /** Take the next `n` bits. The callers ask for 13 at most, so fewer than
        21 bits are held and no word of C is too short for them. */
    method Need(n: nat) returns (ok: bool, value: nat)
      requires Valid() && n <= 13
      modifies this`at, this`bits, this`held
      ensures Bounded()
      ensures match Take(old(Remaining()), n)
              case Fail => !ok
              case Got(v, rest) => ok && value == v && Valid() && Remaining() == rest
    {
      ok := Fill(n);
      value := 0;
      if ok {
        var p := Pow2(n);
        DivideParts(bits, p);
        Unload(bits / p, p, bits % p, held, n, BytesBits(input[at..]));
        value := bits % p;
        bits := bits / p;
        held := held - n;
      }
    }

    /** Take bit `k` of `all`. */
    method NextBit(ghost all: seq<bool>, ghost k: nat) returns (ok: bool, bit: nat)
      requires Valid() && k <= |all| && Remaining() == all[k..]
      modifies this`at, this`bits, this`held
      ensures Bounded()
      ensures !ok ==> k == |all|
      ensures ok ==> k < |all| && Valid() && bit == BitAt(all, k) && Remaining() == all[k + 1..]
    {
      ok, bit := Need(1);
      if k < |all| { TakeOne(all, k); }
    }

    /** Read one code of the table, bit by bit. */
    method Decode(h: Table) returns (symbol: int)
      requires Valid() && h.Valid()
      modifies this`at, this`bits, this`held
      ensures Bounded()
      ensures NextSymbol(h.lens, old(Remaining())).Fail? ==> symbol == -1
      ensures NextSymbol(h.lens, old(Remaining())).Got? ==>
                Valid() && NextSymbol(h.lens, old(Remaining())) == Got(symbol, Remaining())
    {
      ghost var all := Remaining();
      var code: int, first: int, index: int := 0, 0, 0;
      var length: nat := 1;
      WalkStart(h.lens, all);
      while length < 16
        invariant Valid() && Walking(h.lens, all, length, code, first, index)
        invariant Remaining() == all[length - 1..]
      {
        var ok, bit := NextBit(all, length - 1);
        if !ok {
          DecodeMiss(h.lens, all, length - 1);
          return -1;
        }
        var count := h.count[length];
        if code + bit - count < first {
          WalkHit(h, all, length, code, first, index, bit);
          return h.symbol[index + (code + bit - first)];
        }
        WalkOn(h.lens, all, length, code, first, index, bit);
        index := index + count;
        first := 2 * (first + count);
        code := 2 * (code + bit);
        length := length + 1;
      }
      DecodeMiss(h.lens, all, MAX_BITS);
      return -1;
    }

    /** Append `length` bytes from `distance` bytes back, one at a time. */
    method CopyBack(distance: nat, length: nat) returns (ok: bool)
      requires Bounded() && 0 < distance <= |Window()|
      modifies this`out
      ensures Bounded() && out[..start] == old(out[..start])
      ensures ok <==> old(|Window()|) + length <= limit
      ensures ok ==> Window() == old(Window()) + Repeated(old(Window()), distance, length)
    {
      ghost var w := Window();
      var i := 0;
      while i < length
        invariant 0 <= i <= length && Bounded() && out[..start] == old(out[..start])
        invariant Window() == w + Repeated(w, distance, i)
      {
        RepeatedNext(w, distance, i);
        var b := out[|out| - distance];
        assert b == Window()[|Window()| - distance];
        ghost var before := out;
        ok := Emit([b]);
        if !ok {
          return;
        }
        assert out[start..] == before[start..] + [b];
        assert out[..start] == before[..start];
        i := i + 1;
      }
      return true;
    }

    /** The fields of the copy a length symbol starts. */
    method CopyFields(l: nat, distances: Table) returns (ok: bool, more: nat, symbol: nat, dmore: nat)
      requires Valid() && distances.Valid() && l < 29
      modifies this`at, this`bits, this`held
      ensures Bounded()
      ensures ReadCopyToken(distances.lens, l, old(Remaining())).Fail? ==> !ok
      ensures ReadCopyToken(distances.lens, l, old(Remaining())).Got? ==>
                && ok && Valid() && symbol < 30
                && ReadCopyToken(distances.lens, l, old(Remaining()))
                   == Got(Copy(l, more, symbol, dmore), Remaining())
    {
      symbol, dmore := 0, 0;
      TableWidths();
      ok, more := Need(EXTRA[l]);
      if !ok { return; }
      var d := Decode(distances);
      if d < 0 || d >= 30 { return false, more, 0, 0; }
      symbol := d;
      ok, dmore := Need(DEXTRA[symbol]);
    }

    /** The copy a length symbol starts: its fields, then the bytes. */
    method CopyToken(l: nat, distances: Table) returns (ok: bool)
      requires Valid() && distances.Valid() && l < 29
      modifies this
      ensures Bounded() && out[..start] == old(out[..start])
      ensures Agrees(ReadCopy(distances.lens, l, old(Remaining()), old(Window()), limit), ok)
    {
      ghost var bits, w := Remaining(), Window();
      var more, symbol, dmore;
      ok, more, symbol, dmore := CopyFields(l, distances);
      if !ok { return; }
      var distance, length := DBASE[symbol] + dmore, BASE[l] + more;
      CopyStep(distances.lens, bits, Copy(l, more, symbol, dmore), Remaining(), w, limit, distance, length);
      if distance > |out| - start { return false; }
      ok := CopyBack(distance, length);
    }

    /** The tokens of a block under its two codes. */
    method Codes(lengths: Table, distances: Table) returns (ok: bool)
      requires Valid() && lengths.Valid() && distances.Valid()
      modifies this
      ensures Bounded() && out[..start] == old(out[..start])
      ensures Agrees(ReadTokens(lengths.lens, distances.lens, old(Remaining()), old(Window()), limit), ok)
    {
      ghost var r := ReadTokens(lengths.lens, distances.lens, Remaining(), Window(), limit);
      var more := true;
      ok := true;
      while more
        invariant Bounded() && out[..start] == old(out[..start])
        invariant more ==> Valid() && ReadTokens(lengths.lens, distances.lens, Remaining(), Window(), limit) == r
        invariant !more ==> Agrees(r, ok)
        decreases more, |Remaining()|
      {
        more, ok := OneToken(lengths, distances, r);
      }
    }

    /** One symbol of a block, and the copy it opens. */
    method OneToken(lengths: Table, distances: Table, ghost r: Read<seq<byte>>) returns (more: bool, ok: bool)
      requires Valid() && lengths.Valid() && distances.Valid()
      requires ReadTokens(lengths.lens, distances.lens, Remaining(), Window(), limit) == r
      modifies this
      ensures Bounded() && out[..start] == old(out[..start])
      ensures more ==> Valid() && ReadTokens(lengths.lens, distances.lens, Remaining(), Window(), limit) == r
      ensures more ==> |Remaining()| < old(|Remaining()|)
      ensures !more ==> Agrees(r, ok)
    {
      ghost var w, s := Window(), NextSymbol(lengths.lens, Remaining());
      TokensUnfold(lengths.lens, distances.lens, Remaining(), w, limit, s, r);
      var symbol := Decode(lengths);
      if symbol < 0 { return false, false; }
      more, ok := AfterSymbol(lengths, distances, symbol, r);
    }

    method AfterSymbol(lengths: Table, distances: Table, symbol: nat, ghost r: Read<seq<byte>>)
        returns (more: bool, ok: bool)
      requires Valid() && lengths.Valid() && distances.Valid()
      requires r == OnSymbol(lengths.lens, distances.lens, symbol, Remaining(), Window(), limit)
      modifies this
      ensures Bounded() && out[..start] == old(out[..start])
      ensures more ==> Valid() && ReadTokens(lengths.lens, distances.lens, Remaining(), Window(), limit) == r
      ensures more ==> |Remaining()| <= old(|Remaining()|)
      ensures !more ==> Agrees(r, ok)
    {
      if symbol < 256 {
        ok := EmitLiteral(symbol);
        more := ok;
      } else if symbol == 256 {
        more, ok := false, true;
      } else if symbol - 257 >= 29 {
        more, ok := false, false;
      } else {
        ok := CopyToken(symbol - 257, distances);
        more := ok;
      }
    }

    method EmitLiteral(symbol: int) returns (ok: bool)
      requires Valid() && 0 <= symbol < 256
      modifies this`out
      ensures Valid() && out[..start] == old(out[..start]) && Remaining() == old(Remaining())
      ensures ok <==> old(|Window()|) < limit
      ensures ok ==> Window() == old(Window()) + [symbol]
    {
      ghost var before, w := out, Window();
      ok := Emit([symbol]);
      assert out[..start] == before[..start];
      if ok { assert Window() == w + [symbol]; }
    }

    /** A block under the fixed code. */
    method Fixed() returns (ok: bool)
      requires Valid()
      modifies this
      ensures Bounded() && out[..start] == old(out[..start])
      ensures Agrees(ReadTokens(FixedLengths(), FixedDistances(), old(Remaining()), old(Window()), limit), ok)
    {
      var lengths, distances := FixedTables();
      ok := Codes(lengths, distances);
    }

    /** The lengths of the length codes, three bits each, in their order. */
    method FirstLengths(n: nat, sizes: array<nat>) returns (ok: bool)
      requires Valid() && n <= 19 <= sizes.Length && sizes[..19] == Same(0, 19)
      modifies this`at, this`bits, this`held, sizes
      ensures Bounded()
      ensures ReadFirst(n, old(Remaining())).Fail? ==> !ok
      ensures ReadFirst(n, old(Remaining())).Got? ==>
                && ok && Valid() && Remaining() == ReadFirst(n, old(Remaining())).rest
                && sizes[..19] == LengthTable(ReadFirst(n, old(Remaining())).value)
    {
      ghost var all := Remaining();
      var index := 0;
      while index < n
        invariant 0 <= index <= n && Valid()
        invariant FirstSoFar(index, all, Remaining(), sizes[..19])
      {
        ghost var table, rest := sizes[..19], Remaining();
        var value;
        ok, value := Need(3);
        FirstNext(index, n, all, rest, table);
        if !ok { return; }
        OrderInRange(index);
        sizes[ORDER[index]] := value;
        assert sizes[..19] == table[ORDER[index] := value];
        index := index + 1;
      }
      return true;
    }

    /** The run of lengths a symbol from 16 to 18 stands for. */
    method RunLengths(symbol: nat, total: nat, sizes: array<nat>, index: nat)
        returns (ok: bool, index': nat)
      requires Valid() && 16 <= symbol && index <= total <= sizes.Length
      modifies this`at, this`bits, this`held, sizes
      ensures Bounded()
      ensures ReadRun(symbol, total, old(Remaining()), old(sizes[..index])).Fail? ==> !ok
      ensures ReadRun(symbol, total, old(Remaining()), old(sizes[..index])).Got? ==>
                && ok && Valid() && index < index' <= total
                && ReadRun(symbol, total, old(Remaining()), old(sizes[..index]))
                   == Got(sizes[..index'], Remaining())
    {
      hide Take, ReadLengths;
      var times, repeat: nat := 0, 0;
      index' := index;
      if symbol == 16 {
        if index == 0 { return false, index; }
        ok, times := Need(2);
        if !ok { return; }
        repeat := sizes[index - 1];
        times := times + 3;
      } else if symbol == 17 {
        ok, times := Need(3);
        if !ok { return; }
        times := times + 3;
      } else {
        ok, times := Need(7);
        if !ok { return; }
        times := times + 11;
      }
      if index + times > total { return false, index; }
      index' := index + times;
      SetRange(sizes, index, index', repeat);
      assert sizes[..index'] == old(sizes[..index]) + Same(repeat, times);
    }

    /** The code lengths of a dynamic block. */
    method CodeLengths(table: Table, total: nat, sizes: array<nat>) returns (ok: bool)
      requires Valid() && table.Valid() && total <= sizes.Length
      requires table.symbol != sizes && table.count != sizes
      modifies this`at, this`bits, this`held, sizes
      ensures Bounded()
      ensures ReadLengths(table.lens, total, old(Remaining()), []).Fail? ==> !ok
      ensures ReadLengths(table.lens, total, old(Remaining()), []).Got? ==>
                && ok && Valid()
                && ReadLengths(table.lens, total, old(Remaining()), []) == Got(sizes[..total], Remaining())
    {
      ghost var r := ReadLengths(table.lens, total, Remaining(), []);
      var index: nat := 0;
      assert sizes[..0] == [];
      while index < total
        invariant index <= total && Valid() && table.Valid()
        invariant ReadLengths(table.lens, total, Remaining(), sizes[..index]) == r
        decreases total - index
      {
        ghost var lens := sizes[..index];
        var symbol := Decode(table);
        if symbol < 0 { return false; }
        if symbol < 16 {
          sizes[index] := symbol;
          index := index + 1;
          assert sizes[..index] == lens + [symbol];
        } else {
          ok, index := RunLengths(symbol, total, sizes, index);
          if !ok { return; }
        }
      }
      return true;
    }

    /** The three counts of a dynamic block. */
    method Counts() returns (ok: bool, nlen: nat, ndist: nat, ncode: nat)
      requires Valid()
      modifies this`at, this`bits, this`held
      ensures Bounded()
      ensures ReadCounts(old(Remaining())).Fail? ==> !ok
      ensures ReadCounts(old(Remaining())).Got? ==>
                ok && Valid() && ReadCounts(old(Remaining())) == Got((nlen, ndist, ncode), Remaining())
    {
      nlen, ndist, ncode := 0, 0, 0;
      ok, nlen := Need(5);
      if !ok { return; }
      ok, ndist := Need(5);
      if !ok { return; }
      ok, ncode := Need(4);
      nlen, ndist, ncode := nlen + 257, ndist + 1, ncode + 4;
    }

    /** The two tables of a dynamic block, from its header. */
    method DynamicTables(lengths: Table, distances: Table) returns (ok: bool)
      requires Valid() && lengths.Shape() && distances.Shape() && Apart(lengths, distances)
      modifies this`at, this`bits, this`held
      modifies lengths, lengths.count, lengths.symbol, distances, distances.count, distances.symbol
      ensures Bounded()
      ensures ReadHeader(old(Remaining())).Fail? ==> !ok
      ensures ReadHeader(old(Remaining())).Got? ==>
                && ok && Valid() && lengths.Valid() && distances.Valid()
                && ReadHeader(old(Remaining())) == Got((lengths.lens, distances.lens), Remaining())
    {
      var nlen, ndist, ncode;
      ok, nlen, ndist, ncode := Counts();
      if !ok { return; }
      if nlen > 286 || ndist > 30 { return false; }
      ok := DynamicCodes(nlen, ndist, ncode, lengths, distances);
    }

    /** The code lengths a dynamic block sends, under the code of lengths it
        sends first. `lengths` is left holding that code. */
    method AllLengths(total: nat, ncode: nat, lengths: Table, sizes: array<nat>)
        returns (ok: bool, ghost first: seq<nat>, ghost bits1: seq<bool>)
      requires Valid() && lengths.Shape() && ncode <= 19 && total <= sizes.Length && 19 <= sizes.Length
      requires sizes != lengths.count && sizes != lengths.symbol && sizes[..19] == Same(0, 19)
      modifies this`at, this`bits, this`held, sizes, lengths, lengths.count, lengths.symbol
      ensures Bounded() && lengths.Shape()
      ensures ReadFirst(ncode, old(Remaining())).Got? ==>
                ReadFirst(ncode, old(Remaining())) == Got(first, bits1)
      ensures ok <==> && ReadFirst(ncode, old(Remaining())).Got? && Codeable(LengthTable(first))
                      && ReadLengths(LengthTable(first), total, bits1, []).Got?
      ensures ok ==> Valid() &&
                     ReadLengths(LengthTable(first), total, bits1, []) == Got(sizes[..total], Remaining())
    {
      ghost var bits := Remaining();
      first, bits1 := [], [];
      ok := FirstLengths(ncode, sizes);
      if !ok { return; }
      first, bits1 := ReadFirst(ncode, bits).value, Remaining();
      LengthTableLengths(first);
      ok := lengths.Construct(sizes[..19]);
      if !ok { return; }
      ok := CodeLengths(lengths, total, sizes);
    }

    method DynamicCodes(nlen: nat, ndist: nat, ncode: nat, lengths: Table, distances: Table)
        returns (ok: bool)
      requires Valid() && lengths.Shape() && distances.Shape() && Apart(lengths, distances)
      requires nlen <= 286 && ndist <= 30 && ncode <= 19
      modifies this`at, this`bits, this`held
      modifies lengths, lengths.count, lengths.symbol, distances, distances.count, distances.symbol
      ensures Bounded()
      ensures ReadCodes(nlen, ndist, ncode, old(Remaining())).Fail? ==> !ok
      ensures ReadCodes(nlen, ndist, ncode, old(Remaining())).Got? ==>
                && ok && Valid() && lengths.Valid() && distances.Valid()
                && ReadCodes(nlen, ndist, ncode, old(Remaining()))
                   == Got((lengths.lens, distances.lens), Remaining())
    {
      hide ReadFirst, ReadLengths, LengthTable, KraftSum;
      ghost var bits := Remaining();
      var sizes := new nat[320](_ => 0);
      assert sizes[..19] == Same(0, 19);
      ghost var first, bits1;
      ok, first, bits1 := AllLengths(nlen + ndist, ncode, lengths, sizes);
      if !ok { return; }
      CodesSteps(nlen, ndist, bits, first, bits1, sizes[..nlen + ndist], Remaining());
      ok := TwoTables(sizes[..nlen + ndist], nlen, lengths, distances);
    }

    /** A block under codes of its own. */
    method Dynamic() returns (ok: bool)
      requires Valid()
      modifies this
      ensures Bounded() && out[..start] == old(out[..start])
      ensures Agrees(ReadDynamic(old(Remaining()), old(Window()), limit), ok)
    {
      hide ReadTokens, ReadHeader;
      var lengths := new Table();
      var distances := new Table();
      ok := DynamicTables(lengths, distances);
      if !ok { return; }
      ok := Codes(lengths, distances);
    }

    /** Forget the bits held, and go on at the next byte. */
    method DropToByte()
      requires Valid()
      modifies this`bits, this`held
      ensures Valid() && bits == held == 0
      ensures Remaining() == BytesBits(input[at..]) == old(Remaining())[|old(Remaining())| % 8..]
    {
      DropHeld(bits, held, input[at..]);
      bits := 0;
      held := 0;
    }

    /** A stored block: from the next byte on, its length twice and its bytes. */
    method Stored() returns (ok: bool)
      requires Valid()
      modifies this
      ensures Bounded() && out[..start] == old(out[..start])
      ensures Agrees(ReadStored(old(Remaining()), old(Window()), limit), ok)
    {
      hide ReadBytes, BytesBits, Agrees;
      DropToByte();
      ok := StoredBytes();
    }

    method StoredBytes() returns (ok: bool)
      requires Valid() && bits == held == 0
      modifies this
      ensures Bounded() && out[..start] == old(out[..start])
      ensures Agrees(ReadBytes(old(Remaining()), old(Window()), limit), ok)
    {
      ghost var s := input[at..];
      AllBytes(s);
      if at + 4 > |input| {
        return false;
      }
      var length := Get16(input, at);
      StoredSteps(s, Window(), limit);
      assert Get16(s, 0) == length && Get16(s, 2) == Get16(input, at + 2);
      if length != 0xffff - Get16(input, at + 2) {
        return false;
      }
      at := at + 4;
      assert input[at..] == s[4..];
      ok := EmitInput(length);
    }

    /** Move the next bytes of the input to the output. */
    method EmitInput(length: nat) returns (ok: bool)
      requires Valid() && bits == held == 0
      modifies this
      ensures Bounded() && out[..start] == old(out[..start])
      ensures ok <==> length <= |input| - old(at) && old(|Window()|) + length <= limit
      ensures ok ==> && Valid() && Window() == old(Window()) + input[old(at)..][..length]
                     && Remaining() == BytesBits(input[old(at)..][length..])
    {
      ghost var w, s, before := Window(), input[at..], out;
      if at + length > |input| {
        return false;
      }
      ok := Emit(input[at..at + length]);
      if !ok { return; }
      assert out[..start] == before[..start] && Window() == w + s[..length];
      at := at + length;
      AllBytes(input[at..]);
      assert input[at..] == s[length..];
    }

    /** Decode the whole stream. */
    method Run() returns (ok: bool)
      requires Valid()
      modifies this
      ensures Bounded() && out[..start] == old(out[..start])
      ensures Agrees(ReadStream(old(Remaining()), old(Window()), limit), ok)
    {
      ghost var r := ReadStream(Remaining(), Window(), limit);
      var last := 0;
      while true
        invariant Valid() && out[..start] == old(out[..start])
        invariant ReadStream(Remaining(), Window(), limit) == r
        decreases |Remaining()|
      {
        var kind;
        ok, last := Need(1);
        if !ok { return; }
        ok, kind := Need(2);
        if !ok { return; }
        if kind == 0 {
          ok := Stored();
        } else if kind == 1 {
          ok := Fixed();
        } else if kind == 2 {
          ok := Dynamic();
        } else {
          ok := false;
        }
        if !ok || last == 1 { return; }
      }
    }

    /** What a reader and a method say of the same bits: both fail, or both end
        with one output and one rest. */
    ghost predicate Agrees(r: Read<seq<byte>>, ok: bool)
      requires at <= |input| && start <= |out|
      reads this
    {
      match r
      case Fail => !ok
      case Got(w, rest) => ok && Valid() && Window() == w && Remaining() == rest
    }
  }

  /** Set the elements of `a` from `from` up to `to`. */
  method SetRange(a: array<nat>, from: nat, to: nat, n: nat)
    requires from <= to <= a.Length
    modifies a
    ensures a[..] == old(a[..from]) + Same(n, to - from) + old(a[to..])
  {
    var i := from;
    while i < to
      invariant from <= i <= to
      invariant a[..from] == old(a[..from]) && a[from..i] == Same(n, i - from) && a[to..] == old(a[to..])
    {
      a[i] := n;
      i := i + 1;
    }
  }

  /** A new table of lengths that a prefix code has. */
  method TableOf(lens: seq<nat>) returns (h: Table)
    requires Codeable(lens) && |lens| <= 288
    ensures fresh(h) && fresh(h.count) && fresh(h.symbol)
    ensures h.Valid() && h.lens == lens
  {
    h := new Table();
    var ok := h.Construct(lens);
  }

  method FixedSizes() returns (lens: seq<nat>)
    ensures lens == FixedLengths()
  {
    var sizes := new nat[288];
    SetRange(sizes, 0, 144, 8);
    SetRange(sizes, 144, 256, 9);
    SetRange(sizes, 256, 280, 7);
    SetRange(sizes, 280, 288, 8);
    lens := sizes[..];
  }

  /** The tables of the fixed code. */
  method FixedTables() returns (lengths: Table, distances: Table)
    ensures fresh(lengths) && fresh(lengths.count) && fresh(lengths.symbol)
    ensures fresh(distances) && fresh(distances.count) && fresh(distances.symbol)
    ensures lengths.Valid() && lengths.lens == FixedLengths()
    ensures distances.Valid() && distances.lens == FixedDistances()
  {
    FixedCodes();
    var sizes := FixedSizes();
    lengths := TableOf(sizes);
    var dists := new nat[30];
    SetRange(dists, 0, 30, 5);
    assert dists[..] == FixedDistances();
    distances := TableOf(dists[..]);
  }

  /** The two tables of a dynamic block, from its lengths. */
  method TwoTables(lens: seq<nat>, nlen: nat, lengths: Table, distances: Table) returns (ok: bool)
    requires lengths.Shape() && distances.Shape() && Apart(lengths, distances) && Lengths(lens)
    requires nlen <= |lens| && nlen <= 288 && |lens| - nlen <= 288
    modifies lengths, lengths.count, lengths.symbol, distances, distances.count, distances.symbol
    ensures ok <==> Codeable(lens[..nlen]) && Codeable(lens[nlen..])
    ensures ok ==> && lengths.Valid() && distances.Valid()
                   && lengths.lens == lens[..nlen] && distances.lens == lens[nlen..]
  {
    ok := lengths.Construct(lens[..nlen]);
    if !ok { return; }
    ok := distances.Construct(lens[nlen..]);
  }

  ghost predicate Apart(a: Table, b: Table)
    reads a, b
  {
    a != b && {a.count, a.symbol} !! {b.count, b.symbol}
  }

  lemma OrderInRange(index: nat)
    requires index < 19
    ensures ORDER[index] < 19
  {
  }

  lemma {:induction false} LengthTableLengths(first: seq<nat>)
    requires |first| <= 19 && forall i :: 0 <= i < |first| ==> first[i] < 8
    ensures Lengths(LengthTable(first))
  {
    if first != [] {
      LengthTableLengths(first[..|first| - 1]);
    }
  }

  /** After `index` lengths: what was read, what is left and the table. */
  ghost predicate FirstSoFar(index: nat, all: seq<bool>, rest: seq<bool>, table: seq<nat>) {
    index <= 19 && ReadFirst(index, all).Got? && ReadFirst(index, all).rest == rest &&
    table == LengthTable(ReadFirst(index, all).value)
  }

  lemma {:induction false} FirstFails(k: nat, n: nat, all: seq<bool>)
    requires k <= n && ReadFirst(k, all).Fail?
    ensures ReadFirst(n, all).Fail?
  {
    if k < n { FirstFails(k, n - 1, all); }
  }

  lemma FirstNext(index: nat, n: nat, all: seq<bool>, rest: seq<bool>, table: seq<nat>)
    requires index < n <= 19 && FirstSoFar(index, all, rest, table)
    ensures |table| == 19 && ORDER[index] < 19
    ensures Take(rest, 3).Fail? ==> ReadFirst(n, all).Fail?
    ensures Take(rest, 3).Got? ==>
              FirstSoFar(index + 1, all, Take(rest, 3).rest, table[ORDER[index] := Take(rest, 3).value])
  {
    OrderInRange(index);
    var first := ReadFirst(index, all).value;
    ReadFirstStep(index, all);
    if Take(rest, 3).Fail? {
      FirstFails(index + 1, n, all);
    } else {
      LengthTableStep(first, Take(rest, 3).value);
    }
  }

  lemma ReadFirstStep(index: nat, all: seq<bool>)
    requires ReadFirst(index, all).Got?
    ensures ReadFirst(index + 1, all)
         == match Take(ReadFirst(index, all).rest, 3)
            case Fail => Fail
            case Got(value, rest) => Got(ReadFirst(index, all).value + [value], rest)
  {
  }

  lemma LengthTableStep(first: seq<nat>, value: nat)
    requires |first| < 19 && ORDER[|first|] < 19
    ensures LengthTable(first + [value]) == LengthTable(first)[ORDER[|first|] := value]
  {
    assert (first + [value])[..|first|] == first;
  }

  /** Dropping the bits held goes on at the next byte. */
  lemma DropHeld(v: nat, held: nat, rest: seq<byte>)
    requires held < 8
    ensures var b := BitsOf(v, held) + BytesBits(rest);
            |b| % 8 == held && b[|b| % 8..] == BytesBits(rest)
    ensures BitsOf(0, 0) + BytesBits(rest) == BytesBits(rest)
  {
    hide BitsOf, BytesBits;
  }

  lemma SixteenBits(low: byte, high: byte, v: nat)
    requires v == (low as int) + 256 * (high as int)
    ensures BytesBits([low, high]) == BitsOf(v, 16)
  {
    assert Pow2(8) == 256;
    AppendBits(low, 8, high, 8);
    assert [low, high][1..] == [high] && [high][1..] == [];
    assert BytesBits([high]) == BitsOf(high, 8) + [];
  }

  lemma TwoBytes(s: seq<byte>)
    requires |s| >= 2
    ensures BytesBits(s) == BitsOf(Get16(s, 0), 16) + BytesBits(s[2..])
  {
    SixteenBits(s[0], s[1], Get16(s, 0));
    BytesBitsConcat([s[0], s[1]], s[2..]);
    assert s == [s[0], s[1]] + s[2..];
  }

  lemma FieldOf16(s: seq<byte>)
    requires |s| >= 2
    ensures Take(BytesBits(s), 16) == Got(Get16(s, 0), BytesBits(s[2..]))
  {
    TwoBytes(s);
    Powers();
    FieldRead(Get16(s, 0), 16, BytesBits(s[2..]));
  }

  lemma BytesStep(bits: seq<bool>, length: nat, bits1: seq<bool>, check: nat, bits2: seq<bool>, data: seq<byte>,
                  w: seq<byte>, limit: nat)
    requires Take(bits, 16) == Got(length, bits1) && Take(bits1, 16) == Got(check, bits2)
    requires bits2 == BytesBits(data) && |w| <= limit
    ensures ReadBytes(bits, w, limit)
         == if length + check == 0xffff && length <= |data| && |w| + length <= limit
            then Got(w + data[..length], BytesBits(data[length..])) else Fail
  {
    if length <= |data| { StoredData(data, length); }
  }

  lemma StoredSteps(s: seq<byte>, w: seq<byte>, limit: nat)
    requires |s| >= 4 && |w| <= limit
    ensures ReadBytes(BytesBits(s), w, limit)
         == if Get16(s, 0) + Get16(s, 2) == 0xffff && Get16(s, 0) <= |s| - 4 && |w| + Get16(s, 0) <= limit
            then Got(w + s[4..][..Get16(s, 0)], BytesBits(s[4..][Get16(s, 0)..])) else Fail
  {
    hide ReadBytes, BytesBits;
    FieldOf16(s);
    FieldOf16(s[2..]);
    assert s[2..][2..] == s[4..] && Get16(s[2..], 0) == Get16(s, 2);
    BytesStep(BytesBits(s), Get16(s, 0), BytesBits(s[2..]), Get16(s, 2), BytesBits(s[4..]), s[4..], w, limit);
  }

  lemma AllBytes(s: seq<byte>)
    ensures BitsOf(0, 0) + BytesBits(s) == BytesBits(s)
  {
  }

  lemma StoredData(data: seq<byte>, length: nat)
    requires length <= |data|
    ensures 8 * length <= |BytesBits(data)|
    ensures BitsBytes(BytesBits(data)[..8 * length]) == data[..length]
    ensures BytesBits(data)[8 * length..] == BytesBits(data[length..])
  {
    BytesBitsDrop(data, length);
    BitsBytesOfBytesBits(data[..length]);
  }

  /** The extra bits of any symbol fit one read. */
  lemma TableWidths()
    ensures forall l :: 0 <= l < 29 ==> EXTRA[l] <= 13
    ensures forall d :: 0 <= d < 30 ==> DEXTRA[d] <= 13
  {
  }

  lemma DistancePositive(d: nat)
    requires d < 30
    ensures DBASE[d] > 0
  {
  }

  /** A copy, once its fields are read. */
  lemma CopyStep(dists: seq<nat>, bits: seq<bool>, t: Token, rest: seq<bool>, w: seq<byte>, limit: nat,
                 distance: nat, length: nat)
    requires t.Copy? && t.length < 29 && t.distance < 30 && |w| <= limit
    requires ReadCopyToken(dists, t.length, bits) == Got(t, rest)
    requires distance == DBASE[t.distance] + t.dmore && length == BASE[t.length] + t.more
    ensures distance > 0
    ensures ReadCopy(dists, t.length, bits, w, limit)
         == if distance <= |w| && |w| + length <= limit
            then Got(w + Repeated(w, distance, length), rest) else Fail
  {
    DistancePositive(t.distance);
    ExpandCopy(w, t, distance, length);
    CopyUnfolds(dists, bits, t, rest, w, limit, ExpandToken(w, t));
  }

  lemma ExpandCopy(w: seq<byte>, t: Token, distance: nat, length: nat)
    requires t.Copy? && t.length < 29 && t.distance < 30 && distance > 0
    requires distance == DBASE[t.distance] + t.dmore && length == BASE[t.length] + t.more
    ensures ExpandToken(w, t) == if distance <= |w| then Some(w + Repeated(w, distance, length)) else None
  {
  }

  lemma LoadBound(v: nat, p: nat, b: byte)
    requires v < p
    ensures 0 <= v + b * p < 256 * p
  {
    MulMonotone(b, 255, p);
    MulMonotone(0, b, p);
  }

  lemma Load(v: nat, held: nat, b: byte, rest: seq<byte>)
    requires v < Pow2(held) && rest != [] && rest[0] == b
    ensures 0 <= v + b * Pow2(held) < Pow2(held + 8)
    ensures BitsOf(v, held) + BytesBits(rest)
         == BitsOf(v + b * Pow2(held), held + 8) + BytesBits(rest[1..])
  {
    AppendBits(v, held, b, 8);
    assert Pow2(held + 8) == 256 * Pow2(held) by {
      Pow2Add(8, held);
      assert Pow2(8) == 256;
    }
    LoadBound(v, Pow2(held), b);
    Reassociate(BitsOf(v, held), BitsOf(b, 8), BytesBits(rest[1..]));
  }

  lemma QuotientBound(q: nat, p: nat, r: nat, m: nat)
    requires q * p + r < p * m
    ensures q < m
  {
    if q >= m { MulMonotone(m, q, p); }
  }

  lemma Unload(q: nat, p: nat, r: nat, held: nat, n: nat, rest: seq<bool>)
    requires n <= held && p == Pow2(n) && r < p && q * p + r < Pow2(held)
    ensures q < Pow2(held - n)
    ensures Take(BitsOf(q * p + r, held) + rest, n) == Got(r, BitsOf(q, held - n) + rest)
  {
    AppendBits(r, n, q, held - n);
    Reassociate(BitsOf(r, n), BitsOf(q, held - n), rest);
    FieldRead(r, n, BitsOf(q, held - n) + rest);
    Pow2Add(n, held - n);
    QuotientBound(q, p, r, Pow2(held - n));
  }

  lemma MulMonotone(a: nat, b: nat, p: nat)
    requires a <= b
    ensures a * p <= b * p
  {
    assert (b - a) * p >= 0;
  }

  lemma RepeatedNext(w: seq<byte>, d: nat, i: nat)
    requires 0 < d <= |w|
    ensures Repeated(w, d, i + 1) == Repeated(w, d, i) + [(w + Repeated(w, d, i))[|w| + i - d]]
  {
    var done := Repeated(w, d, i);
    RepeatedByte(w, d, i, done);
    assert Repeated(w, d, i + 1)[..i] == done;
    assert Repeated(w, d, i + 1) == done + [(w + done)[|w| + i - d]];
  }

  /** The byte copied next is one period before the end of the output. */
  lemma RepeatedByte(w: seq<byte>, d: nat, i: nat, done: seq<byte>)
    requires 0 < d <= |w| && done == Repeated(w, d, i)
    ensures (w + done)[|w| + i - d] == w[|w| - d + i % d]
  {
    if i >= d {
      ModStep(i - d, d);
      assert done[i - d] == w[|w| - d + (i - d) % d];
    } else {
      DivideUnique(i, d, 0, i);
    }
  }

  lemma ModStep(x: nat, d: nat)
    requires d > 0
    ensures (x + d) % d == x % d
  {
    DivideParts(x, d);
    assert x + d == (x / d + 1) * d + x % d;
    DivideUnique(x + d, d, x / d + 1, x % d);
  }

  /** Decode `input` onto the end of `out`. It succeeds exactly for the deflate
      streams that stand for at most `limit` bytes, and appends those bytes. */
  method InflateOnto(input: seq<byte>, limit: nat, out: seq<byte>) returns (ok: bool, result: seq<byte>)
    ensures ok ==> |out| <= |result| && result[..|out|] == out && Deflates(input, limit, result[|out|..])
    ensures !ok ==> forall bytes :: !Deflates(input, limit, bytes)
  {
    var s := new Inflater(input, limit, out);
    ok := s.Run();
    result := s.out;
    assert out[..|out|] == out;
    forall bytes { ReaderIsExact(input, limit, bytes); }
  }
}

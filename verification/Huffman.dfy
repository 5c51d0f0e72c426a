/** The canonical Huffman tables of the deflate decoder, after section 3.2.2
    of RFC 1951: `construct` and the table side of `decode` of zip.c. */
module Huffman {
  import opened Bits

  const MAX_BITS := 15

  ghost predicate Lengths(lens: seq<nat>) {
    forall s :: 0 <= s < |lens| ==> lens[s] <= MAX_BITS
  }

  /** The number of symbols whose code takes `k` bits. */
  function Count(lens: seq<nat>, k: nat): (c: nat)
    ensures c <= |lens|
  {
    if lens == [] then 0
    else Count(lens[..|lens| - 1], k) + (if lens[|lens| - 1] == k then 1 else 0)
  }

  /** The symbols before `s` whose code has the length of its own. */
  function Rank(lens: seq<nat>, s: nat): (r: nat)
    requires s < |lens|
  {
    Count(lens[..s], lens[s])
  }

  /** The smallest code of `k` bits: `next_code` of section 3.2.2. */
  function First(lens: seq<nat>, k: nat): (code: nat)
    requires k > 0
  {
    if k == 1 then 0 else 2 * (First(lens, k - 1) + Count(lens, k - 1))
  }

  /** The symbols whose code is shorter than `k` bits. */
  function Offset(lens: seq<nat>, k: nat): (i: nat)
    requires k > 0
  {
    if k == 1 then 0 else Offset(lens, k - 1) + Count(lens, k - 1)
  }

  /** The codes of `k` bits that stay free once every code of up to `k` bits
      is given out. Negative for an over-subscribed set of lengths. */
  function Left(lens: seq<nat>, k: nat): int {
    if k == 0 then 1 else 2 * Left(lens, k - 1) - Count(lens, k)
  }

  /** The share of the code space the symbols take, in units of the longest
      code. */
  function KraftSum(lens: seq<nat>): (sum: nat)
    requires Lengths(lens)
  {
    if lens == [] then 0
    else
      var last := lens[|lens| - 1];
      KraftSum(lens[..|lens| - 1]) + (if last == 0 then 0 else Pow2(MAX_BITS - last))
  }

  /** A set of lengths some prefix code has: Kraft's inequality. */
  ghost predicate Codeable(lens: seq<nat>) {
    Lengths(lens) && KraftSum(lens) <= Pow2(MAX_BITS)
  }

  ghost predicate Coded(lens: seq<nat>, s: nat) {
    s < |lens| && lens[s] > 0
  }

  /** The canonical code of a symbol, in the order its bits are read. */
  ghost function Code(lens: seq<nat>, s: nat): (b: seq<bool>)
    requires Coded(lens, s)
    ensures |b| == lens[s]
  {
    CodeBits(First(lens, lens[s]) + Rank(lens, s), lens[s])
  }

  lemma {:induction false} CountMonotone(lens: seq<nat>, m: nat, k: nat)
    requires m <= |lens|
    ensures Count(lens[..m], k) <= Count(lens, k)
  {
    if m < |lens| {
      CountMonotone(lens[..|lens| - 1], m, k);
      assert lens[..|lens| - 1][..m] == lens[..m];
    } else {
      assert lens[..m] == lens;
    }
  }

  lemma CountNext(lens: seq<nat>, m: nat, k: nat)
    requires m < |lens|
    ensures Count(lens[..m + 1], k) == Count(lens[..m], k) + (if lens[m] == k then 1 else 0)
  {
    assert lens[..m + 1][..m] == lens[..m];
  }

  lemma RankBelowCount(lens: seq<nat>, s: nat)
    requires s < |lens|
    ensures Rank(lens, s) < Count(lens, lens[s])
  {
    CountNext(lens, s, lens[s]);
    CountMonotone(lens, s + 1, lens[s]);
  }

  /** The symbols of one length have the ranks 0, 1, 2 and so on. */
  lemma {:induction false} SymbolOfRank(lens: seq<nat>, k: nat, r: nat) returns (s: nat)
    requires r < Count(lens, k)
    ensures s < |lens| && lens[s] == k && Rank(lens, s) == r
  {
    var m := |lens| - 1;
    if lens[m] == k && Count(lens[..m], k) == r {
      s := m;
    } else {
      s := SymbolOfRank(lens[..m], k, r);
      assert lens[..m][..s] == lens[..s];
    }
  }

  lemma {:induction false} RankInjective(lens: seq<nat>, s: nat, t: nat)
    requires s < t < |lens| && lens[s] == lens[t]
    ensures Rank(lens, s) < Rank(lens, t)
  {
    CountNext(lens, s, lens[s]);
    CountMonotone(lens[..t], s + 1, lens[s]);
    assert lens[..t][..s + 1] == lens[..s + 1];
  }

  /** What is given out, with what is left, is the whole space. */
  lemma {:induction false} LeftAndFirst(lens: seq<nat>, k: nat)
    requires k > 0
    ensures Left(lens, k) + First(lens, k) + Count(lens, k) == Pow2(k)
  {
    if k > 1 {
      LeftAndFirst(lens, k - 1);
    } else {
      assert Left(lens, 1) == 2 * Left(lens, 0) - Count(lens, 1);
      assert Pow2(1) == 2 * Pow2(0);
    }
  }

  lemma {:induction false} LeftEmpty(k: nat)
    ensures Left([], k) == Pow2(k)
  {
    if k > 0 { LeftEmpty(k - 1); }
  }

  /** One more symbol takes its share of the space at each level. */
  lemma {:induction false} LeftSnoc(lens: seq<nat>, n: nat, k: nat)
    ensures Left(lens + [n], k)
         == Left(lens, k) - (if 0 < n <= k then Pow2(k - n) else 0)
  {
    if k > 0 {
      LeftSnoc(lens, n, k - 1);
      assert (lens + [n])[..|lens|] == lens;
    }
  }

  lemma {:induction false} LeftIsKraft(lens: seq<nat>)
    requires Lengths(lens)
    ensures Left(lens, MAX_BITS) == Pow2(MAX_BITS) - KraftSum(lens)
  {
    if lens == [] {
      LeftEmpty(MAX_BITS);
    } else {
      var m := |lens| - 1;
      LeftIsKraft(lens[..m]);
      LeftSnoc(lens[..m], lens[m], MAX_BITS);
      assert lens == lens[..m] + [lens[m]];
    }
  }

  /** A set that runs out of codes never has some left again. */
  lemma {:induction false} LeftStaysNegative(lens: seq<nat>, j: nat, k: nat)
    requires j <= k && Left(lens, j) < 0
    ensures Left(lens, k) < 0
    decreases k - j
  {
    if j < k { LeftStaysNegative(lens, j + 1, k); }
  }

  lemma CodesFit(lens: seq<nat>, k: nat)
    requires Codeable(lens) && 0 < k <= MAX_BITS
    ensures Left(lens, k) >= 0 && First(lens, k) + Count(lens, k) <= Pow2(k)
  {
    LeftIsKraft(lens);
    LeftAndFirst(lens, k);
    if Left(lens, k) < 0 { LeftStaysNegative(lens, k, MAX_BITS); }
  }

  /** The value of a code, read back from its bits. */
  lemma CodeRead(lens: seq<nat>, s: nat)
    requires Codeable(lens) && Coded(lens, s)
    ensures CodeValue(Code(lens, s)) == First(lens, lens[s]) + Rank(lens, s)
  {
    hide KraftSum, Count, First, Left, Rank;
    RankBelowCount(lens, s);
    CodesFit(lens, lens[s]);
    CodeValueOfCodeBits(First(lens, lens[s]) + Rank(lens, s), lens[s]);
  }

  /** Codes of `m` bits start past the codes of `k < m` bits, all extended. */
  lemma {:induction false} FirstPastShorter(lens: seq<nat>, k: nat, m: nat)
    requires 0 < k < m
    ensures First(lens, m) >= (First(lens, k) + Count(lens, k)) * Pow2(m - k)
  {
    if m == k + 1 {
      assert Pow2(1) == 2 * Pow2(0);
    } else {
      FirstPastShorter(lens, k, m - 1);
      assert Pow2(m - k) == 2 * Pow2(m - 1 - k);
      assert First(lens, m) >= 2 * First(lens, m - 1);
      TwiceAsFar(First(lens, m), First(lens, m - 1), First(lens, k) + Count(lens, k), Pow2(m - 1 - k));
    }
  }

  lemma TwiceAsFar(next: nat, first: nat, c: nat, p: nat)
    requires next >= 2 * first && first >= c * p
    ensures next >= c * (2 * p)
  {
    assert c * (2 * p) == 2 * (c * p);
  }

  lemma DivideAtLeast(v: nat, q: nat, d: nat)
    requires d > 0 && v >= q * d
    ensures v / d >= q
  {
    DivideParts(v, d);
    var p := v / d;
    if p < q {
      assert (q - p) * d == q * d - p * d;
      AtLeastOnce(q - p, d);
    }
  }

  /** The first k bits of a longer code lie past every code of k bits. */
  lemma LongerCodePast(lens: seq<nat>, t: nat, k: nat)
    requires Codeable(lens) && Coded(lens, t) && 0 < k < lens[t]
    ensures CodeValue(Code(lens, t)[..k]) >= First(lens, k) + Count(lens, k)
  {
    var m, b := CodePastFirst(lens, t);
    CodePast(lens, k, m, b);
  }

  lemma CodePastFirst(lens: seq<nat>, t: nat) returns (m: nat, b: seq<bool>)
    requires Codeable(lens) && Coded(lens, t)
    ensures m == lens[t] && b == Code(lens, t) && |b| == m && CodeValue(b) >= First(lens, m)
  {
    m, b := lens[t], Code(lens, t);
    CodeRead(lens, t);
  }

  lemma CodePast(lens: seq<nat>, k: nat, m: nat, b: seq<bool>)
    requires 0 < k < m == |b| && CodeValue(b) >= First(lens, m)
    ensures CodeValue(b[..k]) >= First(lens, k) + Count(lens, k)
  {
    FirstPastShorter(lens, k, m);
    PrefixAtLeast(b, k, First(lens, k) + Count(lens, k), m, First(lens, m));
  }

  lemma PrefixAtLeast(b: seq<bool>, k: nat, q: nat, m: nat, first: nat)
    requires k <= |b| == m && CodeValue(b) >= first && first >= q * Pow2(m - k)
    ensures CodeValue(b[..k]) >= q
  {
    CodeValuePrefix(b, k);
    DivideAtLeast(CodeValue(b), q, Pow2(|b| - k));
  }

  /** No code is a prefix of another symbol's code. */
  lemma PrefixFree(lens: seq<nat>, s: nat, t: nat)
    requires Codeable(lens) && Coded(lens, s) && Coded(lens, t)
    requires Code(lens, s) <= Code(lens, t)
    ensures s == t
  {
    var k := lens[s];
    CodeRead(lens, s);
    CodeRead(lens, t);
    RankBelowCount(lens, s);
    if k < lens[t] {
      assert Code(lens, t)[..k] == Code(lens, s);
      LongerCodePast(lens, t, k);
    } else {
      assert Code(lens, s) == Code(lens, t);
      if s < t {
        RankInjective(lens, s, t);
      } else if t < s {
        RankInjective(lens, t, s);
      }
    }
  }

  /** At most one symbol's code starts a given bit string. */
  lemma UniqueSymbol(lens: seq<nat>, s: nat, t: nat, bits: seq<bool>)
    requires Codeable(lens) && Coded(lens, s) && Coded(lens, t)
    requires Code(lens, s) <= bits && Code(lens, t) <= bits
    ensures s == t
  {
    if lens[s] <= lens[t] {
      assert Code(lens, t)[..lens[s]] == bits[..lens[s]];
      PrefixFree(lens, s, t);
    } else {
      assert Code(lens, s)[..lens[t]] == bits[..lens[t]];
      PrefixFree(lens, t, s);
    }
  }

  lemma {:induction false} OffsetBound(lens: seq<nat>, k: nat)
    requires k > 0
    ensures Offset(lens, k) + Count(lens, k) <= |lens|
  {
    OffsetCounts(lens, k + 1);
  }

  function CountShorter(lens: seq<nat>, k: nat): (c: nat)
    ensures c <= |lens|
  {
    if lens == [] then 0
    else CountShorter(lens[..|lens| - 1], k) + (if 0 < lens[|lens| - 1] < k then 1 else 0)
  }

  lemma {:induction false} CountShorterNext(lens: seq<nat>, k: nat)
    requires k > 0
    ensures CountShorter(lens, k + 1) == CountShorter(lens, k) + Count(lens, k)
  {
    if lens != [] { CountShorterNext(lens[..|lens| - 1], k); }
  }

  lemma {:induction false} CountShorterOne(lens: seq<nat>)
    ensures CountShorter(lens, 1) == 0
  {
    if lens != [] { CountShorterOne(lens[..|lens| - 1]); }
  }

  lemma {:induction false} OffsetCounts(lens: seq<nat>, k: nat)
    requires k > 0
    ensures Offset(lens, k) == CountShorter(lens, k)
  {
    if k == 1 {
      CountShorterOne(lens);
    } else {
      OffsetCounts(lens, k - 1);
      CountShorterNext(lens, k - 1);
    }
  }

  /** Where `construct` files a symbol. */
  function Slot(lens: seq<nat>, s: nat): (i: nat)
    requires s < |lens| && lens[s] > 0
  {
    Offset(lens, lens[s]) + Rank(lens, s)
  }

  lemma {:induction false} OffsetMonotone(lens: seq<nat>, j: nat, k: nat)
    requires 0 < j < k
    ensures Offset(lens, j) + Count(lens, j) <= Offset(lens, k)
    decreases k - j
  {
    if j + 1 < k {
      OffsetMonotone(lens, j + 1, k);
    }
  }

  lemma SlotInjective(lens: seq<nat>, s: nat, t: nat)
    requires s < t && Coded(lens, s) && Coded(lens, t)
    ensures Slot(lens, s) != Slot(lens, t)
  {
    RankBelowCount(lens, s);
    RankBelowCount(lens, t);
    if lens[s] < lens[t] {
      OffsetMonotone(lens, lens[s], lens[t]);
    } else if lens[t] < lens[s] {
      OffsetMonotone(lens, lens[t], lens[s]);
    } else {
      RankInjective(lens, s, t);
    }
  }

  /** A symbol's slot lies in the table, and no earlier symbol has it. */
  lemma SlotIsFree(lens: seq<nat>, s: nat)
    requires Coded(lens, s)
    ensures Slot(lens, s) < |lens|
    ensures forall t :: 0 <= t < s && Coded(lens, t) ==> Slot(lens, t) != Slot(lens, s)
  {
    RankBelowCount(lens, s);
    OffsetBound(lens, lens[s]);
    forall t | 0 <= t < s && Coded(lens, t)
      ensures Slot(lens, t) != Slot(lens, s)
    {
      SlotInjective(lens, t, s);
    }
  }

  /** The first `m` symbols stand in their slots. */
  ghost predicate Filed(symbols: seq<nat>, lens: seq<nat>, m: nat) {
    forall s: nat :: s < m && Coded(lens, s) ==>
      Slot(lens, s) < |symbols| && symbols[Slot(lens, s)] == s
  }

  lemma FileOne(symbols: seq<nat>, lens: seq<nat>, s: nat)
    requires Filed(symbols, lens, s) && Coded(lens, s) && |lens| <= |symbols|
    ensures Slot(lens, s) < |symbols|
    ensures Filed(symbols[Slot(lens, s) := s], lens, s + 1)
  {
    SlotIsFree(lens, s);
  }

  /** Where the next symbol of each length goes, once `m` symbols are placed. */
  ghost predicate NextSlots(offsets: seq<nat>, lens: seq<nat>, m: nat)
    requires m <= |lens|
  {
    |offsets| == 16 &&
    forall k :: 1 <= k < 16 ==> offsets[k] == Offset(lens, k) + Count(lens[..m], k)
  }

  lemma NextSlotsStep(offsets: seq<nat>, lens: seq<nat>, m: nat)
    requires m < |lens| && Lengths(lens) && NextSlots(offsets, lens, m)
    ensures lens[m] == 0 ==> NextSlots(offsets, lens, m + 1)
    ensures lens[m] != 0 ==>
              offsets[lens[m]] == Slot(lens, m) &&
              NextSlots(offsets[lens[m] := offsets[lens[m]] + 1], lens, m + 1)
  {
    forall k: nat { CountNext(lens, m, k); }
  }

  /** The table of one code: `struct huffman` of zip.c. The ghost field names
      the lengths it was built from. */
  class Table {
    const count: array<nat>
    const symbol: array<nat>
    ghost var lens: seq<nat>

    ghost predicate Shape()
      reads this
    {
      count.Length == 16 && symbol.Length == 288 && count != symbol
    }

    /** The table answers every code of `lens`. */
    ghost predicate Valid()
      reads this, count, symbol
    {
      && Shape() && |lens| <= 288 && Codeable(lens)
      && (forall k :: 1 <= k <= MAX_BITS ==> count[k] == Count(lens, k))
      && Filed(symbol[..], lens, |lens|)
    }

    constructor ()
      ensures Shape() && fresh(count) && fresh(symbol)
    {
      count := new nat[16];
      symbol := new nat[288];
      lens := [];
    }

    /** Count the codes of each length. */
    method CountLengths(lengths: seq<nat>)
      requires Shape() && Lengths(lengths)
      modifies count
      ensures forall k :: 0 <= k < 16 ==> count[k] == Count(lengths, k)
    {
      var i: nat := 0;
      while i < 16
        invariant 0 <= i <= 16
        invariant forall k :: 0 <= k < i ==> count[k] == 0
      {
        count[i] := 0;
        i := i + 1;
      }
      i := 0;
      while i < |lengths|
        invariant 0 <= i <= |lengths|
        invariant forall k :: 0 <= k < 16 ==> count[k] == Count(lengths[..i], k)
      {
        forall k: nat { CountNext(lengths, i, k); }
        count[lengths[i]] := count[lengths[i]] + 1;
        i := i + 1;
      }
      assert lengths[..i] == lengths;
    }

    /** Whether the counted lengths leave room for every code. */
    method HasRoom(lengths: seq<nat>) returns (ok: bool)
      requires Shape() && Lengths(lengths)
      requires forall k :: 0 <= k < 16 ==> count[k] == Count(lengths, k)
      ensures ok <==> Codeable(lengths)
    {
      LeftIsKraft(lengths);
      var left: int := 1;
      var i: nat := 1;
      while i < 16
        invariant 1 <= i <= 16
        invariant left == Left(lengths, i - 1) && left >= 0
      {
        left := 2 * left - count[i];
        if left < 0 {
          LeftStaysNegative(lengths, i, MAX_BITS);
          return false;
        }
        i := i + 1;
      }
      return true;
    }

    /** Where the symbols of each length start. */
    method Starts(lengths: seq<nat>) returns (offsets: array<nat>)
      requires Shape() && Lengths(lengths)
      requires forall k :: 0 <= k < 16 ==> count[k] == Count(lengths, k)
      ensures fresh(offsets) && NextSlots(offsets[..], lengths, 0)
    {
      offsets := new nat[16];
      offsets[1] := 0;
      var i: nat := 1;
      while i < 15
        invariant 1 <= i <= 15
        invariant forall k :: 1 <= k <= i ==> offsets[k] == Offset(lengths, k)
      {
        ghost var next := Offset(lengths, i + 1);
        offsets[i + 1] := offsets[i] + count[i];
        assert offsets[i + 1] == next;
        i := i + 1;
      }
    }

    /** File every coded symbol under its length, in symbol order. */
    method Place(lengths: seq<nat>)
      requires Shape() && Lengths(lengths) && |lengths| <= 288
      requires forall k :: 0 <= k < 16 ==> count[k] == Count(lengths, k)
      modifies symbol
      ensures Filed(symbol[..], lengths, |lengths|)
    {
      var offsets := Starts(lengths);
      var i: nat := 0;
      while i < |lengths|
        invariant 0 <= i <= |lengths|
        invariant NextSlots(offsets[..], lengths, i)
        invariant Filed(symbol[..], lengths, i)
      {
        NextSlotsStep(offsets[..], lengths, i);
        if lengths[i] != 0 {
          FileOne(symbol[..], lengths, i);
          ghost var slot, symbols, slots := Slot(lengths, i), symbol[..], offsets[..];
          symbol[offsets[lengths[i]]] := i;
          assert symbol[..] == symbols[slot := i];
          offsets[lengths[i]] := offsets[lengths[i]] + 1;
          assert offsets[..] == slots[lengths[i] := slot + 1];
        }
        i := i + 1;
      }
    }

    /** Build the canonical code of these lengths; refused exactly where no
        prefix code has them. */
    method Construct(lengths: seq<nat>) returns (ok: bool)
      requires Shape() && Lengths(lengths) && |lengths| <= 288
      modifies this, count, symbol
      ensures lens == lengths
      ensures ok <==> Codeable(lengths)
      ensures ok ==> Valid()
    {
      lens := lengths;
      CountLengths(lengths);
      ok := HasRoom(lengths);
      if ok {
        Place(lengths);
      }
    }
  }
}

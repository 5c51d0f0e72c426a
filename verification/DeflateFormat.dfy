/** What the tables of the deflate model are by the words of RFC 1951, and the
    bytes of one stream of each kind. */
module DeflateFormat {
  import opened Bits
  import opened Huffman
  import opened Deflate
  import opened DeflateTheorems
  import opened Options

  // ---- Lengths and distances ----

  /** Section 3.2.5 from its rule: the length symbols start at 3 and lie side by
      side, four of them for each width of extra bits from the ninth on, and
      the last one is 258 alone. */
  lemma LengthSymbols()
    ensures |BASE| == |EXTRA| == 29 && BASE[0] == 3 && BASE[28] == 258 && EXTRA[28] == 0
    ensures forall l :: 0 <= l < 28 ==> EXTRA[l] == if l < 8 then 0 else (l - 4) / 4
    ensures forall l :: 0 <= l < 27 ==> BASE[l + 1] == BASE[l] + Pow2(EXTRA[l])
    ensures BASE[27] + Pow2(EXTRA[27]) == 259
  {
    SmallPowers();
  }

  /** The same rule for the distance symbols, from 1, two of each width. */
  lemma DistanceSymbols()
    ensures |DBASE| == |DEXTRA| == 30 && DBASE[0] == 1
    ensures forall d :: 0 <= d < 30 ==> DEXTRA[d] == if d < 2 then 0 else (d - 2) / 2
    ensures forall d :: 0 <= d < 29 ==> DBASE[d + 1] == DBASE[d] + Pow2(DEXTRA[d])
    ensures DBASE[29] + Pow2(DEXTRA[29]) == 32769
  {
    hide Pow2;
    SmallPowers();
    forall d | 0 <= d < 30 ensures DEXTRA[d] == if d < 2 then 0 else (d - 2) / 2 { DistanceExtra(d); }
    forall d | 0 <= d < 29 ensures DBASE[d + 1] == DBASE[d] + Pow2(DEXTRA[d]) { DistanceBase(d); }
  }

  lemma DistanceExtra(d: nat)
    requires d < 30
    ensures DEXTRA[d] == if d < 2 then 0 else (d - 2) / 2
  {
  }

  lemma DistanceBase(d: nat)
    requires d < 29
    ensures DBASE[d + 1] == DBASE[d] + Pow2(DEXTRA[d])
  {
    hide Pow2;
    SmallPowers();
  }

  lemma SmallPowers()
    ensures Pow2(0) == 1 && Pow2(1) == 2 && Pow2(2) == 4 && Pow2(3) == 8 && Pow2(4) == 16 && Pow2(5) == 32
    ensures Pow2(6) == 64 && Pow2(7) == 128 && Pow2(8) == 256 && Pow2(9) == 512 && Pow2(10) == 1024
    ensures Pow2(11) == 2048 && Pow2(12) == 4096 && Pow2(13) == 8192
  {
    assert Pow2(4) == 16;
    assert Pow2(8) == 256;
    assert Pow2(12) == 4096;
  }

  /** Ranges laid side by side from `base[0]` hold every number up to the end
      of the last. */
  lemma {:induction false} SideBySide(base: seq<nat>, extra: seq<nat>, k: nat, n: nat) returns (s: nat)
    requires 0 < k <= |base| == |extra| && forall i :: 0 <= i < k - 1 ==> base[i + 1] == base[i] + Pow2(extra[i])
    requires base[0] <= n < base[k - 1] + Pow2(extra[k - 1])
    ensures s < k && base[s] <= n < base[s] + Pow2(extra[s])
    decreases k
  {
    if n >= base[k - 1] { s := k - 1; } else { s := SideBySide(base, extra, k - 1, n); }
  }

  /** And none of them twice. */
  lemma {:induction false} InOrder(base: seq<nat>, extra: seq<nat>, s: nat, t: nat)
    requires s < t < |base| == |extra| && forall i :: s <= i < t ==> base[i + 1] == base[i] + Pow2(extra[i])
    ensures base[s] + Pow2(extra[s]) <= base[t]
    decreases t
  {
    if s + 1 < t { InOrder(base, extra, s, t - 1); }
  }

  /** The length a copy names is the one of its symbol and its extra bits. */
  ghost predicate NamesLength(t: Token, n: nat) {
    t.Copy? && t.length < 29 && t.more < Pow2(EXTRA[t.length]) && n == BASE[t.length] + t.more
  }

  ghost predicate NamesDistance(t: Token, n: nat) {
    t.Copy? && t.distance < 30 && t.dmore < Pow2(DEXTRA[t.distance]) && n == DBASE[t.distance] + t.dmore
  }

  /** The copies name the lengths from 3 to 258 and the distances from 1 to
      32768, and no others. Each has one name, but 258, which the symbol before
      the last names too. */
  lemma LengthsNamed(n: nat)
    ensures (exists t :: NamesLength(t, n)) <==> 3 <= n <= 258
    ensures forall t, t' :: NamesLength(t, n) && NamesLength(t', n) ==>
              (t.length == t'.length && t.more == t'.more) || (n == 258 && {t.length, t'.length} == {27, 28})
  {
    LengthSymbols();
    SmallPowers();
    if 3 <= n <= 258 {
      var s := SideBySide(BASE[..28], EXTRA[..28], 28, n);
      assert NamesLength(Copy(s, n - BASE[s], 0, 0), n);
    }
    forall t | NamesLength(t, n) ensures 3 <= n <= 258 {
      if 0 < t.length < 28 { InOrder(BASE[..28], EXTRA[..28], 0, t.length); }
      if t.length < 27 { InOrder(BASE[..28], EXTRA[..28], t.length, 27); }
    }
    forall t, t' | NamesLength(t, n) && NamesLength(t', n)
      ensures (t.length == t'.length && t.more == t'.more) || (n == 258 && {t.length, t'.length} == {27, 28})
    {
      LengthOnce(t, t', n);
    }
  }

  lemma LengthOnce(t: Token, t': Token, n: nat)
    requires NamesLength(t, n) && NamesLength(t', n)
    ensures (t.length == t'.length && t.more == t'.more) || (n == 258 && {t.length, t'.length} == {27, 28})
  {
    LengthSymbols();
    SmallPowers();
    if t.length < t'.length < 28 {
      InOrder(BASE[..28], EXTRA[..28], t.length, t'.length);
    } else if t'.length < t.length < 28 {
      InOrder(BASE[..28], EXTRA[..28], t'.length, t.length);
    } else if t.length < 27 && t'.length == 28 {
      InOrder(BASE[..28], EXTRA[..28], t.length, 27);
    } else if t'.length < 27 && t.length == 28 {
      InOrder(BASE[..28], EXTRA[..28], t'.length, 27);
    }
  }

  lemma DistancesNamed(n: nat)
    ensures (exists t :: NamesDistance(t, n)) <==> 1 <= n <= 32768
    ensures forall t, t' :: NamesDistance(t, n) && NamesDistance(t', n) ==>
              t.distance == t'.distance && t.dmore == t'.dmore
  {
    DistanceSymbols();
    SmallPowers();
    if 1 <= n <= 32768 {
      var s := SideBySide(DBASE, DEXTRA, 30, n);
      assert NamesDistance(Copy(0, 0, s, n - DBASE[s]), n);
    }
    forall t | NamesDistance(t, n) ensures 1 <= n <= 32768 {
      if 0 < t.distance { InOrder(DBASE, DEXTRA, 0, t.distance); }
      if t.distance < 29 { InOrder(DBASE, DEXTRA, t.distance, 29); }
    }
    forall t, t' | NamesDistance(t, n) && NamesDistance(t', n)
      ensures t.distance == t'.distance && t.dmore == t'.dmore
    {
      if t.distance < t'.distance { InOrder(DBASE, DEXTRA, t.distance, t'.distance); }
      if t'.distance < t.distance { InOrder(DBASE, DEXTRA, t'.distance, t.distance); }
    }
  }

  /** What a copy appends: as many bytes as its length names, each the one as
      far back as its distance names. */
  lemma CopyAppends(w: seq<byte>, t: Token, n: nat, d: nat)
    requires NamesLength(t, n) && NamesDistance(t, d)
    ensures ExpandToken(w, t).Some? <==> d <= |w|
    ensures d <= |w| ==> GoesBack(w, ExpandToken(w, t).value, n, d)
  {
    hide Repeated, GoesBack, NamesLength, NamesDistance, ExpandToken;
    DistanceIsPositive(t, d);
    CopyIs(w, t, n, d);
    if d <= |w| { RepeatedBack(w, d, n); }
  }

  lemma DistanceIsPositive(t: Token, d: nat)
    requires NamesDistance(t, d)
    ensures d > 0
  {
    hide NamesDistance;
    DistancesNamed(d);
  }

  lemma CopyIs(w: seq<byte>, t: Token, n: nat, d: nat)
    requires NamesLength(t, n) && NamesDistance(t, d) && d > 0
    ensures ExpandToken(w, t) == if d <= |w| then Some(w + Repeated(w, d, n)) else None
  {
    hide Repeated;
  }

  /** `r` is `w` and `n` bytes more, each the one `d` bytes before it. */
  predicate GoesBack(w: seq<byte>, r: seq<byte>, n: nat, d: nat) {
    |r| == |w| + n && w <= r && 0 < d <= |w| && forall i :: |w| <= i < |r| ==> r[i] == r[i - d]
  }

  lemma RepeatedBack(w: seq<byte>, d: nat, n: nat)
    requires 0 < d <= |w|
    ensures GoesBack(w, w + Repeated(w, d, n), n, d)
  {
    var r := w + Repeated(w, d, n);
    forall i | |w| <= i < |r| ensures r[i] == r[i - d] { RepeatedAt(w, d, n, i - |w|); }
  }

  lemma RepeatedAt(w: seq<byte>, d: nat, n: nat, i: nat)
    requires 0 < d <= |w| && i < n
    ensures (w + Repeated(w, d, n))[|w| + i] == (w + Repeated(w, d, n))[|w| + i - d]
  {
    if i >= d {
      assert i % d == (i - d) % d by { DivideParts(i - d, d); DivideUnique(i, d, (i - d) / d + 1, (i - d) % d); }
    } else {
      DivideUnique(i, d, 0, i);
    }
  }

  // ---- The order of the length codes ----

  /** Section 3.2.7: the three runs, zero, and then in turn upwards from 8 and
      downwards from 7. */
  lemma OrderOfLengthCodes()
    ensures |ORDER| == 19 && ORDER[..4] == [16, 17, 18, 0]
    ensures forall k :: 0 <= k < 8 ==> ORDER[4 + 2 * k] == 8 + k
    ensures forall k :: 0 <= k < 7 ==> ORDER[5 + 2 * k] == 7 - k
  {
  }

  /** Each length code gets the length sent at its place in that order, and
      those past the last one sent get none. */
  lemma {:induction false} LengthsSent(first: seq<nat>)
    requires |first| <= 19
    ensures forall i :: 0 <= i < |first| ==> LengthTable(first)[ORDER[i]] == first[i]
    ensures forall i :: |first| <= i < 19 ==> LengthTable(first)[ORDER[i]] == 0
    decreases |first|
  {
    if first != [] {
      var n := |first| - 1;
      LengthsSent(first[..n]);
      forall i | 0 <= i < 19 && i != n ensures ORDER[i] != ORDER[n] {
        if ORDER[i] == ORDER[n] { OrderOnce(i, n); }
      }
    }
  }

  lemma OrderOnce(i: nat, j: nat)
    requires i < 19 && j < 19 && ORDER[i] == ORDER[j]
    ensures i == j
  {
    OrderOfLengthCodes();
    var front := ORDER[..4];
    assert front[0] == ORDER[0] && front[1] == ORDER[1] && front[2] == ORDER[2] && front[3] == ORDER[3];
    PlaceIn(ORDER, i);
    PlaceIn(ORDER, j);
  }

  /** Where the length of a code stands in the order. */
  function Place(code: nat): (i: int) {
    if code >= 16 then code - 16 else if code == 0 then 3 else if code >= 8 then 4 + 2 * (code - 8)
    else 5 + 2 * (7 - code)
  }

  lemma PlaceIn(order: seq<nat>, i: nat)
    requires |order| == 19 && i < 19 && order[0] == 16 && order[1] == 17 && order[2] == 18 && order[3] == 0
    requires forall k :: 0 <= k < 8 ==> order[4 + 2 * k] == 8 + k
    requires forall k :: 0 <= k < 7 ==> order[5 + 2 * k] == 7 - k
    ensures Place(order[i]) == i
  {
    if i >= 4 {
      var k := (i - 4) / 2;
      if i % 2 == 0 { assert i == 4 + 2 * k; } else { assert i == 5 + 2 * k; }
    }
  }

  // ---- The layout of a dynamic header ----

  lemma {:induction false} FirstAt(first: seq<nat>, i: nat)
    requires i < |first| && first[i] < 8
    ensures ValueOf(Bits3(first)[3 * i..3 * i + 3]) == first[i]
    decreases |first|
  {
    SmallPowers();
    var n := |first| - 1;
    if i == n {
      ValueOfBitsOf(first[n], 3);
      assert Bits3(first)[3 * i..3 * i + 3] == BitsOf(first[n], 3);
    } else {
      FirstAt(first[..n], i);
      assert Bits3(first)[3 * i..3 * i + 3] == Bits3(first[..n])[3 * i..3 * i + 3];
    }
  }

  /** Section 3.2.7: five bits for the literal codes above 257, five for the
      distance codes above 1, four for the length codes above 4, three for each
      length, and then the items. */
  lemma HeaderLayout(h: Header)
    requires ValidHeader(h)
    ensures var (b, n) := (HeaderBits(h), |h.first|);
            && |b| >= 14 + 3 * n
            && h.literals == 257 + ValueOf(b[..5]) && h.distances == 1 + ValueOf(b[5..10])
            && n == 4 + ValueOf(b[10..14])
            && (forall i :: 0 <= i < n ==> h.first[i] == ValueOf(b[14 + 3 * i..17 + 3 * i]))
            && b[14 + 3 * n..] == ItemsBits(LengthTable(h.first), h.items)
  {
    hide LengthTable, ItemsBits, Bits3, BitsOf;
    SmallPowers();
    var x, y, z := BitsOf(h.literals - 257, 5), BitsOf(h.distances - 1, 5), BitsOf(|h.first| - 4, 4);
    var lengths, items := Bits3(h.first), ItemsBits(LengthTable(h.first), h.items);
    ValueOfBitsOf(h.literals - 257, 5);
    ValueOfBitsOf(h.distances - 1, 5);
    ValueOfBitsOf(|h.first| - 4, 4);
    HeaderParts(HeaderBits(h), x, y, z, lengths, items, |h.first|);
    forall i | 0 <= i < |h.first| ensures h.first[i] == ValueOf(HeaderBits(h)[14 + 3 * i..17 + 3 * i]) {
      FirstAt(h.first, i);
    }
  }

  lemma HeaderParts(b: seq<bool>, x: seq<bool>, y: seq<bool>, z: seq<bool>, lengths: seq<bool>, items: seq<bool>,
                    n: nat)
    requires b == x + y + z + (lengths + items) && |x| == |y| == 5 && |z| == 4 && |lengths| == 3 * n
    ensures |b| >= 14 + 3 * n && b[..5] == x && b[5..10] == y && b[10..14] == z && b[14 + 3 * n..] == items
    ensures forall i :: 0 <= i < n ==> b[14 + 3 * i..17 + 3 * i] == lengths[3 * i..3 * i + 3]
  {
  }

  /** A header is refused where its counts are cut short or pass 286 and 30, and
      is else read from what stands behind them. */
  lemma CountsRead(bits: seq<bool>)
    ensures Refused(bits) ==> ReadHeader(bits) == Fail
    ensures !Refused(bits) ==>
              && 4 + ValueOf(bits[10..14]) <= 19
              && ReadHeader(bits) ==
                 ReadCodes(257 + ValueOf(bits[..5]), 1 + ValueOf(bits[5..10]), 4 + ValueOf(bits[10..14]), bits[14..])
  {
    hide ReadCodes, ValueOf;
    if |bits| >= 10 { assert bits[5..][..5] == bits[5..10] && bits[5..][5..] == bits[10..]; }
    if |bits| >= 14 {
      ValueOfFour(bits);
      assert bits[10..][..4] == bits[10..14] && bits[10..][4..] == bits[14..];
    }
  }

  predicate Refused(bits: seq<bool>) {
    |bits| < 14 || 257 + ValueOf(bits[..5]) > 286 || 1 + ValueOf(bits[5..10]) > 30
  }

  lemma ValueOfFour(bits: seq<bool>)
    requires |bits| >= 14
    ensures 4 + ValueOf(bits[10..14]) <= 19
  {
    SmallPowers();
    ValueBound(bits[10..14]);
  }

  /** What an item of the lengths stands for: a length, the last one again 3 to
      6 times by two bits, or zeros, 3 to 10 by three bits, 11 to 138 by
      seven. */
  lemma ItemLayout(table: seq<nat>, item: LengthItem, lens: seq<nat>)
    ensures item.OneLength? ==>
              && (ValidItem(table, item) <==> item.n <= 15 && Coded(table, item.n))
              && (ValidItem(table, item) ==> ItemBits(table, item) == Code(table, item.n))
              && AddItem(lens, item).Some? && AddItem(lens, item).value == lens + [item.n]
    ensures item.RepeatLast? ==>
              && (ValidItem(table, item) <==> 3 <= item.times <= 6 && Coded(table, 16))
              && (ValidItem(table, item) ==> ItemBits(table, item) == Code(table, 16) + BitsOf(item.times - 3, 2))
              && (AddItem(lens, item).Some? <==> lens != [])
              && (lens != [] ==> AddItem(lens, item).value == lens + seq(item.times, _ => lens[|lens| - 1]))
    ensures item.FewZeros? ==>
              && (ValidItem(table, item) <==> 3 <= item.times <= 10 && Coded(table, 17))
              && (ValidItem(table, item) ==> ItemBits(table, item) == Code(table, 17) + BitsOf(item.times - 3, 3))
              && AddItem(lens, item).Some? && AddItem(lens, item).value == lens + seq(item.times, _ => 0)
    ensures item.ManyZeros? ==>
              && (ValidItem(table, item) <==> 11 <= item.times <= 138 && Coded(table, 18))
              && (ValidItem(table, item) ==> ItemBits(table, item) == Code(table, 18) + BitsOf(item.times - 11, 7))
              && AddItem(lens, item).Some? && AddItem(lens, item).value == lens + seq(item.times, _ => 0)
  {
    SmallPowers();
  }

  // ---- The fixed code ----

  lemma {:induction false} CountBoth(a: seq<nat>, b: seq<nat>, k: nat)
    ensures Count(a + b, k) == Count(a, k) + Count(b, k)
    decreases |b|
  {
    if b == [] {
      assert a + b == a;
    } else {
      var m := |b| - 1;
      assert (a + b)[..|a + b| - 1] == a + b[..m];
      CountBoth(a, b[..m], k);
    }
  }

  lemma {:induction false} CountSame(n: nat, times: nat, k: nat)
    ensures Count(Same(n, times), k) == if n == k then times else 0
    decreases times
  {
    if times > 0 {
      assert Same(n, times)[..times - 1] == Same(n, times - 1);
      CountSame(n, times - 1, k);
    }
  }

  /** How many codes of each length the fixed code has. */
  lemma FixedCounts(k: nat)
    ensures Count(FixedLengths(), k) == if k == 7 then 24 else if k == 8 then 152 else if k == 9 then 112 else 0
  {
    var a, b, c, d := Same(8, 144), Same(9, 112), Same(7, 24), Same(8, 8);
    CountBoth(a + b + c, d, k);
    CountBoth(a + b, c, k);
    CountBoth(a, b, k);
    CountSame(8, 144, k);
    CountSame(9, 112, k);
    CountSame(7, 24, k);
    CountSame(8, 8, k);
  }

  lemma {:induction false} FirstOfShortest(lens: seq<nat>, k: nat)
    requires 0 < k && forall j :: 0 < j < k ==> Count(lens, j) == 0
    ensures First(lens, k) == 0
  {
    if k > 1 { FirstOfShortest(lens, k - 1); }
  }

  lemma FixedFirsts()
    ensures First(FixedLengths(), 7) == 0 && First(FixedLengths(), 8) == 0x30 && First(FixedLengths(), 9) == 0x190
  {
    var lens := FixedLengths();
    forall j | 0 < j <= 8 ensures Count(lens, j) == if j == 7 then 24 else if j == 8 then 152 else 0 { FixedCounts(j); }
    FirstOfShortest(lens, 7);
    assert First(lens, 8) == 2 * (First(lens, 7) + Count(lens, 7));
    assert First(lens, 9) == 2 * (First(lens, 8) + Count(lens, 8));
  }

  /** The symbols before `s` in a list of four runs. */
  lemma FixedRank(s: nat)
    requires s < 288
    ensures Rank(FixedLengths(), s) ==
            if s < 144 then s else if s < 256 then s - 144 else if s < 280 then s - 256 else s - 136
  {
    var a, b, c, d := Same(8, 144), Same(9, 112), Same(7, 24), Same(8, 8);
    var lens := FixedLengths();
    var k := lens[s];
    CountSame(8, 144, k);
    CountSame(9, 112, k);
    CountSame(7, 24, k);
    CountBoth(a, b, k);
    CountBoth(a + b, c, k);
    if s < 144 {
      assert lens[..s] == Same(8, s);
      CountSame(8, s, k);
    } else if s < 256 {
      assert lens[..s] == a + Same(9, s - 144);
      CountBoth(a, Same(9, s - 144), k);
      CountSame(9, s - 144, k);
    } else if s < 280 {
      assert lens[..s] == a + b + Same(7, s - 256);
      CountBoth(a + b, Same(7, s - 256), k);
      CountSame(7, s - 256, k);
    } else {
      assert lens[..s] == a + b + c + Same(8, s - 280);
      CountBoth(a + b + c, Same(8, s - 280), k);
      CountSame(8, s - 280, k);
    }
  }

  /** The table of section 3.2.6: 00110000 to 10111111, 110010000 to 111111111,
      0000000 to 0010111 and 11000000 to 11000111. */
  lemma FixedCode(s: nat)
    requires s < 288
    ensures Coded(FixedLengths(), s)
    ensures Code(FixedLengths(), s) ==
            if s <= 143 then CodeBits(0x30 + s, 8) else if s <= 255 then CodeBits(0x190 + (s - 144), 9)
            else if s <= 279 then CodeBits(s - 256, 7) else CodeBits(0xc0 + (s - 280), 8)
  {
    FixedFirsts();
    FixedRank(s);
  }

  /** The distances are written as five bits. */
  lemma FixedDistance(d: nat)
    requires d < 30
    ensures Coded(FixedDistances(), d) && Code(FixedDistances(), d) == CodeBits(d, 5)
  {
    var lens := FixedDistances();
    forall j | 0 < j < 5 ensures Count(lens, j) == 0 { CountSame(5, 30, j); }
    FirstOfShortest(lens, 5);
    assert lens[..d] == Same(5, d);
    CountSame(5, d, 5);
  }

  // ---- Known streams ----

  const O := false
  const I := true

  lemma BytesOn(b: byte, s: seq<byte>)
    ensures BytesBits([b] + s) == BitsOf(b, 8) + BytesBits(s)
  {
    assert ([b] + s)[0] == b && ([b] + s)[1..] == s;
  }

  lemma TwoBytesOn(low: byte, high: byte, v: nat, s: seq<byte>)
    requires v == (low as int) + 256 * (high as int)
    ensures BytesBits([low, high] + s) == BitsOf(v, 16) + BytesBits(s)
  {
    hide BitsOf, BytesBits;
    assert Pow2(8) == 256;
    hide Pow2;
    AppendBits(low, 8, high, 8);
    BytesOn(low, [high] + s);
    BytesOn(high, s);
    assert [low] + ([high] + s) == [low, high] + s;
    assert BitsOf(low, 8) + (BitsOf(high, 8) + BytesBits(s)) == BitsOf(low, 8) + BitsOf(high, 8) + BytesBits(s);
  }

  /** One last block, and the bits behind it. */
  lemma OneBlock(b: Block, input: seq<byte>, rest: seq<bool>, limit: nat, out: seq<byte>)
    requires ValidBlock(b, 0) && BytesBits(input) == [true] + BitsOf(BlockType(b), 2) + BodyBits(b, 0) + rest
    requires ExpandBlock([], b) == Some(out) && |out| <= limit
    ensures Deflates(input, limit, out)
  {
    hide ValidBlock, BodyBits, ExpandBlock, BitsOf;
    assert [b][1..] == [] && ExpandStream([], [b]) == Some(out);
    assert ValidStream([b], 0) && BytesBits(input) == StreamBits([b], 0) + rest by {
      assert BlockBits(b, true, 0) + [] == BlockBits(b, true, 0);
    }
  }

  /** A stored block of a few bytes: the byte boundary, the length, its
      complement and the bytes. */
  lemma KnownStored(data: seq<byte>, limit: nat)
    requires |data| == 3 <= limit
    ensures Deflates([0x01, 0x03, 0x00, 0xfc, 0xff] + data, limit, data)
  {
    hide BytesBits, ExpandBlock, BodyBits, ValidBlock, BitsOf;
    var b := StoredBlock([O, O, O, O, O], data);
    var input := [0x01, 0x03, 0x00, 0xfc, 0xff] + data;
    var head, fields := [I] + BitsOf(0, 2), BitsOf(3, 16) + BitsOf(0xfffc, 16);
    assert input == [0x01] + ([0x03, 0x00] + ([0xfc, 0xff] + data));
    BytesOn(0x01, [0x03, 0x00] + ([0xfc, 0xff] + data));
    TwoBytesOn(0x03, 0x00, 3, [0xfc, 0xff] + data);
    TwoBytesOn(0xfc, 0xff, 0xfffc, data);
    assert BitsOf(0x01, 8) == head + [O, O, O, O, O] by { LeadByte(); }
    Regrouped(head, [O, O, O, O, O], BitsOf(3, 16), BitsOf(0xfffc, 16), BytesBits(data));
    StoredWritten(b.padding, data);
    OneBlock(b, input, [], limit, data);
  }

  lemma StoredWritten(padding: seq<bool>, data: seq<byte>)
    requires |padding| == 5 && |data| == 3
    ensures var b := StoredBlock(padding, data);
            && ValidBlock(b, 0) && BlockType(b) == 0 && ExpandBlock([], b) == Some(data)
            && BodyBits(b, 0) == padding + (BitsOf(3, 16) + BitsOf(0xfffc, 16) + BytesBits(data))
  {
    hide BytesBits, BitsOf, ValidTokens, TokensBits, HeaderBits, HeaderLengths, ValidHeader, Coded, Expand;
    NothingBefore(data);
  }

  lemma NothingBefore(data: seq<byte>)
    ensures [] + data == data
  {
  }

  lemma LeadByte()
    ensures BitsOf(0x01, 8) == [I] + BitsOf(0, 2) + [O, O, O, O, O]
  {
    assert BitsOf(0x01, 8) == [I, O, O, O, O, O, O, O];
    assert BitsOf(0, 2) == [O, O];
  }

  lemma Regrouped(a: seq<bool>, b: seq<bool>, c: seq<bool>, d: seq<bool>, e: seq<bool>)
    ensures (a + b) + (c + (d + e)) == a + (b + (c + d + e)) + []
  {
  }

  /** The letter a and three more of it, by the fixed code: the bytes
      4b 04 02 00. */
  lemma KnownFixed(limit: nat)
    requires limit >= 4
    ensures Deflates([0x4b, 0x04, 0x02, 0x00], limit, [0x61, 0x61, 0x61, 0x61])
  {
    hide BytesBits, ExpandBlock, BodyBits, ValidBlock, BitsOf;
    var b := FixedBlock([Literal(0x61), Copy(0, 0, 0, 0)]);
    FixedWritten();
    FixedInput();
    OneBlock(b, [0x4b, 0x04, 0x02, 0x00], [O, O], limit, [0x61, 0x61, 0x61, 0x61]);
  }

  const FIXED_BODY := [I, O, O, I, O, O, O, I, O, O, O, O, O, O, I, O, O, O, O, O, O, O, O, O, O, O, O]

  lemma FixedWritten()
    ensures var b := FixedBlock([Literal(0x61), Copy(0, 0, 0, 0)]);
            && ValidBlock(b, 0) && BlockType(b) == 1 && ExpandBlock([], b) == Some([0x61, 0x61, 0x61, 0x61])
            && BodyBits(b, 0) == FIXED_BODY
  {
    hide Code, FixedLengths, FixedDistances;
    var ts := [Literal(0x61), Copy(0, 0, 0, 0)];
    assert ts[1..] == [Copy(0, 0, 0, 0)] && ts[1..][1..] == [];
    FixedTokens();
    FourLetters();
  }

  lemma FixedTokens()
    ensures var (ts, lens, dists) := ([Literal(0x61), Copy(0, 0, 0, 0)], FixedLengths(), FixedDistances());
            && ValidTokens(lens, dists, ts) && Coded(lens, END_OF_BLOCK)
            && TokensBits(lens, dists, ts) == FIXED_BODY
  {
    hide FixedLengths, FixedDistances, Code, CodeBits, TokensBits, BitsOf;
    var t, lens, dists := Copy(0, 0, 0, 0), FixedLengths(), FixedDistances();
    SmallPowers();
    FixedCode(0x61);
    FixedCode(257);
    FixedCode(256);
    FixedDistance(0);
    assert ValidToken(lens, dists, t) && ValidToken(lens, dists, Literal(0x61));
    TwoTokens(lens, dists, Literal(0x61), t);
    NoExtraBits(dists, t);
    CodesSpelled();
    ZerosSpelled();
    FixedGlued(CodeBits(0x91, 8), CodeBits(1, 7), CodeBits(0, 5), CodeBits(0, 7));
  }

  lemma TwoTokens(lens: seq<nat>, dists: seq<nat>, s: Token, t: Token)
    requires ValidToken(lens, dists, s) && ValidToken(lens, dists, t) && Coded(lens, END_OF_BLOCK)
    ensures ValidTokens(lens, dists, [s, t])
    ensures TokensBits(lens, dists, [s, t]) ==
            TokenBits(lens, dists, s) + (TokenBits(lens, dists, t) + Code(lens, END_OF_BLOCK))
  {
    hide ValidToken, TokenBits, Code;
    assert [s, t][1..] == [t] && [t][1..] == [];
    assert TokensBits(lens, dists, []) == Code(lens, END_OF_BLOCK);
    assert TokensBits(lens, dists, [t]) == TokenBits(lens, dists, t) + Code(lens, END_OF_BLOCK);
  }

  lemma NoExtraBits(dists: seq<nat>, t: Token)
    requires ValidCopy(dists, t) && t == Copy(0, 0, 0, 0)
    ensures CopyBits(dists, t) == Code(dists, 0)
  {
    hide Code;
    var code, none: seq<bool> := Code(dists, 0), [];
    assert EXTRA[0] == 0 && DEXTRA[0] == 0 && BitsOf(0, 0) == none;
    assert CopyBits(dists, t) == none + code + none;
    assert none + code + none == code;
  }

  lemma CodesSpelled()
    ensures CodeBits(0x91, 8) == [I, O, O, I, O, O, O, I] && CodeBits(1, 7) == [O, O, O, O, O, O, I]
  {
  }

  lemma ZerosSpelled()
    ensures CodeBits(0, 5) == [O, O, O, O, O] && CodeBits(0, 7) == [O, O, O, O, O, O, O]
  {
  }

  lemma FixedGlued(a: seq<bool>, b: seq<bool>, c: seq<bool>, d: seq<bool>)
    requires a == [I, O, O, I, O, O, O, I] && b == [O, O, O, O, O, O, I]
    requires c == [O, O, O, O, O] && d == [O, O, O, O, O, O, O]
    ensures a + ((b + c) + d) == FIXED_BODY
  {
  }

  lemma FourLetters()
    ensures Expand([], [Literal(0x61), Copy(0, 0, 0, 0)]) == Some([0x61, 0x61, 0x61, 0x61])
  {
    var a: byte := 0x61;
    var none: seq<byte>, t := [], Copy(0, 0, 0, 0);
    assert BASE[0] == 3 && DBASE[0] == 1;
    assert Repeated([a], 1, 3) == [a, a, a];
    assert [a] + [a, a, a] == [a, a, a, a] && [a] + Repeated([a], DBASE[0] + 0, BASE[0] + 0) == [a, a, a, a];
    assert ExpandToken([a], t) == Some([a, a, a, a]);
    assert none + [a] == [a] && ExpandToken(none, Literal(a)) == Some([a]);
    TwoExpanded(none, Literal(a), [a], t, [a, a, a, a]);
  }

  lemma TwoExpanded(w: seq<byte>, s: Token, w1: seq<byte>, t: Token, w2: seq<byte>)
    requires ExpandToken(w, s) == Some(w1) && ExpandToken(w1, t) == Some(w2)
    ensures Expand(w, [s, t]) == Some(w2)
  {
    hide ExpandToken;
    assert [s, t][1..] == [t] && [t][1..] == [];
    assert Expand(w1, [t]) == Expand(w2, []);
  }

  lemma FixedInput()
    ensures BytesBits([0x4b, 0x04, 0x02, 0x00]) == [true] + BitsOf(1, 2) + FIXED_BODY + [O, O]
  {
    hide BytesBits, BitsOf;
    var none: seq<byte> := [];
    BytesOn(0x4b, [0x04, 0x02, 0x00]);
    BytesOn(0x04, [0x02, 0x00]);
    BytesOn(0x02, [0x00]);
    BytesOn(0x00, none);
    BytesSpelled();
    MoreBytesSpelled();
    assert [0x4b] + [0x04, 0x02, 0x00] == [0x4b, 0x04, 0x02, 0x00] && [0x04] + [0x02, 0x00] == [0x04, 0x02, 0x00];
    assert [0x02] + [0x00] == [0x02, 0x00] && [0x00] + none == [0x00];
    InputGlued(BitsOf(0x4b, 8), BitsOf(0x04, 8), BitsOf(0x02, 8), BitsOf(0x00, 8), BitsOf(1, 2));
  }

  lemma BytesSpelled()
    ensures BitsOf(0x4b, 8) == [I, I, O, I, O, O, I, O] && BitsOf(0x04, 8) == [O, O, I, O, O, O, O, O]
  {
    hide BitsOf;
    FirstByteSpelled();
    SecondByteSpelled();
  }

  lemma FirstByteSpelled()
    ensures BitsOf(0x4b, 8) == [I, I, O, I, O, O, I, O]
  {
  }

  lemma SecondByteSpelled()
    ensures BitsOf(0x04, 8) == [O, O, I, O, O, O, O, O]
  {
  }

  lemma MoreBytesSpelled()
    ensures BitsOf(0x02, 8) == [O, I, O, O, O, O, O, O] && BitsOf(0x00, 8) == [O, O, O, O, O, O, O, O]
    ensures BitsOf(1, 2) == [I, O] && BytesBits([]) == []
  {
  }

  lemma InputGlued(a: seq<bool>, b: seq<bool>, c: seq<bool>, d: seq<bool>, e: seq<bool>)
    requires a == [I, I, O, I, O, O, I, O] && b == [O, O, I, O, O, O, O, O] && c == [O, I, O, O, O, O, O, O]
    requires d == [O, O, O, O, O, O, O, O] && e == [I, O]
    ensures a + (b + (c + (d + []))) == [true] + e + FIXED_BODY + [O, O]
  {
  }
}

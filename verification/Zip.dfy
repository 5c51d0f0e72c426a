/** Zip archives as byte strings: `zip_write`, and `find_end`, `read_entries`,
    `check_spans` and `zip_unpack`, which read what it writes, all of zip.c. */
module Zip {
  import opened Bits
  import opened Options
  import opened Crc
  import opened DeflateTheorems
  import Inflate

  const LOCAL := 0x04034b50
  const CENTRAL := 0x02014b50
  const END := 0x06054b50
  const VERSION := 20
  const DATE := 0x0021
  const MODE_FILE := 0x81a4
  const MODE_PROGRAM := 0x81ed
  const MAX16 := 0xffff
  const MAX32 := 0xffff_ffff

  datatype Entry = Entry(name: seq<byte>, data: seq<byte>, executable: bool)

  /** What the archive says of an entry: its checksum and its mode. */
  datatype Record = Record(name: seq<byte>, data: seq<byte>, crc: nat, mode: nat)

  function RecordOf(e: Entry): (r: Record)
    ensures r.crc <= MAX32 && r.mode <= MAX16
  {
    Record(e.name, e.data, Crc32(e.data), if e.executable then MODE_PROGRAM else MODE_FILE)
  }

  function Records(entries: seq<Entry>): (rs: seq<Record>)
    ensures |rs| == |entries| && forall i :: 0 <= i < |rs| ==> rs[i] == RecordOf(entries[i])
  {
    seq(|entries|, i requires 0 <= i < |entries| => RecordOf(entries[i]))
  }

  /** What the directory says of an entry. */
  datatype Item = Item(name: seq<byte>, offset: nat, packed: nat, size: nat, crc: nat, packing: nat)

  /** The part of the file that belongs to one entry. */
  datatype Span = Span(from: nat, to: nat)

  // ---- The written form ----

  ghost predicate Fits(r: Record) {
    |r.name| <= MAX16 && |r.data| <= MAX32 && r.crc <= MAX32 && r.mode <= MAX16
  }

  /** The checksum and the two sizes, the same for a stored entry. */
  function Sizes(r: Record): (b: seq<byte>)
    requires Fits(r)
    ensures |b| == 12
  {
    Put32(r.crc) + Put32(|r.data|) + Put32(|r.data|)
  }

  function LocalHeader(r: Record): (b: seq<byte>)
    requires Fits(r)
    ensures |b| == 30
  {
    (Put32(LOCAL) + Put16(VERSION) + Put16(0)) + (Put16(0) + Put16(0) + Put16(DATE)) + Sizes(r)
    + (Put16(|r.name|) + Put16(0))
  }

  function LocalRecord(r: Record): (b: seq<byte>)
    requires Fits(r)
    ensures |b| == 30 + |r.name| + |r.data|
  {
    LocalHeader(r) + r.name + r.data
  }

  function CentralHeader(r: Record, offset: nat): (b: seq<byte>)
    requires Fits(r) && offset <= MAX32
    ensures |b| == 46
  {
    (Put32(CENTRAL) + Put16(VERSION + 0x300) + Put16(VERSION) + Put16(0))
    + (Put16(0) + Put16(0) + Put16(DATE)) + Sizes(r)
    + (Put16(|r.name|) + Put16(0) + Put16(0) + Put16(0) + Put16(0))
    + (Put32(r.mode * 0x1_0000) + Put32(offset))
  }

  function CentralRecord(r: Record, offset: nat): (b: seq<byte>)
    requires Fits(r) && offset <= MAX32
    ensures |b| == 46 + |r.name|
  {
    CentralHeader(r, offset) + r.name
  }

  function EndRecord(count: nat, length: nat, start: nat): (b: seq<byte>)
    requires count <= MAX16 && length <= MAX32 && start <= MAX32
    ensures |b| == 22
  {
    (Put32(END) + Put16(0) + Put16(0) + Put16(count)) + (Put16(count) + Put32(length)) + (Put32(start) + Put16(0))
  }

  /** Every entry fits, and the directory can name the offset of each. */
  ghost predicate Room(rs: seq<Record>)
    decreases |rs|, 0
  {
    rs == [] ||
    var before, r := rs[..|rs| - 1], rs[|rs| - 1];
    Room(before) && Fits(r) && |Locals(before)| <= MAX32
  }

  /** The local records, one after the other. */
  function Locals(rs: seq<Record>): (b: seq<byte>)
    requires Room(rs)
    decreases |rs|, 1
  {
    if rs == [] then [] else Locals(rs[..|rs| - 1]) + LocalRecord(rs[|rs| - 1])
  }

  function Directory(rs: seq<Record>): (b: seq<byte>)
    requires Room(rs)
    decreases |rs|
  {
    if rs == [] then []
    else
      var before := rs[..|rs| - 1];
      Directory(before) + CentralRecord(rs[|rs| - 1], |Locals(before)|)
  }

  /** The entry lists the format has room for. */
  ghost predicate Accepted(rs: seq<Record>) {
    |rs| <= MAX16 && Room(rs) && |Locals(rs)| <= MAX32 && |Directory(rs)| <= MAX32
  }

  function Archive(rs: seq<Record>): (b: seq<byte>)
    requires Accepted(rs)
  {
    Locals(rs) + Directory(rs) + EndRecord(|rs|, |Directory(rs)|, |Locals(rs)|)
  }

  /** What the writer has room for, it has room for halfway. */
  lemma {:induction false} LocalsGrow(rs: seq<Record>, m: nat)
    requires Room(rs) && m <= |rs|
    ensures Room(rs[..m]) && Locals(rs[..m]) <= Locals(rs)
    ensures m < |rs| ==> Fits(rs[m]) && |Locals(rs[..m])| <= MAX32
    decreases |rs|
  {
    if m == |rs| {
      assert rs[..m] == rs;
    } else {
      LocalsGrow(rs[..|rs| - 1], m);
      assert rs[..|rs| - 1][..m] == rs[..m];
    }
  }

  lemma Refused(rs: seq<Record>, i: nat)
    requires i < |rs| && Room(rs[..i])
    requires !Fits(rs[i]) || |Locals(rs[..i])| > MAX32
    ensures !Room(rs)
  {
    if Room(rs) { LocalsGrow(rs, i); }
  }

  lemma OneMore(rs: seq<Record>, i: nat)
    requires i < |rs| && Room(rs[..i]) && Fits(rs[i]) && |Locals(rs[..i])| <= MAX32
    ensures Room(rs[..i + 1])
    ensures Locals(rs[..i + 1]) == Locals(rs[..i]) + LocalRecord(rs[i])
    ensures Directory(rs[..i + 1]) == Directory(rs[..i]) + CentralRecord(rs[i], |Locals(rs[..i])|)
  {
    var t := rs[..i + 1];
    assert t[..i] == rs[..i] && t[i] == rs[i];
  }

  /** Append the two records of entry `i`. */
  method AddEntry(r: Record, ghost rs: seq<Record>, ghost i: nat, out: seq<byte>, directory: seq<byte>)
      returns (out': seq<byte>, directory': seq<byte>)
    requires i < |rs| && r == rs[i] && Room(rs[..i]) && Fits(r) && |out| <= MAX32
    requires out == Locals(rs[..i]) && directory == Directory(rs[..i])
    ensures Room(rs[..i + 1])
    ensures out' == Locals(rs[..i + 1]) && directory' == Directory(rs[..i + 1])
  {
    OneMore(rs, i);
    out' := out + LocalRecord(r);
    directory' := directory + CentralRecord(r, |out|);
  }

  method MakeRecord(e: Entry) returns (r: Record)
    ensures r == RecordOf(e)
  {
    var crc := ComputeCrc32(e.data);
    r := Record(e.name, e.data, crc, if e.executable then MODE_PROGRAM else MODE_FILE);
  }

  /** The local records and the directory, built side by side. */
  method WriteEntries(entries: seq<Entry>) returns (ok: bool, out: seq<byte>, directory: seq<byte>)
    ensures ok <==> Room(Records(entries))
    ensures ok ==> out == Locals(Records(entries)) && directory == Directory(Records(entries))
  {
    hide LocalRecord, CentralRecord, RecordOf;
    ghost var rs := Records(entries);
    out, directory := [], [];
    var i := 0;
    while i < |entries|
      invariant 0 <= i <= |entries| && Room(rs[..i])
      invariant out == Locals(rs[..i]) && directory == Directory(rs[..i])
    {
      var r := MakeRecord(entries[i]);
      if |r.name| > MAX16 || |r.data| > MAX32 || |out| > MAX32 {
        Refused(rs, i);
        return false, [], [];
      }
      out, directory := AddEntry(r, rs, i, out, directory);
      i := i + 1;
    }
    assert rs[..i] == rs;
    return true, out, directory;
  }

  /** Write the entries, in order. It refuses exactly what the fields of the
      format cannot hold. */
  method Write(entries: seq<Entry>) returns (ok: bool, bytes: seq<byte>)
    ensures ok <==> Accepted(Records(entries))
    ensures ok ==> bytes == Archive(Records(entries))
  {
    if |entries| > MAX16 {
      return false, [];
    }
    var out, directory;
    ok, out, directory := WriteEntries(entries);
    if !ok || |out| > MAX32 || |directory| > MAX32 {
      return false, [];
    }
    return true, out + directory + EndRecord(|entries|, |directory|, |out|);
  }

  // ---- The reader ----

  /** Where an end record may stand: no further from the end of the file than
      the longest comment lets it, and one byte more, as the scan has it. */
  ghost predicate EndAt(p: seq<byte>, i: nat) {
    i + 22 <= |p| && |p| - i <= 22 + 65536 && Get32(p, i) == END
  }

  /** The end record nearest the end of the file. */
  method FindEnd(p: seq<byte>) returns (ok: bool, at: nat)
    ensures ok ==> EndAt(p, at) && forall i: nat :: at < i ==> !EndAt(p, i)
    ensures !ok ==> forall i: nat :: !EndAt(p, i)
  {
    at := 0;
    if |p| < 22 {
      return false, 0;
    }
    var i: nat := |p| - 22;
    while true
      invariant i + 22 <= |p| && |p| - i <= 22 + 65536
      invariant forall j: nat :: i < j ==> !EndAt(p, j)
      decreases i
    {
      if Get32(p, i) == END {
        return true, i;
      }
      if i == 0 || |p| - i > 22 + 65535 {
        return false, 0;
      }
      i := i - 1;
    }
  }

  /** The `n` bytes from `from` on, byte by byte. */
  function BytesAt(p: seq<byte>, from: nat, n: nat): (b: seq<byte>)
    requires from + n <= |p|
    ensures |b| == n
    decreases n
  {
    if n == 0 then [] else BytesAt(p, from, n - 1) + [p[from + n - 1]]
  }

  lemma {:induction false} BytesAtIsSlice(p: seq<byte>, from: nat, n: nat)
    requires from + n <= |p|
    ensures BytesAt(p, from, n) == p[from..from + n]
  {
    if n > 0 { BytesAtIsSlice(p, from, n - 1); }
  }

  /** The directory entry at `at`, with the span it claims, or none where it is
      broken: it and its name end by `end`, and its data ends before it. */
  function ItemAt(p: seq<byte>, at: nat, end: nat): (r: Option<(Item, Span)>)
    requires end + 22 <= |p|
    ensures r.Some? ==> Sound(p, at, end, r.value)
  {
    if at + 46 > end || Get32(p, at) != CENTRAL then None else
    var n := Get16(p, at + 28);
    var local := Get32(p, at + 42);
    if at + 46 + n > end || local + 30 > at || Get32(p, local) != LOCAL then None else
    var offset := local + 30 + Get16(p, local + 26) + Get16(p, local + 28);
    var packed := Get32(p, at + 20);
    if offset + packed > at then None else
    Some((Item(BytesAt(p, at + 46, n), offset, packed, Get32(p, at + 24), Get32(p, at + 16),
               Get16(p, at + 10)),
          Span(local, offset + packed)))
  }

  /** The data of the item lies in its span, and the span in the file. */
  ghost predicate Sound(p: seq<byte>, at: nat, end: nat, r: (Item, Span)) {
    && at + 46 <= end && r.1.from + 30 <= r.0.offset && r.0.offset + r.0.packed == r.1.to <= at
    && r.0.size <= MAX32 && r.0.crc <= MAX32
  }

  function NextAt(p: seq<byte>, at: nat): (at': nat)
    requires at + 46 <= |p|
    ensures at' >= at + 46
  {
    at + 46 + Get16(p, at + 28) + Get16(p, at + 30) + Get16(p, at + 32)
  }

  function TotalSize(items: seq<Item>): (n: nat) {
    if items == [] then 0 else TotalSize(items[..|items| - 1]) + items[|items| - 1].size
  }

  /** Read `n` more entries after the ones read. */
  function ReadFrom(p: seq<byte>, at: nat, end: nat, n: nat, items: seq<Item>, spans: seq<Span>)
      : (r: Option<(seq<Item>, seq<Span>)>)
    requires end + 22 <= |p|
    decreases n
  {
    if n == 0 then Some((items, spans))
    else match ItemAt(p, at, end)
      case None => None
      case Some((item, span)) =>
        if TotalSize(items) + item.size > MAX32 then None
        else ReadFrom(p, NextAt(p, at), end, n - 1, items + [item], spans + [span])
  }

  ghost predicate Apart(a: Span, b: Span) {
    a.to <= b.from || b.to <= a.from
  }

  /** No two entries share a byte. */
  ghost predicate Disjoint(spans: seq<Span>) {
    forall i, j :: 0 <= i < j < |spans| ==> Apart(spans[i], spans[j])
  }

  ghost predicate Sorted(spans: seq<Span>) {
    forall i, j :: 0 <= i < j < |spans| ==> spans[i].from <= spans[j].from
  }

  ghost predicate Solid(spans: seq<Span>) {
    forall i :: 0 <= i < |spans| ==> spans[i].from < spans[i].to
  }

  lemma InsertSorted(s: seq<Span>, x: Span, k: nat)
    requires Sorted(s) && k <= |s|
    requires forall j :: 0 <= j < k ==> s[j].from <= x.from
    requires k < |s| ==> x.from <= s[k].from
    ensures Sorted(s[..k] + [x] + s[k..])
    ensures multiset(s[..k] + [x] + s[k..]) == multiset(s) + multiset{x}
  {
    assert s == s[..k] + s[k..];
  }

  /** Put `x` in its place. */
  method Insert(s: seq<Span>, x: Span) returns (t: seq<Span>)
    requires Sorted(s)
    ensures Sorted(t) && multiset(t) == multiset(s) + multiset{x}
  {
    var k := 0;
    while k < |s| && s[k].from <= x.from
      invariant 0 <= k <= |s| && forall j :: 0 <= j < k ==> s[j].from <= x.from
    {
      k := k + 1;
    }
    InsertSorted(s, x, k);
    t := s[..k] + [x] + s[k..];
  }

  /** `qsort`, of which only this contract is used. */
  method SortSpans(spans: seq<Span>) returns (sorted: seq<Span>)
    ensures Sorted(sorted) && multiset(sorted) == multiset(spans)
  {
    sorted := [];
    var i := 0;
    while i < |spans|
      invariant 0 <= i <= |spans| && Sorted(sorted) && multiset(sorted) == multiset(spans[..i])
    {
      assert spans[..i + 1] == spans[..i] + [spans[i]];
      sorted := Insert(sorted, spans[i]);
      i := i + 1;
    }
    assert spans[..i] == spans;
  }

  lemma {:induction false} TwoPlaces(s: seq<Span>, a: Span) returns (i: nat, j: nat)
    requires multiset(s)[a] >= 2
    ensures i < j < |s| && s[i] == s[j] == a
  {
    var m := |s| - 1;
    assert s == s[..m] + [s[m]];
    if s[m] == a {
      assert a in multiset(s[..m]);
      i :| 0 <= i < m && s[i] == a;
      j := m;
    } else {
      i, j := TwoPlaces(s[..m], a);
    }
  }

  lemma OncePerPlace(s: seq<Span>, i: nat, j: nat)
    requires i < j < |s| && s[i] == s[j]
    ensures multiset(s)[s[i]] >= 2
  {
    assert s == s[..j] + [s[j]] + s[j + 1..];
    assert s[i] in s[..j];
  }

  /** Disjointness is about the spans, not about their order. */
  lemma DisjointPermuted(s: seq<Span>, t: seq<Span>)
    requires multiset(s) == multiset(t) && Solid(s) && Disjoint(s)
    ensures Disjoint(t)
  {
    forall i, j | 0 <= i < j < |t|
      ensures Apart(t[i], t[j])
    {
      assert t[i] in multiset(s) && t[j] in multiset(s);
      if t[i] == t[j] {
        OncePerPlace(t, i, j);
        var k, l := TwoPlaces(s, t[i]);
      } else {
        var k :| 0 <= k < |s| && s[k] == t[i];
        var l :| 0 <= l < |s| && s[l] == t[j];
        if k < l { assert Apart(s[k], s[l]); } else { assert Apart(s[l], s[k]); }
      }
    }
  }

  lemma SolidPermuted(s: seq<Span>, t: seq<Span>)
    requires multiset(s) == multiset(t) && Solid(s)
    ensures Solid(t)
  {
    forall i | 0 <= i < |t|
      ensures t[i].from < t[i].to
    {
      assert t[i] in multiset(s);
    }
  }

  lemma {:induction false} Chained(t: seq<Span>, i: nat, j: nat)
    requires Sorted(t) && Solid(t) && i < j < |t|
    requires forall k :: 0 < k < |t| ==> t[k - 1].to <= t[k].from
    ensures t[i].to <= t[j].from
  {
    if i + 1 < j { Chained(t, i, j - 1); }
  }

  /** Sort, and compare neighbours: no more is needed. */
  method CheckSpans(spans: seq<Span>) returns (ok: bool)
    requires Solid(spans)
    ensures ok <==> Disjoint(spans)
  {
    var sorted := SortSpans(spans);
    SolidPermuted(spans, sorted);
    var i := 1;
    while i < |sorted|
      invariant 1 <= i && (|sorted| > 0 ==> i <= |sorted|)
      invariant forall k :: 0 < k < i && k < |sorted| ==> sorted[k - 1].to <= sorted[k].from
    {
      if sorted[i].from < sorted[i - 1].to {
        Overlapping(spans, sorted, i);
        return false;
      }
      i := i + 1;
    }
    forall k, l | 0 <= k < l < |sorted|
      ensures Apart(sorted[k], sorted[l])
    {
      Chained(sorted, k, l);
    }
    DisjointPermuted(sorted, spans);
    return true;
  }

  lemma Overlapping(spans: seq<Span>, sorted: seq<Span>, i: nat)
    requires Solid(spans) && multiset(sorted) == multiset(spans) && Sorted(sorted) && Solid(sorted)
    requires 0 < i < |sorted| && sorted[i].from < sorted[i - 1].to
    ensures !Disjoint(spans)
  {
    assert sorted[i - 1].from < sorted[i - 1].to && sorted[i].from < sorted[i].to;
    assert sorted[i - 1].from <= sorted[i].from;
    if Disjoint(spans) {
      DisjointPermuted(spans, sorted);
    }
  }

  /** The end record `find_end` finds. */
  ghost predicate LastEnd(p: seq<byte>, at: nat) {
    EndAt(p, at) && forall i: nat :: at < i ==> !EndAt(p, i)
  }

  lemma OneLastEnd(p: seq<byte>, at: nat, at': nat)
    requires LastEnd(p, at) && LastEnd(p, at')
    ensures at == at'
  {
  }

  /** The entries of the central directory, with the spans they claim. */
  ghost function ReadDirectory(p: seq<byte>): (r: Option<(seq<Item>, seq<Span>)>) {
    if end: nat :| LastEnd(p, end)
    then ReadFrom(p, Get32(p, end + 16), end, Get16(p, end + 10), [], [])
    else None
  }

  /** An archive the reader takes: a whole directory, no byte in two entries. */
  ghost predicate Readable(p: seq<byte>) {
    ReadDirectory(p).Some? && Disjoint(ReadDirectory(p).value.1)
  }

  /** What was read so far lies in the file and adds up. */
  ghost predicate Consistent(p: seq<byte>, items: seq<Item>, spans: seq<Span>) {
    && |items| == |spans| && TotalSize(items) <= 0xffff_ffff
    && forall i :: 0 <= i < |items| ==> Within(p, items[i], spans[i])
  }

  ghost predicate Within(p: seq<byte>, item: Item, span: Span) {
    span.from + 30 <= item.offset && item.offset + item.packed == span.to <= |p|
  }

  lemma ConsistentNext(p: seq<byte>, items: seq<Item>, spans: seq<Span>, at: nat, end: nat)
    requires end + 22 <= |p| && Consistent(p, items, spans) && ItemAt(p, at, end).Some?
    requires TotalSize(items) + ItemAt(p, at, end).value.0.size <= MAX32
    ensures Consistent(p, items + [ItemAt(p, at, end).value.0], spans + [ItemAt(p, at, end).value.1])
  {
    var (item, span) := ItemAt(p, at, end).value;
    assert (items + [item])[..|items|] == items;
    assert Sound(p, at, end, (item, span));
    assert Within(p, item, span);
  }

  /** Every directory the reader takes is consistent. */
  lemma {:induction false} ReadFromConsistent(p: seq<byte>, at: nat, end: nat, n: nat, items: seq<Item>,
                                              spans: seq<Span>)
    requires end + 22 <= |p| && Consistent(p, items, spans)
    requires ReadFrom(p, at, end, n, items, spans).Some?
    ensures Consistent(p, ReadFrom(p, at, end, n, items, spans).value.0,
                       ReadFrom(p, at, end, n, items, spans).value.1)
    decreases n
  {
    if n > 0 {
      var (item, span) := ItemAt(p, at, end).value;
      ConsistentNext(p, items, spans, at, end);
      ReadFromConsistent(p, NextAt(p, at), end, n - 1, items + [item], spans + [span]);
    }
  }

  /** In an archive the reader takes, every entry has bytes of its own inside
      the file, and all of them together declare at most 2^32 - 1 bytes. */
  lemma ReadableIsSafe(p: seq<byte>)
    requires Readable(p)
    ensures Consistent(p, ReadDirectory(p).value.0, ReadDirectory(p).value.1)
    ensures Disjoint(ReadDirectory(p).value.1)
  {
    var end: nat :| LastEnd(p, end);
    DirectoryAt(p, end);
    ReadFromConsistent(p, Get32(p, end + 16), end, Get16(p, end + 10), [], []);
  }

  lemma ConsistentIsSolid(p: seq<byte>, items: seq<Item>, spans: seq<Span>)
    requires Consistent(p, items, spans)
    ensures Solid(spans)
  {
    forall i | 0 <= i < |spans|
      ensures spans[i].from < spans[i].to
    {
      assert Within(p, items[i], spans[i]);
    }
  }

  /** One turn of the loop of `read_entries`: `n` entries are left to read. */
  method ReadOne(p: seq<byte>, at: nat, end: nat, ghost n: nat, items: seq<Item>, spans: seq<Span>, total: nat)
      returns (ok: bool, items': seq<Item>, spans': seq<Span>)
    requires end + 22 <= |p| && n > 0 && Consistent(p, items, spans) && total == TotalSize(items)
    ensures ok ==> at + 46 <= end && |items'| > 0 && Consistent(p, items', spans')
                   && TotalSize(items') == total + items'[|items'| - 1].size
    ensures ReadFrom(p, at, end, n, items, spans)
         == if ok then ReadFrom(p, NextAt(p, at), end, n - 1, items', spans') else None
  {
    items', spans' := items, spans;
    match ItemAt(p, at, end) {
      case None =>
        return false, items, spans;
      case Some((item, span)) =>
        if item.size > MAX32 - total {
          return false, items, spans;
        }
        ConsistentNext(p, items, spans, at, end);
        assert (items + [item])[..|items|] == items;
        return true, items + [item], spans + [span];
    }
  }

  /** The loop of `read_entries`, over `count` entries from `start` on. */
  method ReadEntries(p: seq<byte>, start: nat, end: nat, count: nat)
      returns (ok: bool, items: seq<Item>, spans: seq<Span>)
    requires end + 22 <= |p|
    ensures ReadFrom(p, start, end, count, [], []) == if ok then Some((items, spans)) else None
    ensures ok ==> Consistent(p, items, spans)
  {
    hide ItemAt, Sound, Within;
    var at, total := start, 0;
    items, spans := [], [];
    var i: nat := 0;
    while i < count
      invariant 0 <= i <= count && total == TotalSize(items) && Consistent(p, items, spans)
      invariant ReadFrom(p, at, end, count - i, items, spans) == ReadFrom(p, start, end, count, [], [])
    {
      ok, items, spans := ReadOne(p, at, end, count - i, items, spans, total);
      if !ok { return; }
      total := total + items[|items| - 1].size;
      at := NextAt(p, at);
      i := i + 1;
    }
    return true, items, spans;
  }

  /** Read the directory of an archive. */
  method Read(p: seq<byte>) returns (ok: bool, items: seq<Item>)
    ensures ok <==> Readable(p)
    ensures ok ==> items == ReadDirectory(p).value.0
  {
    items := [];
    var end, spans;
    ok, end := FindEnd(p);
    if !ok {
      return false, [];
    }
    assert LastEnd(p, end);
    DirectoryAt(p, end);
    ok, items, spans := ReadEntries(p, Get32(p, end + 16), end, Get16(p, end + 10));
    if ok {
      ConsistentIsSolid(p, items, spans);
      ok := CheckSpans(spans);
    }
  }

  lemma DirectoryAt(p: seq<byte>, end: nat)
    requires LastEnd(p, end)
    ensures ReadDirectory(p) == ReadFrom(p, Get32(p, end + 16), end, Get16(p, end + 10), [], [])
  {
    forall at: nat | LastEnd(p, at) { OneLastEnd(p, at, end); }
  }

  // ---- Unpacking ----

  /** The bytes of an entry as they stand in the file. */
  function PackedBytes(p: seq<byte>, item: Item): (b: seq<byte>)
    requires item.offset + item.packed <= |p|
  {
    p[item.offset..item.offset + item.packed]
  }

  /** What an entry unpacks to: its stored bytes or the bytes deflate gives, of
      the size and with the checksum it declares. */
  ghost predicate Unpacks(p: seq<byte>, item: Item, data: seq<byte>) {
    && item.offset + item.packed <= |p| && |data| == item.size && Crc32(data) == item.crc
    && match item.packing
       case 0 => PackedBytes(p, item) == data
       case 8 => Deflates(PackedBytes(p, item), item.size, data)
       case _ => false
  }

  /** Unpack one entry onto the end of `out`. */
  method Unpack(p: seq<byte>, item: Item, out: seq<byte>) returns (ok: bool, result: seq<byte>)
    requires item.offset + item.packed <= |p|
    ensures ok ==> |out| <= |result| && result[..|out|] == out && Unpacks(p, item, result[|out|..])
    ensures !ok ==> forall data :: !Unpacks(p, item, data)
  {
    result := out;
    if item.packing == 0 {
      ok := item.packed == item.size;
      if ok {
        result := out + PackedBytes(p, item);
      }
    } else if item.packing == 8 {
      ok, result := Inflate.InflateOnto(PackedBytes(p, item), item.size, out);
      if ok {
        forall data | Deflates(PackedBytes(p, item), item.size, data)
          ensures data == result[|out|..]
        {
          DeflateIsUnambiguous(PackedBytes(p, item), item.size, data, result[|out|..]);
        }
        ok := |result| - |out| == item.size;
      }
    } else {
      return false, out;
    }
    if ok {
      var crc := ComputeCrc32(result[|out|..]);
      ok := crc == item.crc;
    }
  }

  /** An entry unpacks to one byte string at most, and never to one that is a
      byte off. */
  lemma WrongByteRefused(p: seq<byte>, p': seq<byte>, item: Item, data: seq<byte>, i: nat, b: byte)
    requires Unpacks(p, item, data) && i < |data| && data[i] != b
    ensures !Unpacks(p', item, data[i := b])
  {
    OneWrongByteDetected(data, i, b);
  }
}

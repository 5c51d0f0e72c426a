/** What the writer of Zip.dfy writes, the reader takes back entry by entry. */
module ZipTheorems {
  import opened Bits
  import opened Options
  import opened Crc
  import opened Zip

  // ---- Fields at a place ----

  /** The bytes `r` stand in `s` from `at` on. */
  ghost predicate At(s: seq<byte>, at: nat, r: seq<byte>) {
    at + |r| <= |s| && s[at..at + |r|] == r
  }

  lemma AtSplit(s: seq<byte>, at: nat, a: seq<byte>, b: seq<byte>)
    requires At(s, at, a + b)
    ensures At(s, at, a) && At(s, at + |a|, b)
  {
    assert s[at..at + |a + b|][..|a|] == a && s[at..at + |a + b|][|a|..] == b;
    assert s[at..at + |a|] == s[at..at + |a + b|][..|a|];
    assert s[at + |a|..at + |a| + |b|] == s[at..at + |a + b|][|a|..];
  }

  lemma AtSplit3(s: seq<byte>, at: nat, a: seq<byte>, b: seq<byte>, c: seq<byte>)
    requires At(s, at, a + b + c)
    ensures At(s, at, a) && At(s, at + |a|, b) && At(s, at + |a| + |b|, c)
  {
    AtSplit(s, at, a + b, c);
    AtSplit(s, at, a, b);
  }

  lemma Field16(s: seq<byte>, at: nat, v: nat)
    requires v < 0x1_0000 && At(s, at, Put16(v))
    ensures Get16(s, at) == v
  {
    assert s[at..at + 2][0] == s[at] && s[at..at + 2][1] == s[at + 1];
  }

  lemma Field32(s: seq<byte>, at: nat, v: nat)
    requires v < 0x1_0000_0000 && At(s, at, Put32(v))
    ensures Get32(s, at) == v
  {
    AtSplit(s, at, Put16(v % 0x1_0000), Put16(v / 0x1_0000));
    Field16(s, at, v % 0x1_0000);
    Field16(s, at + 2, v / 0x1_0000);
  }

  lemma SizesFields(s: seq<byte>, at: nat, r: Record)
    requires Fits(r) && At(s, at, Sizes(r))
    ensures Get32(s, at) == r.crc && Get32(s, at + 4) == |r.data| && Get32(s, at + 8) == |r.data|
  {
    AtSplit3(s, at, Put32(r.crc), Put32(|r.data|), Put32(|r.data|));
    Field32(s, at, r.crc);
    Field32(s, at + 4, |r.data|);
    Field32(s, at + 8, |r.data|);
  }

  lemma LocalFields(s: seq<byte>, at: nat, r: Record)
    requires Fits(r) && At(s, at, LocalRecord(r))
    ensures Get32(s, at) == LOCAL && Get16(s, at + 26) == |r.name| && Get16(s, at + 28) == 0
    ensures At(s, at + 30 + |r.name|, r.data)
  {
    AtSplit3(s, at, LocalHeader(r), r.name, r.data);
    var a, b, c, d := Put32(LOCAL) + Put16(VERSION) + Put16(0), Put16(0) + Put16(0) + Put16(DATE), Sizes(r),
                      Put16(|r.name|) + Put16(0);
    AtSplit(s, at, a + b + c, d);
    AtSplit3(s, at, a, b, c);
    AtSplit3(s, at, Put32(LOCAL), Put16(VERSION), Put16(0));
    Field32(s, at, LOCAL);
    AtSplit(s, at + 26, Put16(|r.name|), Put16(0));
    Field16(s, at + 26, |r.name|);
    Field16(s, at + 28, 0);
  }

  lemma CentralParts(s: seq<byte>, at: nat, r: Record, offset: nat)
    requires Fits(r) && offset <= MAX32 && At(s, at, CentralHeader(r, offset))
    ensures At(s, at, Put32(CENTRAL)) && At(s, at + 10, Put16(0)) && At(s, at + 16, Sizes(r))
    ensures At(s, at + 28, Put16(|r.name|) + Put16(0) + Put16(0) + Put16(0) + Put16(0))
    ensures At(s, at + 42, Put32(offset))
  {
    var a := Put32(CENTRAL) + Put16(VERSION + 0x300) + Put16(VERSION) + Put16(0);
    var b := Put16(0) + Put16(0) + Put16(DATE);
    var d := Put16(|r.name|) + Put16(0) + Put16(0) + Put16(0) + Put16(0);
    var e := Put32(r.mode * 0x1_0000) + Put32(offset);
    AtSplit3(s, at, a + b + Sizes(r), d, e);
    AtSplit3(s, at, a, b, Sizes(r));
    AtSplit(s, at, Put32(CENTRAL) + Put16(VERSION + 0x300) + Put16(VERSION), Put16(0));
    AtSplit3(s, at, Put32(CENTRAL), Put16(VERSION + 0x300), Put16(VERSION));
    AtSplit3(s, at + 10, Put16(0), Put16(0), Put16(DATE));
    AtSplit(s, at + 38, Put32(r.mode * 0x1_0000), Put32(offset));
  }

  lemma NameLengths(s: seq<byte>, at: nat, n: nat)
    requires n < 0x1_0000 && At(s, at, Put16(n) + Put16(0) + Put16(0) + Put16(0) + Put16(0))
    ensures Get16(s, at) == n && Get16(s, at + 2) == 0 && Get16(s, at + 4) == 0
  {
    AtSplit3(s, at, Put16(n) + Put16(0) + Put16(0), Put16(0), Put16(0));
    AtSplit3(s, at, Put16(n), Put16(0), Put16(0));
    Field16(s, at, n);
    Field16(s, at + 2, 0);
    Field16(s, at + 4, 0);
  }

  lemma CentralFields(s: seq<byte>, at: nat, r: Record, offset: nat)
    requires Fits(r) && offset <= MAX32 && At(s, at, CentralRecord(r, offset))
    ensures Get32(s, at) == CENTRAL && Get16(s, at + 10) == 0 && Get32(s, at + 16) == r.crc
    ensures Get32(s, at + 20) == |r.data| && Get32(s, at + 24) == |r.data| && Get32(s, at + 42) == offset
    ensures Get16(s, at + 28) == |r.name| && NextAt(s, at) == at + 46 + |r.name|
    ensures At(s, at + 46, r.name)
  {
    AtSplit(s, at, CentralHeader(r, offset), r.name);
    CentralParts(s, at, r, offset);
    Field32(s, at, CENTRAL);
    Field16(s, at + 10, 0);
    SizesFields(s, at + 16, r);
    NameLengths(s, at + 28, |r.name|);
    Field32(s, at + 42, offset);
  }

  lemma EndFields(s: seq<byte>, at: nat, count: nat, length: nat, start: nat)
    requires count <= MAX16 && length <= MAX32 && start <= MAX32 && At(s, at, EndRecord(count, length, start))
    ensures Get32(s, at) == END && Get16(s, at + 10) == count && Get32(s, at + 16) == start
  {
    var a := Put32(END) + Put16(0) + Put16(0) + Put16(count);
    var b, c := Put16(count) + Put32(length), Put32(start) + Put16(0);
    AtSplit3(s, at, a, b, c);
    AtSplit(s, at, Put32(END) + Put16(0) + Put16(0), Put16(count));
    AtSplit3(s, at, Put32(END), Put16(0), Put16(0));
    AtSplit(s, at + 10, Put16(count), Put32(length));
    AtSplit(s, at + 16, Put32(start), Put16(0));
    Field32(s, at, END);
    Field16(s, at + 10, count);
    Field32(s, at + 16, start);
  }

  // ---- Records at a place ----

  lemma PrefixAt(s: seq<byte>, base: nat, whole: seq<byte>, a: seq<byte>, b: seq<byte>)
    requires At(s, base, whole) && a + b <= whole
    ensures At(s, base + |a|, b)
  {
    var rest := whole[|a + b|..];
    assert whole == a + b + rest;
    AtSplit3(s, base, a, b, rest);
  }

  lemma DirectoryStep(rs: seq<Record>)
    requires Room(rs) && rs != []
    ensures Directory(rs[..|rs| - 1]) <= Directory(rs)
  {
  }

  lemma {:induction false} DirectoryGrows(rs: seq<Record>, m: nat)
    requires Room(rs) && m <= |rs| && Room(rs[..m])
    ensures Directory(rs[..m]) <= Directory(rs)
    decreases |rs|
  {
    if m == |rs| {
      assert rs[..m] == rs;
    } else {
      var before := rs[..|rs| - 1];
      assert before[..m] == rs[..m];
      DirectoryGrows(before, m);
      DirectoryStep(rs);
      PrefixOfPrefix(Directory(rs[..m]), Directory(before), Directory(rs));
    }
  }

  lemma PrefixOfPrefix(a: seq<byte>, b: seq<byte>, c: seq<byte>)
    requires a <= b <= c
    ensures a <= c
  {
  }

  /** A file that holds the records of `rs` and their directory, from `start`
      up to `end`, with room for an end record. */
  ghost predicate Written(p: seq<byte>, rs: seq<Record>, start: nat, end: nat) {
    && Room(rs) && start == |Locals(rs)| <= MAX32 && end == start + |Directory(rs)| && end + 22 <= |p|
    && At(p, 0, Locals(rs)) && At(p, start, Directory(rs))
  }

  /** Where the local record of entry `i` stands. */
  lemma LocalAt(p: seq<byte>, rs: seq<Record>, start: nat, end: nat, i: nat)
    requires Written(p, rs, start, end) && i < |rs|
    ensures Room(rs[..i]) && Room(rs[..i + 1]) && Fits(rs[i]) && |Locals(rs[..i])| <= MAX32
    ensures At(p, |Locals(rs[..i])|, LocalRecord(rs[i]))
    ensures |Locals(rs[..i])| + 30 + |rs[i].name| + |rs[i].data| <= start
  {
    hide LocalRecord, CentralRecord, Archive;
    LocalsGrow(rs, i);
    LocalsGrow(rs, i + 1);
    OneMore(rs, i);
    PrefixAt(p, 0, Locals(rs), Locals(rs[..i]), LocalRecord(rs[i]));
  }

  /** Where its central record stands. */
  lemma CentralAt(p: seq<byte>, rs: seq<Record>, start: nat, end: nat, i: nat)
    requires Written(p, rs, start, end) && i < |rs|
    requires Room(rs[..i]) && Room(rs[..i + 1]) && Fits(rs[i]) && |Locals(rs[..i])| <= MAX32
    ensures At(p, start + |Directory(rs[..i])|, CentralRecord(rs[i], |Locals(rs[..i])|))
    ensures |Directory(rs[..i + 1])| == |Directory(rs[..i])| + 46 + |rs[i].name| <= end - start
  {
    OneMore(rs, i);
    DirectoryGrows(rs, i + 1);
    PrefixAt(p, start, Directory(rs), Directory(rs[..i]), CentralRecord(rs[i], |Locals(rs[..i])|));
  }

  // ---- The items the reader finds ----

  function ItemOf(r: Record, local: nat): (item: Item) {
    Item(r.name, local + 30 + |r.name|, |r.data|, |r.data|, r.crc, 0)
  }

  function SpanOf(r: Record, local: nat): (span: Span) {
    Span(local, local + 30 + |r.name| + |r.data|)
  }

  function ItemsOf(rs: seq<Record>): (items: seq<Item>)
    requires Room(rs)
    ensures |items| == |rs|
    decreases |rs|
  {
    if rs == [] then []
    else ItemsOf(rs[..|rs| - 1]) + [ItemOf(rs[|rs| - 1], |Locals(rs[..|rs| - 1])|)]
  }

  function SpansOf(rs: seq<Record>): (spans: seq<Span>)
    requires Room(rs)
    ensures |spans| == |rs|
    decreases |rs|
  {
    if rs == [] then []
    else SpansOf(rs[..|rs| - 1]) + [SpanOf(rs[|rs| - 1], |Locals(rs[..|rs| - 1])|)]
  }

  /** The reader takes an entry from its two records. */
  lemma ItemFromRecords(p: seq<byte>, at: nat, end: nat, r: Record, local: nat)
    requires Fits(r) && local <= MAX32 && end + 22 <= |p|
    requires At(p, local, LocalRecord(r)) && local + 30 + |r.name| + |r.data| <= at
    requires At(p, at, CentralRecord(r, local)) && at + 46 + |r.name| <= end
    ensures ItemAt(p, at, end) == Some((ItemOf(r, local), SpanOf(r, local)))
    ensures NextAt(p, at) == at + 46 + |r.name|
  {
    hide LocalRecord, CentralRecord, Put16, Put32, Fits;
    LocalFields(p, local, r);
    CentralFields(p, at, r, local);
    BytesAtIsSlice(p, at + 46, |r.name|);
  }

  lemma ItemRead(p: seq<byte>, rs: seq<Record>, start: nat, end: nat, i: nat, at: nat, local: nat)
    requires Written(p, rs, start, end) && i < |rs| && Room(rs[..i]) && Room(rs[..i + 1])
    requires at == start + |Directory(rs[..i])| && local == |Locals(rs[..i])|
    ensures at + 46 <= |p| && ItemAt(p, at, end) == Some((ItemOf(rs[i], local), SpanOf(rs[i], local)))
    ensures NextAt(p, at) == start + |Directory(rs[..i + 1])|
  {
    LocalAt(p, rs, start, end, i);
    CentralAt(p, rs, start, end, i);
    ItemFromRecords(p, at, end, rs[i], local);
  }

  lemma {:induction false} SizesAddUp(rs: seq<Record>)
    requires Room(rs)
    ensures TotalSize(ItemsOf(rs)) <= |Locals(rs)|
    decreases |rs|
  {
    if rs != [] {
      var m := |rs| - 1;
      SizesAddUp(rs[..m]);
      assert ItemsOf(rs)[..m] == ItemsOf(rs[..m]);
    }
  }

  lemma ItemsNext(rs: seq<Record>, i: nat)
    requires i < |rs| && Room(rs[..i]) && Room(rs[..i + 1])
    ensures ItemsOf(rs[..i + 1]) == ItemsOf(rs[..i]) + [ItemOf(rs[i], |Locals(rs[..i])|)]
    ensures SpansOf(rs[..i + 1]) == SpansOf(rs[..i]) + [SpanOf(rs[i], |Locals(rs[..i])|)]
    ensures TotalSize(ItemsOf(rs[..i + 1])) == TotalSize(ItemsOf(rs[..i])) + |rs[i].data|
  {
    assert rs[..i + 1][..i] == rs[..i];
    assert ItemsOf(rs[..i + 1])[..i] == ItemsOf(rs[..i]);
  }

  lemma ReadStep(p: seq<byte>, at: nat, end: nat, n: nat, items: seq<Item>, spans: seq<Span>, item: Item,
                 span: Span)
    requires end + 22 <= |p| && n > 0 && ItemAt(p, at, end) == Some((item, span))
    requires TotalSize(items) + item.size <= MAX32
    ensures at + 46 <= |p|
    ensures ReadFrom(p, at, end, n, items, spans)
         == ReadFrom(p, NextAt(p, at), end, n - 1, items + [item], spans + [span])
  {
    assert Sound(p, at, end, (item, span));
  }

  lemma RoomWithin(rs: seq<Record>, i: nat)
    requires Room(rs) && i <= |rs|
    ensures Room(rs[..i]) && |Locals(rs[..i])| <= |Locals(rs)|
  {
    LocalsGrow(rs, i);
  }

  lemma {:induction false} RestRead(p: seq<byte>, rs: seq<Record>, start: nat, end: nat, i: nat, at: nat)
    requires Written(p, rs, start, end) && i <= |rs| && Room(rs[..i])
    requires at == start + |Directory(rs[..i])|
    ensures ReadFrom(p, at, end, |rs| - i, ItemsOf(rs[..i]), SpansOf(rs[..i]))
         == Some((ItemsOf(rs), SpansOf(rs)))
    decreases |rs| - i
  {
    if i == |rs| {
      assert rs[..i] == rs;
    } else {
      var local := |Locals(rs[..i])|;
      RoomWithin(rs, i + 1);
      ItemRead(p, rs, start, end, i, at, local);
      RestRead(p, rs, start, end, i + 1, NextAt(p, at));
      ItemsNext(rs, i);
      SizesAddUp(rs[..i + 1]);
      ReadStep(p, at, end, |rs| - i, ItemsOf(rs[..i]), SpansOf(rs[..i]), ItemOf(rs[i], local), SpanOf(rs[i], local));
    }
  }

  lemma {:induction false} SpansInOrder(rs: seq<Record>)
    requires Room(rs)
    ensures Disjoint(SpansOf(rs))
    ensures forall i :: 0 <= i < |rs| ==> SpansOf(rs)[i].to <= |Locals(rs)|
    decreases |rs|
  {
    if rs != [] { SpansInOrder(rs[..|rs| - 1]); }
  }

  lemma ArchiveWritten(rs: seq<Record>)
    requires Accepted(rs)
    ensures Written(Archive(rs), rs, |Locals(rs)|, |Locals(rs)| + |Directory(rs)|)
    ensures At(Archive(rs), |Locals(rs)| + |Directory(rs)|, EndRecord(|rs|, |Directory(rs)|, |Locals(rs)|))
    ensures |Archive(rs)| == |Locals(rs)| + |Directory(rs)| + 22
  {
    hide EndRecord, Locals, Directory, Room;
    var a, b, c := Locals(rs), Directory(rs), EndRecord(|rs|, |Directory(rs)|, |Locals(rs)|);
    assert At(a + b + c, 0, a + b + c);
    AtSplit3(a + b + c, 0, a, b, c);
  }

  lemma EndFound(p: seq<byte>, end: nat, count: nat, length: nat, start: nat)
    requires count <= MAX16 && length <= MAX32 && start <= MAX32 && |p| == end + 22
    requires At(p, end, EndRecord(count, length, start))
    ensures ReadDirectory(p) == ReadFrom(p, start, end, count, [], [])
  {
    EndFields(p, end, count, length, start);
    assert LastEnd(p, end);
    DirectoryAt(p, end);
  }

  lemma WholeRead(p: seq<byte>, rs: seq<Record>, start: nat, end: nat, count: nat)
    requires Written(p, rs, start, end) && count == |rs|
    ensures ReadFrom(p, start, end, count, [], []) == Some((ItemsOf(rs), SpansOf(rs)))
    ensures Disjoint(SpansOf(rs))
  {
    assert rs[..0] == [];
    assert ItemsOf(rs[..0]) == [] && SpansOf(rs[..0]) == [] && Directory(rs[..0]) == [];
    RestRead(p, rs, start, end, 0, start);
    SpansInOrder(rs);
  }

  lemma DirectoryRead(p: seq<byte>, rs: seq<Record>, start: nat, end: nat, count: nat, length: nat)
    requires Written(p, rs, start, end) && count == |rs| <= MAX16 && length <= MAX32 && |p| == end + 22
    requires At(p, end, EndRecord(count, length, start))
    ensures ReadDirectory(p) == Some((ItemsOf(rs), SpansOf(rs)))
  {
    EndFound(p, end, count, length, start);
    WholeRead(p, rs, start, end, count);
  }

  lemma ArchiveRead(rs: seq<Record>)
    requires Accepted(rs)
    ensures ReadDirectory(Archive(rs)) == Some((ItemsOf(rs), SpansOf(rs)))
  {
    ArchiveWritten(rs);
    DirectoryRead(Archive(rs), rs, |Locals(rs)|, |Locals(rs)| + |Directory(rs)|, |rs|, |Directory(rs)|);
  }

  lemma TakenWhenDisjoint(p: seq<byte>, items: seq<Item>, spans: seq<Span>)
    requires ReadDirectory(p) == Some((items, spans)) && Disjoint(spans)
    ensures Readable(p)
  {
  }

  /** The reader finds the end record the writer wrote, and behind it every
      entry in order. */
  lemma WrittenIsReadable(rs: seq<Record>)
    requires Accepted(rs)
    ensures Readable(Archive(rs)) && ReadDirectory(Archive(rs)) == Some((ItemsOf(rs), SpansOf(rs)))
  {
    ArchiveRead(rs);
    SpansInOrder(rs);
    TakenWhenDisjoint(Archive(rs), ItemsOf(rs), SpansOf(rs));
  }

  lemma {:induction false} ItemOfEntry(rs: seq<Record>, i: nat)
    requires Room(rs) && i < |rs|
    ensures Room(rs[..i]) && ItemsOf(rs)[i] == ItemOf(rs[i], |Locals(rs[..i])|)
    decreases |rs|
  {
    LocalsGrow(rs, i);
    var m := |rs| - 1;
    if i < m {
      ItemOfEntry(rs[..m], i);
      assert rs[..m][..i] == rs[..i];
    }
  }

  /** An archive that was written opens again: the same names in the same
      order, and each entry unpacks to its own bytes and nothing else. */
  lemma RoundTrip(entries: seq<Entry>)
    requires Accepted(Records(entries))
    ensures Readable(Archive(Records(entries)))
    ensures var items := ReadDirectory(Archive(Records(entries))).value.0;
            |items| == |entries| &&
            forall i :: 0 <= i < |entries| ==>
              && items[i].name == entries[i].name
              && forall data :: Unpacks(Archive(Records(entries)), items[i], data) <==> data == entries[i].data
  {
    hide Locals, Directory, Archive, ItemsOf, Unpacks, Readable, ReadDirectory, Accepted;
    var rs := Records(entries);
    WrittenIsReadable(rs);
    ArchiveWritten(rs);
    forall i | 0 <= i < |entries|
      ensures ItemsOf(rs)[i].name == entries[i].name
      ensures forall data :: Unpacks(Archive(rs), ItemsOf(rs)[i], data) <==> data == entries[i].data
    {
      ItemOfEntry(rs, i);
      EntryUnpacks(Archive(rs), rs, |Locals(rs)|, |Locals(rs)| + |Directory(rs)|, i);
    }
  }

  lemma StoredUnpacks(p: seq<byte>, item: Item, data: seq<byte>)
    requires item.packing == 0 && item.packed == item.size == |data| && item.crc == Crc32(data)
    requires At(p, item.offset, data)
    ensures forall data' :: Unpacks(p, item, data') <==> data' == data
  {
    assert PackedBytes(p, item) == data;
  }

  lemma EntryUnpacks(p: seq<byte>, rs: seq<Record>, start: nat, end: nat, i: nat)
    requires Written(p, rs, start, end) && i < |rs| && rs[i].crc == Crc32(rs[i].data) && Room(rs[..i])
    ensures forall data :: Unpacks(p, ItemOf(rs[i], |Locals(rs[..i])|), data) <==> data == rs[i].data
  {
    hide LocalRecord, Locals, Unpacks, Room;
    LocalAt(p, rs, start, end, i);
    LocalFields(p, |Locals(rs[..i])|, rs[i]);
    StoredUnpacks(p, ItemOf(rs[i], |Locals(rs[..i])|), rs[i].data);
  }
}

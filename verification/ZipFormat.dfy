/** The records of a zip archive byte by byte, after sections 4.3.7, 4.3.12 and
    4.3.16 of the ZIP File Format Specification. */
module ZipFormat {
  import opened Bits
  import opened Options
  import opened Crc
  import opened Zip

  /** A number in `k` bytes, the lowest first. */
  function Little(v: nat, k: nat): (b: seq<byte>)
    ensures |b| == k
    decreases k
  {
    if k == 0 then [] else [v % 256] + Little(v / 256, k - 1)
  }

  lemma Put16IsLittle(v: nat)
    requires v < 0x1_0000
    ensures Put16(v) == Little(v, 2)
  {
    assert Little(v / 256, 1) == [v / 256 % 256] + Little(v / 256 / 256, 0);
  }

  lemma LittleOn(low: nat, rest: nat, k: nat)
    requires low < 256
    ensures Little(low + 256 * rest, k + 1) == [low] + Little(rest, k)
  {
    DivideUnique(low + 256 * rest, 256, rest, low);
  }

  lemma LittleBoth(v: nat, w: nat, k: nat)
    requires v < 0x1_0000
    ensures Little(v + 0x1_0000 * w, k + 2) == Little(v, 2) + Little(w, k)
  {
    var a, b := v % 256, v / 256;
    LittleOn(a, b + 256 * w, k + 1);
    LittleOn(b, w, k);
    hide Little;
    Put16IsLittle(v);
    assert [a] + ([b] + Little(w, k)) == [a, b] + Little(w, k);
  }

  lemma Put32IsLittle(v: nat)
    requires v < 0x1_0000_0000
    ensures Put32(v) == Little(v, 4)
  {
    Put16IsLittle(v % 0x1_0000);
    Put16IsLittle(v / 0x1_0000);
    LittleBoth(v % 0x1_0000, v / 0x1_0000, 2);
  }

  /** A local record: signature, version 2.0, no flags, stored, no time, the
      first of January 1980, the checksum, the size twice, the length of the
      name and no extra field; then the name and the data. */
  lemma LocalLayout(r: Record)
    requires Fits(r)
    ensures LocalRecord(r) ==
            [0x50, 0x4b, 0x03, 0x04, 20, 0, 0, 0, 0, 0, 0, 0, 0x21, 0]
            + (Little(r.crc, 4) + Little(|r.data|, 4) + Little(|r.data|, 4)) + (Little(|r.name|, 2) + [0, 0])
            + r.name + r.data
  {
    Put32IsLittle(r.crc);
    Put32IsLittle(|r.data|);
    Put16IsLittle(|r.name|);
    assert Put32(LOCAL) + Put16(VERSION) + Put16(0) == [0x50, 0x4b, 0x03, 0x04, 20, 0, 0, 0];
    assert Put16(0) + Put16(0) + Put16(DATE) == [0, 0, 0, 0, 0x21, 0] && Put16(0) == [0, 0];
    hide Little, Put16, Put32;
    assert [0x50, 0x4b, 0x03, 0x04, 20, 0, 0, 0] + [0, 0, 0, 0, 0x21, 0] ==
           [0x50, 0x4b, 0x03, 0x04, 20, 0, 0, 0, 0, 0, 0, 0, 0x21, 0];
  }

  lemma UpperHalf(mode: nat)
    requires mode < 0x1_0000
    ensures Put32(mode * 0x1_0000) == [0, 0] + Put16(mode)
  {
  }

  lemma CentralStart()
    ensures Put32(CENTRAL) + Put16(VERSION + 0x300) + Put16(VERSION) + Put16(0) ==
            [0x50, 0x4b, 0x01, 0x02, 20, 3, 20, 0, 0, 0]
    ensures Put16(0) + Put16(0) + Put16(DATE) == [0, 0, 0, 0, 0x21, 0] && Put16(0) == [0, 0]
  {
  }

  /** A record of the directory: made on Unix by version 2.0, needing 2.0, the
      same flags, packing and date, the checksum and sizes, the length of the
      name, no extra field, no comment, disk 0, no internal attributes, the
      mode in the upper half of the external ones and the offset of the local
      record; then the name. */
  lemma CentralLayout(r: Record, offset: nat)
    requires Fits(r) && offset <= 0xffff_ffff
    ensures CentralRecord(r, offset) ==
            [0x50, 0x4b, 0x01, 0x02, 20, 3, 20, 0, 0, 0, 0, 0, 0, 0, 0x21, 0]
            + (Little(r.crc, 4) + Little(|r.data|, 4) + Little(|r.data|, 4))
            + (Little(|r.name|, 2) + [0, 0, 0, 0, 0, 0, 0, 0]) + ([0, 0] + Little(r.mode, 2) + Little(offset, 4))
            + r.name
  {
    Put32IsLittle(r.crc);
    Put32IsLittle(|r.data|);
    Put16IsLittle(|r.name|);
    Put32IsLittle(offset);
    Put16IsLittle(r.mode);
    UpperHalf(r.mode);
    CentralStart();
    hide Little, Put16, Put32;
    assert [0x50, 0x4b, 0x01, 0x02, 20, 3, 20, 0, 0, 0] + [0, 0, 0, 0, 0x21, 0] ==
           [0x50, 0x4b, 0x01, 0x02, 20, 3, 20, 0, 0, 0, 0, 0, 0, 0, 0x21, 0];
    assert Little(|r.name|, 2) + [0, 0] + [0, 0] + [0, 0] + [0, 0] == Little(|r.name|, 2) + [0, 0, 0, 0, 0, 0, 0, 0];
  }

  /** The record at the end: one disk, the entries twice, the length and the
      start of the directory, no comment. */
  lemma EndLayout(count: nat, length: nat, start: nat)
    requires count <= 0xffff && length <= 0xffff_ffff && start <= 0xffff_ffff
    ensures EndRecord(count, length, start) ==
            [0x50, 0x4b, 0x05, 0x06, 0, 0, 0, 0] + (Little(count, 2) + Little(count, 2))
            + (Little(length, 4) + Little(start, 4)) + [0, 0]
  {
    Put16IsLittle(count);
    Put32IsLittle(length);
    Put32IsLittle(start);
    assert Put32(END) + Put16(0) + Put16(0) == [0x50, 0x4b, 0x05, 0x06, 0, 0, 0, 0] && Put16(0) == [0, 0];
  }

  /** What an entry is written with: its checksum, and the mode of a program or
      of a file. */
  lemma RecordFields(e: Entry)
    ensures var r := RecordOf(e);
            && r.name == e.name && r.data == e.data && r.crc == Crc32(e.data)
            && r.mode == if e.executable then 0x8000 + 0x1ed else 0x8000 + 0x1a4
  {
  }

  // ---- What there is room for ----

  /** The bytes of the records, and of the entries of the directory. */
  function RecordBytes(rs: seq<Record>): (n: nat)
    decreases |rs|
  {
    if rs == [] then 0
    else
      var r := rs[|rs| - 1];
      RecordBytes(rs[..|rs| - 1]) + 30 + |r.name| + |r.data|
  }

  function DirectoryBytes(rs: seq<Record>): (n: nat)
    decreases |rs|
  {
    if rs == [] then 0 else DirectoryBytes(rs[..|rs| - 1]) + 46 + |rs[|rs| - 1].name|
  }

  lemma {:induction false} SizesAre(rs: seq<Record>)
    requires Room(rs)
    ensures |Locals(rs)| == RecordBytes(rs) && |Directory(rs)| == DirectoryBytes(rs)
    decreases |rs|
  {
    hide LocalRecord, CentralRecord, Fits;
    if rs != [] {
      var before, r := rs[..|rs| - 1], rs[|rs| - 1];
      SizesAre(before);
      RecordSizes(r, |Locals(before)|);
    }
  }

  lemma RecordSizes(r: Record, offset: nat)
    requires Fits(r) && offset <= 0xffff_ffff
    ensures |LocalRecord(r)| == 30 + |r.name| + |r.data| && |CentralRecord(r, offset)| == 46 + |r.name|
  {
    LocalLayout(r);
    CentralLayout(r, offset);
  }

  lemma {:induction false} RoomWhere(rs: seq<Record>)
    requires RecordBytes(rs) <= 0xffff_ffff
    requires forall i :: 0 <= i < |rs| ==> |rs[i].name| <= 0xffff && rs[i].crc <= 0xffff_ffff && rs[i].mode <= 0xffff
    ensures Room(rs)
    decreases |rs|
  {
    if rs != [] {
      var before := rs[..|rs| - 1];
      RoomWhere(before);
      SizesAre(before);
    }
  }

  lemma {:induction false} RoomFits(rs: seq<Record>, i: nat)
    requires Room(rs) && i < |rs|
    ensures Fits(rs[i])
    decreases |rs|
  {
    if i < |rs| - 1 { RoomFits(rs[..|rs| - 1], i); }
  }

  /** The entry lists the writer accepts: at most 65535 entries, names of at most
      65535 bytes, and records and directory of less than 4 GiB each, 30 bytes
      and 46 of them for an entry beside its name and its data. */
  lemma AcceptedIs(entries: seq<Entry>)
    ensures var rs := Records(entries);
            Accepted(rs) <==>
            && |entries| <= 65535 && (forall i :: 0 <= i < |entries| ==> |entries[i].name| <= 65535)
            && RecordBytes(rs) < 0x1_0000_0000 && DirectoryBytes(rs) < 0x1_0000_0000
  {
    hide Locals, Directory, RecordBytes, DirectoryBytes;
    var rs := Records(entries);
    if Accepted(rs) {
      SizesAre(rs);
      forall i | 0 <= i < |entries| ensures |entries[i].name| <= 65535 { RoomFits(rs, i); }
    }
    if RecordBytes(rs) < 0x1_0000_0000 && forall i :: 0 <= i < |entries| ==> |entries[i].name| <= 65535 {
      forall i | 0 <= i < |rs| ensures |rs[i].name| <= 0xffff { assert rs[i] == RecordOf(entries[i]); }
      RoomWhere(rs);
      SizesAre(rs);
    }
  }

  // ---- The reader ----

  /** The number of `k` bytes from `at` on, the lowest first. */
  function Number(p: seq<byte>, at: nat, k: nat): (v: nat)
    requires at + k <= |p|
    decreases k
  {
    if k == 0 then 0 else p[at] + 256 * Number(p, at + 1, k - 1)
  }

  lemma NumbersRead(p: seq<byte>, at: nat)
    ensures at + 2 <= |p| ==> Get16(p, at) == Number(p, at, 2)
    ensures at + 4 <= |p| ==> Get32(p, at) == Number(p, at, 4)
  {
    if at + 2 <= |p| { assert Number(p, at + 2, 0) == 0; assert Number(p, at + 1, 1) == p[at + 1]; }
    if at + 4 <= |p| {
      assert Number(p, at + 4, 0) == 0;
      assert Number(p, at + 3, 1) == p[at + 3];
      assert Number(p, at + 2, 2) == (p[at + 2] as int) + 256 * (p[at + 3] as int);
      assert Number(p, at + 1, 3) == (p[at + 1] as int) + 256 * Number(p, at + 2, 2);
    }
  }

  /** The end record that counts: the signature nearest the end, with no more
      than 65536 bytes behind its 22. */
  ghost predicate EndsAt(p: seq<byte>, i: nat) {
    i + 22 <= |p| && |p| <= i + 22 + 65536 && p[i..i + 4] == [0x50, 0x4b, 0x05, 0x06]
  }

  lemma EndIs(p: seq<byte>, i: nat)
    ensures EndAt(p, i) <==> EndsAt(p, i)
  {
    if i + 22 <= |p| {
      SignatureIs(p, i, 0x06054b50, [0x50, 0x4b, 0x05, 0x06]);
    }
  }

  lemma SignatureIs(p: seq<byte>, at: nat, v: nat, s: seq<byte>)
    requires at + 4 <= |p| && |s| == 4
    requires v == ((s[0] as int) + 256 * (s[1] as int)) + 0x1_0000 * ((s[2] as int) + 256 * (s[3] as int))
    ensures Get32(p, at) == v <==> p[at..at + 4] == s
  {
    var t := p[at..at + 4];
    assert t[0] == p[at] && t[1] == p[at + 1] && t[2] == p[at + 2] && t[3] == p[at + 3];
    if Get32(p, at) == v {
      SameHalves(Get16(p, at), Get16(p, at + 2), (s[0] as int) + 256 * (s[1] as int),
                 (s[2] as int) + 256 * (s[3] as int));
      SameBytes(p[at], p[at + 1], s[0], s[1]);
      SameBytes(p[at + 2], p[at + 3], s[2], s[3]);
      assert t == [s[0], s[1], s[2], s[3]];
    }
  }

  lemma SameHalves(a: nat, b: nat, c: nat, d: nat)
    requires a < 0x1_0000 && c < 0x1_0000 && a + 0x1_0000 * b == c + 0x1_0000 * d
    ensures a == c && b == d
  {
  }

  lemma SameBytes(a: byte, b: byte, c: byte, d: byte)
    requires (a as int) + 256 * (b as int) == (c as int) + 256 * (d as int)
    ensures a == c && b == d
  {
  }

  /** The fields of an entry of the directory and of the local record it names:
      what must hold for it to be read. */
  ghost predicate EntryStands(p: seq<byte>, at: nat, end: nat) {
    && at + 46 <= end <= |p| && p[at..at + 4] == [0x50, 0x4b, 0x01, 0x02]
    && at + 46 + Number(p, at + 28, 2) <= end
    && var local := Number(p, at + 42, 4);
       && local + 30 <= at && p[local..local + 4] == [0x50, 0x4b, 0x03, 0x04]
       && local + 30 + Number(p, local + 26, 2) + Number(p, local + 28, 2) + Number(p, at + 20, 4) <= at
  }

  /** What is read of an entry: its name, the place of its data behind the name
      and the extra field of the local record, the sizes, the checksum and the
      packing; and the bytes from its local record to the end of its data. */
  lemma ItemIs(p: seq<byte>, at: nat, end: nat)
    requires end + 22 <= |p|
    ensures ItemAt(p, at, end).Some? <==> EntryStands(p, at, end)
    ensures EntryStands(p, at, end) ==>
              var ((item, span), local) := (ItemAt(p, at, end).value, Number(p, at + 42, 4));
              && item.name == p[at + 46..at + 46 + Number(p, at + 28, 2)]
              && item.offset == local + 30 + Number(p, local + 26, 2) + Number(p, local + 28, 2)
              && item.packed == Number(p, at + 20, 4) && item.size == Number(p, at + 24, 4)
              && item.crc == Number(p, at + 16, 4) && item.packing == Number(p, at + 10, 2)
              && span == Span(local, item.offset + item.packed)
  {
    hide Get16, Get32, Number;
    if at + 46 <= end {
      SignatureIs(p, at, 0x02014b50, [0x50, 0x4b, 0x01, 0x02]);
      NumbersRead(p, at + 28);
      NumbersRead(p, at + 42);
      NumbersRead(p, at + 20);
      NumbersRead(p, at + 24);
      NumbersRead(p, at + 16);
      NumbersRead(p, at + 10);
      var n, local := Get16(p, at + 28), Get32(p, at + 42);
      if at + 46 + n <= end { BytesAtIsSlice(p, at + 46, n); }
      if local + 30 <= at {
        SignatureIs(p, local, 0x04034b50, [0x50, 0x4b, 0x03, 0x04]);
        NumbersRead(p, local + 26);
        NumbersRead(p, local + 28);
      }
    }
  }

  /** The next entry stands behind the name, the extra field and the comment of
      this one. */
  lemma NextIs(p: seq<byte>, at: nat)
    requires at + 46 <= |p|
    ensures NextAt(p, at) == at + 46 + Number(p, at + 28, 2) + Number(p, at + 30, 2) + Number(p, at + 32, 2)
  {
    NumbersRead(p, at + 28);
    NumbersRead(p, at + 30);
    NumbersRead(p, at + 32);
  }

  /** The directory: as many entries as the last end record counts, from where
      it says they start. */
  lemma DirectoryIs(p: seq<byte>, end: nat)
    requires EndsAt(p, end) && forall i: nat :: end < i ==> !EndsAt(p, i)
    ensures ReadDirectory(p) == ReadFrom(p, Number(p, end + 16, 4), end, Number(p, end + 10, 2), [], [])
  {
    forall i: nat ensures EndAt(p, i) <==> EndsAt(p, i) { EndIs(p, i); }
    NumbersRead(p, end + 16);
    NumbersRead(p, end + 10);
    DirectoryAt(p, end);
  }
}

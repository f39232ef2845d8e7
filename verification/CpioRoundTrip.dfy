/** Whatever the writer's bytes hold, the reader's meaning of those bytes is the same entries. */
module CpioRoundTrip {
  import opened Wrappers
  import opened Bytes
  import opened CpioRaw
  import opened CpioHeader
  import opened CpioParse
  import opened CpioBuild

  /** The header a reader decodes from an entry with these fields. */
  function HeaderOf(format: Format, f: Fields, namesize: nat): Header {
    Header(format, f.ino, f.mode, f.uid, f.gid, f.nlink, f.mtime, f.len, Device(0, 0), f.rdev, namesize, f.check)
  }

  /** The entry a reader reports for `item` written at `pos`. */
  function InfoOf(format: Format, item: Item, pos: nat): EntryInfo {
    EntryInfo(item.path, HeaderOf(format, item.fields, |item.path| + 1), pos,
              pos + |HeadBytes(format, item.path, item.fields)|)
  }

  function InfosOf(format: Format, items: seq<Item>, pos: nat): seq<EntryInfo> {
    if items == [] then []
    else [InfoOf(format, items[0], pos)] + InfosOf(format, items[1..], pos + |ItemBytes(format, items[0])|)
  }

  /** An entry the writer may emit: it encodes, its type is known and its check field is the format's. */
  predicate Writable(format: Format, item: Item) {
    && Encodes(format, item.path, item.fields)
    && |item.data| == item.fields.len
    && TypeOf(item.fields.mode).Some? && item.fields.mode != 0
    && item.fields.check == FinalCheck(format, item.fields.(check := 0), item.data)
  }

  predicate AllWritable(format: Format, items: seq<Item>) {
    forall i :: 0 <= i < |items| ==> Writable(format, items[i])
  }

  lemma DetectMagic(start: seq<byte>)
    requires |start| == 6
    ensures start == NEWC_MAGIC ==> Detect(start) == Some(Newc)
    ensures start == NEWC_CRC_MAGIC ==> Detect(start) == Some(Crc)
    ensures start == ODC_MAGIC ==> Detect(start) == Some(Odc)
  {
    assert NEWC_MAGIC[5] != NEWC_CRC_MAGIC[5] && NEWC_MAGIC[5] != ODC_MAGIC[5] && NEWC_CRC_MAGIC[5] != ODC_MAGIC[5];
    if start == NEWC_MAGIC || start == NEWC_CRC_MAGIC || start == ODC_MAGIC {
      assert start[0] == 48 && start[1] == 55;
      assert Word(start, 0, true) == 48 + 256 * 55 && Word(start, 0, false) == 256 * 48 + 55;
    }
  }

  lemma NewcDecodes(format: Format, f: Fields, namesize: nat)
    requires format == Newc || format == Crc
    requires EncodeHeader(format, f, namesize).Ok? && (format == Newc ==> f.check == 0)
    ensures var raw := EncodeHeader(format, f, namesize).value;
            Detect(raw[..6]) == Some(format) && Decode(format, raw) == Some(HeaderOf(format, f, namesize))
  {
    hide Detect;
    var raw := EncodeHeader(format, f, namesize).value;
    assert raw == NewcBytes(format == Crc, NewcOf(f, namesize));
    assert raw[..6] == NewcMagic(format == Crc);
    DetectMagic(raw[..6]);
    NewcRoundTrip(format == Crc, NewcOf(f, namesize));
  }

  lemma OdcDecodes(f: Fields, namesize: nat)
    requires EncodeHeader(Odc, f, namesize).Ok? && f.check == 0
    ensures var raw := EncodeHeader(Odc, f, namesize).value;
            Detect(raw[..6]) == Some(Odc) && Decode(Odc, raw) == Some(HeaderOf(Odc, f, namesize))
  {
    hide Detect;
    var raw := EncodeHeader(Odc, f, namesize).value;
    var rdev := JoinDev(f.rdev).value;
    assert raw == OdcBytes(OdcOf(f, rdev, namesize));
    assert raw[..6] == ODC_MAGIC;
    DetectMagic(raw[..6]);
    OdcRoundTrip(OdcOf(f, rdev, namesize));
    assert SplitDev(rdev) == f.rdev;
  }

  /** An encoded header is read as exactly its fields. */
  lemma HeaderReads(s: seq<byte>, pos: nat, format: Format, f: Fields, namesize: nat)
    requires EncodeHeader(format, f, namesize).Ok? && (format != Crc ==> f.check == 0)
    requires Holds(s, pos, EncodeHeader(format, f, namesize).value)
    ensures pos < |s| && FixedHeader(s, pos) == Ok(HeaderOf(format, f, namesize))
  {
    hide EncodeHeader, Detect, Decode;
    var raw := EncodeHeader(format, f, namesize).value;
    if format == Odc {
      OdcDecodes(f, namesize);
    } else {
      NewcDecodes(format, f, namesize);
    }
    assert s[pos..pos + HeaderLen(format)] == raw;
    assert s[pos..pos + 6] == raw[..6];
  }

  lemma {:induction false} FirstZeroOf(path: seq<byte>, tail: seq<byte>)
    requires 0 !in path && tail != [] && tail[0] == 0
    ensures FirstZero(path + tail) == |path|
  {
    if path == [] {
      assert path + tail == tail;
    } else {
      assert (path + tail)[1..] == path[1..] + tail;
      FirstZeroOf(path[1..], tail);
    }
  }

  /** A stored name with its NUL and padding is read as exactly that name. */
  lemma NameReads(s: seq<byte>, at: nat, h: Header, path: seq<byte>)
    requires path != [] && 0 !in path && h.namesize == |path| + 1
    requires Holds(s, at, path + Zeros(1 + NamePadding(h.format, h.namesize)))
    ensures StoredName(s, at, h) == Ok((path, at + h.namesize + NamePadding(h.format, h.namesize)))
  {
    hide FirstZero, Holds, Zeros;
    var pad := NamePadding(h.format, h.namesize);
    ZerosSplit(pad);
    assert path + Zeros(1 + pad) == (path + [0]) + Zeros(pad);
    HoldsSplit(s, at, path + [0], Zeros(pad));
    HeldAt(s, at, path + [0]);
    HeldAt(s, at + h.namesize, Zeros(pad));
    FirstZeroOf(path, [0]);
    assert (path + [0])[|path|..] == [0] && (path + [0])[..|path|] == path;
  }

  lemma ZerosSplit(pad: nat)
    ensures Zeros(1 + pad) == [0] + Zeros(pad)
  {
  }

  lemma HeldAt(s: seq<byte>, at: nat, part: seq<byte>)
    requires Holds(s, at, part)
    ensures at + |part| <= |s| && s[at..at + |part|] == part
  {
  }

  /** The head of an entry reads as that entry, or as the trailer. */
  lemma HeadReads(s: seq<byte>, pos: nat, format: Format, path: seq<byte>, f: Fields, options: Options)
    requires EncodeHeader(format, f, |path| + 1).Ok? && (format != Crc ==> f.check == 0)
    requires path != [] && 0 !in path && |path| + 1 <= options.capacity
    requires TypeOf(f.mode).Some? || f.mode == 0
    requires Holds(s, pos, HeadBytes(format, path, f))
    ensures pos < |s| && pos + |HeadBytes(format, path, f)| <= |s|
    ensures ParseHead(s, pos, options)
         == Classify(path, pos, pos + |HeadBytes(format, path, f)|, HeaderOf(format, f, |path| + 1))
  {
    hide EncodeHeader, FixedHeader, StoredName, Classify, HeaderFault, Holds, TypeOf, Zeros, NamePadding, HeaderOf;
    var raw := EncodeHeader(format, f, |path| + 1).value;
    var named := path + Zeros(1 + NamePadding(format, |path| + 1));
    assert HeadBytes(format, path, f) == raw + named;
    HoldsSplit(s, pos, raw, named);
    hide HeadBytes;
    var h := HeaderOf(format, f, |path| + 1);
    HeaderReads(s, pos, format, f, |path| + 1);
    HeaderSound(format, f, path, options.capacity);
    NameReads(s, pos + |raw|, h, path);
  }

  lemma HeaderSound(format: Format, f: Fields, path: seq<byte>, capacity: nat)
    requires (format != Crc ==> f.check == 0) && path != [] && |path| + 1 <= capacity
    requires TypeOf(f.mode).Some? || f.mode == 0
    ensures var h := HeaderOf(format, f, |path| + 1);
            HeaderFault(h, capacity) == None && h.namesize == |path| + 1 && h.format == format
  {
  }

  /** Whether `e` reports `item` in full: name, every header field, and data. */
  predicate Shown(s: seq<byte>, e: EntryInfo, format: Format, item: Item) {
    && e.path == item.path && e.header == HeaderOf(format, item.fields, |item.path| + 1)
    && e.dataOffset + e.header.len <= |s| && Data(s, e) == item.data
  }

  /** An entry whose sum is that of its data and whose padding is zeros is passed. */
  lemma EntryPasses(s: seq<byte>, e: EntryInfo, data: seq<byte>)
    requires |data| == e.header.len && Holds(s, e.dataOffset, data)
    requires Holds(s, e.dataOffset + |data|, Zeros(DataPadding(e.header.format, e.header.len)))
    requires Summed(e.header) ==> e.header.check == CpioHeader.Checksum(0, data)
    ensures e.dataOffset + e.header.len <= |s| && Data(s, e) == data
    ensures Pass(s, e) == Ok(e.dataOffset + e.header.len + DataPadding(e.header.format, e.header.len))
  {
    hide Holds, Zeros, CpioHeader.Checksum;
    HeldAt(s, e.dataOffset, data);
    HeldAt(s, e.dataOffset + |data|, Zeros(DataPadding(e.header.format, e.header.len)));
  }

  /** A whole entry reads as that entry and is passed. */
  lemma ItemReads(s: seq<byte>, pos: nat, format: Format, item: Item, options: Options)
    requires Writable(format, item) && options.capacity >= PATH_MAX
    requires Holds(s, pos, ItemBytes(format, item))
    ensures pos < |s| && ParseHead(s, pos, options) == EntryHead(InfoOf(format, item, pos))
    ensures Shown(s, InfoOf(format, item, pos), format, item)
    ensures Pass(s, InfoOf(format, item, pos)) == Ok(pos + |ItemBytes(format, item)|)
  {
    hide EncodeHeader, HeadBytes, ParseHead, Holds, Zeros;
    var head := HeadBytes(format, item.path, item.fields);
    var pad := Zeros(DataPadding(format, item.fields.len));
    HoldsSplit(s, pos, head + item.data, pad);
    HoldsSplit(s, pos, head, item.data);
    HeadReads(s, pos, format, item.path, item.fields, options);
    EntryPasses(s, InfoOf(format, item, pos), item.data);
  }

  lemma TrailerReads(s: seq<byte>, pos: nat, format: Format, options: Options)
    requires format != Binary && options.capacity >= PATH_MAX
    requires Holds(s, pos, TrailerBytes(format))
    ensures pos < |s| && ParseHead(s, pos, options) == TrailerHead(pos + |TrailerBytes(format)|)
  {
    hide EncodeHeader, HeadBytes, ParseHead;
    TrailerEncodes(format);
    assert TypeBits(0) == 0;
    HeadReads(s, pos, format, TRAILER_NAME, TRAILER_FIELDS, options);
  }

  /**
   * Written entries read back as exactly themselves, and then the trailer, wherever in a
   * stream the archive lies.
   */
  lemma {:induction false} SegmentRoundTrip(s: seq<byte>, pos: nat, format: Format, items: seq<Item>, options: Options)
    requires AllWritable(format, items) && format != Binary
    requires options.capacity >= PATH_MAX
    requires Holds(s, pos, ArchiveBytes(format, items))
    ensures pos < |s|
    ensures Segment(s, pos, options)
         == (InfosOf(format, items, pos), AtTrailer(pos + |ArchiveBytes(format, items)|))
    decreases |items|
  {
    hide Writable, Encodes, ItemBytes, TrailerBytes, ParseHead, Pass, Shown, HeadBytes;
    if items == [] {
      assert ArchiveBytes(format, items) == TrailerBytes(format);
      TrailerReads(s, pos, format, options);
    } else {
      var first, rest := ItemBytes(format, items[0]), items[1..];
      assert ArchiveBytes(format, items) == first + ArchiveBytes(format, rest);
      HoldsSplit(s, pos, first, ArchiveBytes(format, rest));
      ItemReads(s, pos, format, items[0], options);
      SegmentRoundTrip(s, pos + |first|, format, rest, options);
    }
  }

  lemma Tail(format: Format, items: seq<Item>, s: seq<byte>, pos: nat)
    requires AllWritable(format, items) && items != []
    requires Holds(s, pos, ItemsBytes(format, items))
    ensures Writable(format, items[0])
    ensures AllWritable(format, items[1..])
    ensures Holds(s, pos, ItemBytes(format, items[0]))
    ensures Holds(s, pos + |ItemBytes(format, items[0])|, ItemsBytes(format, items[1..]))
  {
    hide Encodes, ItemBytes, Writable;
    HoldsSplit(s, pos, ItemBytes(format, items[0]), ItemsBytes(format, items[1..]));
  }

  /** Whether `entries` report `items` one by one and in full. */
  predicate AllShown(s: seq<byte>, entries: seq<EntryInfo>, format: Format, items: seq<Item>) {
    if items == [] then entries == []
    else entries != [] && Shown(s, entries[0], format, items[0]) && AllShown(s, entries[1..], format, items[1..])
  }

  /** Each reported entry is the one written, and the data it points at is the data written. */
  lemma {:induction false} DataRoundTrip(s: seq<byte>, pos: nat, format: Format, items: seq<Item>)
    requires AllWritable(format, items) && Holds(s, pos, ItemsBytes(format, items))
    ensures AllShown(s, InfosOf(format, items, pos), format, items)
    decreases |items|
  {
    hide Holds, ItemBytes, Writable, Shown, InfoOf, AllWritable, ItemsBytes, ParseHead, Pass;
    if items != [] {
      Tail(format, items, s, pos);
      ItemReads(s, pos, format, items[0], Options(false, PATH_MAX));
      var next := pos + |ItemBytes(format, items[0])|;
      DataRoundTrip(s, next, format, items[1..]);
      assert InfosOf(format, items, pos)[1..] == InfosOf(format, items[1..], next);
    }
  }

  // ------------------------------------------------------------------
  // Concatenated archives
  // ------------------------------------------------------------------

  /** One archive of a concatenation, and the zero bytes after it. */
  datatype Part = Part(format: Format, items: seq<Item>, zeros: nat)

  type GoodPart = p: Part | p.format != Binary && AllWritable(p.format, p.items)
    witness Part(Newc, [], 0)

  function PartsBytes(parts: seq<GoodPart>): seq<byte> {
    if parts == [] then []
    else ArchiveBytes(parts[0].format, parts[0].items) + Zeros(parts[0].zeros) + PartsBytes(parts[1..])
  }

  function PartsInfos(parts: seq<GoodPart>, pos: nat): seq<(seq<EntryInfo>, Stop)> {
    if parts == [] then []
    else
      var next := pos + |ArchiveBytes(parts[0].format, parts[0].items)|;
      [(InfosOf(parts[0].format, parts[0].items, pos), AtTrailer(next))]
      + PartsInfos(parts[1..], next + parts[0].zeros)
  }

  lemma {:induction false} SkipZeroRun(s: seq<byte>, pos: nat, n: nat)
    requires Holds(s, pos, Zeros(n)) && (pos + n < |s| ==> s[pos + n] != 0)
    ensures pos <= |s| && SkipZeros(s, pos) == pos + n
    decreases n
  {
    if n > 0 {
      assert s[pos] == s[pos..pos + n][0] == 0;
      assert s[pos + 1..pos + n] == s[pos..pos + n][1..] == Zeros(n - 1);
      SkipZeroRun(s, pos + 1, n - 1);
    }
  }

  lemma ArchiveStarts(format: Format, items: seq<Item>)
    requires AllWritable(format, items) && format != Binary
    ensures |ArchiveBytes(format, items)| > 0 && ArchiveBytes(format, items)[0] == 48
  {
    hide HeadBytes, EncodeHeader;
    TrailerEncodes(format);
    if items == [] {
      HeadStarts(format, TRAILER_NAME, TRAILER_FIELDS);
      assert ArchiveBytes(format, items) == TrailerBytes(format);
    } else {
      HeadStarts(format, items[0].path, items[0].fields);
    }
  }

  lemma HeadStarts(format: Format, path: seq<byte>, f: Fields)
    requires EncodeHeader(format, f, |path| + 1).Ok?
    ensures |HeadBytes(format, path, f)| > 0 && HeadBytes(format, path, f)[0] == 48
  {
  }

  /**
   * Any number of archives, in any mix of formats, with any runs of zero bytes after each,
   * read back as the list of their segments.
   */
  lemma {:induction false} ConcatenationRoundTrip(s: seq<byte>, pos: nat, parts: seq<GoodPart>, options: Options)
    requires parts != []
    requires options.capacity >= PATH_MAX
    requires pos + |PartsBytes(parts)| == |s| && s[pos..] == PartsBytes(parts)
    ensures pos <= |s| && Segments(s, pos, options) == PartsInfos(parts, pos)
    decreases |parts|
  {
    hide AllWritable, ArchiveBytes, InfosOf, Segment, Segments, SkipZeros, Holds, PartsBytes, PartsInfos;
    var p, rest := parts[0], parts[1..];
    var archive := ArchiveBytes(p.format, p.items);
    var after := pos + |archive| + p.zeros;
    PartsSplit(s, pos, parts);
    SegmentRoundTrip(s, pos, p.format, p.items, options);
    SkipZeroRun(s, pos + |archive|, p.zeros);
    SegmentsStep(s, pos, options);
    InfosStep(parts, pos);
    if rest != [] {
      ConcatenationRoundTrip(s, after, rest, options);
    }
  }

  lemma InfosStep(parts: seq<GoodPart>, pos: nat)
    requires parts != []
    ensures var p, rest := parts[0], parts[1..];
            var end := pos + |ArchiveBytes(p.format, p.items)|;
            var one := (InfosOf(p.format, p.items, pos), AtTrailer(end));
            PartsInfos(parts, pos) == if rest == [] then [one] else [one] + PartsInfos(rest, end + p.zeros)
  {
    hide ArchiveBytes, InfosOf;
  }

  lemma PartsSplit(s: seq<byte>, pos: nat, parts: seq<GoodPart>)
    requires parts != [] && pos + |PartsBytes(parts)| == |s| && s[pos..] == PartsBytes(parts)
    ensures var p, rest := parts[0], parts[1..];
            var archive := ArchiveBytes(p.format, p.items);
            var after := pos + |archive| + p.zeros;
            && Holds(s, pos, archive) && Holds(s, pos + |archive|, Zeros(p.zeros))
            && after + |PartsBytes(rest)| == |s| && s[after..] == PartsBytes(rest)
            && if rest == [] then after == |s| else after < |s| && s[after] != 0
  {
    hide AllWritable, ArchiveBytes;
    var p, rest := parts[0], parts[1..];
    var archive := ArchiveBytes(p.format, p.items);
    assert s[pos..pos + |PartsBytes(parts)|] == PartsBytes(parts);
    HoldsSplit(s, pos, archive + Zeros(p.zeros), PartsBytes(rest));
    HoldsSplit(s, pos, archive, Zeros(p.zeros));
    if rest != [] {
      PartsStart(rest);
    }
  }

  lemma PartsStart(parts: seq<GoodPart>)
    requires parts != []
    ensures |PartsBytes(parts)| > 0 && PartsBytes(parts)[0] == 48
  {
    hide ArchiveBytes;
    ArchiveStarts(parts[0].format, parts[0].items);
  }

  /** One archive reads back as one segment, and every entry of it shows the data written. */
  lemma ArchiveReadsBack(format: Format, items: seq<Item>, options: Options)
    requires AllWritable(format, items) && format != Binary && options.capacity >= PATH_MAX
    ensures var archive := ArchiveBytes(format, items);
            var infos := InfosOf(format, items, 0);
            Segments(archive, 0, options) == [(infos, AtTrailer(|archive|))] && AllShown(archive, infos, format, items)
  {
    hide AllWritable, ItemsBytes, InfosOf, AllShown, Segments, TrailerBytes;
    var parts: seq<GoodPart> := [Part(format, items, 0)];
    var archive := ArchiveBytes(format, items);
    OnePart(parts);
    assert archive[0..] == archive;
    ConcatenationRoundTrip(archive, 0, parts, options);
    assert Holds(archive, 0, ItemsBytes(format, items));
    DataRoundTrip(archive, 0, format, items);
  }

  lemma OnePart(parts: seq<GoodPart>)
    requires |parts| == 1 && parts[0].zeros == 0
    ensures PartsBytes(parts) == ArchiveBytes(parts[0].format, parts[0].items)
    ensures var archive := ArchiveBytes(parts[0].format, parts[0].items);
            PartsInfos(parts, 0) == [(InfosOf(parts[0].format, parts[0].items, 0), AtTrailer(|archive|))]
  {
    hide ArchiveBytes, InfosOf;
    var archive := ArchiveBytes(parts[0].format, parts[0].items);
    assert PartsBytes(parts[1..]) == [] && Zeros(0) == [] && archive + [] + [] == archive;
    assert PartsInfos(parts[1..], |archive|) == [];
  }
}

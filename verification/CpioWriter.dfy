/** The streaming cpio writer: what it has put out, and what its report says about it. */
module CpioWriter {
  import opened Wrappers
  import opened Bytes
  import opened CpioRaw
  import opened CpioHeader
  import opened E = CpioError
  import opened CpioBuild
  import opened Nodes
  import opened CpioRoundTrip

  /** The bound on one request to a streamed content. */
  const CHUNK: nat := 65536

  /** The data part of an entry, and where it comes from. */
  datatype Payload = NoData | Inline(bytes: seq<byte>) | FromContent(content: Content) {
    function Bytes(): seq<byte> {
      match this
      case NoData => []
      case Inline(bytes) => bytes
      case FromContent(content) => content.bytes
    }
  }

  function PayloadOf(node: Node): (p: Payload)
    ensures p.Bytes() == node.Payload()
  {
    match node.kind
    case FileNode(content) => FromContent(content)
    case SymlinkNode(target) => Inline(target)
    case _ => NoData
  }

  /** The entry with its check field filled in. */
  function Finished(format: Format, path: seq<byte>, fields: Fields, data: seq<byte>): (item: Item)
    ensures Encodes(format, path, fields) ==> Encodes(format, item.path, item.fields)
  {
    CheckKeepsLength(format, path, fields, FinalCheck(format, fields, data));
    Item(path, fields.(check := FinalCheck(format, fields, data)), data)
  }

  lemma CheckKeepsLength(format: Format, path: seq<byte>, f: Fields, check: u32)
    ensures Encodes(format, path, f) ==>
              Encodes(format, path, f.(check := check))
              && |HeadBytes(format, path, f.(check := check))| == |HeadBytes(format, path, f)|
  {
    hide NewcBytes, OdcBytes;
  }

  /** The entry `Append` writes for `node`. */
  function NodeItem(options: CpioOptions, ino: nat, path: seq<byte>, node: Node): (item: Item)
    requires NodeFields(options, node).Ok?
  {
    Finished(options.format, path, NodeFields(options, node).value.(ino := ino), node.Payload())
  }

  lemma FinishedWritable(format: Format, path: seq<byte>, f: Fields, data: seq<byte>)
    requires Encodes(format, path, f) && f.check == 0 && f.len == |data| && TypeOf(f.mode).Some?
    ensures Writable(format, Finished(format, path, f, data))
  {
    hide Encodes;
    assert TypeOf(0).None?;
    assert Finished(format, path, f, data).fields.(check := 0) == f;
  }

  /** Every reported extent holds exactly the data it stands for, aligned as the format aligns data. */
  ghost predicate Truthful(format: Format, extents: seq<Extent>, stored: seq<seq<byte>>, out: seq<byte>) {
    && |extents| == |stored|
    && forall i :: 0 <= i < |extents| ==>
         && extents[i].len == |stored[i]| && Holds(out, extents[i].offset, stored[i])
         && (format == Newc || format == Crc ==> extents[i].offset % 4 == 0)
  }

  lemma TruthfulGrows(format: Format, extents: seq<Extent>, stored: seq<seq<byte>>, out: seq<byte>, more: seq<byte>)
    requires Truthful(format, extents, stored, out)
    ensures Truthful(format, extents, stored, out + more)
  {
    forall i | 0 <= i < |extents|
      ensures Holds(out + more, extents[i].offset, stored[i])
    {
      assert Holds(out, extents[i].offset, stored[i]);
      assert (out + more)[extents[i].offset..extents[i].offset + |stored[i]|]
          == out[extents[i].offset..extents[i].offset + |stored[i]|];
    }
  }

  lemma TruthfulSnoc(format: Format, extents: seq<Extent>, stored: seq<seq<byte>>, out: seq<byte>, e: Extent, data: seq<byte>)
    requires Truthful(format, extents, stored, out)
    requires e.len == |data| && Holds(out, e.offset, data)
    requires format == Newc || format == Crc ==> e.offset % 4 == 0
    ensures Truthful(format, extents + [e], stored + [data], out)
  {
  }

  lemma TruthfulBoth(format: Format, extents: seq<Extent>, stored: seq<seq<byte>>, more: seq<Extent>, data: seq<byte>,
                     out: seq<byte>)
    requires Truthful(format, extents, stored, out)
    requires forall i :: 0 <= i < |more| ==> more[i].len == |data| && Holds(out, more[i].offset, data)
    requires format == Newc || format == Crc ==> forall i :: 0 <= i < |more| ==> more[i].offset % 4 == 0
    ensures Truthful(format, extents + more, stored + seq(|more|, _ => data), out)
  {
    hide Holds;
  }

  /** In newc and crc archives heads and whole entries are multiples of four bytes long. */
  lemma ItemAligned(format: Format, item: Item)
    requires Encodes(format, item.path, item.fields) && |item.data| == item.fields.len
    requires format == Newc || format == Crc
    ensures |HeadBytes(format, item.path, item.fields)| % 4 == 0 && |ItemBytes(format, item)| % 4 == 0
  {
    hide HeadBytes, NamePadding, DataPadding, Encodes;
    HeadIs(format, item.path, item.fields);
  }

  lemma HeadIs(format: Format, path: seq<byte>, f: Fields)
    requires Encodes(format, path, f) && (format == Newc || format == Crc)
    ensures |HeadBytes(format, path, f)| == NEWC_HEADER_LEN + |path| + 1 + NamePadding(format, |path| + 1)
  {
    hide NewcBytes, OdcBytes;
  }

  /** In newc and crc every header starts on a multiple of four. */
  lemma {:induction false} ItemsAligned(format: Format, items: seq<Item>)
    requires AllWritable(format, items) && (format == Newc || format == Crc)
    ensures |ItemsBytes(format, items)| % 4 == 0
  {
    hide Encodes, ItemBytes, HeadBytes;
    if items != [] {
      assert Writable(format, items[0]);
      ItemAligned(format, items[0]);
      ItemsAligned(format, items[1..]);
    }
  }

  /** The size of a finished entry, from its planned fields. */
  lemma FinishedSize(format: Format, path: seq<byte>, f: Fields, data: seq<byte>)
    requires Encodes(format, path, f) && f.len == |data|
    ensures var item := Finished(format, path, f, data);
            && Encodes(format, item.path, item.fields)
            && |HeadBytes(format, item.path, item.fields)| == |HeadBytes(format, path, f)|
            && |ItemBytes(format, item)| == |HeadBytes(format, path, f)| + f.len + DataPadding(format, f.len)
  {
    hide Encodes, HeadBytes;
    CheckKeepsLength(format, path, f, FinalCheck(format, f, data));
  }

  /** Where the data of entry `k` starts when `items` start at `base`. */
  function DataStart(format: Format, items: seq<Item>, k: nat, base: nat): nat
    requires k < |items|
  {
    base + |ItemsBytes(format, items[..k])| + |HeadBytes(format, items[k].path, items[k].fields)|
  }

  lemma ItemDataHolds(out: seq<byte>, base: nat, format: Format, item: Item)
    requires Holds(out, base, ItemBytes(format, item))
    ensures Holds(out, base + |HeadBytes(format, item.path, item.fields)|, item.data)
  {
    hide EncodeHeader;
    var head := HeadBytes(format, item.path, item.fields);
    HoldsSplit(out, base, head + item.data, Zeros(DataPadding(format, item.fields.len)));
    HoldsSplit(out, base, head, item.data);
  }

  /** The data of entry `k` lies in the output where the plan puts it. */
  lemma {:induction false} DataHolds(out: seq<byte>, base: nat, format: Format, items: seq<Item>, k: nat)
    requires k < |items| && Holds(out, base, ItemsBytes(format, items))
    ensures Holds(out, DataStart(format, items, k, base), items[k].data)
    decreases k
  {
    hide Encodes, HeadBytes, ItemBytes;
    var first := ItemBytes(format, items[0]);
    HoldsSplit(out, base, first, ItemsBytes(format, items[1..]));
    if k == 0 {
      ItemDataHolds(out, base, format, items[0]);
    } else {
      DataHolds(out, base + |first|, format, items[1..], k - 1);
      PrefixBytes(format, items, k);
    }
  }

  lemma PrefixBytes(format: Format, items: seq<Item>, k: nat)
    requires 0 < k <= |items|
    ensures ItemsBytes(format, items[..k]) == ItemBytes(format, items[0]) + ItemsBytes(format, items[1..][..k - 1])
  {
    hide Encodes, ItemBytes;
    assert items[1..][..k - 1] == items[..k][1..];
  }

  /** In newc and crc the data of every entry starts on a multiple of four. */
  lemma DataAligned(base: nat, format: Format, items: seq<Item>, k: nat)
    requires AllWritable(format, items) && k < |items|
    requires (format == Newc || format == Crc) && base % 4 == 0
    ensures DataStart(format, items, k, base) % 4 == 0
  {
    hide Encodes, HeadBytes, ItemsBytes, ItemBytes, TypeOf, FinalCheck, EncodeHeader;
    ItemsAligned(format, items[..k]);
    assert Writable(format, items[k]);
    ItemAligned(format, items[k]);
  }

  /** The planned fields of name `k` of a hard-link group: odc repeats the data, newc and crc keep it for the last. */
  function LinkFields(options: CpioOptions, ino: nat, names: nat, node: Node, k: nat): (f: Fields)
    requires NodeFields(options, node).Ok? && k < names
    ensures f.check == 0 && TypeOf(f.mode).Some? && f.len == |LinkData(options, names, node, k)|
  {
    var f := NodeFields(options, node).value.(ino := ino, nlink := names);
    if options.format == Odc || k == names - 1 then f else f.(len := 0)
  }

  function LinkData(options: CpioOptions, names: nat, node: Node, k: nat): seq<byte>
    requires k < names
  {
    if options.format == Odc || k == names - 1 then node.Payload() else []
  }

  predicate LinksEncode(options: CpioOptions, ino: nat, paths: seq<seq<byte>>, node: Node) {
    && NodeFields(options, node).Ok?
    && forall k :: 0 <= k < |paths| ==> Encodes(options.format, paths[k], LinkFields(options, ino, |paths|, node, k))
  }

  /** Whether the first `n` names of a group encode. */
  predicate FirstEncode(options: CpioOptions, ino: nat, paths: seq<seq<byte>>, node: Node, n: nat)
    requires n <= |paths| && NodeFields(options, node).Ok?
  {
    forall k :: 0 <= k < n ==> Encodes(options.format, paths[k], LinkFields(options, ino, |paths|, node, k))
  }

  lemma FirstEncodeSteps(options: CpioOptions, ino: nat, paths: seq<seq<byte>>, node: Node)
    ensures NodeFields(options, node).Ok? ==>
              && FirstEncode(options, ino, paths, node, 0)
              && (LinksEncode(options, ino, paths, node) <==> FirstEncode(options, ino, paths, node, |paths|))
              && forall k :: 0 <= k < |paths| ==>
                   var encodes := Encodes(options.format, paths[k], LinkFields(options, ino, |paths|, node, k));
                   && (FirstEncode(options, ino, paths, node, k) && encodes ==> FirstEncode(options, ino, paths, node, k + 1))
                   && (LinksEncode(options, ino, paths, node) ==> encodes)
  {
    hide Encodes, NodeFields, LinkFields;
  }

  /** The entries of a hard-link group: one inode, a link count of all its names. */
  function LinkItems(options: CpioOptions, ino: nat, paths: seq<seq<byte>>, node: Node): (items: seq<Item>)
    requires LinksEncode(options, ino, paths, node)
    ensures |items| == |paths| && AllWritable(options.format, items)
    ensures forall k :: 0 <= k < |paths| ==>
              items[k] == Finished(options.format, paths[k], LinkFields(options, ino, |paths|, node, k),
                                   LinkData(options, |paths|, node, k))
  {
    LinksWritable(options, ino, paths, node);
    seq(|paths|, k requires 0 <= k < |paths| =>
      Finished(options.format, paths[k], LinkFields(options, ino, |paths|, node, k), LinkData(options, |paths|, node, k)))
  }

  lemma LinksWritable(options: CpioOptions, ino: nat, paths: seq<seq<byte>>, node: Node)
    requires LinksEncode(options, ino, paths, node)
    ensures forall k :: 0 <= k < |paths| ==>
              var item := Finished(options.format, paths[k], LinkFields(options, ino, |paths|, node, k),
                                   LinkData(options, |paths|, node, k));
              Encodes(options.format, item.path, item.fields) && Writable(options.format, item)
  {
    hide Encodes, Writable, NodeFields;
    forall k | 0 <= k < |paths|
      ensures var item := Finished(options.format, paths[k], LinkFields(options, ino, |paths|, node, k),
                                   LinkData(options, |paths|, node, k));
              Encodes(options.format, item.path, item.fields) && Writable(options.format, item)
    {
      FinishedWritable(options.format, paths[k], LinkFields(options, ino, |paths|, node, k),
                       LinkData(options, |paths|, node, k));
    }
  }

  /** The reported extents of a group: its own for each odc name, the last name's for all newc names. */
  function LinkExtents(format: Format, paths: seq<seq<byte>>, items: seq<Item>, base: nat): (e: seq<Extent>)
    requires |paths| == |items|
    ensures |e| == |paths|
  {
    seq(|paths|, k requires 0 <= k < |paths| =>
      var from := if format == Odc then k else |paths| - 1;
      Extent(paths[k], DataStart(format, items, from, base), items[from].fields.len))
  }

  /** One extent under every name. */
  function Shared(paths: seq<seq<byte>>, start: nat, len: nat): (e: seq<Extent>)
    ensures |e| == |paths|
  {
    seq(|paths|, k requires 0 <= k < |paths| => Extent(paths[k], start, len))
  }

  class Writer {
    const options: CpioOptions
    const planner: Planner
    var out: seq<byte>
    var bytes: nat
    var openEntry: bool
    var bufLen: nat

    /** The entries put out, complete ones only. */
    ghost var log: seq<Item>
    /** The data each reported extent stands for. */
    ghost var stored: seq<seq<byte>>
    /** The entry `AppendFile` started, with its check field. */
    ghost var started: Item

    constructor (options: CpioOptions)
      ensures Valid() && this.options == options && out == [] && log == [] && stored == [] && !openEntry
      ensures fresh(planner)
    {
      this.options := options;
      planner := new Planner(options);
      out, bytes, openEntry, bufLen := [], 0, false, 0;
      log, stored := [], [];
    }

    /** The bytes of the complete entries. */
    ghost function Complete(): seq<byte>
      reads this
    {
      ItemsBytes(options.format, log)
    }

    ghost predicate Valid()
      reads this, planner
    {
      && planner.options == options
      && bytes == |out|
      && AllWritable(options.format, log)
      && if openEntry then Partial(|out|)
         else out == Complete() && planner.offset == |out|
              && Truthful(options.format, planner.extents, stored, out)
    }

    /** The state while `started` lacks its last bytes: `at` bytes are out. */
    ghost predicate Partial(at: nat)
      reads this, planner
    {
      && Encodes(options.format, started.path, started.fields)
      && started.fields.check == 0 && TypeOf(started.fields.mode).Some? && options.format != Crc
      && (var head := Complete() + HeadBytes(options.format, started.path, started.fields);
          && head <= out && |head| <= at == |out| <= |head| + started.fields.len
          && planner.offset == |head| + started.fields.len + DataPadding(options.format, started.fields.len)
          && planner.extents != []
          && planner.extents[|planner.extents| - 1] == Extent(started.path, |head|, started.fields.len)
          && Truthful(options.format, planner.extents[..|planner.extents| - 1], stored, out))
    }

    method Put(data: seq<byte>)
      modifies this`out, this`bytes
      ensures out == old(out) + data && bytes == old(bytes) + |data|
    {
      out := out + data;
      bytes := bytes + |data|;
    }

    /** Writes a header and name that encode. */
    method PutHead(path: seq<byte>, fields: Fields)
      requires EncodeHeader(options.format, fields, |path| + 1).Ok?
      modifies this`out, this`bytes
      ensures out == old(out) + HeadBytes(options.format, path, fields)
      ensures bytes == old(bytes) + |HeadBytes(options.format, path, fields)|
    {
      hide EncodeHeader;
      var namesize := |path| + 1;
      var raw := Encode(options.format, fields, namesize);
      Put(raw.value);
      Put(path);
      Put(Zeros(1 + NamePadding(options.format, namesize)));
      assert out == old(out) + (raw.value + path + Zeros(1 + NamePadding(options.format, namesize)));
    }

    /** The byte sum of a streamed content, read in chunks. */
    method SumContent(content: seq<byte>, buffer: nat) returns (sum: u32)
      requires content != [] ==> buffer > 0
      ensures sum == CpioHeader.Checksum(0, content)
    {
      sum := 0;
      var at := 0;
      while at < |content|
        invariant at <= |content| && sum == CpioHeader.Checksum(0, content[..at])
        decreases |content| - at
      {
        var take := if |content| - at < buffer then |content| - at else buffer;
        ChecksumAppend(0, content[..at], content[at..at + take]);
        assert content[..at + take] == content[..at] + content[at..at + take];
        sum := CpioHeader.Checksum(sum, content[at..at + take]);
        at := at + take;
      }
      assert content[..at] == content;
    }

    /** Copies a streamed content to the output in chunks. */
    method Copy(content: seq<byte>, buffer: nat)
      requires content != [] ==> buffer > 0
      modifies this`out, this`bytes
      ensures out == old(out) + content && bytes == old(bytes) + |content|
    {
      var at := 0;
      while at < |content|
        invariant at <= |content| && out == old(out) + content[..at] && bytes == old(bytes) + at
        decreases |content| - at
      {
        var take := if |content| - at < buffer then |content| - at else buffer;
        assert content[..at + take] == content[..at] + content[at..at + take];
        Put(content[at..at + take]);
        at := at + take;
      }
      assert content[..at] == content;
    }

    /** Writes one planned entry: checksum, head, data and padding. */
    method Emit(path: seq<byte>, fields: Fields, payload: Payload)
      requires Encodes(options.format, path, fields) && fields.check == 0
      requires |payload.Bytes()| == fields.len
      modifies this`out, this`bytes, this`bufLen
      ensures var item := Finished(options.format, path, fields, payload.Bytes());
              Encodes(options.format, item.path, item.fields)
              && out == old(out) + ItemBytes(options.format, item)
              && bytes == old(bytes) + |ItemBytes(options.format, item)|
    {
      hide Encodes, EncodeHeader, HeadBytes;
      ghost var item := Finished(options.format, path, fields, payload.Bytes());
      assert Encodes(options.format, item.path, item.fields);
      EncodesHeader(options.format, item.path, item.fields);
      var streamed := payload.FromContent? && payload.content.Streamed?;
      var bufferLen := if fields.len < CHUNK then fields.len else CHUNK;
      if streamed && bufLen < bufferLen {
        bufLen := bufferLen;
      }
      var final := fields;
      if options.format == Crc && TypeBits(fields.mode) == TypeCode(File) {
        var sum: u32;
        if streamed {
          sum := SumContent(payload.content.bytes, bufLen);
        } else {
          sum := CpioHeader.Checksum(0, payload.Bytes());
        }
        final := fields.(check := sum);
      }
      assert final == item.fields;
      PutHead(path, final);
      if streamed {
        Copy(payload.content.bytes, bufLen);
      } else {
        Put(payload.Bytes());
      }
      Put(Zeros(DataPadding(options.format, fields.len)));
      assert out == old(out) + ItemBytes(options.format, item);
    }

    lemma EncodesHeader(format: Format, path: seq<byte>, f: Fields)
      requires Encodes(format, path, f)
      ensures EncodeHeader(format, f, |path| + 1).Ok?
    {
    }

    lemma ExtendLog(format: Format, items: seq<Item>, item: Item)
      requires AllWritable(format, items) && Writable(format, item)
      ensures AllWritable(format, items + [item])
      ensures Encodes(format, item.path, item.fields)
      ensures ItemsBytes(format, items + [item]) == ItemsBytes(format, items) + ItemBytes(format, item)
    {
      hide Encodes, ItemsBytes, ItemBytes;
      assert Encodes(format, item.path, item.fields);
      ItemsBytesSnoc(format, items, item);
    }

    /** Emits an entry and logs it. */
    method EmitNext(path: seq<byte>, fields: Fields, payload: Payload)
      requires AllWritable(options.format, log)
      requires out == Complete() && bytes == |out|
      requires Encodes(options.format, path, fields) && fields.check == 0 && TypeOf(fields.mode).Some?
      requires |payload.Bytes()| == fields.len
      modifies this`out, this`bytes, this`bufLen, this`log
      ensures log == old(log) + [Finished(options.format, path, fields, payload.Bytes())]
      ensures AllWritable(options.format, log)
      ensures out == Complete() && bytes == |out| && old(out) <= out
    {
      hide Encodes, Writable, ItemBytes, ItemsBytes;
      FinishedWritable(options.format, path, fields, payload.Bytes());
      ExtendLog(options.format, log, Finished(options.format, path, fields, payload.Bytes()));
      Emit(path, fields, payload);
      log := log + [Finished(options.format, path, fields, payload.Bytes())];
    }

    /** Extends the archive by one entry when that encodes; otherwise leaves output and plan alone. */
    method Append(path: seq<byte>, node: Node) returns (r: Result<(), Error>)
      requires Valid()
      modifies this, planner
      ensures Valid() && openEntry == old(openEntry)
      ensures r.Ok? <==>
                && !openEntry && NodeFields(options, node).Ok?
                && Encodes(options.format, path, NodeFields(options, node).value.(ino := old(planner.nextIno)))
      ensures r.Err? ==>
                && out == old(out) && log == old(log) && stored == old(stored)
                && planner.offset == old(planner.offset) && planner.extents == old(planner.extents)
                && planner.nextIno == old(planner.nextIno)
      ensures r.Ok? ==>
                && log == old(log) + [NodeItem(options, old(planner.nextIno), path, node)]
                && planner.nextIno == old(planner.nextIno) + 1
                && if node.Type() == File
                   then && stored == old(stored) + [node.Payload()]
                        && |planner.extents| == |old(planner.extents)| + 1
                        && planner.extents[..|old(planner.extents)|] == old(planner.extents)
                        && planner.extents[|old(planner.extents)|].path == path
                   else stored == old(stored) && planner.extents == old(planner.extents)
    {
      hide Encodes, HeadBytes, Writable, AllWritable, ItemsBytes, NodeFields, Truthful, Holds;
      if openEntry {
        return Err(Error(NoDetail, InvalidInput));
      }
      var base :- NodeFields(options, node);
      var fields := base.(ino := planner.nextIno);
      ghost var before := out;
      ghost var extents := planner.extents;
      var start :- planner.PlaceEntry(path, fields, node.attrs);
      var _ := planner.TakeIno();
      if node.Type() == File {
        planner.PushExtent(path, start, fields.len);
      }
      EmitNext(path, fields, PayloadOf(node));
      EntryHolds(path, fields, node.Payload(), before);
      TruthfulAfter(extents, before);
      if node.Type() == File {
        TruthfulSnoc(options.format, extents, stored, out, Extent(path, start, fields.len), node.Payload());
        stored := stored + [node.Payload()];
      }
      r := Ok(());
    }

    lemma TruthfulAfter(extents: seq<Extent>, before: seq<byte>)
      requires Truthful(options.format, extents, stored, before) && before <= out
      ensures Truthful(options.format, extents, stored, out)
    {
      hide Truthful;
      assert out == before + out[|before|..];
      TruthfulGrows(options.format, extents, stored, before, out[|before|..]);
    }

    /** The last entry of the log lies where the planner put it. */
    lemma EntryHolds(path: seq<byte>, fields: Fields, data: seq<byte>, before: seq<byte>)
      requires log != [] && AllWritable(options.format, log) && out == Complete()
      requires Encodes(options.format, path, fields) && fields.len == |data|
      requires log[|log| - 1] == Finished(options.format, path, fields, data)
      requires before == ItemsBytes(options.format, log[..|log| - 1])
      ensures var start := |before| + |HeadBytes(options.format, path, fields)|;
              && Holds(out, start, data) && before <= out
              && |out| == start + fields.len + DataPadding(options.format, fields.len)
              && (options.format == Newc || options.format == Crc ==> start % 4 == 0)
    {
      hide Encodes, HeadBytes, ItemsBytes, Writable;
      var n := |log| - 1;
      FinishedSize(options.format, path, fields, data);
      assert log == log[..n] + [log[n]];
      ExtendLog(options.format, log[..n], log[n]);
      assert Holds(out, 0, Complete());
      DataHolds(out, 0, options.format, log, n);
      if options.format == Newc || options.format == Crc {
        DataAligned(0, options.format, log, n);
      }
    }

    /** Appends the file `node` under every name of `paths`. Changes nothing when it fails. */
    method AppendHardLinks(paths: seq<seq<byte>>, node: Node) returns (r: Result<(), Error>)
      requires Valid()
      modifies this, planner
      ensures Valid() && openEntry == old(openEntry)
      ensures r.Ok? <==>
                !openEntry && paths != [] && node.Type() == File && LinksEncode(options, old(planner.nextIno), paths, node)
      ensures r.Err? ==>
                && out == old(out) && log == old(log) && stored == old(stored)
                && planner.offset == old(planner.offset) && planner.extents == old(planner.extents)
                && planner.nextIno == old(planner.nextIno)
      ensures r.Ok? ==>
                && var items := LinkItems(options, old(planner.nextIno), paths, node);
                && log == old(log) + items
                && planner.nextIno == old(planner.nextIno) + 1
                && planner.extents == old(planner.extents) + LinkExtents(options.format, paths, items, old(|out|))
                && stored == old(stored) + seq(|paths|, _ => node.Payload())
    {
      hide Encodes, HeadBytes, Writable, ItemsBytes, NodeFields, LinkItems, LinkExtents, Truthful, Partial;
      if openEntry {
        return Err(Error(NoDetail, InvalidInput));
      }
      if paths == [] || node.Type() != File {
        return Err(Error(Entry, InvalidInput));
      }
      var ino := planner.nextIno;
      var _ :- CheckLinks(paths, node, ino);
      ghost var items := LinkItems(options, ino, paths, node);
      ghost var before, extents := out, planner.extents;
      PlaceLinks(paths, node, ino);
      EmitLinks(paths, node, ino);
      LinksTruth(paths, node, ino, items, before, extents);
      stored := stored + seq(|paths|, _ => node.Payload());
      r := Ok(());
    }

    /** Checks every name of a group before anything is planned. */
    method CheckLinks(paths: seq<seq<byte>>, node: Node, ino: nat) returns (r: Result<(), Error>)
      requires planner.options == options
      ensures r.Ok? <==> LinksEncode(options, ino, paths, node)
    {
      hide Encodes, NodeFields, LinkFields, TypeOf, FirstEncode;
      FirstEncodeSteps(options, ino, paths, node);
      var _ :- NodeFields(options, node);
      for k := 0 to |paths|
        invariant FirstEncode(options, ino, paths, node, k)
      {
        var _ :- planner.Check(paths[k], LinkFields(options, ino, |paths|, node, k));
      }
      r := Ok(());
    }

    /** Plans every name of a group that encodes, then its extents. */
    method PlaceLinks(paths: seq<seq<byte>>, node: Node, ino: nat)
      requires paths != [] && LinksEncode(options, ino, paths, node)
      requires planner.options == options && planner.nextIno == ino
      modifies planner
      ensures var items := LinkItems(options, ino, paths, node);
              && planner.offset == old(planner.offset) + |ItemsBytes(options.format, items)|
              && planner.extents == old(planner.extents) + LinkExtents(options.format, paths, items, old(planner.offset))
              && planner.nextIno == ino + 1
    {
      hide Encodes, EncodeHeader, HeadBytes, ItemBytes, Writable, AllWritable, ItemsBytes, NodeFields, TypeOf, ClampedTime,
           AskedTime;
      var n := |paths|;
      var repeat := options.format == Odc;
      ghost var items := LinkItems(options, ino, paths, node);
      ghost var expected := LinkExtents(options.format, paths, items, planner.offset);
      ghost var base, extents := planner.offset, planner.extents;
      ItemsBytesNone(options.format, items[..0]);
      var start := 0;
      for k := 0 to n
        invariant planner.options == options && planner.nextIno == ino
        invariant planner.offset == base + |ItemsBytes(options.format, items[..k])|
        invariant k > 0 ==> start == DataStart(options.format, items, k - 1, base)
        invariant planner.extents == extents + if repeat then expected[..k] else []
      {
        var fields := LinkFields(options, ino, n, node, k);
        FinishedSize(options.format, paths[k], fields, LinkData(options, n, node, k));
        assert items[..k + 1] == items[..k] + [items[k]];
        ItemsBytesSnoc(options.format, items[..k], items[k]);
        var placed := planner.PlaceEntry(paths[k], fields, node.attrs);
        start := placed.value;
        if repeat {
          planner.PushExtent(paths[k], start, fields.len);
        }
      }
      assert items[..n] == items;
      var _ := planner.TakeIno();
      if !repeat {
        var len := LinkFields(options, ino, n, node, n - 1).len;
        PushLinks(paths, start, len);
        assert expected == Shared(paths, start, len);
      }
      assert expected[..n] == expected;
    }

    /** Reports one extent for every name. */
    method PushLinks(paths: seq<seq<byte>>, start: nat, len: nat)
      modifies planner`extents
      ensures planner.extents == old(planner.extents) + Shared(paths, start, len)
    {
      for k := 0 to |paths|
        invariant planner.extents == old(planner.extents) + Shared(paths, start, len)[..k]
      {
        planner.PushExtent(paths[k], start, len);
      }
      assert Shared(paths, start, len)[..|paths|] == Shared(paths, start, len);
    }

    lemma ItemsBytesNone(format: Format, items: seq<Item>)
      requires items == []
      ensures ItemsBytes(format, items) == []
    {
    }

    /** Emits every name of a group that encodes. */
    method EmitLinks(paths: seq<seq<byte>>, node: Node, ino: nat)
      requires AllWritable(options.format, log)
      requires out == Complete() && bytes == |out|
      requires LinksEncode(options, ino, paths, node)
      modifies this`out, this`bytes, this`bufLen, this`log
      ensures log == old(log) + LinkItems(options, ino, paths, node)
      ensures AllWritable(options.format, log)
      ensures out == Complete() && bytes == |out| && old(out) <= out
    {
      hide Encodes, HeadBytes, Writable, ItemsBytes, NodeFields, AllWritable, Complete;
      var n := |paths|;
      ghost var items := LinkItems(options, ino, paths, node);
      for k := 0 to n
        invariant log == old(log) + items[..k]
        invariant AllWritable(options.format, log)
        invariant out == Complete() && bytes == |out| && old(out) <= out
      {
        var carries := options.format == Odc || k == n - 1;
        EmitNext(paths[k], LinkFields(options, ino, n, node, k), if carries then PayloadOf(node) else NoData);
        assert items[..k + 1] == items[..k] + [items[k]];
      }
      assert items[..n] == items;
    }

    lemma LinksTruth(paths: seq<seq<byte>>, node: Node, ino: nat, items: seq<Item>, before: seq<byte>, extents: seq<Extent>)
      requires paths != [] && LinksEncode(options, ino, paths, node) && items == LinkItems(options, ino, paths, node)
      requires AllWritable(options.format, log) && out == Complete() && before <= out
      requires |items| <= |log| && log[|log| - |items|..] == items
      requires before == ItemsBytes(options.format, log[..|log| - |items|])
      requires Truthful(options.format, extents, stored, before)
      ensures Truthful(options.format, extents + LinkExtents(options.format, paths, items, |before|),
                       stored + seq(|paths|, _ => node.Payload()), out)
      ensures |out| == |before| + |ItemsBytes(options.format, items)|
    {
      hide Encodes, HeadBytes, Writable, ItemsBytes, NodeFields, AllWritable, Truthful, Holds;
      ghost var earlier := log[..|log| - |items|];
      LogSplit(earlier, items);
      var all := LinkExtents(options.format, paths, items, |before|);
      forall i | 0 <= i < |paths|
        ensures all[i].len == |node.Payload()| && Holds(out, all[i].offset, node.Payload())
        ensures options.format == Newc || options.format == Crc ==> all[i].offset % 4 == 0
      {
        var from := if options.format == Odc then i else |paths| - 1;
        DataHolds(out, |before|, options.format, items, from);
        if options.format == Newc || options.format == Crc {
          ItemsAligned(options.format, earlier);
          DataAligned(|before|, options.format, items, from);
        }
      }
      TruthfulAfter(extents, before);
      TruthfulBoth(options.format, extents, stored, all, node.Payload(), out);
    }

    lemma LogSplit(earlier: seq<Item>, items: seq<Item>)
      requires AllWritable(options.format, log) && out == Complete()
      requires log == earlier + items
      ensures AllWritable(options.format, earlier)
      ensures AllWritable(options.format, items)
      ensures out == ItemsBytes(options.format, earlier) + ItemsBytes(options.format, items)
      ensures Holds(out, |ItemsBytes(options.format, earlier)|, ItemsBytes(options.format, items))
    {
      hide Encodes, Writable, ItemsBytes;
      forall i | 0 <= i < |earlier|
        ensures Writable(options.format, earlier[i])
      {
        assert log[i] == earlier[i];
      }
      forall i | 0 <= i < |items|
        ensures Writable(options.format, items[i])
      {
        assert log[|earlier| + i] == items[i];
      }
      ItemsBytesAppend(options.format, earlier, items);
    }

    /** Starts a file of `len` bytes whose data comes later. Changes nothing when it fails. */
    method AppendFile(path: seq<byte>, attrs: Attrs, len: nat) returns (r: Result<EntryWriter, Error>)
      requires Valid()
      modifies this, planner
      ensures Valid()
      ensures r.Ok? <==>
                && !old(openEntry) && options.format != Crc
                && Encodes(options.format, path,
                           BaseFields(options, File, attrs).(len := len, ino := old(planner.nextIno)))
      ensures r.Err? ==>
                && openEntry == old(openEntry) && out == old(out) && log == old(log) && stored == old(stored)
                && planner.offset == old(planner.offset) && planner.extents == old(planner.extents)
                && planner.nextIno == old(planner.nextIno)
      ensures r.Ok? ==>
                && fresh(r.value) && r.value.writer == this && r.value.Valid() && r.value.Written() == []
                && log == old(log) && stored == old(stored)
                && started == Item(path, BaseFields(options, File, attrs).(len := len, ino := old(planner.nextIno)), [])
    {
      hide Encodes, EncodeHeader, HeadBytes, Writable, ItemsBytes, BaseFields, Truthful, TypeOf;
      if openEntry {
        return Err(Error(NoDetail, InvalidInput));
      }
      if options.format == Crc {
        return Err(Error(Entry, Unsupported));
      }
      var fields := BaseFields(options, File, attrs).(len := len, ino := planner.nextIno);
      ghost var before := out;
      var start :- planner.PlaceEntry(path, fields, attrs);
      var _ := planner.TakeIno();
      planner.PushExtent(path, start, len);
      EncodesHeader(options.format, path, fields);
      PutHead(path, fields);
      openEntry := true;
      started := Item(path, fields, []);
      TruthfulAfter(old(planner.extents), before);
      assert planner.extents[..|planner.extents| - 1] == old(planner.extents);
      var entry := new EntryWriter(this, path, len);
      r := Ok(entry);
    }

    /** Pads the started entry, whose data is all out, and logs it. */
    method Close(len: nat, ghost data: seq<byte>)
      requires Valid() && openEntry && len == started.fields.len == |data|
      requires out == Complete() + HeadBytes(options.format, started.path, started.fields) + data
      modifies this
      ensures Valid() && !openEntry
      ensures log == old(log) + [old(started).(data := data)] && stored == old(stored) + [data]
    {
      hide HeadBytes, Encodes, Writable, AllWritable, ItemsBytes, EncodeHeader, Truthful, TypeOf, DataPadding;
      ghost var head := Complete() + HeadBytes(options.format, started.path, started.fields);
      ghost var item := Item(started.path, started.fields, data);
      ghost var before, extents := out, planner.extents;
      ghost var earlier, last := extents[..|extents| - 1], extents[|extents| - 1];
      StartedWritable(options.format, item);
      ExtendLog(options.format, log, item);
      Put(Zeros(DataPadding(options.format, len)));
      openEntry := false;
      assert out == Complete() + ItemBytes(options.format, item);
      TruthfulAfter(earlier, before);
      ClosedExtent(item, |Complete()|);
      TruthfulSnoc(options.format, earlier, stored, out, last, data);
      assert extents == earlier + [last];
      log := log + [item];
      stored := stored + [data];
    }

    lemma ClosedExtent(item: Item, base: nat)
      requires AllWritable(options.format, log) && Encodes(options.format, item.path, item.fields)
      requires |item.data| == item.fields.len && base == |Complete()|
      requires out == Complete() + ItemBytes(options.format, item)
      ensures var start := base + |HeadBytes(options.format, item.path, item.fields)|;
              Holds(out, start, item.data)
              && (options.format == Newc || options.format == Crc ==> start % 4 == 0)
    {
      hide HeadBytes, Encodes, ItemsBytes, Writable;
      ItemDataHolds(out, base, options.format, item);
      if options.format == Newc || options.format == Crc {
        ItemsAligned(options.format, log);
        ItemAligned(options.format, item);
      }
    }

    /** Writes the trailer; the whole archive with its report. */
    method Finish() returns (r: Result<(seq<byte>, Report), Error>)
      requires Valid()
      modifies this, planner
      ensures r.Ok? <==> !old(openEntry) && options.format != Binary
      ensures r.Ok? ==>
                var (archive, report) := r.value;
                && AllWritable(options.format, log) && log == old(log)
                && archive == ArchiveBytes(options.format, log)
                && report.size == |archive| && report.extents == old(planner.extents)
                && Truthful(options.format, report.extents, old(stored), archive)
    {
      hide Encodes, HeadBytes, Writable, ItemsBytes;
      if openEntry {
        return Err(Error(NoDetail, InvalidInput));
      }
      var _ :- planner.PlaceTrailer();
      ghost var before := out;
      TrailerEncodes(options.format);
      PutHead(TRAILER_NAME, TRAILER_FIELDS);
      TruthfulAfter(planner.extents, before);
      var report := planner.Finish();
      r := Ok((out, report));
    }
  }

  /** The data of an entry started with `AppendFile`. */
  class EntryWriter {
    const writer: Writer
    const path: seq<byte>
    const len: nat
    var remaining: nat

    constructor (writer: Writer, path: seq<byte>, len: nat)
      ensures this.writer == writer && this.path == path && this.len == len && remaining == len
    {
      this.writer, this.path, this.len, remaining := writer, path, len, len;
    }

    /** The bytes of the entry's data written so far. */
    ghost function Written(): seq<byte>
      reads this, writer
      requires remaining <= len <= |writer.out| + remaining
    {
      writer.out[|writer.out| - (len - remaining)..]
    }

    ghost predicate Valid()
      reads this, writer, writer.planner
    {
      && writer.Valid() && writer.openEntry
      && writer.started.fields.len == len && remaining <= len
      && |writer.out| + remaining
         == |writer.Complete()| + |HeadBytes(writer.options.format, writer.started.path, writer.started.fields)| + len
    }

    /** Writes as much of `buf` as the output takes; more than the entry lacks is refused whole. */
    method Write(buf: seq<byte>) returns (r: Result<nat, Error>)
      requires Valid()
      modifies this, writer
      ensures Valid() && writer.log == old(writer.log) && writer.started == old(writer.started)
      ensures writer.stored == old(writer.stored)
      ensures |buf| > old(remaining) ==> r == Err(Error(Entry, InvalidInput)) && writer.out == old(writer.out)
      ensures |buf| <= old(remaining) ==>
                && r.Ok? && r.value <= |buf| && remaining == old(remaining) - r.value
                && Written() == old(Written()) + buf[..r.value]
    {
      hide HeadBytes, Encodes, Writable, ItemsBytes;
      if |buf| > remaining {
        return Err(Error(Entry, InvalidInput));
      }
      var written: nat :| written <= |buf|;
      ghost var before := writer.out;
      writer.Put(buf[..written]);
      remaining := remaining - written;
      writer.TruthfulAfter(writer.planner.extents[..|writer.planner.extents| - 1], before);
      r := Ok(written);
    }

    /** Turns the open entry into a whole one once all its bytes are there; before that it changes nothing. */
    method Finish() returns (r: Result<(), Error>)
      requires Valid()
      modifies this, writer
      ensures writer.Valid()
      ensures r.Ok? <==> old(remaining) == 0
      ensures r.Err? ==> Valid() && writer.out == old(writer.out) && writer.log == old(writer.log)
      ensures r.Ok? ==>
                && !writer.openEntry
                && writer.log == old(writer.log) + [old(writer.started).(data := old(Written()))]
                && writer.stored == old(writer.stored) + [old(Written())]
    {
      if remaining != 0 {
        return Err(Error(Entry, InvalidInput));
      }
      writer.Close(len, Written());
      r := Ok(());
    }
  }

  lemma StartedWritable(format: Format, item: Item)
    requires Encodes(format, item.path, item.fields) && item.fields.check == 0 && format != Crc
    requires TypeOf(item.fields.mode).Some? && |item.data| == item.fields.len
    ensures Writable(format, item)
  {
    hide Encodes;
    assert TypeOf(0).None?;
    assert item.fields.(check := 0) == item.fields;
  }
}

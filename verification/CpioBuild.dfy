/** Planning entries: header fields, limits, names, inodes, offsets and extents. */
module CpioBuild {
  import opened Wrappers
  import opened Bytes
  import opened CpioRaw
  import opened CpioHeader
  import opened E = CpioError
  import opened Instants
  import opened Nodes

  /** What an entry's header will say; only the widths its types give are checked yet. */
  datatype Fields = Fields(
    ino: nat, mode: u32, uid: u32, gid: u32, nlink: nat, mtime: nat, len: nat, rdev: Device32, check: u32)

  const TRAILER_FIELDS: Fields := Fields(0, 0, 0, 0, 1, 0, 0, Device(0, 0), 0)

  function NewcOf(f: Fields, namesize: nat): NewcFields {
    NewcFields(f.ino, f.mode, f.uid, f.gid, f.nlink, f.mtime, f.len, 0, 0,
               f.rdev.major, f.rdev.minor, namesize, f.check)
  }

  function OdcOf(f: Fields, rdev: nat, namesize: nat): OdcFields {
    OdcFields(0, f.ino, f.mode, f.uid, f.gid, f.nlink, rdev, f.mtime, namesize, f.len)
  }

  const LIMIT := Error(Field, LimitExceeded)

  /** The encoded header, or the limit that stops it. */
  function EncodeHeader(format: Format, f: Fields, namesize: nat): (r: Result<seq<byte>, Error>)
    ensures r.Ok? ==> |r.value| == HeaderLen(format) && format != Binary
  {
    if f.len > format.MaxFileSize() then Err(Error(Field, FileTooLarge))
    else
      match format
      case Newc | Crc =>
        if f.ino < U32 && f.nlink < U32 && f.mtime < U32 && namesize < U32
        then Ok(NewcBytes(format == Crc, NewcOf(f, namesize))) else Err(LIMIT)
      case Odc =>
        var rdev := JoinDev(f.rdev);
        if f.ino < U32 && f.nlink < U32 && rdev.Some? && namesize < U32
           && Fit(OdcOf(f, rdev.value, namesize).Values(), ODC_WIDTHS, 8)
        then Ok(OdcBytes(OdcOf(f, rdev.value, namesize))) else Err(LIMIT)
      case Binary => Err(Error(E.Format, Unsupported))
  }

  /** Encodes a header, or gives the first limit that stops it. */
  method Encode(format: Format, f: Fields, namesize: nat) returns (r: Result<seq<byte>, Error>)
    ensures r == EncodeHeader(format, f, namesize)
  {
    if f.len > format.MaxFileSize() {
      return Err(Error(Field, FileTooLarge));
    }
    match format {
      case Newc | Crc =>
        if f.ino >= U32 || f.nlink >= U32 || f.mtime >= U32 || namesize >= U32 {
          return Err(LIMIT);
        }
        var raw := BuildNewc(format == Crc, NewcOf(f, namesize));
        r := Ok(raw[..]);
      case Odc =>
        var rdev := JoinDev(f.rdev);
        if f.ino >= U32 || f.nlink >= U32 || rdev == None || namesize >= U32 {
          return Err(LIMIT);
        }
        var raw := BuildOdc(OdcOf(f, rdev.value, namesize));
        r := if raw == None then Err(LIMIT) else Ok(raw.value);
      case Binary =>
        r := Err(Error(E.Format, Unsupported));
    }
  }

  /** One more than the length of a name that can be stored, for its NUL. */
  function NameSize(path: seq<byte>): (r: Result<nat, Error>)
    ensures r.Ok? ==> r.value == |path| + 1 && 2 <= r.value <= PATH_MAX && 0 !in path && path != TRAILER_NAME
  {
    if path == [] || 0 in path || path == TRAILER_NAME then Err(Error(Name, InvalidInput))
    else if |path| + 1 > PATH_MAX then Err(Error(Name, NameTooLong))
    else Ok(|path| + 1)
  }

  // ------------------------------------------------------------------
  // Nodes
  // ------------------------------------------------------------------

  datatype CpioOptions = CpioOptions(format: Format, time: Option<DateTime>)

  /** The last second a time field of this format holds. */
  function MaxTime(format: Format): nat {
    if format == Odc then ODC_MAX_11 else U32 - 1
  }

  /** The modification time an entry asks for, clamped to what the format stores. */
  function ClampedTime(options: CpioOptions, attrs: Attrs): (t: nat)
    ensures t <= MaxTime(options.format)
  {
    var time := if attrs.modified.Some? then attrs.modified else options.time;
    if time.None? || time.value.seconds < 0 then 0
    else if time.value.seconds > MaxTime(options.format) then MaxTime(options.format)
    else time.value.seconds
  }

  function DefaultMode(t: FileType): Perm {
    match t
    case Dir | Socket => 493
    case Symlink => 511
    case _ => 420
  }

  function Mode(t: FileType, attrs: Attrs): (m: u32)
    ensures TypeOf(m) == Some(t) && TypeBits(m) == TypeCode(t) && m != 0
  {
    var perm: nat := if attrs.permissions.Some? then attrs.permissions.value else DefaultMode(t);
    var code := TypeCode(t);
    assert (code * 4096 + perm) / 4096 == code;
    code * 4096 + perm
  }

  /** Mode, owner and time of `attrs`, with the defaults for `t` where it sets none. */
  function BaseFields(options: CpioOptions, t: FileType, attrs: Attrs): (f: Fields)
    ensures f.check == 0 && TypeOf(f.mode) == Some(t)
  {
    Fields(0, Mode(t, attrs),
           if attrs.owner.Some? then attrs.owner.value.0 else 0,
           if attrs.owner.Some? then attrs.owner.value.1 else 0,
           1, ClampedTime(options, attrs), 0, Device(0, 0), 0)
  }

  /** The fields of `node`, or why it cannot be stored. */
  function NodeFields(options: CpioOptions, node: Node): (r: Result<Fields, Error>)
    ensures r.Ok? ==> r.value.len == |node.Payload()| && r.value.check == 0 && TypeOf(r.value.mode) == Some(node.Type())
  {
    var base := BaseFields(options, node.Type(), node.attrs);
    match node.kind
    case FileNode(content) => Ok(base.(len := |content.bytes|))
    case SymlinkNode(target) =>
      if target == [] then Err(Error(Entry, InvalidInput)) else Ok(base.(len := |target|))
    case DirNode => Ok(base.(nlink := 2))
    case SpecialNode(t, device) =>
      Ok(base.(nlink := if t == Dir then 2 else 1, rdev := if device.Some? then device.value else Device(0, 0)))
  }

  /** The time an entry asks for. */
  function AskedTime(options: CpioOptions, attrs: Attrs): int {
    match attrs.modified
    case Some(t) => t.seconds
    case None => if options.time.Some? then options.time.value.seconds else 0
  }

  /** The stored time is the nearest to the one asked for that 32 bits, or eleven octal digits, hold. */
  lemma NearestTime(options: CpioOptions, attrs: Attrs, other: nat)
    requires other <= if options.format == Odc then 8_589_934_591 else 0xFFFF_FFFF
    ensures ClampedTime(options, attrs) <= if options.format == Odc then 8_589_934_591 else 0xFFFF_FFFF
    ensures var asked, t := AskedTime(options, attrs), ClampedTime(options, attrs);
            t == other || (if t > asked then t - asked else asked - t) < if other > asked then other - asked else asked - other
  {
  }

  /** The mode of a file type without permissions of its own: 100644, 040755, 120777 and so on in octal. */
  function PlainMode(t: FileType): nat {
    match t
    case File => 33188
    case Dir => 16877
    case Symlink => 41471
    case CharDevice => 8612
    case BlockDevice => 24996
    case Fifo => 4516
    case Socket => 49645
  }

  /** The type bits alone: 100000, 040000, 120000 and so on in octal. */
  function TypeMode(t: FileType): nat {
    match t
    case File => 32768
    case Dir => 16384
    case Symlink => 40960
    case CharDevice => 8192
    case BlockDevice => 24576
    case Fifo => 4096
    case Socket => 49152
  }

  /**
   * What a node's entry says, but for its inode number: only a symbolic link to nothing has none; files
   * and links have data, directories two links, devices their number, and what is not set is plain.
   */
  lemma NodeFieldsExactly(options: CpioOptions, node: Node)
    ensures NodeFields(options, node).Err? <==> node.kind == SymlinkNode([])
    ensures NodeFields(options, node).Ok? ==>
              var f, attrs := NodeFields(options, node).value, node.attrs;
              && f.mode == (match attrs.permissions
                            case Some(p) => TypeMode(node.Type()) + p
                            case None => PlainMode(node.Type()))
              && (attrs.owner.Some? ==> (f.uid, f.gid) == attrs.owner.value) && (attrs.owner == None ==> f.uid == f.gid == 0)
              && f.nlink == (if node.Type() == Dir then 2 else 1) && f.mtime == ClampedTime(options, attrs)
              && f.len == |node.Payload()| && f.check == 0 && f.ino == 0
              && f.rdev == if node.kind.SpecialNode? && node.kind.device.Some? then node.kind.device.value else Device(0, 0)
  {
  }

  // ------------------------------------------------------------------
  // What is written
  // ------------------------------------------------------------------

  /** One entry as it goes out: name, final fields and data. */
  datatype Item = Item(path: seq<byte>, fields: Fields, data: seq<byte>)

  /** The check field of an entry: the byte sum of a regular file in crc archives. */
  function FinalCheck(format: Format, fields: Fields, data: seq<byte>): u32 {
    if format == Crc && TypeBits(fields.mode) == TypeCode(File) then CpioHeader.Checksum(0, data) else fields.check
  }

  predicate Encodes(format: Format, path: seq<byte>, fields: Fields) {
    NameSize(path).Ok? && EncodeHeader(format, fields, |path| + 1).Ok?
  }

  /** A name that can be stored: not empty nor the trailer's, at most 4095 bytes, none of them NUL. */
  predicate StorableName(path: seq<byte>) {
    1 <= |path| <= 4095 && (forall i :: 0 <= i < |path| ==> path[i] != 0)
    && path != [84, 82, 65, 73, 76, 69, 82, 33, 33, 33]
  }

  /**
   * An entry encodes exactly when its name can be stored and its fields fit: 32 bits in newc and crc,
   * and in odc six octal digits, eleven for time and length, with a device of 8 bits for the minor number.
   */
  lemma EncodesExactly(format: Format, path: seq<byte>, f: Fields)
    ensures Encodes(format, path, f) <==>
            && StorableName(path)
            && match format
               case Newc | Crc =>
                 f.ino < 0x1_0000_0000 && f.nlink < 0x1_0000_0000 && f.mtime < 0x1_0000_0000 && f.len < 0x1_0000_0000
               case Odc =>
                 && f.ino < 262_144 && f.mode < 262_144 && f.uid < 262_144 && f.gid < 262_144 && f.nlink < 262_144
                 && f.rdev.minor < 256 && f.rdev.major * 256 + f.rdev.minor < 262_144
                 && f.mtime < 8_589_934_592 && f.len < 8_589_934_592
               case Binary => false
  {
    hide NewcBytes, OdcBytes;
    assert NameSize(path).Ok? <==> StorableName(path) by { NameExactly(path); }
    if format == Odc {
      Pow8();
      OdcFits(f, |path| + 1);
    }
  }

  lemma NameExactly(path: seq<byte>)
    ensures NameSize(path).Ok? <==> StorableName(path)
  {
  }

  lemma OdcFits(f: Fields, namesize: nat)
    ensures var rdev := f.rdev.major * 256 + f.rdev.minor;
            Fit(OdcOf(f, rdev, namesize).Values(), ODC_WIDTHS, 8) <==>
            && f.ino < 262_144 && f.mode < 262_144 && f.uid < 262_144 && f.gid < 262_144 && f.nlink < 262_144
            && rdev < 262_144 && f.mtime < 8_589_934_592 && namesize < 262_144 && f.len < 8_589_934_592
  {
    hide Pow;
    Pow8();
    var values := OdcOf(f, f.rdev.major * 256 + f.rdev.minor, namesize).Values();
    assert forall i :: 0 <= i < 10 ==> Pow(8, ODC_WIDTHS[i]) == if i == 7 || i == 9 then 8_589_934_592 else 262_144;
    if Fit(values, ODC_WIDTHS, 8) {
      assert values[0] < Pow(8, ODC_WIDTHS[0]) && values[1] < Pow(8, ODC_WIDTHS[1]) && values[2] < Pow(8, ODC_WIDTHS[2]);
      assert values[3] < Pow(8, ODC_WIDTHS[3]) && values[4] < Pow(8, ODC_WIDTHS[4]) && values[5] < Pow(8, ODC_WIDTHS[5]);
      assert values[6] < Pow(8, ODC_WIDTHS[6]) && values[7] < Pow(8, ODC_WIDTHS[7]) && values[8] < Pow(8, ODC_WIDTHS[8]);
      assert values[9] < Pow(8, ODC_WIDTHS[9]);
    }
  }

  /** The check field is the byte sum just for regular files in crc archives. */
  lemma CheckExactly(format: Format, fields: Fields, data: seq<byte>)
    ensures FinalCheck(format, fields, data) ==
            if format == Crc && 0x8000 <= fields.mode % 0x1_0000 < 0x9000 then ByteSum(data) % 0x1_0000_0000 else fields.check
  {
    ChecksumTotal(data);
  }

  /** Header, name and name padding; nothing when the fields do not encode. */
  function HeadBytes(format: Format, path: seq<byte>, fields: Fields): seq<byte> {
    match EncodeHeader(format, fields, |path| + 1)
    case Err(_) => []
    case Ok(header) => header + path + Zeros(1 + NamePadding(format, |path| + 1))
  }

  function ItemBytes(format: Format, item: Item): seq<byte> {
    HeadBytes(format, item.path, item.fields) + item.data + Zeros(DataPadding(format, item.fields.len))
  }

  function ItemsBytes(format: Format, items: seq<Item>): seq<byte> {
    if items == [] then [] else ItemBytes(format, items[0]) + ItemsBytes(format, items[1..])
  }

  lemma {:induction false} ItemsBytesAppend(format: Format, a: seq<Item>, b: seq<Item>)
    ensures ItemsBytes(format, a + b) == ItemsBytes(format, a) + ItemsBytes(format, b)
    decreases |a|
  {
    hide ItemBytes;
    if a == [] {
      assert a + b == b;
    } else {
      assert (a + b)[1..] == a[1..] + b;
      ItemsBytesAppend(format, a[1..], b);
    }
  }

  lemma ItemsBytesSnoc(format: Format, items: seq<Item>, item: Item)
    ensures ItemsBytes(format, items + [item]) == ItemsBytes(format, items) + ItemBytes(format, item)
  {
    hide ItemBytes;
    ItemsBytesAppend(format, items, [item]);
    assert [item][1..] == [];
  }

  /** The trailer entry. */
  function TrailerBytes(format: Format): seq<byte> {
    HeadBytes(format, TRAILER_NAME, TRAILER_FIELDS)
  }

  lemma TrailerEncodes(format: Format)
    ensures EncodeHeader(format, TRAILER_FIELDS, 11).Ok? <==> format != Binary
  {
    hide OdcBytes, NewcBytes;
    Pow8();
    var values := OdcOf(TRAILER_FIELDS, 0, 11).Values();
    assert forall i :: 0 <= i < 10 ==> values[i] <= 11;
    forall i | 0 <= i < 10
      ensures values[i] < Pow(8, ODC_WIDTHS[i])
    {
      assert ODC_WIDTHS[i] == 6 || ODC_WIDTHS[i] == 11;
    }
  }

  function ArchiveBytes(format: Format, items: seq<Item>): seq<byte> {
    ItemsBytes(format, items) + TrailerBytes(format)
  }

  // ------------------------------------------------------------------
  // The planner
  // ------------------------------------------------------------------

  /** Where a file's data lies in the archive. */
  datatype Extent = Extent(path: seq<byte>, offset: nat, len: nat)

  /** What a header has no room for, in the order it is warned of. */
  datatype Loss = CreatedTime | AccessedTime | Fraction | Flags

  const LOSSES: seq<Loss> := [CreatedTime, AccessedTime, Fraction, Flags]

  /** Whether an entry with these attributes loses this part of them. */
  predicate Loses(attrs: Attrs, loss: Loss) {
    match loss
    case CreatedTime => attrs.created.Some?
    case AccessedTime => attrs.accessed.Some?
    case Fraction => attrs.modified.Some? && attrs.modified.value.nanos != 0
    case Flags => attrs.flags.Some? && attrs.flags.value != 0
  }

  /** Whether the time an entry asks for is outside what the format stores. */
  predicate OutOfRange(options: CpioOptions, attrs: Attrs) {
    var time := if attrs.modified.Some? then attrs.modified else options.time;
    time.Some? && !(0 <= time.value.seconds <= MaxTime(options.format))
  }

  lemma LosesExactly(options: CpioOptions, attrs: Attrs)
    ensures Loses(attrs, LOSSES[0]) <==> attrs.created.Some?
    ensures Loses(attrs, LOSSES[1]) <==> attrs.accessed.Some?
    ensures Loses(attrs, LOSSES[2]) <==> attrs.modified.Some? && attrs.modified.value.nanos > 0
    ensures Loses(attrs, LOSSES[3]) <==> attrs.flags.Some? && attrs.flags.value > 0
    ensures OutOfRange(options, attrs) <==> ClampedTime(options, attrs) != AskedTime(options, attrs)
  {
  }

  /** How many entries lost each part. */
  type Lost = s: seq<nat> | |s| == 4 witness [0, 0, 0, 0]

  datatype Warning = Dropped(loss: Loss, count: nat) | Clamped(count: nat)

  datatype Report = Report(size: nat, extents: seq<Extent>, warnings: seq<Warning>)

  /** How many bytes come before an entry's data; an error exactly when the entry does not encode. */
  function HeadLen(format: Format, path: seq<byte>, fields: Fields): (r: Result<nat, Error>)
    ensures r.Ok? <==> Encodes(format, path, fields)
    ensures r.Ok? ==> r.value == |HeadBytes(format, path, fields)|
  {
    match NameSize(path)
    case Err(error) => Err(error)
    case Ok(namesize) =>
      match EncodeHeader(format, fields, namesize)
      case Err(error) => Err(error)
      case Ok(header) => Ok(|header| + namesize + NamePadding(format, namesize))
  }

  /** The running plan: the next inode number and offset, and what the report counts and lists. */
  class Planner {
    const options: CpioOptions
    var nextIno: nat
    var offset: nat
    var entries: nat
    var lost: Lost
    var clamped: nat
    var extents: seq<Extent>

    constructor (options: CpioOptions)
      ensures this.options == options && nextIno == 1 && offset == 0 && entries == 0 && extents == []
      ensures lost == [0, 0, 0, 0] && clamped == 0
    {
      this.options := options;
      nextIno, offset, entries, lost, clamped, extents := 1, 0, 0, [0, 0, 0, 0], 0, [];
    }

    method TakeIno() returns (ino: nat)
      modifies this`nextIno
      ensures ino == old(nextIno) && nextIno == ino + 1
    {
      ino := nextIno;
      nextIno := nextIno + 1;
    }

    method Check(path: seq<byte>, fields: Fields) returns (r: Result<nat, Error>)
      ensures r == HeadLen(options.format, path, fields)
    {
      var namesize :- NameSize(path);
      var header :- Encode(options.format, fields, namesize);
      r := Ok(|header| + namesize + NamePadding(options.format, namesize));
    }

    /**
     * Adds an entry that encodes to the plan, counts what it loses, and gives the offset of its data;
     * any other changes nothing.
     */
    method PlaceEntry(path: seq<byte>, fields: Fields, attrs: Attrs) returns (r: Result<nat, Error>)
      modifies this`offset, this`entries, this`clamped, this`lost
      ensures r.Ok? <==> Encodes(options.format, path, fields)
      ensures r.Ok? ==>
                && r.value == old(offset) + |HeadBytes(options.format, path, fields)|
                && offset == r.value + fields.len + DataPadding(options.format, fields.len)
                && entries == old(entries) + 1
                && clamped == old(clamped) + (if ClampedTime(options, attrs) != AskedTime(options, attrs) then 1 else 0)
                && lost[0] == old(lost)[0] + (if attrs.created.Some? then 1 else 0)
                && lost[1] == old(lost)[1] + (if attrs.accessed.Some? then 1 else 0)
                && lost[2] == old(lost)[2] + (if attrs.modified.Some? && attrs.modified.value.nanos > 0 then 1 else 0)
                && lost[3] == old(lost)[3] + (if attrs.flags.Some? && attrs.flags.value > 0 then 1 else 0)
      ensures r.Err? ==> HeadLen(options.format, path, fields) == r && offset == old(offset)
                         && entries == old(entries) && clamped == old(clamped) && lost == old(lost)
    {
      hide Loses, OutOfRange, Encodes, HeadBytes, ClampedTime, AskedTime;
      LosesExactly(options, attrs);
      var head :- Check(path, fields);
      var data := offset + head;
      offset := data + fields.len + DataPadding(options.format, fields.len);
      entries := entries + 1;
      clamped := clamped + if OutOfRange(options, attrs) then 1 else 0;
      for index := 0 to 4
        modifies this`lost
        invariant forall k :: 0 <= k < 4 ==>
                    lost[k] == old(lost)[k] + if k < index && Loses(attrs, LOSSES[k]) then 1 else 0
      {
        lost := lost[index := lost[index] + if Loses(attrs, LOSSES[index]) then 1 else 0];
      }
      r := Ok(data);
    }

    /** Advances past the trailer. */
    method PlaceTrailer() returns (r: Result<(), Error>)
      modifies this`offset
      ensures if options.format == Binary then r == Err(Error(E.Format, Unsupported)) && offset == old(offset)
              else r == Ok(()) && offset == old(offset) + |TrailerBytes(options.format)|
    {
      TrailerEncodes(options.format);
      var namesize := |TRAILER_NAME| + 1;
      var header :- Encode(options.format, TRAILER_FIELDS, namesize);
      offset := offset + |header| + namesize + NamePadding(options.format, namesize);
      r := Ok(());
    }

    method PushExtent(path: seq<byte>, at: nat, len: nat)
      modifies this`extents
      ensures extents == old(extents) + [Extent(path, at, len)]
    {
      extents := extents + [Extent(path, at, len)];
    }

    /** The report: it warns of just what was lost, and how often. */
    method Finish() returns (report: Report)
      ensures report.size == offset && report.extents == extents
      ensures forall n :: Dropped(CreatedTime, n) in report.warnings <==> n == lost[0] > 0
      ensures forall n :: Dropped(AccessedTime, n) in report.warnings <==> n == lost[1] > 0
      ensures forall n :: Dropped(Fraction, n) in report.warnings <==> n == lost[2] > 0
      ensures forall n :: Dropped(Flags, n) in report.warnings <==> n == lost[3] > 0
      ensures forall n :: Clamped(n) in report.warnings <==> n == clamped > 0
    {
      var warnings: seq<Warning> := [];
      for index := 0 to 4
        invariant forall k, n :: 0 <= k < 4 ==> (Dropped(LOSSES[k], n) in warnings <==> k < index && n == lost[k] > 0)
        invariant forall n :: Clamped(n) !in warnings
      {
        if lost[index] > 0 {
          warnings := warnings + [Dropped(LOSSES[index], lost[index])];
        }
      }
      if clamped > 0 {
        warnings := warnings + [Clamped(clamped)];
      }
      report := Report(offset, extents, warnings);
      assert LOSSES[0] == CreatedTime && LOSSES[1] == AccessedTime && LOSSES[2] == Fraction && LOSSES[3] == Flags;
    }
  }
}

/** One header record for every cpio format, with the padding and sums of each. */
module CpioHeader {
  import opened Wrappers
  import opened Bytes
  import opened CpioRaw

  datatype Format = Newc | Crc | Odc | Binary {
    /** The bound of the size field. */
    function MaxFileSize(): nat {
      if this == Odc then ODC_MAX_11 else U32 - 1
    }
  }

  datatype Device = Device(major: nat, minor: nat)

  type Device32 = d: Device | d.major < U32 && d.minor < U32 witness Device(0, 0)

  datatype FileType = File | Dir | Symlink | CharDevice | BlockDevice | Fifo | Socket

  datatype Header = Header(
    format: Format, ino: nat, mode: nat, uid: u32, gid: u32, nlink: nat, mtime: nat, len: nat,
    dev: Device, rdev: Device32, namesize: nat, check: nat)

  /** The type bits of a mode, as a multiple of octal 10000. */
  function TypeBits(mode: nat): nat {
    mode / 4096 % 16
  }

  function TypeCode(t: FileType): (c: nat)
    ensures c < 16
  {
    match t
    case Fifo => 1
    case CharDevice => 2
    case Dir => 4
    case BlockDevice => 6
    case File => 8
    case Symlink => 10
    case Socket => 12
  }

  /** The inverse of `TypeCode` on type bits. */
  function TypeOf(mode: nat): Option<FileType> {
    match TypeBits(mode)
    case 1 => Some(Fifo)
    case 2 => Some(CharDevice)
    case 4 => Some(Dir)
    case 6 => Some(BlockDevice)
    case 8 => Some(File)
    case 10 => Some(Symlink)
    case 12 => Some(Socket)
    case _ => None
  }

  function SplitDev(dev: nat): Device {
    Device(dev / 256, dev % 256)
  }

  /** `major * 256 + minor`, or `None` when the minor number or the result does not fit. */
  function JoinDev(dev: Device): Option<nat> {
    if dev.minor <= 255 && dev.major * 256 < U32 then Some(dev.major * 256 + dev.minor) else None
  }

  function HeaderLen(format: Format): (n: nat)
    ensures 26 <= n <= NEWC_HEADER_LEN
  {
    match format
    case Odc => ODC_HEADER_LEN
    case Binary => BINARY_HEADER_LEN
    case _ => NEWC_HEADER_LEN
  }

  /** Which format six bytes announce, if any. */
  function Detect(start: seq<byte>): Option<Format>
    requires |start| == 6
  {
    if IsBinaryMagic(start) then Some(Binary)
    else if start == NEWC_MAGIC then Some(Newc)
    else if start == NEWC_CRC_MAGIC then Some(Crc)
    else if start == ODC_MAGIC then Some(Odc)
    else None
  }

  function Decode(format: Format, s: seq<byte>): (h: Option<Header>)
    requires |s| == HeaderLen(format)
    ensures h.Some? ==> h.value.format == format
  {
    match format
    case Odc => (
      match ParseOdc(s)
      case None => None
      case Some(f) =>
        Some(Header(format, f.ino, f.mode, f.uid, f.gid, f.nlink, f.mtime, f.filesize,
                    SplitDev(f.dev), SplitDev(f.rdev), f.namesize, 0)))
    case Binary => (
      match ParseBinary(s)
      case None => None
      case Some(f) =>
        Some(Header(format, f.ino, f.mode, f.uid, f.gid, f.nlink, f.mtime, f.filesize,
                    SplitDev(f.dev), SplitDev(f.rdev), f.namesize, 0)))
    case _ => (
      match ParseNewc(s)
      case None => None
      case Some(f) =>
        Some(Header(format, f.ino, f.mode, f.uid, f.gid, f.nlink, f.mtime, f.filesize,
                    Device(f.devmajor, f.devminor), Device(f.rdevmajor, f.rdevminor), f.namesize, f.check)))
  }

  /** What the words of an old binary header mean, in either byte order: it has no check field, and devices of 16 bits. */
  lemma BinaryDecodes(f: BinaryFields, little: bool)
    requires f.Typed()
    ensures var r := Decode(Binary, WordsBytes(BinaryWords(f), little));
            && r.Some? && var h := r.value;
               && h.format == Binary && h.ino == f.ino && h.mode == f.mode && (h.uid, h.gid) == (f.uid, f.gid)
               && h.nlink == f.nlink && h.mtime == f.mtime && h.len == f.filesize && h.namesize == f.namesize && h.check == 0
               && h.dev.major * 256 + h.dev.minor == f.dev && h.dev.minor < 256
               && h.rdev.major * 256 + h.rdev.minor == f.rdev && h.rdev.minor < 256
  {
    hide WordsBytes, BinaryWords, ParseBinary;
    BinaryRoundTrip(f, little);
  }

  /** Zero bytes between a name and the data it precedes. */
  function NamePadding(format: Format, namesize: nat): (n: nat)
    ensures n <= 3
    ensures format == Newc || format == Crc ==> (NEWC_HEADER_LEN + namesize + n) % 4 == 0
    ensures format == Binary ==> n <= 1 && (BINARY_HEADER_LEN + namesize + n) % 2 == 0
    ensures format == Odc ==> n == 0
  {
    match format
    case Odc => 0
    case Binary => namesize % 2
    case _ => (4 - (NEWC_HEADER_LEN + namesize) % 4) % 4
  }

  /** Zero bytes between data and the next header. */
  function DataPadding(format: Format, len: nat): (n: nat)
    ensures n <= 3
    ensures format == Newc || format == Crc ==> (len + n) % 4 == 0
    ensures format == Binary ==> n <= 1 && (len + n) % 2 == 0
    ensures format == Odc ==> n == 0
  {
    match format
    case Odc => 0
    case Binary => len % 2
    case _ => (4 - len % 4) % 4
  }

  /** The byte sum a `070702` check field holds, modulo 2^32. */
  function Checksum(sum: nat, data: seq<byte>): (c: nat)
    ensures sum < U32 ==> c < U32
    decreases |data|
  {
    if data == [] then sum else Checksum((sum + data[0]) % U32, data[1..])
  }

  /** Summing in pieces gives the sum of the whole. */
  lemma {:induction false} ChecksumAppend(sum: nat, a: seq<byte>, b: seq<byte>)
    ensures Checksum(sum, a + b) == Checksum(Checksum(sum, a), b)
    decreases |a|
  {
    if a == [] {
      assert a + b == b;
    } else {
      assert (a + b)[1..] == a[1..] + b;
      ChecksumAppend((sum + a[0]) % U32, a[1..], b);
    }
  }

  /** The sum of all bytes. */
  function ByteSum(data: seq<byte>): nat {
    if data == [] then 0 else ByteSum(data[..|data| - 1]) + data[|data| - 1]
  }

  /** The check field is the sum of all bytes modulo 2^32. */
  lemma {:induction false} ChecksumTotal(data: seq<byte>)
    ensures Checksum(0, data) == ByteSum(data) % 0x1_0000_0000
  {
    if data != [] {
      hide Checksum;
      var n := |data| - 1;
      ChecksumTotal(data[..n]);
      ChecksumAppend(0, data[..n], [data[n]]);
      assert data == data[..n] + [data[n]];
      ChecksumOne(ByteSum(data[..n]), data[n]);
    }
  }

  lemma ChecksumOne(total: nat, b: byte)
    ensures Checksum(total % U32, [b]) == (total + b) % U32
  {
    assert [b][1..] == [];
    assert (total % U32 + b) % U32 == (total + b) % U32;
  }

  /** Of the numbers of devices just those of 32 bits are stored in one field, and each as a number of its own. */
  lemma DeviceBijection(dev: Device, stored: nat)
    ensures JoinDev(dev) == Some(stored) <==> stored < 0x1_0000_0000 && SplitDev(stored) == dev
  {
  }

  /** The magics and the formats they announce: "070701", "070702", "070707", and octal 070707 as a word. */
  lemma DetectExactly(start: seq<byte>)
    requires |start| == 6
    ensures Detect(start) == Some(Newc) <==> start == [48, 55, 48, 55, 48, 49]
    ensures Detect(start) == Some(Crc) <==> start == [48, 55, 48, 55, 48, 50]
    ensures Detect(start) == Some(Odc) <==> start == [48, 55, 48, 55, 48, 55]
    ensures Detect(start) == Some(Binary) <==> start[..2] == [0xC7, 0x71] || start[..2] == [0x71, 0xC7]
  {
    var a, b := start[0], start[1];
    assert start[..2] == [a, b];
    assert IsBinaryMagic(start) <==> [a, b] == [0xC7, 0x71] || [a, b] == [0x71, 0xC7];
    if start in [[48, 55, 48, 55, 48, 49], [48, 55, 48, 55, 48, 50], [48, 55, 48, 55, 48, 55]] {
      assert a == 48;
      assert start[5] in {49, 50, 55};
    }
  }

  /** Whether `header` carries a byte sum that is verified: a regular file in the crc format. */
  predicate Summed(header: Header) {
    header.format == Crc && TypeBits(header.mode) == TypeCode(File)
  }

  /** A sum is owed just by a regular file, of type 8 in the top four of 16 mode bits, under the magic "070702". */
  lemma SumsOwed(s: seq<byte>, h: Header)
    requires |s| >= 6 && Detect(s[..6]) == Some(h.format)
    ensures Summed(h) <==> s[..6] == [48, 55, 48, 55, 48, 50] && 0x8000 <= h.mode % 0x1_0000 < 0x9000
  {
    hide Detect, TypeBits;
    DetectExactly(s[..6]);
    RegularBits(h.mode);
  }

  lemma RegularBits(mode: nat)
    ensures TypeBits(mode) == TypeCode(File) <==> 0x8000 <= mode % 0x1_0000 < 0x9000
  {
    var top, low := mode / 0x1_0000, mode % 0x1_0000;
    assert mode / 4096 == 16 * top + low / 4096;
  }
}

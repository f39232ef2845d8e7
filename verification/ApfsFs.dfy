/** Reading a file of a mounted volume: what the index left undamaged is read as its records say. */
module ApfsFs {
  import opened Wrappers
  import opened Bytes
  import opened ApfsExtents
  import opened ApfsIndex

  /** A volume; one with a single key and data that is not in the clear needs that key. */
  datatype Volume = Volume(id: nat, oneKey: bool, unencrypted: bool)

  datatype FileError =
    | Locked
    | Corrupt
    | InvalidHandle
    | IsADirectory
    | Symlink
    | Unsupported
    | Reading(error: ReadError)

  const REGULAR: nat := 8
  const LINK: nat := 10
  const UF_COMPRESSED: nat := 32

  /** Whether the key at hand, that of volume `holder`, is this volume's. */
  predicate Unlocked(c: Container, holder: nat, volume: Volume) {
    c.key.Some? && holder == volume.id
  }

  /** Whether nothing of the volume can be read without its key, and the key is not there. */
  predicate Shut(c: Container, holder: nat, volume: Volume) {
    volume.oneKey && !volume.unencrypted && !Unlocked(c, holder, volume)
  }

  /** Why an inode is no file whose data can be read. */
  function KindFault(inode: Inode): Option<FileError> {
    match FileType(inode.mode)
    case None => Some(Corrupt)
    case Some(code) =>
      if code == DIRECTORY then Some(IsADirectory)
      else if code == LINK then Some(Symlink)
      else if code != REGULAR || inode.flags / UF_COMPRESSED % 2 == 1 then Some(Unsupported)
      else None
  }

  /**
   * Only a regular file that is not compressed can be read: a mode of type 8, with the sixth of its flags
   * clear. Directories and symbolic links have errors of their own, and so has a mode without a type.
   */
  lemma KindExactly(inode: Inode, code: nat)
    requires code * 0x1000 <= inode.mode % 0x1_0000 < (code + 1) * 0x1000
    ensures KindFault(inode) ==
            match code
            case 8 => if inode.flags % 64 < 32 then None else Some(Unsupported)
            case 4 => Some(IsADirectory)
            case 10 => Some(Symlink)
            case 1 | 2 | 6 | 12 => Some(Unsupported)
            case _ => Some(Corrupt)
  {
    FileTypeExactly(inode.mode, code);
  }

  /** The end of the extent that ends last, as far as 64 bits hold it. */
  function LastEnd(es: seq<Extent>): (end: u64) {
    if es == [] then 0
    else
      var front, e := LastEnd(es[..|es| - 1]), es[|es| - 1].End();
      var capped: u64 := if e < U64 then e else U64 - 1;
      if capped > front then capped else front
  }

  /** A file's size: that of its stream, or that before compression, or where its extents end. */
  function StreamSize(inode: Inode, es: seq<Extent>): u64 {
    if inode.streamSize.Some? then inode.streamSize.value
    else if inode.plainSize != 0 then inode.plainSize
    else LastEnd(es)
  }

  /** Some extent ends there, or none does and it is 0; an end past 64 bits counts as the last number of them. */
  lemma {:induction false} LastEndExactly(es: seq<Extent>)
    ensures LastEnd(es) == 0
            || exists k :: 0 <= k < |es| && (es[k].End() == LastEnd(es) || LastEnd(es) == U64 - 1 < es[k].End())
    ensures forall k :: 0 <= k < |es| ==> es[k].End() <= LastEnd(es) || LastEnd(es) == U64 - 1
  {
    if es != [] {
      var n := |es| - 1;
      LastEndExactly(es[..n]);
      assert es == es[..n] + [es[n]];
    }
  }

  /** A file has the size of its stream, else that before compression, else it ends where its last extent does. */
  lemma SizeExactly(inode: Inode, s: seq<Extent>)
    requires StreamSound(s)
    ensures StreamSize(inode, s) ==
            match inode.streamSize
            case Some(size) => size
            case None =>
              if inode.plainSize > 0 then inode.plainSize
              else if s == [] then 0 else s[|s| - 1].logical + s[|s| - 1].length
  {
    hide LastEnd;
    SoundEnds(s);
  }

  /** A stream that can be read ends where its last extent does. */
  lemma {:induction false} SoundEnds(s: seq<Extent>)
    requires StreamSound(s)
    ensures LastEnd(s) == if s == [] then 0 else s[|s| - 1].End()
  {
    if s != [] {
      var front, last := s[..|s| - 1], s[|s| - 1];
      assert forall e :: e in front ==> e in s;
      SoundEnds(front);
      assert last in s;
    }
  }

  // ------------------------------------------------------------------
  // The bytes of an undamaged file
  // ------------------------------------------------------------------

  /** `k` is the only extent with data at a position. */
  predicate Alone(s: seq<Extent>, k: nat, pos: nat) {
    k < |s| && Shows(s[k], pos) && forall j :: 0 <= j < |s| && Shows(s[j], pos) ==> j == k
  }

  /**
   * Whether `b` is the byte of a file at a position: the one that its only extent there maps to, in a
   * block of the container, or zero where no extent has data.
   */
  ghost predicate FileByte(c: Container, s: seq<Extent>, pos: nat, b: byte)
    requires c.Ok()
  {
    || (exists k: nat ::
          && Alone(s, k, pos) && s[k].physical + (pos - s[k].logical) / c.blockSize < c.blockCount
          && Mapped(c, s[k], pos, b))
    || (b == 0 && forall k :: 0 <= k < |s| ==> !Shows(s[k], pos))
  }

  /** The encrypted extents all have tweaks that fit 64 bits. */
  predicate TweaksFit(c: Container, s: seq<Extent>)
    requires c.blockSize > 0
  {
    forall e :: e in s && e.crypto != 0 ==> (e.crypto + CeilDiv(e.length, c.blockSize)) * (c.blockSize / 512) < U64
  }

  /** Whether any extent is encrypted. */
  predicate AnyEncrypted(s: seq<Extent>) {
    exists e :: e in s && e.crypto != 0
  }

  /** What a mounted index lists for an undamaged node is its whole stream, inside the container. */
  lemma UndamagedSound(index: Index, records: seq<Record>, all: seq<Extent>, c: Container, node: nat)
    requires c.blockSize > 0 && index.Mounted(records, all, c.blockSize, c.blockCount)
    requires node in index.inodes && node !in index.damaged
    ensures var id := index.inodes[node].privateId;
            var s := Listed(index.extents, id);
            && s == StreamOf(all, id) && StreamSound(s) && AllInside(s, c.blockSize, c.blockCount)
            && multiset(s) == multiset(OfStream(all, id))
  {
    hide StreamOf, StreamSound, AllInside;
  }

  /** The only thing the checks before reading can find wrong with it, once unlocked, is a tweak that does not fit. */
  lemma SoundFault(c: Container, s: seq<Extent>)
    requires c.blockSize > 0 && StreamSound(s) && AllInside(s, c.blockSize, c.blockCount)
    requires AnyEncrypted(s) ==> c.key.Some?
    ensures Preflight(c, s, true) == if TweaksFit(c, s) then None else Some(AddressOverflow)
  {
    hide CeilDiv, Preflight;
    SoundPasses(c, s, true);
    if Preflight(c, s, true).Some? {
      var k :| 0 <= k < |s| && Preflight(c, s, true) == ExtentFault(c, s[k], true);
      assert s[k] in s;
    }
  }

  /** Each byte of a sound stream is the one its only extent maps to, or zero. */
  lemma SoundByte(c: Container, s: seq<Extent>, pos: nat)
    requires c.Ok() && InOrder(s) && Preflight(c, s, true) == None
    requires forall k :: 0 <= k < |s| && Shows(s[k], pos) ==> Backed(c, s[k], pos)
    ensures FileByte(c, s, pos, ByteAt(c, s, pos))
  {
    hide Container.Ok, InOrder, Shows, Preflight, ExtentFault, Backed, ExtentByte, ByteAt, Mapped;
    BlockSize(c);
    if exists k :: 0 <= k < |s| && Shows(s[k], pos) {
      var k: nat :| k < |s| && Shows(s[k], pos);
      forall j | 0 <= j < |s| && Shows(s[j], pos)
        ensures j == k
      {
        OneExtentAt(s, j, k, pos);
      }
      assert Alone(s, k, pos);
      OnlyOne(c, s, s[k], pos);
      InContainer(c, s[k], true, pos);
    } else {
      OnlyOne(c, s, Extent(0, 0, 0, 0, 0), pos);
    }
  }

  /**
   * Reads from a file of a mounted volume. Of an undamaged file every byte given is the one its
   * records say. A read fails before it starts for a node that is no such file, for a key that is
   * not there and for a tweak that does not fit, with the buffer left as it was; after that it fails
   * exactly when the device lacks a block of the range.
   */
  method ReadFile(index: Index, c: Container, holder: nat, volume: Volume, node: nat, offset: nat, buf: array<byte>,
                  ghost records: seq<Record>, ghost all: seq<Extent>)
    returns (r: Result<nat, FileError>)
    requires c.Ok() && index.Mounted(records, all, c.blockSize, c.blockCount)
    modifies buf
    ensures r.Err? && r.error != Reading(Device) ==> buf[..] == old(buf[..])
    ensures
      if volume.oneKey && !volume.unencrypted && (c.key == None || holder != volume.id) then r == Err(Locked)
      else if node in index.damaged then r == Err(Corrupt)
      else if node !in index.inodes then r == Err(InvalidHandle)
      else
        var inode := index.inodes[node];
        var s := StreamOf(all, inode.privateId);
        var n := Want(StreamSize(inode, s), offset, buf.Length);
        if KindFault(inode).Some? then r == Err(KindFault(inode).value)
        else if (exists e :: e in s && e.crypto != 0) && (c.key == None || holder != volume.id) then r == Err(Locked)
        else if n > 0 && !TweaksFit(c, s) then r == Err(Reading(AddressOverflow))
        else if n > 0 && !Served(c, s, offset, n) then r == Err(Reading(Device)) && |c.disk| < c.blockCount
        else r == Ok(n) && buf[n..] == old(buf[n..]) && forall i :: 0 <= i < n ==> FileByte(c, s, offset + i, buf[i])
  {
    hide Container.Ok, StreamOf, StreamSound, AllInside, FileByte, Served, TweaksFit, Preflight, ByteAt, RecordFault,
         Readable;
    BlockSize(c);
    if Shut(c, holder, volume) {
      return Err(Locked);
    }
    if node in index.damaged {
      return Err(Corrupt);
    }
    if node !in index.inodes {
      return Err(InvalidHandle);
    }
    var inode := index.inodes[node];
    var kind := KindFault(inode);
    if kind.Some? {
      return Err(kind.value);
    }
    var extents := Listed(index.extents, inode.privateId);
    UndamagedSound(index, records, all, c, node);
    if AnyEncrypted(extents) && !Unlocked(c, holder, volume) {
      return Err(Locked);
    }
    SoundFault(c, extents);
    var read := ReadExtents(c, extents, StreamSize(inode, extents), offset, buf, true);
    match read {
      case Ok(n) =>
        SoundRange(c, extents, offset, n);
        r := Ok(n);
      case Err(error) =>
        r := Err(Reading(error));
    }
  }

  lemma SoundRange(c: Container, s: seq<Extent>, offset: nat, n: nat)
    requires c.Ok() && StreamSound(s)
    requires n > 0 ==> Preflight(c, s, true) == None && Served(c, s, offset, n)
    ensures forall i :: 0 <= i < n ==> FileByte(c, s, offset + i, Range(c, s, offset, n)[i])
  {
    hide Container.Ok, FileByte, Preflight, ByteAt, InOrder, Backed, Shows;
    BlockSize(c);
    forall i | 0 <= i < n
      ensures FileByte(c, s, offset + i, Range(c, s, offset, n)[i])
    {
      forall k | 0 <= k < |s| && Shows(s[k], offset + i)
        ensures Backed(c, s[k], offset + i)
      {
        assert ExtentServed(c, s[k], offset, offset + n);
      }
      SoundByte(c, s, offset + i);
    }
  }
}

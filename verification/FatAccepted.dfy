/** What the bytes of a boot sector must say to be mounted, and what is then read from them. */
module FatAccepted {
  import opened Wrappers
  import opened Bytes
  import opened FatEntry
  import opened FatLayout
  import opened FatBoot

  /** Numbers of two and four bytes, the least significant first. */
  function Two(s: seq<byte>, at: nat): nat
    requires at + 2 <= |s|
  {
    var a: nat, b: nat := s[at], s[at + 1];
    a + 0x100 * b
  }

  function Four(s: seq<byte>, at: nat): nat
    requires at + 4 <= |s|
  {
    var a: nat, b: nat, c: nat, d: nat := s[at], s[at + 1], s[at + 2], s[at + 3];
    a + 0x100 * b + 0x1_0000 * c + 0x100_0000 * d
  }

  /** FAT32 has neither root directory entries nor a FAT size of 16 bits. */
  predicate Wide(s: seq<byte>)
    requires |s| == 512
  {
    Two(s, 17) == 0 && Two(s, 22) == 0
  }

  function TotalOf(s: seq<byte>): nat
    requires |s| == 512
  {
    if Two(s, 19) > 0 then Two(s, 19) else Four(s, 32)
  }

  function FatOf(s: seq<byte>): nat
    requires |s| == 512
  {
    if Wide(s) then Four(s, 36) else Two(s, 22)
  }

  /** The sectors before the root directory. */
  function FatEnd(s: seq<byte>): nat
    requires |s| == 512
  {
    var copies: nat := s[16];
    NotNegative(copies, FatOf(s));
    Two(s, 14) + copies * FatOf(s)
  }

  lemma NotNegative(a: nat, b: nat)
    ensures a * b >= 0
  {
  }

  /** Sizes, counts and signature are ones that can be mounted. */
  predicate Sane(s: seq<byte>)
    requires |s| == 512
  {
    && Two(s, 11) in {512, 1024, 2048, 4096} && s[13] in {1, 2, 4, 8, 16, 32, 64, 128}
    && s[13] * Two(s, 11) <= 65536 && Two(s, 510) == 0xAA55 && s[16] in {1, 2} && Two(s, 14) > 0
    && (Wide(s) ==> Two(s, 42) == 0)
  }

  /** The regions follow each other, and the clusters are those that fit the sectors of the volume. */
  predicate Regions(s: seq<byte>, geo: Geometry)
    requires |s| == 512 && Two(s, 11) > 0
  {
    var ss, start := Two(s, 11), FatEnd(s) * Two(s, 11);
    && geo.sectorSize == ss && geo.clusterSize == s[13] * ss && Pow(2, geo.clusterShift) == geo.clusterSize
    && geo.reservedSectors == Two(s, 14) && geo.fatStart == Two(s, 14) * ss && geo.fatSize == FatOf(s) * ss
    && geo.fatCount == s[16]
    && Two(s, 17) * 32 <= geo.dataStart - start < Two(s, 17) * 32 + ss && (geo.dataStart - start) % ss == 0
    && geo.maxCluster >= 2
    && geo.dataStart + (geo.maxCluster - 1) * geo.clusterSize <= TotalOf(s) * ss
       < geo.dataStart + geo.maxCluster * geo.clusterSize
  }

  /** What FAT32 adds: its root directory is a chain, one FAT may be the active one, and FSInfo may be there. */
  predicate Fields32(s: seq<byte>, geo: Geometry)
    requires |s| == 512
  {
    && geo.kind == Fat32 && geo.maxCluster - 1 <= 0x0FFF_FFF5
    && geo.root == Cluster(Four(s, 44)) && 2 <= Four(s, 44) <= geo.maxCluster
    && (geo.mirrored <==> s[40] < 128) && geo.activeFat == (if geo.mirrored then 0 else s[40] % 16) && geo.activeFat < s[16]
    && geo.fsInfoSector == (if 0 < Two(s, 48) < Two(s, 14) then Some(Two(s, 48)) else None)
    && geo.volumeSerial == if s[66] in {0x28, 0x29} then Some(Four(s, 67)) else None
  }

  /** Without it the variant is told by the clusters, and the root directory follows the FATs. */
  predicate Fields16(s: seq<byte>, geo: Geometry)
    requires |s| == 512
  {
    && geo.kind == (if geo.maxCluster - 1 <= 4084 then Fat12 else Fat16) && geo.maxCluster - 1 <= 65524
    && Two(s, 17) > 0 && geo.root == Fixed(FatEnd(s) * Two(s, 11), Two(s, 17) * 32)
    && geo.mirrored && geo.activeFat == 0 && geo.fsInfoSector == None
    && geo.volumeSerial == if s[38] in {0x28, 0x29} then Some(Four(s, 39)) else None
  }

  /** The last cluster has its entry inside a FAT. */
  predicate LastEntry(geo: Geometry) {
    match geo.kind
    case Fat12 => geo.maxCluster * 3 / 2 + 2 <= geo.fatSize
    case Fat16 => geo.maxCluster * 2 + 2 <= geo.fatSize
    case Fat32 => geo.maxCluster * 4 + 4 <= geo.fatSize
  }

  /** The geometry the bytes of a sector describe. */
  predicate Describes(s: seq<byte>, geo: Geometry)
    requires |s| == 512
  {
    Sane(s) && Regions(s, geo) && (if Wide(s) then Fields32(s, geo) else Fields16(s, geo)) && LastEntry(geo)
  }

  lemma NumTwo(s: seq<byte>, at: nat)
    requires at + 2 <= |s|
    ensures Num(s, at, 2) == Two(s, at)
  {
    var t := s[at..at + 2];
    assert t[1..][1..] == [];
    assert LeValue(t) == t[0] + 256 * LeValue(t[1..]);
    assert LeValue(t[1..]) == t[1] + 256 * LeValue(t[1..][1..]);
  }

  lemma NumFour(s: seq<byte>, at: nat)
    requires at + 4 <= |s|
    ensures Num(s, at, 4) == Four(s, at)
  {
    var t := s[at..at + 4];
    assert t[1..][1..][1..][1..] == [];
    assert LeValue(t) == t[0] + 256 * LeValue(t[1..]);
    assert LeValue(t[1..]) == t[1] + 256 * LeValue(t[1..][1..]);
    assert LeValue(t[1..][1..]) == t[2] + 256 * LeValue(t[1..][1..][1..]);
  }

  lemma NumOne(s: seq<byte>, at: nat)
    requires at < |s|
    ensures Num(s, at, 1) == s[at]
  {
    var t := s[at..at + 1];
    assert t[1..] == [];
    assert LeValue(t) == t[0] + 256 * LeValue(t[1..]);
  }

  /** The fields are read where they stand. */
  lemma FieldsAre(s: seq<byte>)
    requires |s| == 512
    ensures ReadBpb(s) == Bpb(Two(s, 11), s[13], Two(s, 14), s[16], Two(s, 17), Two(s, 19), Two(s, 22), Four(s, 32))
    ensures ReadBpb(s).IsFat32() <==> Wide(s)
    ensures ReadExt(s, true)
         == Ext(Four(s, 36), Two(s, 40), Two(s, 42), Four(s, 44), Two(s, 48), s[66], Four(s, 67), Two(s, 510))
    ensures ReadExt(s, false) == Ext(0, 0, 0, 0, 0, s[38], Four(s, 39), Two(s, 510))
  {
    hide Num, Two, Four;
    NumTwo(s, 11);
    NumOne(s, 13);
    NumTwo(s, 14);
    NumOne(s, 16);
    NumTwo(s, 17);
    NumTwo(s, 19);
    NumTwo(s, 22);
    NumFour(s, 32);
    NumFour(s, 36);
    NumTwo(s, 40);
    NumTwo(s, 42);
    NumFour(s, 44);
    NumTwo(s, 48);
    NumOne(s, 66);
    NumFour(s, 67);
    NumOne(s, 38);
    NumFour(s, 39);
    NumTwo(s, 510);
  }

  /** Sizes, counts and signature pass exactly when they are sane. */
  lemma SaneExactly(s: seq<byte>, b: Bpb, e: Ext)
    requires |s| == 512 && b == ReadBpb(s) && e == ReadExt(s, b.IsFat32())
    ensures Sane(s) <==> SizeFault(b) == None && RecordFault(b, e) == None
    ensures Sane(s) ==> SectorSize(b.sectorSize) && ClusterSectors(b.clusterSectors)
    ensures FatSectorsOf(b, e) == FatOf(s) && b.Total() == TotalOf(s)
  {
    hide ReadBpb, ReadExt;
    FieldsAre(s);
  }

  /** The root directory takes the least number of whole sectors that hold it. */
  lemma RootBytes(entries: nat, ss: nat, bytes: nat)
    requires ss > 0
    ensures bytes == RootSectors(entries, ss) * ss <==>
            entries * 32 <= bytes < entries * 32 + ss && bytes % ss == 0
  {
    hide CeilDiv;
    var k := RootSectors(entries, ss);
    CeilCovers(entries * 32, ss, k);
    Whole(k, ss);
    if k > 0 {
      CeilCovers(entries * 32, ss, k - 1);
      Fewer(k, ss);
    }
    if bytes % ss == 0 {
      Divides(bytes, ss);
      OneWhole(bytes / ss, k, ss, entries * 32);
    }
  }

  /** Only one number of whole sectors is the least that holds so many bytes. */
  lemma OneWhole(m: nat, k: nat, d: nat, n: nat)
    requires n <= k * d < n + d
    ensures m == k <==> n <= m * d < n + d
  {
    if m < k {
      MulMono(m + 1, k, d);
    } else if m > k {
      MulMono(k + 1, m, d);
    }
  }

  lemma Fewer(k: nat, d: nat)
    requires k > 0
    ensures (k - 1) * d == k * d - d
  {
  }

  lemma Divides(x: nat, d: nat)
    requires d > 0 && x % d == 0
    ensures x == x / d * d
  {
  }

  /** The clusters counted in sectors are those that fit in bytes. */
  lemma CountBytes(total: nat, meta: nat, spc: nat, ss: nat, max: nat)
    requires spc > 0 && ss > 0 && max >= 2
    ensures Beside(total, meta, spc) == max - 1 <==>
            meta * ss + (max - 1) * (spc * ss) <= total * ss < meta * ss + max * (spc * ss)
  {
    var n := max - 1;
    Associate(n, spc, ss);
    Associate(max, spc, ss);
    Distribute(meta, n * spc, 0, ss);
    Distribute(meta, max * spc, 0, ss);
    Scaled(meta + n * spc, total, ss);
    Scaled(meta + max * spc, total, ss);
    assert max * spc == n * spc + spc;
    if meta + n * spc <= total < meta + max * spc {
      DivIs(total - meta, spc, n);
    }
    if Beside(total, meta, spc) == n {
      BesideRoomed(total, meta, spc);
      Parts(total - meta, spc);
    }
  }

  lemma Parts(x: nat, d: nat)
    requires d > 0
    ensures x / d * d <= x < x / d * d + d
  {
  }

  lemma Scaled(a: nat, b: nat, d: nat)
    requires d > 0
    ensures a <= b <==> a * d <= b * d
  {
    if a <= b {
      MulMono(a, b, d);
    } else {
      MulMono(b + 1, a, d);
    }
  }

  lemma {:induction false} OneShift(j: nat, k: nat)
    requires Pow(2, j) == Pow(2, k)
    ensures j == k
    decreases j
  {
    if j > 0 && k > 0 {
      OneShift(j - 1, k - 1);
    }
  }

  /** The shift of a cluster size is told by its power of two. */
  lemma ShiftExactly(spc: nat, ss: nat, shift: nat)
    requires ClusterSectors(spc) && SectorSize(ss) && spc * ss <= 0x1_0000
    ensures shift == TrailingZeros(spc * ss) <==> Pow(2, shift) == spc * ss
  {
    hide Pow, TrailingZeros, PowerOfTwo;
    SizePower(spc, ss);
    ShiftOf(spc * ss);
    if Pow(2, shift) == spc * ss {
      OneShift(shift, TrailingZeros(spc * ss));
    }
  }

  /** The regions that are computed are those the bytes describe. */
  lemma RegionsExactly(s: seq<byte>, b: Bpb, e: Ext, geo: Geometry)
    requires |s| == 512 && b == ReadBpb(s) && e == ReadExt(s, b.IsFat32()) && Sane(s) && geo.maxCluster >= 2
    requires SectorSize(b.sectorSize) && ClusterSectors(b.clusterSectors)
    ensures Regions(s, geo) <==>
            && geo.sectorSize == b.sectorSize && geo.clusterSize == b.clusterSectors * b.sectorSize
            && geo.clusterShift == TrailingZeros(geo.clusterSize) && geo.reservedSectors == b.reserved
            && geo.fatStart == b.reserved * b.sectorSize && geo.fatSize == FatSectorsOf(b, e) * b.sectorSize
            && geo.fatCount == b.fats && geo.dataStart == MetadataSectors(b, e) * b.sectorSize
            && geo.maxCluster == ClusterCount(b, e) + 1
  {
    hide ReadBpb, ReadExt, Two, Four, Pow, TrailingZeros, Beside, RootSectors, SizeFault, RecordFault, SectorSize,
         ClusterSectors;
    FieldsAre(s);
    SaneExactly(s, b, e);
    var ss, spc, meta := b.sectorSize, b.clusterSectors, MetadataSectors(b, e);
    assert ss > 0 && spc > 0 by { SizesPositive(b); }
    var roots := RootSectors(b.rootEntries, ss);
    Distribute(b.reserved, b.fats * FatSectorsOf(b, e), roots, ss);
    Distribute(b.reserved, b.fats * FatSectorsOf(b, e), 0, ss);
    ShiftExactly(spc, ss, geo.clusterShift);
    if geo.dataStart >= FatEnd(s) * ss {
      RootBytes(b.rootEntries, ss, geo.dataStart - FatEnd(s) * ss);
    }
    CountBytes(b.Total(), meta, spc, ss, geo.maxCluster);
  }

  /**
   * A boot sector is mounted with a geometry exactly when its bytes describe that geometry.
   */
  lemma DescribesExactly(s: seq<byte>, geo: Geometry)
    requires |s| == 512
    ensures ParseBoot(s) == Ok(geo) <==> Describes(s, geo)
  {
    hide ReadBpb, ReadExt, Sane, Regions, Fields32, Fields16, Geometry16, Geometry32, SizeFault, RecordFault;
    var b := ReadBpb(s);
    var e := ReadExt(s, b.IsFat32());
    SaneExactly(s, b, e);
    FieldsAre(s);
    if Sane(s) {
      assert LastEntry(geo) <==> geo.kind.EntryOffset(geo.maxCluster) + geo.kind.EntryLen() <= geo.fatSize;
      if geo.maxCluster >= 2 {
        RecordExactly(s, b, e, geo);
      } else {
        FewClusters(s, geo);
      }
    }
  }

  lemma FewClusters(s: seq<byte>, geo: Geometry)
    requires |s| == 512 && Two(s, 11) > 0 && geo.maxCluster < 2
    ensures !Regions(s, geo)
  {
  }

  /** One record gives a geometry with clusters exactly when that is the one described, and its active FAT exists. */
  lemma RecordExactly(s: seq<byte>, b: Bpb, e: Ext, geo: Geometry)
    requires |s| == 512 && b == ReadBpb(s) && e == ReadExt(s, b.IsFat32()) && Sane(s) && geo.maxCluster >= 2
    requires SectorSize(b.sectorSize) && ClusterSectors(b.clusterSectors)
    ensures (if b.IsFat32() then Geometry32(b, e) else Geometry16(b, e)) == Ok(geo) && geo.activeFat < geo.fatCount
       <==> Regions(s, geo) && if Wide(s) then Fields32(s, geo) else Fields16(s, geo)
  {
    hide ReadBpb, ReadExt, Sane, Regions, Two, Four, Beside, RootSectors, TrailingZeros, MetadataSectors, ClusterCount;
    FieldsAre(s);
    SaneExactly(s, b, e);
    RegionsExactly(s, b, e, geo);
    var ss := b.sectorSize;
    Associate(b.fats, FatSectorsOf(b, e), ss);
    Distribute(b.reserved, b.fats * FatSectorsOf(b, e), 0, ss);
    Starts(b, e);
    LowBits(s, 40);
  }

  /** The data region that either record computes starts after the metadata. */
  lemma Starts(b: Bpb, e: Ext)
    requires b.sectorSize > 0
    ensures var ss, fats := b.sectorSize, b.fats * FatSectorsOf(b, e);
            MetadataSectors(b, e) * ss == b.reserved * ss + fats * ss + RootSectors(b.rootEntries, ss) * ss
    ensures b.IsFat32() ==> RootSectors(b.rootEntries, b.sectorSize) == 0
  {
    hide RootSectors, FatSectorsOf;
    var fats := b.fats * FatSectorsOf(b, e);
    Distribute(b.reserved, fats, RootSectors(b.rootEntries, b.sectorSize), b.sectorSize);
    NoRoot(b.sectorSize);
  }

  /** The low bits of the flags are those of their first byte. */
  lemma LowBits(s: seq<byte>, at: nat)
    requires at + 2 <= |s|
    ensures Two(s, at) / 0x80 % 2 == 0 <==> s[at] < 128
    ensures Two(s, at) % 16 == s[at] % 16
  {
    FirstByte(s[at], s[at + 1]);
  }

  lemma FirstByte(a: nat, b: nat)
    requires a < 256
    ensures (a + 0x100 * b) / 0x80 % 2 == 0 <==> a < 128
    ensures (a + 0x100 * b) % 16 == a % 16
  {
    var high := if a < 128 then 0 else 1;
    DivIs(a + 0x100 * b, 0x80, 2 * b + high);
    DivIs(a + 0x100 * b, 16, 16 * b + a / 16);
  }

  // ------------------------------------------------------------------
  // Refusals
  // ------------------------------------------------------------------

  /** The sectors of the root directory, and the clusters that fit behind it; none when there is no room. */
  predicate Counted(s: seq<byte>, roots: nat, count: nat)
    requires |s| == 512
  {
    var ss, spc, room := Two(s, 11), s[13], TotalOf(s) - FatEnd(s) - roots;
    && Two(s, 17) * 32 <= roots * ss < Two(s, 17) * 32 + ss
    && if room < 0 then count == 0 else count * spc <= room < count * spc + spc
  }

  /** Why a sector that describes no geometry is refused: the first of these that applies. */
  function Reason(s: seq<byte>, count: nat): BootError
    requires |s| == 512
  {
    if Two(s, 11) !in {512, 1024, 2048, 4096} then NotFat("bytes_per_sector")
    else if s[13] !in {1, 2, 4, 8, 16, 32, 64, 128} then NotFat("sectors_per_cluster")
    else if s[13] * Two(s, 11) > 65536 then NotFat("cluster size")
    else if Two(s, 510) != 0xAA55 then Signature(Two(s, 510))
    else if Wide(s) && Two(s, 42) > 0 then Corrupt("version")
    else if s[16] !in {1, 2} then Corrupt("fat_count")
    else if Two(s, 14) == 0 then Corrupt("reserved_sector_count")
    else if !Wide(s) && Two(s, 17) == 0 then Corrupt("root_entry_count")
    else if count > (if Wide(s) then 0x0FFF_FFF5 else 65524) then Corrupt("too many clusters")
    else if Wide(s) && !(2 <= Four(s, 44) <= count + 1) then RootCluster(Four(s, 44), count + 1)
    else if count == 0 then Corrupt("no data cluster")
    else if Wide(s) && s[40] >= 128 && s[40] % 16 >= s[16] then Corrupt("ext_flags")
    else Corrupt("FAT too small")
  }

  /** Every refusal has its reason. */
  lemma RefusedExactly(s: seq<byte>, roots: nat, count: nat)
    requires |s| == 512 && ParseBoot(s).Err?
    requires Two(s, 11) > 0 && s[13] > 0 ==> Counted(s, roots, count)
    ensures ParseBoot(s) == Err(Reason(s, count))
  {
    hide ReadBpb, ReadExt, Two, Four, ClusterCount, TrailingZeros, RootSectors, CeilDiv, FatEnd;
    var b := ReadBpb(s);
    var e := ReadExt(s, b.IsFat32());
    FieldsAre(s);
    LowBits(s, 40);
    if Two(s, 11) > 0 && s[13] > 0 {
      CountIs(s, b, e, roots, count);
    }
  }

  lemma CountIs(s: seq<byte>, b: Bpb, e: Ext, roots: nat, count: nat)
    requires |s| == 512 && b == ReadBpb(s) && e == ReadExt(s, b.IsFat32())
    requires b.sectorSize > 0 && b.clusterSectors > 0 && Two(s, 11) == b.sectorSize && s[13] == b.clusterSectors
    requires Counted(s, roots, count)
    ensures ClusterCount(b, e) == count
  {
    hide ReadBpb, ReadExt, Two, Four, RootSectors, CeilDiv;
    FieldsAre(s);
    var ss, spc := b.sectorSize, b.clusterSectors;
    RootBytes(b.rootEntries, ss, roots * ss);
    DivIs(roots * ss, ss, roots);
    DivIs(RootSectors(b.rootEntries, ss) * ss, ss, RootSectors(b.rootEntries, ss));
    assert roots * ss % ss == 0 by { Whole(roots, ss); }
    if FatEnd(s) + roots <= TotalOf(s) {
      DivIs(TotalOf(s) - FatEnd(s) - roots, spc, count);
    } else {
      DivIs(0, spc, 0);
    }
  }

  lemma Whole(k: nat, d: nat)
    requires d > 0
    ensures k * d % d == 0
  {
    DivIs(k * d, d, k);
    assert k * d == k * d / d * d + k * d % d;
  }

  // ------------------------------------------------------------------
  // What is written besides
  // ------------------------------------------------------------------

  // "NO NAME    ", and the names of the variants.
  const UNNAMED := "NO NAME    "
  const NAME12 := "FAT12   "
  const NAME16 := "FAT16   "
  const NAME32 := "FAT32   "

  /** Whether these characters stand at `at`. */
  predicate Text(s: seq<byte>, at: nat, text: string) {
    at + |text| <= |s| && forall i :: 0 <= i < |text| ==> s[at + i] == text[i] as int
  }

  /**
   * What mounting does not read: a jump over the record, the name of the maker, the media byte, 63 sectors
   * a track and 255 heads, and the sectors before the volume.
   */
  predicate HeadWritten(s: seq<byte>, kind: FatKind, f: BootFields)
    requires |s| == 512
  {
    && s[0] == 0xEB && s[1] == (if kind == Fat32 then 88 else 60) && s[2] == 0x90
    && s[3..11] == f.oemName && s[21] == f.media && Two(s, 24) == 63 && Two(s, 26) == 255 && Four(s, 28) == f.hidden
  }

  /** The drive for the media byte, the label or none, the variant, and code that tries the next boot device. */
  predicate RecordWritten(s: seq<byte>, kind: FatKind, f: BootFields)
    requires |s| == 512
  {
    var at := if kind == Fat32 then 64 else 36;
    && s[at] == (if f.media == 0xF8 then 0x80 else 0) && s[at + 1] == 0 && s[at + 2] == 0x29
    && (match f.volumeLabel case Some(text) => s[at + 7..at + 18] == text case None => Text(s, at + 7, UNNAMED))
    && Text(s, at + 18, match kind case Fat12 => NAME12 case Fat16 => NAME16 case Fat32 => NAME32)
    && s[at + 26..at + 31] == [0xCD, 0x18, 0xF4, 0xEB, 0xFD]
    && forall k :: at + 31 <= k < 510 ==> s[k] == 0
  }

  /** Everything else in an encoded sector. */
  lemma Written(l: Layout, f: BootFields)
    requires Laid(l) && FieldsTyped(f)
    ensures var s := EncodeBoot(l, f);
            && HeadWritten(s, l.kind, f) && RecordWritten(s, l.kind, f)
            && (l.kind == Fat32 ==>
                  && Two(s, 40) == 0 && Two(s, 42) == 0 && Four(s, 44) == 2 && Two(s, 48) == 1 && Two(s, 50) == 6
                  && forall k :: 52 <= k < 64 ==> s[k] == 0)
            && var small := l.kind != Fat32 && l.totalSectors < 0x1_0000;
               Two(s, 19) == (if small then l.totalSectors else 0) && Four(s, 32) == if small then 0 else l.totalSectors
  {
    hide BpbBytes, RecordBytes, Ext32Bytes, Holds, Laid, HeadWritten, RecordWritten, Two;
    LaidTyped(l);
    var e := ExtOf(l, f);
    var s := EncodeBoot(l, f);
    var head := BpbBytes(BpbOf(l), l.kind, f);
    var ext := if l.kind == Fat32 then Ext32Bytes(e) else [];
    var record := RecordBytes(l.kind, e, f);
    HoldsFirst(head, ext + record);
    HeadThere(s, BpbOf(l), l.kind, f);
    HoldsSplit(s, 36, ext, record);
    RecordThere(s, CodeStart(l.kind) - 26, l.kind, e, f);
    if l.kind == Fat32 {
      BackupThere(s, e);
    }
  }

  lemma HeldAt(s: seq<byte>, at: nat, part: seq<byte>)
    requires Holds(s, at, part)
    ensures at + |part| <= |s| && s[at..at + |part|] == part
    ensures forall i :: 0 <= i < |part| ==> s[at + i] == part[i]
  {
    forall i | 0 <= i < |part|
      ensures s[at + i] == part[i]
    {
      assert s[at..at + |part|][i] == s[at + i];
    }
  }

  lemma HeadThere(s: seq<byte>, b: Bpb, kind: FatKind, f: BootFields)
    requires |s| == 512 && BpbTyped(b) && FieldsTyped(f) && Holds(s, 0, BpbBytes(b, kind, f))
    ensures HeadWritten(s, kind, f) && Two(s, 19) == b.total16 && Four(s, 32) == b.total32
  {
    hide LeBytes, Num, Holds, Pow, BpbTail, Two, Four;
    var r6 := LeBytes(b.rootEntries, 2) + BpbTail(b, f);
    var r5 := LeBytes(b.fats, 1) + r6;
    var r4 := LeBytes(b.reserved, 2) + r5;
    var r3 := LeBytes(b.clusterSectors, 1) + r4;
    var r2 := LeBytes(b.sectorSize, 2) + r3;
    var jump := [0xEB, CodeStart(kind) - 2, 0x90];
    HoldsSplit(s, 0, jump, f.oemName + r2);
    HeldAt(s, 0, jump);
    assert s[0] == jump[0] && s[1] == jump[1] && s[2] == jump[2];
    HoldsSplit(s, 3, f.oemName, r2);
    HeldAt(s, 3, f.oemName);
    HoldsSplit(s, 11, LeBytes(b.sectorSize, 2), r3);
    HoldsSplit(s, 13, LeBytes(b.clusterSectors, 1), r4);
    HoldsSplit(s, 14, LeBytes(b.reserved, 2), r5);
    HoldsSplit(s, 16, LeBytes(b.fats, 1), r6);
    HoldsSplit(s, 17, LeBytes(b.rootEntries, 2), BpbTail(b, f));
    TailThere(s, b, f);
  }

  lemma TailThere(s: seq<byte>, b: Bpb, f: BootFields)
    requires |s| == 512 && f.hidden < U32 && BpbTyped(b) && Holds(s, 19, BpbTail(b, f))
    ensures Two(s, 19) == b.total16 && Four(s, 32) == b.total32
    ensures s[21] == f.media && Two(s, 24) == 63 && Two(s, 26) == 255 && Four(s, 28) == f.hidden
  {
    hide LeBytes, Num, Holds, Pow, Two, Four;
    Widths();
    var r5 := LeBytes(f.hidden, 4) + LeBytes(b.total32, 4);
    var r4 := LeBytes(255, 2) + r5;
    var r3 := LeBytes(63, 2) + r4;
    var r2 := LeBytes(b.fatSectors16, 2) + r3;
    Take(s, 19, b.total16, 2, [f.media] + r2);
    HoldsSplit(s, 21, [f.media], r2);
    HeldAt(s, 21, [f.media]);
    assert s[21] == [f.media][0];
    HoldsSplit(s, 22, LeBytes(b.fatSectors16, 2), r3);
    Take(s, 24, 63, 2, r4);
    Take(s, 26, 255, 2, r5);
    Take(s, 28, f.hidden, 4, LeBytes(b.total32, 4));
    assert LeBytes(b.total32, 4) + [] == LeBytes(b.total32, 4);
    Take(s, 32, b.total32, 4, []);
    NumTwo(s, 19);
    NumTwo(s, 24);
    NumTwo(s, 26);
    NumFour(s, 28);
    NumFour(s, 32);
  }

  /** The record from the label on. */
  function RecordEnd(kind: FatKind, e: Ext, f: BootFields): seq<byte>
    requires FieldsTyped(f)
  {
    (if f.volumeLabel.Some? then f.volumeLabel.value else NO_LABEL)
    + ((match kind case Fat12 => FAT12_NAME case Fat16 => FAT16_NAME case Fat32 => FAT32_NAME)
       + (Patched(Zeros(510 - CodeStart(kind)), BOOT_STUB) + LeBytes(e.signature, 2)))
  }

  lemma RecordThere(s: seq<byte>, at: nat, kind: FatKind, e: Ext, f: BootFields)
    requires |s| == 512 && FieldsTyped(f) && e.bootSig == 0x29
    requires at == CodeStart(kind) - 26 && Holds(s, at, RecordBytes(kind, e, f))
    ensures RecordWritten(s, kind, f)
  {
    hide LeBytes, Num, Holds, Pow, Zeros, Patched, Text;
    Widths();
    var end := RecordEnd(kind, e, f);
    var r3 := LeBytes(e.id, 4) + end;
    var r2 := LeBytes(e.bootSig, 1) + r3;
    var drive := [if f.media == 0xF8 then 0x80 else 0];
    assert RecordBytes(kind, e, f) == drive + ([0] + r2);
    hide RecordBytes, RecordEnd;
    HoldsSplit(s, at, drive, [0] + r2);
    HeldAt(s, at, drive);
    assert s[at + 0] == drive[0];
    HoldsSplit(s, at + 1, [0], r2);
    HeldAt(s, at + 1, [0]);
    assert s[at + 1 + 0] == [0][0];
    Take(s, at + 2, e.bootSig, 1, r3);
    NumOne(s, at + 2);
    HoldsSplit(s, at + 3, LeBytes(e.id, 4), end);
    EndThere(s, at + 7, kind, e, f);
  }

  lemma EndThere(s: seq<byte>, at: nat, kind: FatKind, e: Ext, f: BootFields)
    requires |s| == 512 && FieldsTyped(f) && at == CodeStart(kind) - 19 && Holds(s, at, RecordEnd(kind, e, f))
    ensures match f.volumeLabel case Some(text) => s[at..at + 11] == text case None => Text(s, at, UNNAMED)
    ensures Text(s, at + 11, match kind case Fat12 => NAME12 case Fat16 => NAME16 case Fat32 => NAME32)
    ensures s[at + 19..at + 24] == [0xCD, 0x18, 0xF4, 0xEB, 0xFD] && forall k :: at + 24 <= k < 510 ==> s[k] == 0
  {
    hide LeBytes, Holds, Zeros, Patched;
    var pad := Patched(Zeros(510 - CodeStart(kind)), BOOT_STUB);
    var volumeLabel := if f.volumeLabel.Some? then f.volumeLabel.value else NO_LABEL;
    var name := match kind case Fat12 => FAT12_NAME case Fat16 => FAT16_NAME case Fat32 => FAT32_NAME;
    var r6 := pad + LeBytes(e.signature, 2);
    HoldsSplit(s, at, volumeLabel, name + r6);
    HeldAt(s, at, volumeLabel);
    HoldsSplit(s, at + 11, name, r6);
    HeldAt(s, at + 11, name);
    HoldsSplit(s, at + 19, pad, LeBytes(e.signature, 2));
    CodeThere(s, at + 19);
    Names();
  }

  /** The boot code fills the sector up to the signature. */
  lemma CodeThere(s: seq<byte>, at: nat)
    requires |s| == 512 && at + 5 <= 510 && Holds(s, at, Patched(Zeros(510 - at), BOOT_STUB))
    ensures s[at..at + 5] == BOOT_STUB && forall k :: at + 5 <= k < 510 ==> s[k] == 0
  {
    hide Holds;
    var pad := Patched(Zeros(510 - at), BOOT_STUB);
    HeldAt(s, at, pad);
    assert s[at..at + 5] == pad[..5];
    forall k | at + 5 <= k < 510
      ensures s[k] == 0
    {
      assert s[at + (k - at)] == pad[k - at];
    }
  }

  lemma Names()
    ensures |NO_LABEL| == 11 && forall i :: 0 <= i < 11 ==> NO_LABEL[i] == UNNAMED[i] as int
    ensures |FAT12_NAME| == 8 && forall i :: 0 <= i < 8 ==> FAT12_NAME[i] == NAME12[i] as int
    ensures |FAT16_NAME| == 8 && forall i :: 0 <= i < 8 ==> FAT16_NAME[i] == NAME16[i] as int
    ensures |FAT32_NAME| == 8 && forall i :: 0 <= i < 8 ==> FAT32_NAME[i] == NAME32[i] as int
  {
  }

  lemma BackupThere(s: seq<byte>, e: Ext)
    requires |s| == 512 && Holds(s, 36, Ext32Bytes(e))
    requires e.flags < U16 && e.version < U16 && e.root < U32 && e.info < U16
    ensures Two(s, 40) == e.flags && Two(s, 42) == e.version && Four(s, 44) == e.root && Two(s, 48) == e.info
    ensures Two(s, 50) == 6 && forall k :: 52 <= k < 64 ==> s[k] == 0
  {
    hide LeBytes, Num, Holds, Pow, Zeros, Two, Four;
    Widths();
    var r5 := LeBytes(BACKUP_BOOT_SECTOR, 2) + Zeros(12);
    var r4 := LeBytes(e.info, 2) + r5;
    var r3 := LeBytes(e.root, 4) + r4;
    var r2 := LeBytes(e.version, 2) + r3;
    HoldsSplit(s, 36, LeBytes(e.fatSectors32, 4), LeBytes(e.flags, 2) + r2);
    Take(s, 40, e.flags, 2, r2);
    Take(s, 42, e.version, 2, r3);
    Take(s, 44, e.root, 4, r4);
    Take(s, 48, e.info, 2, r5);
    Take(s, 50, BACKUP_BOOT_SECTOR, 2, Zeros(12));
    NumTwo(s, 40);
    NumTwo(s, 42);
    NumFour(s, 44);
    NumTwo(s, 48);
    NumTwo(s, 50);
    HeldAt(s, 52, Zeros(12));
    forall k | 52 <= k < 64
      ensures s[k] == 0
    {
      assert s[52 + (k - 52)] == Zeros(12)[k - 52];
    }
  }
}

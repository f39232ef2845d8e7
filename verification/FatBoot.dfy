/** Boot sectors: what formatting writes, what mounting accepts, and the geometry it reads. */
module FatBoot {
  import opened Wrappers
  import opened Bytes
  import opened FatEntry
  import opened FatLayout

  const BOOT_SIGNATURE: nat := 0xAA55
  const FS_INFO_SECTOR: nat := 1
  const BACKUP_BOOT_SECTOR: nat := 6
  const ROOT_CLUSTER: nat := 2
  const BOOT_STUB: seq<byte> := [0xCD, 0x18, 0xF4, 0xEB, 0xFD]

  /** The little-endian number stored in `n` bytes at `at`. */
  function Num(s: seq<byte>, at: nat, n: nat): nat
    requires at + n <= |s|
  {
    LeValue(s[at..at + n])
  }

  // ------------------------------------------------------------------
  // Reading
  // ------------------------------------------------------------------

  datatype BootError =
    | NotFat(field: string)
    | Corrupt(field: string)
    | Signature(found: nat)
    | RootCluster(cluster: nat, max: nat)

  /** A region before the data, or a chain of clusters. */
  datatype RootLocation = Fixed(start: nat, size: nat) | Cluster(first: nat)

  datatype Geometry = Geometry(
    kind: FatKind, sectorSize: nat, clusterSize: nat, clusterShift: nat, reservedSectors: nat, fatStart: nat,
    fatSize: nat, fatCount: nat, activeFat: nat, mirrored: bool, root: RootLocation, dataStart: nat,
    maxCluster: nat, fsInfoSector: Option<nat>, volumeSerial: Option<nat>)
  {
    /** Byte offset of a FAT copy. */
    function FatCopy(copy: nat): nat {
      fatStart + copy * fatSize
    }

    /** The end of the data region. */
    function DataEnd(): nat
      requires maxCluster >= 1
    {
      dataStart + (maxCluster - 1) * clusterSize
    }

    /** Where a cluster starts, if it is a data cluster. */
    function ClusterOffset(cluster: nat): Option<nat> {
      if cluster < FIRST_DATA_CLUSTER || cluster > maxCluster then None
      else Some(dataStart + (cluster - FIRST_DATA_CLUSTER) * clusterSize)
    }
  }

  /** The BIOS parameter block fields that mounting reads. */
  datatype Bpb = Bpb(
    sectorSize: nat, clusterSectors: nat, reserved: nat, fats: nat, rootEntries: nat, total16: nat, fatSectors16: nat,
    total32: nat)
  {
    /** Which record follows the parameter block is told by two fields that are zero. */
    predicate IsFat32() {
      rootEntries == 0 && fatSectors16 == 0
    }

    function Total(): nat {
      if total16 != 0 then total16 else total32
    }
  }

  /** The extended record after it; the first five fields are FAT32's. */
  datatype Ext = Ext(fatSectors32: nat, flags: nat, version: nat, root: nat, info: nat, bootSig: nat, id: nat, signature: nat)

  function ReadBpb(s: seq<byte>): Bpb
    requires |s| == 512
  {
    Bpb(Num(s, 11, 2), Num(s, 13, 1), Num(s, 14, 2), Num(s, 16, 1), Num(s, 17, 2), Num(s, 19, 2), Num(s, 22, 2), Num(s, 32, 4))
  }

  function ReadExt(s: seq<byte>, fat32: bool): Ext
    requires |s| == 512
  {
    if fat32 then
      Ext(Num(s, 36, 4), Num(s, 40, 2), Num(s, 42, 2), Num(s, 44, 4), Num(s, 48, 2),
          Num(s, 66, 1), Num(s, 67, 4), Num(s, 510, 2))
    else Ext(0, 0, 0, 0, 0, Num(s, 38, 1), Num(s, 39, 4), Num(s, 510, 2))
  }

  /** The fault in the sector and cluster sizes, if any. */
  function SizeFault(b: Bpb): Option<BootError> {
    if !SectorSize(b.sectorSize) then Some(NotFat("bytes_per_sector"))
    else if !ClusterSectors(b.clusterSectors) then Some(NotFat("sectors_per_cluster"))
    else if b.clusterSectors * b.sectorSize > 64 * 1024 then Some(NotFat("cluster size"))
    else None
  }

  /** The fault in the signature, the version, or the FAT and reserved counts. */
  function RecordFault(b: Bpb, e: Ext): Option<BootError> {
    if e.signature != BOOT_SIGNATURE then Some(Signature(e.signature))
    else if b.IsFat32() && e.version != 0 then Some(Corrupt("version"))
    else if b.fats != 1 && b.fats != 2 then Some(Corrupt("fat_count"))
    else if b.reserved == 0 then Some(Corrupt("reserved_sector_count"))
    else None
  }

  /** The FAT size field of the record in use. */
  function FatSectorsOf(b: Bpb, e: Ext): nat {
    if b.IsFat32() then e.fatSectors32 else b.fatSectors16
  }

  /** Sectors before the data region. */
  function MetadataSectors(b: Bpb, e: Ext): nat
    requires b.sectorSize > 0
  {
    b.reserved + b.fats * FatSectorsOf(b, e) + RootSectors(b.rootEntries, b.sectorSize)
  }

  function ClusterCount(b: Bpb, e: Ext): nat
    requires b.sectorSize > 0 && b.clusterSectors > 0
  {
    Beside(b.Total(), MetadataSectors(b, e), b.clusterSectors)
  }

  function TrailingZeros(n: nat): nat {
    if n == 0 || n % 2 == 1 then 0 else 1 + TrailingZeros(n / 2)
  }

  /** The serial an extended boot signature records. */
  function Serial(e: Ext): Option<nat> {
    if e.bootSig == 0x28 || e.bootSig == 0x29 then Some(e.id) else None
  }

  function Geometry16(b: Bpb, e: Ext): Result<Geometry, BootError>
    requires b.sectorSize > 0 && b.clusterSectors > 0
  {
    var ss := b.sectorSize;
    var rootSize := b.rootEntries * 32;
    var fatStart := b.reserved * ss;
    var rootStart := fatStart + b.fats * b.fatSectors16 * ss;
    var count := ClusterCount(b, e);
    var clusterSize := b.clusterSectors * ss;
    if rootSize == 0 then Err(Corrupt("root_entry_count"))
    else if count > Fat16.MaxClusters() then Err(Corrupt("too many clusters"))
    else
      Ok(Geometry(if count <= Fat12.MaxClusters() then Fat12 else Fat16, ss, clusterSize, TrailingZeros(clusterSize),
                  b.reserved, fatStart, b.fatSectors16 * ss, b.fats, 0, true, Fixed(rootStart, rootSize),
                  rootStart + RootSectors(b.rootEntries, ss) * ss, count + 1, None, Serial(e)))
  }

  function Geometry32(b: Bpb, e: Ext): Result<Geometry, BootError>
    requires b.sectorSize > 0 && b.clusterSectors > 0
  {
    var ss := b.sectorSize;
    var fatStart := b.reserved * ss;
    var count := ClusterCount(b, e);
    var clusterSize := b.clusterSectors * ss;
    var mirrored := e.flags / 0x80 % 2 == 0;
    if count > Fat32.MaxClusters() then Err(Corrupt("too many clusters"))
    else if e.root < FIRST_DATA_CLUSTER || e.root > count + 1 then Err(RootCluster(e.root, count + 1))
    else
      Ok(Geometry(Fat32, ss, clusterSize, TrailingZeros(clusterSize), b.reserved, fatStart, e.fatSectors32 * ss, b.fats,
                  if mirrored then 0 else e.flags % 16, mirrored, Cluster(e.root),
                  fatStart + b.fats * e.fatSectors32 * ss, count + 1,
                  if e.info != 0 && e.info < b.reserved then Some(e.info) else None, Serial(e)))
  }

  /** The checks of the whole geometry. */
  function Check(geo: Geometry): Result<Geometry, BootError> {
    if geo.maxCluster < FIRST_DATA_CLUSTER then Err(Corrupt("no data cluster"))
    else if geo.activeFat >= geo.fatCount then Err(Corrupt("ext_flags"))
    else if geo.kind.EntryOffset(geo.maxCluster) + geo.kind.EntryLen() > geo.fatSize then Err(Corrupt("FAT too small"))
    else Ok(geo)
  }

  /** Checks a boot record and gives the volume's geometry. */
  function Accept(b: Bpb, e: Ext): Result<Geometry, BootError> {
    if SizeFault(b).Some? then Err(SizeFault(b).value)
    else if RecordFault(b, e).Some? then Err(RecordFault(b, e).value)
    else
      var geo :- if b.IsFat32() then Geometry32(b, e) else Geometry16(b, e);
      Check(geo)
  }

  function ParseBoot(s: seq<byte>): Result<Geometry, BootError>
    requires |s| == 512
  {
    Accept(ReadBpb(s), ReadExt(s, ReadBpb(s).IsFat32()))
  }

  // ------------------------------------------------------------------
  // What is accepted
  // ------------------------------------------------------------------

  /** The end of the root directory's sectors. */
  function RootEnd(geo: Geometry): nat
    requires geo.sectorSize > 0
  {
    match geo.root
    case Fixed(start, size) => start + CeilDiv(size, geo.sectorSize) * geo.sectorSize
    case Cluster(_) => geo.FatCopy(geo.fatCount)
  }

  /** The regions follow in order: boot record and reserved sectors, FAT copies, root directory, data. */
  predicate InOrder(geo: Geometry, size: int) {
    && geo.maxCluster >= 1 && geo.sectorSize > 0
    && 512 <= geo.fatStart == geo.reservedSectors * geo.sectorSize
    && (geo.root.Fixed? ==> geo.root.start == geo.FatCopy(geo.fatCount) && geo.root.size > 0)
    && geo.dataStart == RootEnd(geo)
    && geo.DataEnd() <= size
  }

  predicate InFat(geo: Geometry, c: nat) {
    geo.kind.EntryOffset(c) + geo.kind.EntryLen() <= geo.fatSize
  }

  /** Distinct clusters lie in the data region, one after the other. */
  predicate ClustersApart(geo: Geometry, c: nat, d: nat)
    requires FIRST_DATA_CLUSTER <= c < d <= geo.maxCluster
  {
    && geo.dataStart <= geo.ClusterOffset(c).value
    && geo.ClusterOffset(c).value + geo.clusterSize <= geo.ClusterOffset(d).value
    && geo.ClusterOffset(d).value + geo.clusterSize <= geo.DataEnd()
  }

  lemma Distribute(a: nat, b: nat, c: nat, d: nat)
    ensures (a + b + c) * d == a * d + b * d + c * d
  {
  }

  lemma Associate(a: nat, b: nat, c: nat)
    ensures a * b * c == a * (b * c)
  {
  }

  /** The data region starts after the metadata sectors. */
  lemma DataStartAt(b: Bpb, e: Ext)
    requires b.sectorSize > 0 && b.clusterSectors > 0
    requires var geo := if b.IsFat32() then Geometry32(b, e) else Geometry16(b, e); geo.Ok?
    ensures var geo := (if b.IsFat32() then Geometry32(b, e) else Geometry16(b, e)).value;
            && geo.dataStart == MetadataSectors(b, e) * b.sectorSize
            && geo.FatCopy(geo.fatCount) == (b.reserved + b.fats * FatSectorsOf(b, e)) * b.sectorSize
            && geo.maxCluster == ClusterCount(b, e) + 1
  {
    hide Beside, CeilDiv;
    var ss := b.sectorSize;
    Distribute(b.reserved, b.fats * FatSectorsOf(b, e), RootSectors(b.rootEntries, ss), ss);
    Distribute(b.reserved, b.fats * FatSectorsOf(b, e), 0, ss);
    Associate(b.fats, FatSectorsOf(b, e), ss);
    assert RootSectors(0, ss) == 0 by { NoRoot(ss); }
  }

  lemma NoRoot(ss: nat)
    requires ss > 0
    ensures RootSectors(0, ss) == 0
  {
    DivIs(ss - 1, ss, 0);
  }

  /** What an accepted record says of its sizes and of the root directory. */
  lemma AcceptedSizes(b: Bpb, e: Ext)
    requires Accept(b, e).Ok?
    ensures SectorSize(b.sectorSize) && ClusterSectors(b.clusterSectors) && b.reserved > 0
    ensures Accept(b, e) == if b.IsFat32() then Geometry32(b, e) else Geometry16(b, e)
    ensures var geo := Accept(b, e).value;
            && geo.sectorSize == b.sectorSize && geo.reservedSectors == b.reserved && geo.maxCluster > 1
            && geo.fatStart == b.reserved * b.sectorSize && geo.clusterSize == b.clusterSectors * b.sectorSize
            && (geo.root.Fixed? ==> geo.root.start == geo.FatCopy(geo.fatCount) && geo.root.size > 0)
            && geo.dataStart == RootEnd(geo)
  {
    hide ClusterCount, CeilDiv, TrailingZeros;
    if !b.IsFat32() {
      Associate(b.fats, b.fatSectors16, b.sectorSize);
    } else {
      Associate(b.fats, e.fatSectors32, b.sectorSize);
    }
  }

  /** Every accepted boot sector describes a sound volume: regions in order, without overlap, inside the size it declares. */
  lemma AcceptedInOrder(b: Bpb, e: Ext)
    requires Accept(b, e).Ok?
    ensures b.sectorSize > 0 && InOrder(Accept(b, e).value, b.Total() * b.sectorSize)
  {
    AcceptedSizes(b, e);
    DataStartAt(b, e);
    hide *;
    var geo := Accept(b, e).value;
    var meta, spc, ss, count := MetadataSectors(b, e), b.clusterSectors, b.sectorSize, geo.maxCluster - 1;
    assert spc > 0 && ss >= 512 && count == ClusterCount(b, e) && count > 0 by {
      SizesPositive(b);
    }
    DataInside(b, e);
    MulMono(1, b.reserved, ss);
    OrderedRegions(geo, b.Total() * ss);
  }

  lemma SizesPositive(b: Bpb)
    requires SectorSize(b.sectorSize) && ClusterSectors(b.clusterSectors)
    ensures b.sectorSize >= 512 && b.clusterSectors > 0
  {
  }

  /** The data region ends within the declared sectors. */
  lemma DataInside(b: Bpb, e: Ext)
    requires b.sectorSize > 0 && b.clusterSectors > 0 && ClusterCount(b, e) > 0
    ensures MetadataSectors(b, e) * b.sectorSize + ClusterCount(b, e) * (b.clusterSectors * b.sectorSize)
         <= b.Total() * b.sectorSize
  {
    hide Beside, MetadataSectors, Bpb.Total;
    BesideRoomed(b.Total(), MetadataSectors(b, e), b.clusterSectors);
    InSize(b.Total(), MetadataSectors(b, e), b.clusterSectors, b.sectorSize, ClusterCount(b, e));
  }

  lemma OrderedRegions(geo: Geometry, size: int)
    requires geo.maxCluster > 1 && geo.sectorSize > 0
    requires 512 <= geo.fatStart == geo.reservedSectors * geo.sectorSize
    requires geo.root.Fixed? ==> geo.root.start == geo.FatCopy(geo.fatCount) && geo.root.size > 0
    requires geo.dataStart == RootEnd(geo)
    requires geo.dataStart + (geo.maxCluster - 1) * geo.clusterSize <= size
    ensures InOrder(geo, size)
  {
    hide CeilDiv, RootEnd;
  }

  lemma InSize(total: nat, meta: nat, spc: nat, ss: nat, count: nat)
    requires spc > 0 && meta <= total && count == (total - meta) / spc
    ensures meta * ss + count * (spc * ss) <= total * ss
  {
    var q := count * spc;
    assert q <= total - meta;
    MulMono(meta + q, total, ss);
    Distribute(meta, q, 0, ss);
    Associate(count, spc, ss);
  }

  /** Every cluster's entry lies wholly inside each FAT copy. */
  lemma AcceptedInFat(b: Bpb, e: Ext, c: nat)
    requires Accept(b, e).Ok? && c <= Accept(b, e).value.maxCluster
    ensures InFat(Accept(b, e).value, c)
  {
    hide SizeFault, RecordFault, Geometry16, Geometry32;
    OffsetMono(Accept(b, e).value.kind, c, Accept(b, e).value.maxCluster);
  }

  lemma OffsetMono(kind: FatKind, c: nat, d: nat)
    requires c <= d
    ensures kind.EntryOffset(c) <= kind.EntryOffset(d)
  {
  }

  /** Distinct clusters occupy disjoint ranges of the data region. */
  lemma AcceptedApart(b: Bpb, e: Ext, c: nat, d: nat)
    requires Accept(b, e).Ok? && FIRST_DATA_CLUSTER <= c < d <= Accept(b, e).value.maxCluster
    ensures ClustersApart(Accept(b, e).value, c, d)
  {
    hide Accept;
    CellsApart(Accept(b, e).value, c, d);
  }

  lemma CellsApart(geo: Geometry, c: nat, d: nat)
    requires FIRST_DATA_CLUSTER <= c < d <= geo.maxCluster
    ensures ClustersApart(geo, c, d)
  {
    var size := geo.clusterSize;
    MulMono(c - 1, d - 2, size);
    MulMono(d - 1, geo.maxCluster - 1, size);
    NextCell(c - 2, size);
    NextCell(d - 2, size);
  }

  lemma NextCell(k: nat, size: nat)
    ensures k * size + size == (k + 1) * size
  {
  }

  lemma Sizes(b: Bpb, e: Ext)
    requires b.sectorSize > 0 && b.clusterSectors > 0
    requires var geo := if b.IsFat32() then Geometry32(b, e) else Geometry16(b, e); geo.Ok?
    ensures var geo := (if b.IsFat32() then Geometry32(b, e) else Geometry16(b, e)).value;
            geo.clusterSize == b.clusterSectors * b.sectorSize && geo.clusterShift == TrailingZeros(geo.clusterSize)
  {
    hide Beside, MetadataSectors, TrailingZeros;
  }

  /** The cluster size is two to the shift, and the active copy exists. */
  lemma AcceptedShift(b: Bpb, e: Ext)
    requires Accept(b, e).Ok?
    ensures var geo := Accept(b, e).value;
            Pow(2, geo.clusterShift) == geo.clusterSize && 9 <= geo.clusterShift <= 16 && geo.activeFat < geo.fatCount
  {
    hide Beside, MetadataSectors, Pow, Geometry16, Geometry32, TrailingZeros;
    var geo := Accept(b, e).value;
    Sizes(b, e);
    SizePower(b.clusterSectors, b.sectorSize);
    ShiftOf(geo.clusterSize);
    ShiftRange(geo.clusterShift);
  }

  lemma {:induction false} ProductPower(a: nat, b: nat)
    requires PowerOfTwo(a) && PowerOfTwo(b)
    ensures PowerOfTwo(a * b)
    decreases a
  {
    if a > 1 {
      ProductPower(a / 2, b);
      var p := a / 2 * b;
      assert a * b == 2 * p;
      assert PowerOfTwo(2 * p / 2);
    }
  }

  lemma SizePower(spc: nat, ss: nat)
    requires ClusterSectors(spc) && SectorSize(ss) && spc * ss <= 0x1_0000
    ensures PowerOfTwo(spc * ss) && 512 <= spc * ss
  {
    PowersOfTwo();
    assert PowerOfTwo(8) && PowerOfTwo(64) && PowerOfTwo(128) && PowerOfTwo(32) by { SmallPowers(); }
    ProductPower(spc, ss);
    MulMono(1, spc, ss);
  }

  lemma SmallPowers()
    ensures PowerOfTwo(8) && PowerOfTwo(32) && PowerOfTwo(64) && PowerOfTwo(128)
  {
    assert PowerOfTwo(4) && PowerOfTwo(16);
  }

  lemma {:induction false} ShiftOf(n: nat)
    requires PowerOfTwo(n)
    ensures Pow(2, TrailingZeros(n)) == n
  {
    if n > 1 {
      ShiftOf(n / 2);
    }
  }

  lemma ShiftRange(k: nat)
    requires 512 <= Pow(2, k) <= 0x1_0000
    ensures 9 <= k <= 16
  {
    if k < 9 {
      PowUp(k, 8);
    } else if k > 16 {
      PowUp(17, k);
    }
  }

  lemma {:induction false} PowUp(j: nat, k: nat)
    requires j <= k
    ensures Pow(2, j) <= Pow(2, k)
    ensures Pow(2, 8) == 256 && Pow(2, 17) == 0x2_0000
    decreases k - j
  {
    assert Pow(2, 4) == 16 && Pow(2, 8) == 256 && Pow(2, 12) == 4096;
    assert Pow(2, 15) == 0x8000 && Pow(2, 17) == 0x2_0000;
    if j < k {
      PowUp(j, k - 1);
    }
  }

  // ------------------------------------------------------------------
  // Writing
  // ------------------------------------------------------------------

  /** What the caller chooses of a boot sector. */
  datatype BootFields = BootFields(oemName: seq<byte>, media: byte, hidden: nat, volumeId: nat, volumeLabel: Option<seq<byte>>)

  predicate FieldsTyped(f: BootFields) {
    |f.oemName| == 8 && f.hidden < U32 && f.volumeId < U32 && (f.volumeLabel.Some? ==> |f.volumeLabel.value| == 11)
  }

  const NO_LABEL: seq<byte> := [78, 79, 32, 78, 65, 77, 69, 32, 32, 32, 32]
  const FAT12_NAME: seq<byte> := [70, 65, 84, 49, 50, 32, 32, 32]
  const FAT16_NAME: seq<byte> := [70, 65, 84, 49, 54, 32, 32, 32]
  const FAT32_NAME: seq<byte> := [70, 65, 84, 51, 50, 32, 32, 32]

  function CodeStart(kind: FatKind): nat {
    if kind == Fat32 then 0x5A else 0x3E
  }

  /** The sector count goes to the 16-bit field when it fits there, except on FAT32. */
  function Small(l: Layout): bool {
    l.kind != Fat32 && l.totalSectors < U16
  }

  function BpbOf(l: Layout): Bpb {
    Bpb(l.sectorSize, l.clusterSectors, l.reservedSectors, l.fatCount, l.rootEntries,
        if Small(l) then l.totalSectors else 0, if l.kind == Fat32 then 0 else l.fatSectors,
        if Small(l) then 0 else l.totalSectors)
  }

  function ExtOf(l: Layout, f: BootFields): Ext {
    if l.kind == Fat32 then Ext(l.fatSectors, 0, 0, ROOT_CLUSTER, FS_INFO_SECTOR, 0x29, f.volumeId, BOOT_SIGNATURE)
    else Ext(0, 0, 0, 0, 0, 0x29, f.volumeId, BOOT_SIGNATURE)
  }

  /** The second half of the parameter block, from the 16-bit sector count on. */
  function BpbTail(b: Bpb, f: BootFields): (s: seq<byte>)
    ensures |s| == 17
  {
    LeBytes(b.total16, 2) + ([f.media] + (LeBytes(b.fatSectors16, 2) + (LeBytes(63, 2) + (LeBytes(255, 2)
    + (LeBytes(f.hidden, 4) + LeBytes(b.total32, 4))))))
  }

  function BpbBytes(b: Bpb, kind: FatKind, f: BootFields): (s: seq<byte>)
    requires FieldsTyped(f)
    ensures |s| == 36
  {
    [0xEB, CodeStart(kind) - 2, 0x90] + (f.oemName + (LeBytes(b.sectorSize, 2) + (LeBytes(b.clusterSectors, 1)
    + (LeBytes(b.reserved, 2) + (LeBytes(b.fats, 1) + (LeBytes(b.rootEntries, 2) + BpbTail(b, f)))))))
  }

  /** Drive, signature, serial, label and type name, the boot code, and the sector's signature. */
  function RecordBytes(kind: FatKind, e: Ext, f: BootFields): (s: seq<byte>)
    requires FieldsTyped(f)
    ensures |s| == 512 - CodeStart(kind) + 26
  {
    [if f.media == 0xF8 then 0x80 else 0] + ([0] + (LeBytes(e.bootSig, 1) + (LeBytes(e.id, 4)
    + ((if f.volumeLabel.Some? then f.volumeLabel.value else NO_LABEL)
    + ((match kind case Fat12 => FAT12_NAME case Fat16 => FAT16_NAME case Fat32 => FAT32_NAME)
    + (Patched(Zeros(510 - CodeStart(kind)), BOOT_STUB) + LeBytes(e.signature, 2)))))))
  }

  /** `s` with `part` stored at its start. */
  function Patched(s: seq<byte>, part: seq<byte>): (r: seq<byte>)
    requires |part| <= |s|
    ensures |r| == |s|
  {
    part + s[|part|..]
  }

  function Ext32Bytes(e: Ext): (s: seq<byte>)
    ensures |s| == 28
  {
    LeBytes(e.fatSectors32, 4) + (LeBytes(e.flags, 2) + (LeBytes(e.version, 2) + (LeBytes(e.root, 4) + (LeBytes(e.info, 2)
    + (LeBytes(BACKUP_BOOT_SECTOR, 2) + Zeros(12))))))
  }

  /** The encoded boot record, field after field. */
  function EncodeBoot(l: Layout, f: BootFields): (s: seq<byte>)
    requires FieldsTyped(f)
    ensures |s| == 512
  {
    var e := ExtOf(l, f);
    BpbBytes(BpbOf(l), l.kind, f)
    + ((if l.kind == Fat32 then Ext32Bytes(e) else []) + RecordBytes(l.kind, e, f))
  }

  lemma NumHolds(s: seq<byte>, at: nat, n: nat, v: nat)
    requires Holds(s, at, LeBytes(v, n)) && v < Pow(256, n)
    ensures at + n <= |s| && Num(s, at, n) == v
  {
    LeBytesValue(v, n);
  }

  /** One little-endian field and what follows it. */
  lemma Take(s: seq<byte>, at: nat, v: nat, n: nat, rest: seq<byte>)
    requires Holds(s, at, LeBytes(v, n) + rest) && v < Pow(256, n)
    ensures at + n <= |s| && Num(s, at, n) == v && Holds(s, at + n, rest)
  {
    HoldsSplit(s, at, LeBytes(v, n), rest);
    NumHolds(s, at, n, v);
  }

  lemma Widths()
    ensures Pow(256, 1) == 256 && Pow(256, 2) == 0x1_0000 && Pow(256, 4) == 0x1_0000_0000
  {
  }

  predicate BpbTyped(b: Bpb) {
    && b.sectorSize < U16 && b.clusterSectors < 256 && b.reserved < U16 && b.fats < 256 && b.rootEntries < U16
    && b.total16 < U16 && b.fatSectors16 < U16 && b.total32 < U32
  }

  lemma TailReads(s: seq<byte>, b: Bpb, f: BootFields)
    requires |s| == 512 && BpbTyped(b) && f.hidden < U32 && Holds(s, 19, BpbTail(b, f))
    ensures Num(s, 19, 2) == b.total16 && Num(s, 22, 2) == b.fatSectors16 && Num(s, 32, 4) == b.total32
  {
    hide LeBytes, Num, Holds, Pow;
    Widths();
    var r5 := LeBytes(f.hidden, 4) + LeBytes(b.total32, 4);
    var r4 := LeBytes(255, 2) + r5;
    var r3 := LeBytes(63, 2) + r4;
    var r2 := LeBytes(b.fatSectors16, 2) + r3;
    Take(s, 19, b.total16, 2, [f.media] + r2);
    HoldsSplit(s, 21, [f.media], r2);
    Take(s, 22, b.fatSectors16, 2, r3);
    Take(s, 24, 63, 2, r4);
    Take(s, 26, 255, 2, r5);
    Take(s, 28, f.hidden, 4, LeBytes(b.total32, 4));
    NumHolds(s, 32, 4, b.total32);
  }

  lemma BpbReads(s: seq<byte>, b: Bpb, kind: FatKind, f: BootFields)
    requires |s| == 512 && BpbTyped(b) && FieldsTyped(f) && Holds(s, 0, BpbBytes(b, kind, f))
    ensures ReadBpb(s) == b
  {
    hide LeBytes, Num, Holds, Pow, BpbTail;
    Widths();
    var r6 := LeBytes(b.rootEntries, 2) + BpbTail(b, f);
    var r5 := LeBytes(b.fats, 1) + r6;
    var r4 := LeBytes(b.reserved, 2) + r5;
    var r3 := LeBytes(b.clusterSectors, 1) + r4;
    var r2 := LeBytes(b.sectorSize, 2) + r3;
    HoldsSplit(s, 0, [0xEB, CodeStart(kind) - 2, 0x90], f.oemName + r2);
    HoldsSplit(s, 3, f.oemName, r2);
    Take(s, 11, b.sectorSize, 2, r3);
    Take(s, 13, b.clusterSectors, 1, r4);
    Take(s, 14, b.reserved, 2, r5);
    Take(s, 16, b.fats, 1, r6);
    Take(s, 17, b.rootEntries, 2, BpbTail(b, f));
    TailReads(s, b, f);
  }

  lemma RecordReads(s: seq<byte>, at: nat, kind: FatKind, e: Ext, f: BootFields)
    requires |s| == 512 && FieldsTyped(f) && at == CodeStart(kind) - 26 && Holds(s, at, RecordBytes(kind, e, f))
    requires e.bootSig < 256 && e.id < U32 && e.signature < U16
    ensures Num(s, at + 2, 1) == e.bootSig && Num(s, at + 3, 4) == e.id && Num(s, 510, 2) == e.signature
  {
    hide LeBytes, Num, Holds, Pow, Patched, Zeros;
    Widths();
    var pad := Patched(Zeros(510 - CodeStart(kind)), BOOT_STUB);
    var volumeLabel := if f.volumeLabel.Some? then f.volumeLabel.value else NO_LABEL;
    var name := match kind case Fat12 => FAT12_NAME case Fat16 => FAT16_NAME case Fat32 => FAT32_NAME;
    var r6 := pad + LeBytes(e.signature, 2);
    var r5 := name + r6;
    var r4 := volumeLabel + r5;
    var r3 := LeBytes(e.id, 4) + r4;
    var r2 := LeBytes(e.bootSig, 1) + r3;
    HoldsSplit(s, at, [if f.media == 0xF8 then 0x80 else 0], [0] + r2);
    HoldsSplit(s, at + 1, [0], r2);
    Take(s, at + 2, e.bootSig, 1, r3);
    Take(s, at + 3, e.id, 4, r4);
    HoldsSplit(s, at + 7, volumeLabel, r5);
    HoldsSplit(s, at + 18, name, r6);
    HoldsSplit(s, at + 26, pad, LeBytes(e.signature, 2));
    NumHolds(s, 510, 2, e.signature);
  }

  lemma Ext32Reads(s: seq<byte>, e: Ext)
    requires |s| == 512 && Holds(s, 36, Ext32Bytes(e))
    requires e.fatSectors32 < U32 && e.flags < U16 && e.version < U16 && e.root < U32 && e.info < U16
    ensures Num(s, 36, 4) == e.fatSectors32 && Num(s, 40, 2) == e.flags && Num(s, 42, 2) == e.version
    ensures Num(s, 44, 4) == e.root && Num(s, 48, 2) == e.info
  {
    hide LeBytes, Num, Holds, Pow, Zeros;
    Widths();
    var r5 := LeBytes(BACKUP_BOOT_SECTOR, 2) + Zeros(12);
    var r4 := LeBytes(e.info, 2) + r5;
    var r3 := LeBytes(e.root, 4) + r4;
    var r2 := LeBytes(e.version, 2) + r3;
    var r1 := LeBytes(e.flags, 2) + r2;
    Take(s, 36, e.fatSectors32, 4, r1);
    Take(s, 40, e.flags, 2, r2);
    Take(s, 42, e.version, 2, r3);
    Take(s, 44, e.root, 4, r4);
    Take(s, 48, e.info, 2, r5);
  }

  lemma HoldsFirst(a: seq<byte>, b: seq<byte>)
    ensures Holds(a + b, 0, a) && Holds(a + b, |a|, b)
  {
  }

  /** The fields of an encoded sector read back. */
  lemma FieldsRead(l: Layout, f: BootFields)
    requires Laid(l) && FieldsTyped(f)
    ensures var s := EncodeBoot(l, f);
            ReadBpb(s) == BpbOf(l) && ReadExt(s, l.kind == Fat32) == ExtOf(l, f)
  {
    hide BpbBytes, RecordBytes, Ext32Bytes, Holds, ReadBpb, Laid, Num;
    LaidTyped(l);
    var e := ExtOf(l, f);
    var s := EncodeBoot(l, f);
    var head := BpbBytes(BpbOf(l), l.kind, f);
    var ext := if l.kind == Fat32 then Ext32Bytes(e) else [];
    var record := RecordBytes(l.kind, e, f);
    HoldsFirst(head, ext + record);
    BpbReads(s, BpbOf(l), l.kind, f);
    HoldsSplit(s, 36, ext, record);
    RecordReads(s, CodeStart(l.kind) - 26, l.kind, e, f);
    if l.kind == Fat32 {
      Ext32Reads(s, e);
    }
  }

  lemma LaidTyped(l: Layout)
    requires Laid(l)
    ensures BpbTyped(BpbOf(l)) && l.fatSectors < U32 && l.totalSectors > 0
  {
    hide Covers, RootSectors;
    DivIs(0, l.clusterSectors, 0);
  }

  /** What mounting a formatted volume must see. */
  function GeometryOf(l: Layout, f: BootFields): Geometry
    requires Laid(l)
  {
    var ss := l.sectorSize;
    var fatEnd := (l.reservedSectors + l.fatCount * l.fatSectors) * ss;
    Geometry(l.kind, ss, l.clusterSectors * ss, TrailingZeros(l.clusterSectors * ss), l.reservedSectors,
             l.reservedSectors * ss, l.fatSectors * ss, l.fatCount, 0, true,
             if l.kind == Fat32 then Cluster(ROOT_CLUSTER) else Fixed(fatEnd, l.rootEntries * 32),
             DataSector(l) * ss, l.clusters + 1, if l.kind == Fat32 then Some(FS_INFO_SECTOR) else None, Some(f.volumeId))
  }

  /** Every entry of a planned FAT lies inside it, the odd and the even FAT12 counts alike. */
  lemma EntriesFit(kind: FatKind, clusters: nat, fat: nat, ss: nat)
    requires Covers(kind, clusters, fat, ss)
    ensures kind.EntryOffset(clusters + 1) + kind.EntryLen() <= fat * ss
  {
  }

  /**
   * Whatever layout is planned and whatever the other fields say, the encoded boot sector is
   * accepted and gives back that layout.
   */
  lemma PlanRoundTrip(l: Layout, f: BootFields)
    requires Laid(l) && FieldsTyped(f)
    ensures ParseBoot(EncodeBoot(l, f)) == Ok(GeometryOf(l, f))
  {
    hide ReadBpb, ReadExt, EncodeBoot, Covers, Beside, CeilDiv, TrailingZeros, MetadataSectors, DataSector;
    FieldsRead(l, f);
    LaidTyped(l);
    var b, e := BpbOf(l), ExtOf(l, f);
    assert b.IsFat32() <==> l.kind == Fat32;
    CountsAgree(l, f);
    EntriesFit(l.kind, l.clusters, l.fatSectors, l.sectorSize);
    ClusterBytes(l.clusterSectors, l.sectorSize);
    DataStartAt(b, e);
    Associate(l.fatCount, l.fatSectors, l.sectorSize);
    Distribute(l.reservedSectors, l.fatCount * l.fatSectors, 0, l.sectorSize);
  }

  lemma ClusterBytes(s: nat, ss: nat)
    requires SectorSize(ss) && ClusterSectors(s) && s <= MaxSectors(ss)
    ensures s * ss <= 64 * 1024
  {
    MulMono(s, MaxSectors(ss), ss);
  }

  /** Mounting counts the clusters that planning did. */
  lemma CountsAgree(l: Layout, f: BootFields)
    requires Laid(l)
    ensures var b, e := BpbOf(l), ExtOf(l, f);
            MetadataSectors(b, e) == DataSector(l) && ClusterCount(b, e) == l.clusters && b.Total() == l.totalSectors
  {
    hide RootSectors, Covers;
    LaidTyped(l);
  }

  /** The entries at the start of each FAT: what mounting demands of them, and FAT32's root chain. */
  method ReservedFatEntries(kind: FatKind, media: byte) returns (entries: array<byte>, len: nat)
    ensures fresh(entries) && entries.Length == 12
    ensures kind.ReservedEntriesValid(media, Stored(kind, entries[..], 0), Stored(kind, entries[..], 1))
    ensures kind == Fat32 ==> forall max :: kind.Next(Stored(kind, entries[..], ROOT_CLUSTER), max) == Ok(None)
    ensures len == if kind == Fat32 then 12 else if kind == Fat16 then 4 else 3
  {
    hide Stored, Updated, FatEntry.Fits, FatKind.ReservedEntriesValid, FatKind.Next, FatKind.Span, FatKind.EndOfChain;
    ReservedFits(kind, media);
    entries := new byte[12](_ => 0);
    ghost var zeros := entries[..];
    Encode(kind, 0, kind.Span() - 256 + media, entries);
    ghost var first := entries[..];
    Encode(kind, 1, kind.Span() - 1, entries);
    ghost var second := entries[..];
    if kind == Fat32 {
      Encode(kind, ROOT_CLUSTER, kind.EndOfChain(), entries);
    }
    ReservedStored(kind, media, zeros, first, second, entries[..]);
    var count := if kind == Fat32 then 3 else 2;
    len := kind.EntryOffset(count - 1) + kind.EntryLen();
  }

  lemma ReservedFits(kind: FatKind, media: byte)
    ensures FatEntry.Fits(kind, 12, 0) && FatEntry.Fits(kind, 12, 1) && (kind == Fat32 ==> FatEntry.Fits(kind, 12, 2))
    ensures 256 <= kind.Span() <= U32 && kind.Span() - 256 + media < U32 && kind.EndOfChain() < U32
  {
  }

  /** Three entries stored one after the other read as what was stored. */
  lemma ReservedStored(kind: FatKind, media: byte, zeros: seq<byte>, first: seq<byte>, second: seq<byte>, all: seq<byte>)
    requires |zeros| == |first| == |second| == |all| == 12
    requires kind.Span() >= 256 && FatEntry.Fits(kind, 12, 0) && FatEntry.Fits(kind, 12, 1)
    requires Updated(kind, zeros, first, 0, kind.Span() - 256 + media)
    requires Updated(kind, first, second, 1, kind.Span() - 1)
    requires if kind == Fat32 then FatEntry.Fits(kind, 12, 2) && Updated(kind, second, all, 2, kind.EndOfChain())
             else all == second
    ensures kind.ReservedEntriesValid(media, Stored(kind, all, 0), Stored(kind, all, 1))
    ensures kind == Fat32 ==> forall max :: kind.Next(Stored(kind, all, ROOT_CLUSTER), max) == Ok(None)
  {
    hide Stored, FatKind.ReservedEntriesValid, FatKind.Next, FatEntry.Fits;
    ReservedRead(kind, media, Stored(kind, all, 0), Stored(kind, all, 1));
    if kind == Fat32 {
      EndRead(Stored(kind, all, ROOT_CLUSTER));
    }
  }

  lemma ReservedRead(kind: FatKind, media: byte, first: nat, second: nat)
    requires first % kind.Span() == kind.Span() - 256 + media
    requires second % kind.Span() == kind.Span() - 1
    ensures kind.ReservedEntriesValid(media, first, second)
  {
    match kind {
      case Fat12 =>
      case Fat16 => Quarter16(second);
      case Fat32 => Quarter32(second);
    }
  }

  lemma Quarter16(v: nat)
    requires v % 0x1_0000 == 0xFFFF
    ensures v % 0x4000 == 0x3FFF
  {
    assert v == 0x4000 * (4 * (v / 0x1_0000) + 3) + 0x3FFF;
  }

  lemma Quarter32(v: nat)
    requires v % 0x1000_0000 == 0x0FFF_FFFF
    ensures v % 0x400_0000 == 0x3FF_FFFF
  {
    assert v == 0x400_0000 * (4 * (v / 0x1000_0000) + 3) + 0x3FF_FFFF;
  }

  lemma EndRead(stored: nat)
    requires stored % Fat32.Span() == Fat32.EndOfChain() % Fat32.Span()
    ensures forall max :: Fat32.Next(stored, max) == Ok(None)
  {
  }
}

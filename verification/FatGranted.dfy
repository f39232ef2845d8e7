/** What a planned volume must be, in numbers, and that the plan is that one layout. */
module FatGranted {
  import opened Wrappers
  import opened Bytes
  import opened FatEntry
  import opened FatLayout

  /** The variant asked for; without one FAT12 below 16 MiB, FAT32 from 512 MiB on, and FAT16 between. */
  predicate KindGranted(q: Request, kind: FatKind) {
    var bytes := q.totalSectors * q.sectorSize;
    match q.kind
    case Some(asked) => kind == asked
    case None =>
      match kind
      case Fat12 => bytes < 0x100_0000
      case Fat16 => 0x100_0000 <= bytes < 0x2000_0000
      case Fat32 => 0x2000_0000 <= bytes
  }

  /** The reserved sectors asked for, at least 8 on FAT32 and 1 otherwise; without any, 32 on FAT32 and 1 otherwise. */
  predicate ReservedGranted(q: Request, kind: FatKind, reserved: nat) {
    match q.reservedSectors
    case Some(asked) => reserved == asked >= if kind == Fat32 then 8 else 1
    case None => reserved == if kind == Fat32 then 32 else 1
  }

  /** The least number of root entries that is enough and fills whole sectors; none on FAT32. */
  predicate RootGranted(q: Request, kind: FatKind, entries: nat)
    requires q.sectorSize > 0
  {
    if kind == Fat32 then entries == 0
    else
      0 < q.rootEntries <= entries < 0x1_0000 && entries * 32 % q.sectorSize == 0
      && entries * 32 < q.rootEntries * 32 + q.sectorSize
  }

  /** The bits of an entry. */
  function Bits(kind: FatKind): nat {
    match kind
    case Fat12 => 12
    case Fat16 => 16
    case Fat32 => 32
  }

  /** The clusters of this many sectors that fit a room, and no more. */
  predicate Fill(clusters: nat, s: nat, room: int) {
    clusters * s <= room < clusters * s + s
  }

  /** Sectors of FAT that hold the entries of the clusters and the two reserved ones. */
  predicate Hold(kind: FatKind, clusters: nat, fat: nat, sectorSize: nat) {
    (clusters + 2) * Bits(kind) <= fat * sectorSize * 8
  }

  /** The range of cluster counts of each variant. */
  predicate InRange(kind: FatKind, clusters: nat) {
    match kind
    case Fat12 => 1 <= clusters <= 4084
    case Fat16 => 4085 <= clusters <= 65524
    case Fat32 => 65525 <= clusters <= 0x0FFF_FFF5
  }

  /** What FATs and clusters share. */
  function RoomOf(l: Layout): int
    requires l.sectorSize > 0
  {
    l.totalSectors - l.reservedSectors - l.rootEntries * 32 / l.sectorSize
  }

  /** `fat` is the least number of sectors that holds the entries of the clusters beside FATs of one sector. */
  predicate LeastFat(l: Layout, first: nat, fat: nat)
    requires l.sectorSize > 0
  {
    && Fill(first, l.clusterSectors, RoomOf(l) - l.fatCount)
    && Hold(l.kind, first, fat, l.sectorSize) && (fat == 0 || !Hold(l.kind, first, fat - 1, l.sectorSize))
  }

  /**
   * The clusters are those that fit behind everything else; FATs are of one sector if that holds their
   * entries, else of the least number that holds those of the clusters beside FATs of one sector.
   */
  ghost predicate SizedGranted(l: Layout)
    requires l.sectorSize > 0
  {
    && Fill(l.clusters, l.clusterSectors, RoomOf(l) - l.fatCount * l.fatSectors)
    && if l.fatSectors == 1 then Hold(l.kind, l.clusters, 1, l.sectorSize)
       else l.fatSectors > 1 && exists first: nat :: LeastFat(l, first, l.fatSectors)
  }

  /** The layout of a request with these choices. */
  function With(q: Request, kind: FatKind, reserved: nat, entries: nat, s: nat, fat: nat, clusters: nat): Layout {
    Layout(kind, q.sectorSize, s, reserved, q.fatCount, entries, q.totalSectors, fat, clusters)
  }

  /** Clusters of `s` sectors give a number of them that the variant has. */
  ghost predicate Works(q: Request, kind: FatKind, reserved: nat, entries: nat, s: nat)
    requires q.sectorSize > 0
  {
    exists fat: nat, clusters: nat ::
      SizedGranted(With(q, kind, reserved, entries, s, fat, clusters)) && InRange(kind, clusters)
  }

  /** The default cluster sizes by the size of the volume: in each row the largest MiB and the 512-byte sectors. */
  function DefaultRows(kind: FatKind): seq<(nat, nat)> {
    match kind
    case Fat12 => [(2, 1), (4, 2), (8, 4), (16, 8)]
    case Fat16 => [(8, 1), (16, 2), (32, 4), (64, 8), (128, 16), (256, 32), (512, 64)]
    case Fat32 => [(64, 1), (128, 2), (256, 4), (9215, 8), (17407, 16), (33791, 32)]
  }

  /** What volumes larger than the last row start from. */
  function LastDefault(kind: FatKind): nat {
    match kind
    case Fat12 => 16
    case Fat16 => 128
    case Fat32 => 64
  }

  /** Whether a volume is no larger than row `k` allows. */
  predicate Within(kind: FatKind, bytes: nat, k: nat)
    requires k < |DefaultRows(kind)|
  {
    bytes < DefaultRows(kind)[k].0 * 0x10_0000 + 0x10_0000
  }

  /** Whether `s` is the default: that of the first row that the volume is no larger than, or the last one. */
  predicate IsDefault(kind: FatKind, bytes: nat, s: nat) {
    var rows := DefaultRows(kind);
    (s == LastDefault(kind) && forall k :: 0 <= k < |rows| ==> !Within(kind, bytes, k))
    || exists k :: 0 <= k < |rows| && Within(kind, bytes, k) && s == rows[k].1
                   && forall j :: 0 <= j < k ==> !Within(kind, bytes, j)
  }

  /** The cluster size to start from: the default, from one sector up to 32 KiB. */
  predicate Starts(kind: FatKind, bytes: nat, sectorSize: nat, start: nat) {
    exists s :: s in {1, 2, 4, 8, 16, 32, 64, 128} && IsDefault(kind, bytes, s)
      && start * sectorSize ==
         if 512 * s < sectorSize then sectorSize else if 512 * s > 0x8000 then 0x8000 else 512 * s
  }

  /** The powers of two up to 32 KiB in sectors. */
  predicate Size(s: nat, sectorSize: nat) {
    s in {1, 2, 4, 8, 16, 32, 64} && s * sectorSize <= 0x8000
  }

  /** The cluster size asked for, or else the nearest to the default that works. */
  ghost predicate SizeGranted(q: Request, l: Layout)
    requires q.sectorSize > 0
  {
    && Size(l.clusterSectors, q.sectorSize)
    && match q.clusterSize
       case Some(size) => l.clusterSectors * q.sectorSize == size
       case None =>
         exists start: nat :: Starts(l.kind, q.totalSectors * q.sectorSize, q.sectorSize, start)
           && forall t: nat :: Size(t, q.sectorSize) && (start <= t < l.clusterSectors || l.clusterSectors < t <= start) ==>
                !Works(q, l.kind, l.reservedSectors, l.rootEntries, t)
  }

  /** What a layout must be to be the one that is planned. */
  ghost predicate Granted(q: Request, l: Layout) {
    && q.sectorSize in {512, 1024, 2048, 4096} && q.fatCount in {1, 2} && q.totalSectors < 0x1_0000_0000
    && l.sectorSize == q.sectorSize && l.fatCount == q.fatCount && l.totalSectors == q.totalSectors
    && KindGranted(q, l.kind) && ReservedGranted(q, l.kind, l.reservedSectors) && RootGranted(q, l.kind, l.rootEntries)
    && SizedGranted(l) && InRange(l.kind, l.clusters) && SizeGranted(q, l)
  }

  lemma FillRoom(clusters: nat, s: nat, room: int)
    requires Fill(clusters, s, room)
    ensures room >= 0
  {
    assert clusters * s >= 0;
  }

  lemma HoldIs(kind: FatKind, clusters: nat, fat: nat, sectorSize: nat)
    requires sectorSize > 0
    ensures Hold(kind, clusters, fat, sectorSize) <==> Covers(kind, clusters, fat, sectorSize)
    ensures Hold(kind, clusters, fat, sectorSize) <==> Needed(kind, clusters, sectorSize) <= fat
  {
    assert Bits(kind) == kind.EntryBits();
    CeilCovers((clusters + 2) * Bits(kind), 8, fat * sectorSize);
    NeededCovers(kind, clusters, fat, sectorSize);
  }

  lemma FillIs(clusters: nat, available: nat, taken: nat, s: nat)
    requires s > 0 && taken <= available
    ensures Fill(clusters, s, available - taken) <==> clusters == Beside(available, taken, s)
  {
    if Fill(clusters, s, available - taken) {
      DivIs(available - taken, s, clusters);
    }
  }

  lemma DefaultsAre(kind: FatKind, bytes: nat)
    ensures IsDefault(kind, bytes, DefaultSectors(kind, bytes))
  {
    hide IsDefault;
    match kind {
      case Fat12 => Defaults12(bytes);
      case Fat16 => Defaults16(bytes);
      case Fat32 => Defaults32(bytes);
    }
  }

  lemma Defaults12(bytes: nat)
    ensures IsDefault(Fat12, bytes, DefaultSectors(Fat12, bytes))
  {
    var rows, s := DefaultRows(Fat12), DefaultSectors(Fat12, bytes);
    if s != LastDefault(Fat12) || exists k :: 0 <= k < |rows| && Within(Fat12, bytes, k) {
      var k := if Within(Fat12, bytes, 0) then 0 else if Within(Fat12, bytes, 1) then 1
               else if Within(Fat12, bytes, 2) then 2 else 3;
      assert Within(Fat12, bytes, k) && s == rows[k].1;
    }
  }

  lemma Defaults16(bytes: nat)
    ensures IsDefault(Fat16, bytes, DefaultSectors(Fat16, bytes))
  {
    var rows, s := DefaultRows(Fat16), DefaultSectors(Fat16, bytes);
    if s != LastDefault(Fat16) || exists k :: 0 <= k < |rows| && Within(Fat16, bytes, k) {
      var k := if Within(Fat16, bytes, 0) then 0 else if Within(Fat16, bytes, 1) then 1
               else if Within(Fat16, bytes, 2) then 2 else if Within(Fat16, bytes, 3) then 3
               else if Within(Fat16, bytes, 4) then 4 else if Within(Fat16, bytes, 5) then 5 else 6;
      assert Within(Fat16, bytes, k) && s == rows[k].1;
    }
  }

  lemma Defaults32(bytes: nat)
    ensures IsDefault(Fat32, bytes, DefaultSectors(Fat32, bytes))
  {
    var rows, s := DefaultRows(Fat32), DefaultSectors(Fat32, bytes);
    if s != LastDefault(Fat32) || exists k :: 0 <= k < |rows| && Within(Fat32, bytes, k) {
      var k := if Within(Fat32, bytes, 0) then 0 else if Within(Fat32, bytes, 1) then 1
               else if Within(Fat32, bytes, 2) then 2 else if Within(Fat32, bytes, 3) then 3
               else if Within(Fat32, bytes, 4) then 4 else 5;
      assert Within(Fat32, bytes, k) && s == rows[k].1;
    }
  }

  lemma OneDefault(kind: FatKind, bytes: nat, s: nat, t: nat)
    requires IsDefault(kind, bytes, s) && IsDefault(kind, bytes, t)
    ensures s == t
  {
    hide Within, DefaultRows;
  }

  // ------------------------------------------------------------------
  // The parts of a plan
  // ------------------------------------------------------------------

  lemma KindIs(q: Request, kind: FatKind)
    ensures KindGranted(q, kind) <==> KindFor(q) == kind
  {
  }

  lemma ReservedIs(q: Request, kind: FatKind, reserved: nat)
    ensures ReservedGranted(q, kind, reserved) <==> ReservedFor(q, kind) == Ok(reserved)
  {
  }

  /** The least multiple that is enough is less than one step above what is asked. */
  lemma LeastMultiple(n: nat, per: nat)
    requires per > 0
    ensures n <= CeilDiv(n, per) * per < n + per
  {
    hide CeilDiv;
    var k := CeilDiv(n, per);
    CeilCovers(n, per, k);
    if k > 0 {
      CeilCovers(n, per, k - 1);
      assert (k - 1) * per == k * per - per;
    }
  }

  lemma OneMultiple(n: nat, per: nat, j: nat, k: nat)
    requires per > 0 && n <= j * per < n + per && n <= k * per < n + per
    ensures j == k
  {
    if j < k {
      MulMono(j + 1, k, per);
    } else if k < j {
      MulMono(k + 1, j, per);
    }
  }

  lemma WholeSectors(entries: nat, sectorSize: nat)
    requires SectorSize(sectorSize) && entries * 32 % sectorSize == 0
    ensures entries == entries * 32 / sectorSize * (sectorSize / 32)
  {
    if sectorSize == 512 {
    } else if sectorSize == 1024 {
    } else if sectorSize == 2048 {
    } else {
    }
  }

  lemma RootIs(q: Request, kind: FatKind, entries: nat)
    requires SectorSize(q.sectorSize)
    ensures RootGranted(q, kind, entries) <==> RootEntriesFor(q, kind) == Ok(entries)
    ensures RootGranted(q, kind, entries) ==> RootSectors(entries, q.sectorSize) == entries * 32 / q.sectorSize
  {
    hide CeilDiv, RootSectors;
    var per, ss := q.sectorSize / 32, q.sectorSize;
    assert per * 32 == ss;
    var k := CeilDiv(q.rootEntries, per);
    LeastMultiple(q.rootEntries, per);
    MulMod(k, per, ss);
    RootWhole(entries, ss);
    if RootGranted(q, kind, entries) && kind != Fat32 {
      WholeSectors(entries, ss);
      OneMultiple(q.rootEntries, per, entries * 32 / ss, k);
    }
  }

  lemma RootWhole(entries: nat, sectorSize: nat)
    requires sectorSize > 0
    ensures entries * 32 % sectorSize == 0 ==> RootSectors(entries, sectorSize) == entries * 32 / sectorSize
  {
    var m := entries * 32 / sectorSize;
    if entries * 32 % sectorSize == 0 {
      DivIs(entries * 32 + sectorSize - 1, sectorSize, m);
    }
  }

  lemma RoomIs(q: Request, kind: FatKind, reserved: nat, entries: nat, s: nat, fat: nat, clusters: nat)
    requires SectorSize(q.sectorSize) && RootGranted(q, kind, entries)
    ensures RoomOf(With(q, kind, reserved, entries, s, fat, clusters))
         == q.totalSectors - (reserved + RootSectors(entries, q.sectorSize))
  {
    RootIs(q, kind, entries);
  }

  /** Reserved area, root directory and variant are granted exactly when there is room behind them for the rest. */
  lemma FrameIs(q: Request, f: Frame)
    ensures FrameFor(q) == Ok(f) <==>
            && SectorSize(q.sectorSize) && q.fatCount in {1, 2} && q.totalSectors < U32
            && KindGranted(q, f.kind) && ReservedGranted(q, f.kind, f.reserved) && RootGranted(q, f.kind, f.rootEntries)
            && f.available == q.totalSectors - (f.reserved + RootSectors(f.rootEntries, q.sectorSize)) > 0
  {
    hide ReservedFor, RootEntriesFor, KindFor, KindGranted, ReservedGranted, RootGranted, RootSectors;
    KindIs(q, f.kind);
    ReservedIs(q, f.kind, f.reserved);
    if SectorSize(q.sectorSize) {
      RootIs(q, f.kind, f.rootEntries);
    }
  }

  /** FATs and clusters are granted exactly as they are sized. */
  lemma SizedExactly(l: Layout, available: nat)
    requires Legal(available, l.fatCount, l.sectorSize) && ClusterSectors(l.clusterSectors) && l.clusters > 0
    requires RoomOf(l) == available
    ensures SizedGranted(l) <==>
            Sized(l.kind, available, l.clusterSectors, l.fatCount, l.sectorSize) == Some((l.fatSectors, l.clusters))
  {
    hide Hold, Needed, Beside, Fill, RoomOf, ClusterSectors, SectorSize;
    var s, ss := l.clusterSectors, l.sectorSize;
    LegalArgs(available, s, l.fatCount, ss);
    AlwaysSized(l.kind, available, s, l.fatCount, ss);
    var first := Beside(available, l.fatCount, s);
    assert l.fatCount * 1 == l.fatCount;
    if SizedGranted(l) {
      GrantedSized(l, available);
    }
    if Sized(l.kind, available, s, l.fatCount, ss) == Some((l.fatSectors, l.clusters)) {
      BesideRoomed(available, l.fatCount * l.fatSectors, s);
      MulMono(1, l.fatSectors, l.fatCount);
      BesideMono(available, l.fatCount, l.fatCount * l.fatSectors, s);
      BesideRoomed(available, l.fatCount, s);
      FillIs(l.clusters, available, l.fatCount * l.fatSectors, s);
      FillIs(first, available, l.fatCount, s);
      HoldIs(l.kind, first, l.fatSectors, ss);
      HoldIs(l.kind, first, l.fatSectors - 1, ss);
      assert l.fatSectors > 1 ==> LeastFat(l, first, l.fatSectors);
    }
  }

  lemma GrantedSized(l: Layout, available: nat)
    requires Legal(available, l.fatCount, l.sectorSize) && ClusterSectors(l.clusterSectors) && l.clusters > 0
    requires RoomOf(l) == available && SizedGranted(l)
    ensures Sized(l.kind, available, l.clusterSectors, l.fatCount, l.sectorSize) == Some((l.fatSectors, l.clusters))
  {
    hide Hold, Needed, Beside, RoomOf, ClusterSectors, SectorSize;
    var s, ss := l.clusterSectors, l.sectorSize;
    LegalArgs(available, s, l.fatCount, ss);
    AlwaysSized(l.kind, available, s, l.fatCount, ss);
    FillRoom(l.clusters, s, available - l.fatCount * l.fatSectors);
    FillIs(l.clusters, available, l.fatCount * l.fatSectors, s);
    if l.fatSectors == 1 {
      assert l.fatCount * l.fatSectors == l.fatCount;
      HoldIs(l.kind, l.clusters, 1, ss);
    } else {
      var first: nat :| LeastFat(l, first, l.fatSectors);
      FillRoom(first, s, available - l.fatCount);
      FillIs(first, available, l.fatCount, s);
      HoldIs(l.kind, first, l.fatSectors, ss);
      HoldIs(l.kind, first, l.fatSectors - 1, ss);
    }
  }

  // ------------------------------------------------------------------
  // The cluster size
  // ------------------------------------------------------------------

  /** A cluster size fits exactly when it gives a layout with a count of clusters that the variant has. */
  lemma FitsExactly(q: Request, f: Frame, s: nat, fat: nat, clusters: nat)
    requires FrameFor(q) == Ok(f) && ClusterSectors(s)
    ensures FatLayout.Fits(f.kind, f.available, s, q.fatCount, q.sectorSize) == Ok((fat, clusters)) <==>
            SizedGranted(With(q, f.kind, f.reserved, f.rootEntries, s, fat, clusters)) && InRange(f.kind, clusters)
  {
    hide Sized, SizedGranted, FrameFor, RootGranted, KindGranted, ReservedGranted, RoomOf, RootSectors;
    FrameIs(q, f);
    var l := With(q, f.kind, f.reserved, f.rootEntries, s, fat, clusters);
    RoomIs(q, f.kind, f.reserved, f.rootEntries, s, fat, clusters);
    assert InRange(f.kind, clusters) <==> MinClusters(f.kind) <= clusters <= f.kind.MaxClusters();
    AlwaysSized(f.kind, f.available, s, q.fatCount, q.sectorSize);
    if clusters > 0 {
      SizedExactly(l, f.available);
    }
  }

  lemma WorksExactly(q: Request, f: Frame, s: nat)
    requires FrameFor(q) == Ok(f) && ClusterSectors(s)
    ensures Works(q, f.kind, f.reserved, f.rootEntries, s) <==>
            FatLayout.Fits(f.kind, f.available, s, q.fatCount, q.sectorSize).Ok?
  {
    hide FatLayout.Fits, SizedGranted, FrameFor, InRange, ClusterSectors;
    if Works(q, f.kind, f.reserved, f.rootEntries, s) {
      var fat: nat, clusters: nat :|
        SizedGranted(With(q, f.kind, f.reserved, f.rootEntries, s, fat, clusters)) && InRange(f.kind, clusters);
      FitsExactly(q, f, s, fat, clusters);
    }
    if FatLayout.Fits(f.kind, f.available, s, q.fatCount, q.sectorSize).Ok? {
      var sized := FatLayout.Fits(f.kind, f.available, s, q.fatCount, q.sectorSize).value;
      FitsExactly(q, f, s, sized.0, sized.1);
    }
  }

  lemma SizeIs(s: nat, sectorSize: nat)
    requires SectorSize(sectorSize)
    ensures Size(s, sectorSize) <==> ClusterSectors(s) && s <= MaxSectors(sectorSize)
  {
  }

  lemma SizePower(s: nat, sectorSize: nat)
    requires SectorSize(sectorSize) && Size(s, sectorSize)
    ensures PowerOfTwo(s * sectorSize)
  {
    hide PowerOfTwo;
    PowersOfTwo();
    LargePowers();
    assert s * sectorSize in {512, 1024, 2048, 4096, 8192, 16384, 32768};
  }

  lemma LargePowers()
    ensures PowerOfTwo(8192) && PowerOfTwo(16384) && PowerOfTwo(32768)
  {
    hide PowerOfTwo;
    PowersOfTwo();
    Doubled(4096);
    Doubled(8192);
    Doubled(16384);
  }

  lemma Doubled(n: nat)
    requires PowerOfTwo(n)
    ensures PowerOfTwo(2 * n)
  {
  }

  lemma AskedIs(size: nat, sectorSize: nat, s: nat)
    requires SectorSize(sectorSize)
    ensures AskedSectors(size, sectorSize) == Ok(s) <==> Size(s, sectorSize) && s * sectorSize == size
  {
    hide PowerOfTwo, ClusterSectors, MaxSectors;
    SizeIs(s, sectorSize);
    if Size(s, sectorSize) && s * sectorSize == size {
      DivIs(size, sectorSize, s);
      SizePower(s, sectorSize);
      assert size % sectorSize == 0;
      Quotient(size, sectorSize);
    }
  }

  lemma StartIs(kind: FatKind, bytes: nat, sectorSize: nat, start: nat)
    requires SectorSize(sectorSize)
    ensures Starts(kind, bytes, sectorSize, start) <==> StartSectors(kind, bytes, sectorSize) == start
  {
    hide DefaultSectors, IsDefault;
    var s := DefaultSectors(kind, bytes);
    DefaultsAre(kind, bytes);
    StartSize(s, sectorSize, start, StartSectors(kind, bytes, sectorSize));
    forall t | IsDefault(kind, bytes, t)
      ensures t == s
    {
      OneDefault(kind, bytes, s, t);
    }
  }

  lemma StartSize(s: nat, sectorSize: nat, start: nat, from: nat)
    requires SectorSize(sectorSize) && ClusterSectors(s)
    requires var target := s * 512 / sectorSize;
             from == if target < 1 then 1 else if target > MaxSectors(sectorSize) then MaxSectors(sectorSize) else target
    ensures start * sectorSize == (if 512 * s < sectorSize then sectorSize else if 512 * s > 0x8000 then 0x8000 else 512 * s)
            <==> start == from
  {
    if sectorSize == 512 {
    } else if sectorSize == 1024 {
    } else if sectorSize == 2048 {
    } else {
    }
  }

  // ------------------------------------------------------------------
  // The plan
  // ------------------------------------------------------------------

  /** The nearest size that works is the same from either side: sizes on one side of a size too large or too small work. */
  lemma OneNearest(kind: FatKind, available: nat, fatCount: nat, sectorSize: nat, start: nat, s: nat, t: nat)
    requires Legal(available, fatCount, sectorSize) && ClusterSectors(s) && ClusterSectors(t) && ClusterSectors(start)
    requires FatLayout.Fits(kind, available, s, fatCount, sectorSize).Ok?
    requires FatLayout.Fits(kind, available, t, fatCount, sectorSize).Ok?
    requires Passed(kind, available, fatCount, sectorSize, start, s) && Passed(kind, available, fatCount, sectorSize, start, t)
    ensures s == t
  {
    hide FatLayout.Fits, ClusterSectors, Legal;
    if s != t && s != start && t != start {
      FitsErrors(kind, available, start, fatCount, sectorSize);
      if s < start < t {
        Outlook(kind, available, start, t, fatCount, sectorSize);
        Outlook(kind, available, s, start, fatCount, sectorSize);
      } else if t < start < s {
        Outlook(kind, available, start, s, fatCount, sectorSize);
        Outlook(kind, available, t, start, fatCount, sectorSize);
      }
    }
  }

  /** No size passed on the way to the one chosen works. */
  lemma PassedIs(q: Request, f: Frame, start: nat, s: nat)
    requires FrameFor(q) == Ok(f) && ClusterSectors(start) && start <= MaxSectors(q.sectorSize)
    requires ClusterSectors(s) && s <= MaxSectors(q.sectorSize)
    ensures Passed(f.kind, f.available, q.fatCount, q.sectorSize, start, s) <==>
            forall t: nat :: Size(t, q.sectorSize) && (start <= t < s || s < t <= start) ==>
              !Works(q, f.kind, f.reserved, f.rootEntries, t)
  {
    hide FatLayout.Fits, Works, ClusterSectors, FrameFor, MaxSectors, Size;
    FrameIs(q, f);
    forall t: nat | start <= t < s || s < t <= start
      ensures ClusterSectors(t) <==> Size(t, q.sectorSize)
      ensures ClusterSectors(t) ==>
                (FatLayout.Fits(f.kind, f.available, t, q.fatCount, q.sectorSize).Err? <==>
                 !Works(q, f.kind, f.reserved, f.rootEntries, t))
    {
      SizeIs(t, q.sectorSize);
      if ClusterSectors(t) {
        WorksExactly(q, f, t);
      }
    }
  }

  /** A layout that fits its frame is that of its cluster size. */
  lemma LayoutIs(q: Request, f: Frame, s: nat, l: Layout)
    requires FrameFor(q) == Ok(f) && ClusterSectors(s)
    ensures FatLayout.Fits(f.kind, f.available, s, q.fatCount, q.sectorSize).Ok?
            && l == LayoutFor(q, f, s, FatLayout.Fits(f.kind, f.available, s, q.fatCount, q.sectorSize).value)
       <==> l == With(q, f.kind, f.reserved, f.rootEntries, s, l.fatSectors, l.clusters)
            && SizedGranted(l) && InRange(f.kind, l.clusters)
  {
    hide FatLayout.Fits, SizedGranted, InRange, FrameFor, ClusterSectors;
    FitsExactly(q, f, s, l.fatSectors, l.clusters);
  }

  /** The frame of a granted layout. */
  lemma GrantedFrame(q: Request, l: Layout) returns (f: Frame)
    requires Granted(q, l)
    ensures FrameFor(q) == Ok(f) && l.kind == f.kind && l.reservedSectors == f.reserved && l.rootEntries == f.rootEntries
    ensures l == With(q, f.kind, f.reserved, f.rootEntries, l.clusterSectors, l.fatSectors, l.clusters)
  {
    hide KindGranted, ReservedGranted, RootGranted, SizeGranted, RootSectors, SizedGranted, FrameFor, RoomOf;
    RootIs(q, l.kind, l.rootEntries);
    SizeThere(q, l);
    RoomThere(l);
    RoomIs(q, l.kind, l.reservedSectors, l.rootEntries, l.clusterSectors, l.fatSectors, l.clusters);
    f := Frame(l.kind, l.reservedSectors, l.rootEntries, RoomOf(l));
    FrameIs(q, f);
  }

  lemma RoomThere(l: Layout)
    requires l.sectorSize > 0 && SizedGranted(l) && InRange(l.kind, l.clusters) && l.clusterSectors > 0
    ensures RoomOf(l) > 0
  {
    MulMono(1, l.clusters, l.clusterSectors);
    assert l.fatCount * l.fatSectors >= 0;
  }

  lemma SizeThere(q: Request, l: Layout)
    requires q.sectorSize > 0 && SizeGranted(q, l)
    ensures Size(l.clusterSectors, q.sectorSize) && l.clusterSectors > 0
  {
  }

  /**
   * A volume is planned as a layout exactly when that layout is granted: there is no more than one, and
   * planning finds it.
   */
  lemma GrantedExactly(q: Request, r: Result<Layout, LayoutError>, l: Layout)
    requires Planned(q, r)
    ensures r == Ok(l) <==> Granted(q, l)
  {
    hide FatLayout.Fits, SizedGranted, InRange, FrameFor, ClusterSectors, Granted, Passed, MaxSectors, NoneFits, AskedSectors,
         LayoutFor, StartSectors;
    if r == Ok(l) {
      PlannedGranted(q, l);
    }
    if Granted(q, l) {
      GrantedPlanned(q, r, l);
    }
  }

  lemma PlannedGranted(q: Request, l: Layout)
    requires Planned(q, Ok(l))
    ensures Granted(q, l)
  {
    hide FatLayout.Fits, SizedGranted, InRange, FrameFor, ClusterSectors, Passed, MaxSectors, NoneFits, AskedSectors,
         StartSectors, Starts, Works, KindGranted, ReservedGranted, RootGranted, Size;
    var f := FrameFor(q).value;
    FrameIs(q, f);
    var s, start := l.clusterSectors, StartSectors(f.kind, q.totalSectors * q.sectorSize, q.sectorSize);
    if q.clusterSize.Some? {
      AskedIs(q.clusterSize.value, q.sectorSize, s);
    } else {
      StartIs(f.kind, q.totalSectors * q.sectorSize, q.sectorSize, start);
      PassedIs(q, f, start, s);
    }
    SizeIs(s, q.sectorSize);
    LayoutIs(q, f, s, l);
  }

  lemma GrantedPlanned(q: Request, r: Result<Layout, LayoutError>, l: Layout)
    requires Planned(q, r) && Granted(q, l)
    ensures r == Ok(l)
  {
    hide FatLayout.Fits, SizedGranted, InRange, FrameFor, ClusterSectors, Passed, MaxSectors, NoneFits, AskedSectors,
         StartSectors, Starts, Works, KindGranted, ReservedGranted, RootGranted, Size;
    var f := GrantedFrame(q, l);
    var s := l.clusterSectors;
    SizeIs(s, q.sectorSize);
    LayoutIs(q, f, s, l);
    if q.clusterSize.Some? {
      AskedIs(q.clusterSize.value, q.sectorSize, s);
    } else {
      var bytes := q.totalSectors * q.sectorSize;
      var start := StartSectors(f.kind, bytes, q.sectorSize);
      var from: nat :| Starts(l.kind, bytes, q.sectorSize, from)
        && forall t: nat :: Size(t, q.sectorSize) && (from <= t < s || s < t <= from) ==>
             !Works(q, l.kind, l.reservedSectors, l.rootEntries, t);
      StartIs(f.kind, bytes, q.sectorSize, from);
      PassedIs(q, f, start, s);
      SomeFits(f.kind, f.available, q.fatCount, q.sectorSize, s);
      OneNearest(f.kind, f.available, q.fatCount, q.sectorSize, start, r.value.clusterSectors, s);
    }
  }

  // ------------------------------------------------------------------
  // Refusals
  // ------------------------------------------------------------------

  ghost predicate SomeReserved(q: Request, kind: FatKind) {
    exists n :: ReservedGranted(q, kind, n)
  }

  ghost predicate SomeRoot(q: Request, kind: FatKind)
    requires q.sectorSize > 0
  {
    exists n :: RootGranted(q, kind, n)
  }

  ghost predicate SomeSize(size: nat, sectorSize: nat) {
    exists s: nat :: Size(s, sectorSize) && s * sectorSize == size
  }

  /** More clusters than the variant has. */
  predicate Above(kind: FatKind, clusters: nat) {
    match kind
    case Fat12 => clusters > 4084
    case Fat16 => clusters > 65524
    case Fat32 => clusters > 0x0FFF_FFF5
  }

  /** Clusters of `s` sectors are more than the variant has. */
  ghost predicate TooMany(q: Request, kind: FatKind, reserved: nat, entries: nat, s: nat)
    requires q.sectorSize > 0
  {
    exists fat: nat, clusters: nat ::
      SizedGranted(With(q, kind, reserved, entries, s, fat, clusters)) && Above(kind, clusters)
  }

  /** Why a request with this variant, reserved area and root directory is refused. */
  ghost predicate RefusedSize(q: Request, kind: FatKind, reserved: nat, entries: nat, error: LayoutError)
    requires q.sectorSize > 0
  {
    if q.totalSectors <= reserved + entries * 32 / q.sectorSize then error == TooSmall
    else
      match q.clusterSize
      case Some(size) =>
        if !SomeSize(size, q.sectorSize) then error == Invalid("cluster size")
        else error == if TooMany(q, kind, reserved, entries, size / q.sectorSize) then TooLarge else TooSmall
      case None =>
        || (error == TooLarge && TooMany(q, kind, reserved, entries, 0x8000 / q.sectorSize))
        || (error == TooSmall && !Works(q, kind, reserved, entries, 1) && !TooMany(q, kind, reserved, entries, 1))
  }

  /** Why a request is refused: the first of these that applies. */
  ghost predicate Refused(q: Request, error: LayoutError) {
    if q.sectorSize !in {512, 1024, 2048, 4096} then error == Invalid("sector size")
    else if q.fatCount !in {1, 2} then error == Invalid("FAT count")
    else if q.totalSectors >= 0x1_0000_0000 then error == TooLarge
    else
      exists kind :: KindGranted(q, kind)
        && if !SomeReserved(q, kind) then error == Invalid("reserved sectors")
           else if !SomeRoot(q, kind) then error == Invalid("root entries")
           else
             exists reserved, entries :: ReservedGranted(q, kind, reserved) && RootGranted(q, kind, entries)
               && RefusedSize(q, kind, reserved, entries, error)
  }

  /** A refusal has its reason. */
  lemma RefusedFor(q: Request, error: LayoutError)
    requires Planned(q, Err(error))
    ensures Refused(q, error)
  {
    hide FatLayout.Fits, ReservedFor, RootEntriesFor, KindFor, KindGranted, ReservedGranted, RootGranted, RootSectors,
         AskedSectors, RefusedSize, Works, NoneFits, MaxSectors;
    if SectorSize(q.sectorSize) && q.fatCount in {1, 2} && q.totalSectors < U32 {
      var kind := KindFor(q);
      KindIs(q, kind);
      if !SomeReserved(q, kind) {
        if ReservedFor(q, kind).Ok? {
          ReservedIs(q, kind, ReservedFor(q, kind).value);
        }
      } else if !SomeRoot(q, kind) {
        SomeReservedIs(q, kind);
        if RootEntriesFor(q, kind).Ok? {
          RootIs(q, kind, RootEntriesFor(q, kind).value);
        }
      } else {
        SomeReservedIs(q, kind);
        SomeRootIs(q, kind);
        var reserved, entries := ReservedFor(q, kind).value, RootEntriesFor(q, kind).value;
        ReservedIs(q, kind, reserved);
        RootIs(q, kind, entries);
        if FrameFor(q).Ok? {
          SizeRefused(q, FrameFor(q).value, error);
        } else {
          RoomRefused(q, kind, reserved, entries);
        }
      }
      ReservedError(q, kind);
      RootError(q, kind);
    }
  }

  lemma RoomRefused(q: Request, kind: FatKind, reserved: nat, entries: nat)
    requires q.sectorSize > 0 && q.totalSectors <= reserved + entries * 32 / q.sectorSize
    ensures RefusedSize(q, kind, reserved, entries, TooSmall)
  {
  }

  lemma ReservedError(q: Request, kind: FatKind)
    ensures ReservedFor(q, kind).Err? ==> ReservedFor(q, kind) == Err(Invalid("reserved sectors"))
  {
  }

  lemma RootError(q: Request, kind: FatKind)
    requires SectorSize(q.sectorSize)
    ensures RootEntriesFor(q, kind).Err? ==> RootEntriesFor(q, kind) == Err(Invalid("root entries"))
  {
  }

  lemma SomeReservedIs(q: Request, kind: FatKind)
    requires SomeReserved(q, kind)
    ensures ReservedFor(q, kind).Ok?
  {
    var n :| ReservedGranted(q, kind, n);
    ReservedIs(q, kind, n);
  }

  lemma SomeRootIs(q: Request, kind: FatKind)
    requires SectorSize(q.sectorSize) && SomeRoot(q, kind)
    ensures RootEntriesFor(q, kind).Ok?
  {
    hide RootEntriesFor;
    var n :| RootGranted(q, kind, n);
    RootIs(q, kind, n);
  }

  lemma SizeRefused(q: Request, f: Frame, error: LayoutError)
    requires Planned(q, Err(error)) && FrameFor(q) == Ok(f)
    ensures RefusedSize(q, f.kind, f.reserved, f.rootEntries, error)
  {
    hide FatLayout.Fits, FrameFor, RootSectors, AskedSectors, Works, TooMany, NoneFits, MaxSectors, Size, KindGranted,
         ReservedGranted, RootGranted, ClusterSectors;
    FrameIs(q, f);
    RootIs(q, f.kind, f.rootEntries);
    match q.clusterSize {
      case Some(size) =>
        AskedError(size, q.sectorSize);
        if AskedSectors(size, q.sectorSize).Ok? {
          var s := AskedSectors(size, q.sectorSize).value;
          AskedIs(size, q.sectorSize, s);
          SizeIs(s, q.sectorSize);
          DivIs(size, q.sectorSize, s);
          TooManyExactly(q, f, s);
          FitsErrors(f.kind, f.available, s, q.fatCount, q.sectorSize);
        } else if SomeSize(size, q.sectorSize) {
          var s: nat :| Size(s, q.sectorSize) && s * q.sectorSize == size;
          AskedIs(size, q.sectorSize, s);
        }
      case None =>
        assert MaxSectors(q.sectorSize) == 0x8000 / q.sectorSize by { LargestSize(q.sectorSize); }
        TooManyExactly(q, f, MaxSectors(q.sectorSize));
        OneSector();
        TooManyExactly(q, f, 1);
        WorksExactly(q, f, 1);
    }
  }

  lemma OneSector()
    ensures ClusterSectors(1)
  {
  }

  lemma LargestSize(sectorSize: nat)
    requires SectorSize(sectorSize)
    ensures MaxSectors(sectorSize) == 0x8000 / sectorSize
  {
  }

  lemma AskedError(size: nat, sectorSize: nat)
    requires SectorSize(sectorSize)
    ensures AskedSectors(size, sectorSize).Err? ==> AskedSectors(size, sectorSize) == Err(Invalid("cluster size"))
  {
    hide PowerOfTwo;
  }

  /** A cluster size gives more clusters than the variant has exactly when it is found too large. */
  lemma TooManyExactly(q: Request, f: Frame, s: nat)
    requires FrameFor(q) == Ok(f) && ClusterSectors(s)
    ensures TooMany(q, f.kind, f.reserved, f.rootEntries, s) <==>
            FatLayout.Fits(f.kind, f.available, s, q.fatCount, q.sectorSize) == Err(TooLarge)
  {
    hide Sized, SizedGranted, FrameFor, RootGranted, KindGranted, ReservedGranted, RoomOf, RootSectors, ClusterSectors;
    FrameIs(q, f);
    AlwaysSized(f.kind, f.available, s, q.fatCount, q.sectorSize);
    var sized := Sized(f.kind, f.available, s, q.fatCount, q.sectorSize).value;
    if TooMany(q, f.kind, f.reserved, f.rootEntries, s) {
      var fat: nat, clusters: nat :|
        SizedGranted(With(q, f.kind, f.reserved, f.rootEntries, s, fat, clusters)) && Above(f.kind, clusters);
      RoomIs(q, f.kind, f.reserved, f.rootEntries, s, fat, clusters);
      SizedExactly(With(q, f.kind, f.reserved, f.rootEntries, s, fat, clusters), f.available);
    }
    if FatLayout.Fits(f.kind, f.available, s, q.fatCount, q.sectorSize) == Err(TooLarge) {
      RoomIs(q, f.kind, f.reserved, f.rootEntries, s, sized.0, sized.1);
      SizedExactly(With(q, f.kind, f.reserved, f.rootEntries, s, sized.0, sized.1), f.available);
      assert Above(f.kind, sized.1);
    }
  }

  // ------------------------------------------------------------------
  // The variant without a request for one
  // ------------------------------------------------------------------

  /** Of two volumes planned without asking for a variant the larger never has the narrower FAT. */
  lemma WiderFats(q: Request, p: Request, l: Layout, m: Layout)
    requires q.kind == None && p.kind == None && q.totalSectors * q.sectorSize <= p.totalSectors * p.sectorSize
    requires Planned(q, Ok(l)) && Planned(p, Ok(m))
    ensures Bits(l.kind) <= Bits(m.kind)
  {
    hide FatLayout.Fits, SizedGranted, InRange, SizeGranted, ReservedGranted, RootGranted, Planned;
    PlannedGranted(q, l);
    PlannedGranted(p, m);
  }

  /** The variant changes at 16 MiB and at 512 MiB. */
  lemma VariantEdges(q: Request)
    requires q.kind == None && q.sectorSize in {512, 1024, 2048, 4096}
    ensures q.totalSectors == 0x100_0000 / q.sectorSize - 1 ==> KindGranted(q, Fat12)
    ensures q.totalSectors == 0x100_0000 / q.sectorSize ==> KindGranted(q, Fat16)
    ensures q.totalSectors == 0x2000_0000 / q.sectorSize - 1 ==> KindGranted(q, Fat16)
    ensures q.totalSectors == 0x2000_0000 / q.sectorSize ==> KindGranted(q, Fat32)
  {
    if q.sectorSize == 512 {
    } else if q.sectorSize == 1024 {
    } else if q.sectorSize == 2048 {
    } else {
    }
  }
}

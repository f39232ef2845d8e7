/** Planning a volume: the variant, the cluster size and the FATs that a request comes to. */
module FatLayout {
  import opened Wrappers
  import opened Bytes
  import opened FatEntry

  const MIB: nat := 1024 * 1024
  const MAX_CLUSTER_BYTES: nat := 32 * 1024
  const MAX_CLUSTER_SECTORS: nat := 128
  const AUTO_FAT12_BELOW: nat := 16 * MIB
  const AUTO_FAT32_FROM: nat := 512 * MIB

  datatype LayoutError = TooSmall | TooLarge | Invalid(what: string)

  datatype Request = Request(
    kind: Option<FatKind>, sectorSize: nat, totalSectors: nat, clusterSize: Option<nat>,
    reservedSectors: Option<nat>, fatCount: nat, rootEntries: nat)

  datatype Layout = Layout(
    kind: FatKind, sectorSize: nat, clusterSectors: nat, reservedSectors: nat, fatCount: nat,
    rootEntries: nat, totalSectors: nat, fatSectors: nat, clusters: nat)

  /** Root entries of 32 bytes, in whole sectors. */
  function RootSectors(rootEntries: nat, sectorSize: nat): nat
    requires sectorSize > 0
  {
    CeilDiv(rootEntries * 32, sectorSize)
  }

  /** The sizes of a cluster in sectors. */
  predicate ClusterSectors(s: nat): (b: bool)
    ensures b ==> 1 <= s <= 128
  {
    s in {1, 2, 4, 8, 16, 32, 64, 128}
  }

  predicate SectorSize(n: nat) {
    n in {512, 1024, 2048, 4096}
  }

  /** The inclusive range of cluster counts of a variant. */
  function MinClusters(kind: FatKind): nat {
    match kind
    case Fat12 => 1
    case Fat16 => Fat12.MaxClusters() + 1
    case Fat32 => Fat16.MaxClusters() + 1
  }

  /** Sectors per cluster after the Microsoft defaults, for 512-byte sectors. */
  function DefaultSectors(kind: FatKind, bytes: nat): (s: nat)
    ensures ClusterSectors(s)
  {
    var mib := bytes / MIB;
    match kind
    case Fat12 => if mib <= 2 then 1 else if mib <= 4 then 2 else if mib <= 8 then 4 else if mib <= 16 then 8 else 16
    case Fat16 =>
      if mib <= 8 then 1 else if mib <= 16 then 2 else if mib <= 32 then 4 else if mib <= 64 then 8
      else if mib <= 128 then 16 else if mib <= 256 then 32 else if mib <= 512 then 64 else 128
    case Fat32 =>
      if mib <= 64 then 1 else if mib <= 128 then 2 else if mib <= 256 then 4 else if mib <= 9 * 1024 - 1 then 8
      else if mib <= 17 * 1024 - 1 then 16 else if mib <= 33 * 1024 - 1 then 32 else 64
  }

  // ------------------------------------------------------------------
  // The size of a FAT
  // ------------------------------------------------------------------

  /** Bytes of the entries of `clusters` clusters and the two reserved ones. */
  function EntryBytes(kind: FatKind, clusters: nat): nat {
    CeilDiv((clusters + 2) * kind.EntryBits(), 8)
  }

  /** Sectors those entries need. */
  function Needed(kind: FatKind, clusters: nat, sectorSize: nat): nat
    requires sectorSize > 0
  {
    CeilDiv(EntryBytes(kind, clusters), sectorSize)
  }

  /** Clusters left beside `taken` sectors of FATs. */
  function Beside(available: nat, taken: nat, clusterSectors: nat): nat
    requires clusterSectors > 0
  {
    (if taken <= available then available - taken else 0) / clusterSectors
  }

  lemma DivMono(a: nat, b: nat, d: nat)
    requires d > 0 && a <= b
    ensures a / d <= b / d
  {
    if a / d > b / d {
      MulMono(b / d + 1, a / d, d);
      assert false;
    }
  }

  lemma CeilCovers(b: nat, d: nat, k: nat)
    requires d > 0
    ensures CeilDiv(b, d) <= k <==> b <= k * d
  {
    var q := CeilDiv(b, d);
    assert q * d <= b + d - 1 < q * d + d;
    if q <= k {
      MulMono(q, k, d);
    } else {
      MulMono(k + 1, q, d);
    }
  }

  lemma NeededMono(kind: FatKind, a: nat, b: nat, sectorSize: nat)
    requires sectorSize > 0 && a <= b
    ensures EntryBytes(kind, a) <= EntryBytes(kind, b) && Needed(kind, a, sectorSize) <= Needed(kind, b, sectorSize)
  {
    DivMono(EntryBytes(kind, a) + sectorSize - 1, EntryBytes(kind, b) + sectorSize - 1, sectorSize);
  }

  /** The FAT is large enough for every cluster beside it. */
  predicate Covers(kind: FatKind, clusters: nat, fat: nat, sectorSize: nat) {
    EntryBytes(kind, clusters) <= fat * sectorSize
  }

  lemma NeededCovers(kind: FatKind, clusters: nat, fat: nat, sectorSize: nat)
    requires sectorSize > 0
    ensures Needed(kind, clusters, sectorSize) <= fat <==> Covers(kind, clusters, fat, sectorSize)
  {
    CeilCovers(EntryBytes(kind, clusters), sectorSize, fat);
  }

  /** What sizing must give: the clusters beside the FATs, every one of them with an entry. */
  predicate Fitted(kind: FatKind, available: nat, clusterSectors: nat, fatCount: nat, sectorSize: nat,
                   fat: nat, clusters: nat)
    requires clusterSectors > 0
  {
    clusters == Beside(available, fatCount * fat, clusterSectors) && Covers(kind, clusters, fat, sectorSize)
  }

  /**
   * The FAT size and cluster count that sizing settles on: one sector if that covers, else what the
   * clusters beside one-sector FATs need; none when that leaves the room there is.
   */
  function Sized(kind: FatKind, available: nat, clusterSectors: nat, fatCount: nat, sectorSize: nat): Option<(nat, nat)>
    requires clusterSectors > 0 && sectorSize > 0
  {
    var first := Beside(available, fatCount, clusterSectors);
    var needed := Needed(kind, first, sectorSize);
    if needed <= 1 then Some((1, first))
    else if needed >= U32 || fatCount * needed > available then None
    else Some((needed, Beside(available, fatCount * needed, clusterSectors)))
  }

  /** A larger FAT leaves no more clusters, so it never needs to grow again. */
  lemma SecondEnough(kind: FatKind, available: nat, clusterSectors: nat, fatCount: nat, sectorSize: nat, fat: nat)
    requires clusterSectors > 0 && sectorSize > 0 && fat >= 1
    ensures var first := Beside(available, fatCount, clusterSectors);
            Needed(kind, Beside(available, fatCount * fat, clusterSectors), sectorSize) <= Needed(kind, first, sectorSize)
  {
    assert fatCount * fat >= fatCount;
    var left := if fatCount * fat <= available then available - fatCount * fat else 0;
    var most := if fatCount <= available then available - fatCount else 0;
    DivMono(left, most, clusterSectors);
    NeededMono(kind, left / clusterSectors, most / clusterSectors, sectorSize);
  }

  /** Grows the FAT until it covers the clusters beside it: never more than twice. */
  method FatSectors(kind: FatKind, available: nat, clusterSectors: nat, fatCount: nat, sectorSize: nat)
    returns (r: Option<(nat, nat)>, ghost passes: nat)
    requires available < U32 && clusterSectors > 0 && sectorSize > 0
    ensures passes <= 2 && r == Sized(kind, available, clusterSectors, fatCount, sectorSize)
    ensures r.Some? ==> Fitted(kind, available, clusterSectors, fatCount, sectorSize, r.value.0, r.value.1)
  {
    hide Needed, EntryBytes, Covers, Beside;
    ghost var needed1 := Needed(kind, Beside(available, fatCount, clusterSectors), sectorSize);
    var fat := 1;
    passes := 0;
    while true
      invariant if passes == 0 then fat == 1
                else passes == 1 && fat == needed1 && 1 < needed1 < U32 && fatCount * needed1 <= available
      decreases 2 - passes
    {
      SecondEnough(kind, available, clusterSectors, fatCount, sectorSize, fat);
      passes := passes + 1;
      var clusters := Beside(available, fatCount * fat, clusterSectors);
      assert passes == 1 ==> fatCount * fat == fatCount;
      var needed := Needed(kind, clusters, sectorSize);
      if needed <= fat {
        NeededCovers(kind, clusters, fat, sectorSize);
        return Some((fat, clusters)), passes;
      }
      if needed >= U32 || needed * fatCount >= U32 || needed * fatCount > available {
        return None, passes;
      }
      fat := needed;
    }
  }

  /** A request for one or two FATs is never refused for want of room. */
  lemma AlwaysSized(kind: FatKind, available: nat, clusterSectors: nat, fatCount: nat, sectorSize: nat)
    requires available < U32 && ClusterSectors(clusterSectors) && fatCount in {1, 2} && SectorSize(sectorSize)
    ensures Sized(kind, available, clusterSectors, fatCount, sectorSize).Some?
    ensures var (fat, clusters) := Sized(kind, available, clusterSectors, fatCount, sectorSize).value;
            fat > 1 ==> 4 * fatCount * fat <= available
  {
    hide Needed, Beside;
    var first := Beside(available, fatCount, clusterSectors);
    BesideSmall(available, fatCount, clusterSectors);
    NeededSmall(kind, first, sectorSize);
  }

  lemma BesideSmall(available: nat, taken: nat, clusterSectors: nat)
    requires clusterSectors > 0
    ensures Beside(available, taken, clusterSectors) <= available
  {
    var left := if taken <= available then available - taken else 0;
    MulMono(1, clusterSectors, left / clusterSectors);
  }

  lemma NeededSmall(kind: FatKind, clusters: nat, sectorSize: nat)
    requires SectorSize(sectorSize)
    ensures var n := Needed(kind, clusters, sectorSize);
            128 * (n - 1) <= clusters + 2
  {
    hide EntryBytes;
    var n := Needed(kind, clusters, sectorSize);
    EntryBytesSmall(kind, clusters);
    if n > 0 {
      NeededCovers(kind, clusters, n - 1, sectorSize);
      MulMono(512, sectorSize, n - 1);
    }
  }

  lemma EntryBytesSmall(kind: FatKind, clusters: nat)
    ensures clusters + 2 <= EntryBytes(kind, clusters) <= 4 * (clusters + 2)
  {
  }

  // ------------------------------------------------------------------
  // Doubling the cluster size
  // ------------------------------------------------------------------

  lemma DivIs(x: nat, d: nat, q: nat)
    requires d > 0 && q * d <= x < q * d + d
    ensures x / d == q
  {
    var k := x / d;
    assert k * d <= x < k * d + d;
    if k > q {
      MulMono(q + 1, k, d);
    } else if k < q {
      MulMono(k + 1, q, d);
    }
  }

  lemma DoubleOut(h: nat, d: nat)
    ensures h * (2 * d) == 2 * (h * d) && (2 * h) * d == 2 * (h * d) && (2 * h + 2) * d == 2 * (h * d) + 2 * d
  {
  }

  lemma DivHalf(x: nat, d: nat)
    requires d > 0
    ensures x / (2 * d) == x / d / 2 && (2 * x) / (2 * d) == x / d
  {
    var q := x / d;
    var p := q * d;
    assert p <= x < p + d;
    DoubleOut(q, d);
    DivIs(2 * x, 2 * d, q);
    var h := q / 2;
    DoubleOut(h, d);
    MulMono(2 * h, q, d);
    MulMono(q, 2 * h + 1, d);
    assert (2 * h + 1) * d == 2 * (h * d) + d;
    DivIs(x, 2 * d, h);
  }

  /** The arguments every search has. */
  predicate Legal(available: nat, fatCount: nat, sectorSize: nat) {
    available < U32 && fatCount in {1, 2} && SectorSize(sectorSize)
  }

  /** The cluster count at a cluster size. */
  function Count(kind: FatKind, available: nat, s: nat, fatCount: nat, sectorSize: nat): nat
    requires Legal(available, fatCount, sectorSize) && ClusterSectors(s)
  {
    AlwaysSized(kind, available, s, fatCount, sectorSize);
    Sized(kind, available, s, fatCount, sectorSize).value.1
  }

  /** The sectors of one FAT copy at a cluster size. */
  function FatOf(kind: FatKind, available: nat, s: nat, fatCount: nat, sectorSize: nat): nat
    requires s > 0 && sectorSize > 0
  {
    var needed := Needed(kind, Beside(available, fatCount, s), sectorSize);
    if needed <= 1 then 1 else needed
  }

  lemma SizedIs(kind: FatKind, available: nat, s: nat, fatCount: nat, sectorSize: nat)
    requires Legal(available, fatCount, sectorSize) && ClusterSectors(s)
    ensures var fat := FatOf(kind, available, s, fatCount, sectorSize);
            && fat >= 1 && Count(kind, available, s, fatCount, sectorSize) == Beside(available, fatCount * fat, s)
            && (fat > 1 ==> 4 * (fatCount * fat) <= available)
  {
    hide Needed, Beside;
    AlwaysSized(kind, available, s, fatCount, sectorSize);
    var fat := FatOf(kind, available, s, fatCount, sectorSize);
    assert fat == 1 ==> fatCount * fat == fatCount;
    assert 4 * fatCount * fat == 4 * (fatCount * fat);
  }

  /** Larger clusters need no larger FAT. */
  lemma FatShrinks(kind: FatKind, available: nat, s: nat, fatCount: nat, sectorSize: nat)
    requires s > 0 && sectorSize > 0
    ensures FatOf(kind, available, 2 * s, fatCount, sectorSize) <= FatOf(kind, available, s, fatCount, sectorSize)
  {
    hide Needed, Beside;
    BesideHalf(available, fatCount, s);
    NeededMono(kind, Beside(available, fatCount, 2 * s), Beside(available, fatCount, s), sectorSize);
  }

  /** Doubling the cluster size never raises the count, and drops it at most to half, rounded down. */
  lemma Doubling(kind: FatKind, available: nat, s: nat, fatCount: nat, sectorSize: nat)
    requires Legal(available, fatCount, sectorSize) && ClusterSectors(s) && ClusterSectors(2 * s)
    ensures var once := Count(kind, available, s, fatCount, sectorSize);
            var twice := Count(kind, available, 2 * s, fatCount, sectorSize);
            once / 2 <= twice <= once
  {
    hide Beside, ClusterSectors, Legal, FatOf, Count;
    LegalArgs(available, s, fatCount, sectorSize);
    SizedIs(kind, available, s, fatCount, sectorSize);
    SizedIs(kind, available, 2 * s, fatCount, sectorSize);
    FatShrinks(kind, available, s, fatCount, sectorSize);
    var fat := FatOf(kind, available, s, fatCount, sectorSize);
    var fat2 := FatOf(kind, available, 2 * s, fatCount, sectorSize);
    MulMono(fat2, fat, fatCount);
    BesideMono(available, fatCount * fat2, fatCount * fat, s);
    BesideHalf(available, fatCount * fat2, s);
    if fat > 1 {
      BesideRoom(available, fatCount * fat2, fatCount * fat, s);
    }
  }

  lemma LegalArgs(available: nat, s: nat, fatCount: nat, sectorSize: nat)
    requires Legal(available, fatCount, sectorSize) && ClusterSectors(s)
    ensures s > 0 && sectorSize > 0 && available < U32 && SectorSize(sectorSize) && (fatCount == 1 || fatCount == 2)
  {
  }

  lemma BesideHalf(available: nat, taken: nat, s: nat)
    requires s > 0
    ensures Beside(available, taken, 2 * s) == Beside(available, taken, s) / 2
  {
    DivHalf(if taken <= available then available - taken else 0, s);
  }

  lemma BesideMono(available: nat, taken: nat, more: nat, s: nat)
    requires s > 0 && taken <= more
    ensures Beside(available, more, s) <= Beside(available, taken, s)
  {
    DivMono(if more <= available then available - more else 0, if taken <= available then available - taken else 0, s);
  }

  lemma BesideRoom(available: nat, taken: nat, more: nat, s: nat)
    requires s > 0 && 4 * more <= available && taken <= more
    ensures Beside(available, taken, 2 * s) <= Beside(available, more, s)
  {
    DivHalf(available - more, s);
    DivMono(available - taken, 2 * (available - more), 2 * s);
  }

  // ------------------------------------------------------------------
  // The search for a cluster size
  // ------------------------------------------------------------------

  /** What a cluster size gives. */
  function Fits(kind: FatKind, available: nat, s: nat, fatCount: nat, sectorSize: nat): Result<(nat, nat), LayoutError>
    requires Legal(available, fatCount, sectorSize) && ClusterSectors(s)
  {
    AlwaysSized(kind, available, s, fatCount, sectorSize);
    var sized := Sized(kind, available, s, fatCount, sectorSize).value;
    if sized.1 < MinClusters(kind) then Err(TooSmall)
    else if sized.1 > kind.MaxClusters() then Err(TooLarge)
    else Ok(sized)
  }

  /** From one size to its double, a volume that was too large is not too small, and the other way round. */
  lemma NoTurn(kind: FatKind, available: nat, s: nat, fatCount: nat, sectorSize: nat)
    requires Legal(available, fatCount, sectorSize) && ClusterSectors(s) && ClusterSectors(2 * s)
    ensures var once := Fits(kind, available, s, fatCount, sectorSize);
            var twice := Fits(kind, available, 2 * s, fatCount, sectorSize);
            && (once == Err(TooLarge) ==> twice != Err(TooSmall))
            && (once == Err(TooSmall) ==> twice == Err(TooSmall))
            && (twice == Err(TooLarge) ==> once == Err(TooLarge))
  {
    hide Legal, Sized;
    Doubling(kind, available, s, fatCount, sectorSize);
  }

  /** Too small stays too small for larger clusters; too large stays too large for smaller ones. */
  lemma {:induction false} Outlook(kind: FatKind, available: nat, s: nat, t: nat, fatCount: nat, sectorSize: nat)
    requires Legal(available, fatCount, sectorSize) && ClusterSectors(s) && ClusterSectors(t) && s <= t
    ensures Fits(kind, available, s, fatCount, sectorSize) == Err(TooSmall) ==>
              Fits(kind, available, t, fatCount, sectorSize) == Err(TooSmall)
    ensures Fits(kind, available, t, fatCount, sectorSize) == Err(TooLarge) ==>
              Fits(kind, available, s, fatCount, sectorSize) == Err(TooLarge)
    decreases t - s
  {
    hide Legal, Fits;
    if s < t {
      assert ClusterSectors(2 * s) && 2 * s <= t;
      NoTurn(kind, available, s, fatCount, sectorSize);
      Outlook(kind, available, 2 * s, t, fatCount, sectorSize);
    }
  }

  /** The largest cluster the search may choose, in sectors. */
  function MaxSectors(sectorSize: nat): (m: nat)
    requires SectorSize(sectorSize)
    ensures ClusterSectors(m)
  {
    if MAX_CLUSTER_SECTORS < MAX_CLUSTER_BYTES / sectorSize then MAX_CLUSTER_SECTORS else MAX_CLUSTER_BYTES / sectorSize
  }

  function StartSectors(kind: FatKind, bytes: nat, sectorSize: nat): (s: nat)
    requires SectorSize(sectorSize)
    ensures ClusterSectors(s) && 1 <= s <= MaxSectors(sectorSize)
  {
    var target := DefaultSectors(kind, bytes) * 512 / sectorSize;
    if target < 1 then 1 else if target > MaxSectors(sectorSize) then MaxSectors(sectorSize) else target
  }

  ghost predicate NoneFits(kind: FatKind, available: nat, fatCount: nat, sectorSize: nat)
    requires Legal(available, fatCount, sectorSize)
  {
    forall s: nat :: ClusterSectors(s) && s <= MaxSectors(sectorSize) ==> Fits(kind, available, s, fatCount, sectorSize).Err?
  }

  /** No size on the way from `start` to `s` fits. */
  ghost predicate Passed(kind: FatKind, available: nat, fatCount: nat, sectorSize: nat, start: nat, s: nat)
    requires Legal(available, fatCount, sectorSize)
  {
    forall t: nat :: ClusterSectors(t) && (start <= t < s || s < t <= start) ==> Fits(kind, available, t, fatCount, sectorSize).Err?
  }

  lemma PassedStart(kind: FatKind, available: nat, fatCount: nat, sectorSize: nat, start: nat)
    requires Legal(available, fatCount, sectorSize)
    ensures Passed(kind, available, fatCount, sectorSize, start, start)
  {
  }

  lemma SomeFits(kind: FatKind, available: nat, fatCount: nat, sectorSize: nat, s: nat)
    requires Legal(available, fatCount, sectorSize) && ClusterSectors(s) && s <= MaxSectors(sectorSize)
    requires Fits(kind, available, s, fatCount, sectorSize).Ok?
    ensures !NoneFits(kind, available, fatCount, sectorSize)
  {
  }

  lemma Powers(s: nat)
    requires ClusterSectors(s) && s > 1
    ensures ClusterSectors(s / 2) && 2 * (s / 2) == s
  {
  }

  lemma NextPower(s: nat, t: nat)
    requires ClusterSectors(s) && ClusterSectors(t) && s < t
    ensures ClusterSectors(2 * s) && 2 * s <= t
  {
  }

  lemma PassedUp(kind: FatKind, available: nat, fatCount: nat, sectorSize: nat, start: nat, s: nat)
    requires Legal(available, fatCount, sectorSize) && Passed(kind, available, fatCount, sectorSize, start, s)
    requires ClusterSectors(s) && start <= s && Fits(kind, available, s, fatCount, sectorSize).Err?
    ensures Passed(kind, available, fatCount, sectorSize, start, 2 * s)
  {
    hide Fits;
    forall t: nat | ClusterSectors(t) && start <= t < 2 * s
      ensures t <= s
    {
      if s < t {
        NextPower(s, t);
      }
    }
  }

  lemma PassedDown(kind: FatKind, available: nat, fatCount: nat, sectorSize: nat, start: nat, s: nat)
    requires Legal(available, fatCount, sectorSize) && Passed(kind, available, fatCount, sectorSize, start, s)
    requires ClusterSectors(s) && s <= start && s > 1 && Fits(kind, available, s, fatCount, sectorSize).Err?
    ensures Passed(kind, available, fatCount, sectorSize, start, s / 2)
  {
    hide Fits;
    Powers(s);
    forall t: nat | ClusterSectors(t) && s / 2 < t <= start
      ensures t >= s
    {
      NextPower(s / 2, t);
    }
  }

  /** A search that is over at either end has no size left. */
  lemma SearchOver(kind: FatKind, available: nat, fatCount: nat, sectorSize: nat, s: nat, error: LayoutError)
    requires Legal(available, fatCount, sectorSize) && ClusterSectors(s)
    requires Fits(kind, available, s, fatCount, sectorSize) == Err(error)
    requires (s == MaxSectors(sectorSize) && error == TooLarge) || (s == 1 && error == TooSmall)
    ensures NoneFits(kind, available, fatCount, sectorSize)
  {
    hide Fits;
    forall t: nat | ClusterSectors(t) && t <= MaxSectors(sectorSize)
      ensures Fits(kind, available, t, fatCount, sectorSize).Err?
    {
      if error == TooLarge {
        Outlook(kind, available, t, s, fatCount, sectorSize);
      } else {
        Outlook(kind, available, s, t, fatCount, sectorSize);
      }
    }
  }

  lemma FitsErrors(kind: FatKind, available: nat, s: nat, fatCount: nat, sectorSize: nat)
    requires Legal(available, fatCount, sectorSize) && ClusterSectors(s)
    ensures var fit := Fits(kind, available, s, fatCount, sectorSize);
            fit.Ok? || fit == Err(TooLarge) || fit == Err(TooSmall)
  {
  }

  /**
   * Doubles or halves the default cluster size until the count fits. The search takes the nearest
   * size that does, is never stopped by having to turn round, and fails exactly when no size up to
   * the limit fits.
   */
  method Search(kind: FatKind, available: nat, fatCount: nat, sectorSize: nat, bytes: nat)
    returns (r: Result<(nat, (nat, nat)), LayoutError>)
    requires Legal(available, fatCount, sectorSize)
    ensures r.Ok? ==>
              && ClusterSectors(r.value.0) && r.value.0 <= MaxSectors(sectorSize)
              && Fits(kind, available, r.value.0, fatCount, sectorSize) == Ok(r.value.1)
              && Passed(kind, available, fatCount, sectorSize, StartSectors(kind, bytes, sectorSize), r.value.0)
    ensures r.Err? <==> NoneFits(kind, available, fatCount, sectorSize)
    ensures r.Err? ==>
              || (r.error == TooLarge && Fits(kind, available, MaxSectors(sectorSize), fatCount, sectorSize) == Err(TooLarge))
              || (r.error == TooSmall && Fits(kind, available, 1, fatCount, sectorSize) == Err(TooSmall))
  {
    hide Fits, ClusterSectors, Passed, NoneFits, StartSectors, MaxSectors;
    var max := MaxSectors(sectorSize);
    var start := StartSectors(kind, bytes, sectorSize);
    var sectors := start;
    var grew: Option<bool> := None;
    PassedStart(kind, available, fatCount, sectorSize, start);
    while true
      invariant ClusterSectors(sectors) && 1 <= sectors <= max
      invariant grew == Some(true) ==> Fits(kind, available, sectors, fatCount, sectorSize) != Err(TooSmall)
      invariant grew == Some(false) ==> Fits(kind, available, sectors, fatCount, sectorSize) != Err(TooLarge)
      invariant if grew == None then sectors == start else if grew.value then start <= sectors else sectors <= start
      invariant Passed(kind, available, fatCount, sectorSize, start, sectors)
      decreases if grew.None? then 1 else 0, if grew.Some? && !grew.value then sectors else max - sectors
    {
      FitsErrors(kind, available, sectors, fatCount, sectorSize);
      var fit := Fits(kind, available, sectors, fatCount, sectorSize);
      if fit.Ok? {
        SomeFits(kind, available, fatCount, sectorSize, sectors);
        return Ok((sectors, fit.value));
      } else if fit.error == TooLarge && sectors < max && grew != Some(false) {
        grew := Some(true);
        NextPower(sectors, max);
        NoTurn(kind, available, sectors, fatCount, sectorSize);
        PassedUp(kind, available, fatCount, sectorSize, start, sectors);
        sectors := sectors * 2;
      } else if fit.error == TooSmall && sectors > 1 && grew != Some(true) {
        grew := Some(false);
        Powers(sectors);
        NoTurn(kind, available, sectors / 2, fatCount, sectorSize);
        PassedDown(kind, available, fatCount, sectorSize, start, sectors);
        sectors := sectors / 2;
      } else {
        SearchOver(kind, available, fatCount, sectorSize, sectors, fit.error);
        return Err(fit.error);
      }
    }
  }

  // ------------------------------------------------------------------
  // Planning
  // ------------------------------------------------------------------

  /** The widths of the request's fields. */
  predicate Typed(q: Request) {
    && q.sectorSize < U32 && q.totalSectors < U32 * U32 && q.fatCount < 256 && q.rootEntries < U16
    && (q.clusterSize.Some? ==> q.clusterSize.value < U32)
    && (q.reservedSectors.Some? ==> q.reservedSectors.value < U16)
  }

  function KindFor(q: Request): FatKind {
    var bytes := q.totalSectors * q.sectorSize;
    if q.kind.Some? then q.kind.value
    else if bytes < AUTO_FAT12_BELOW then Fat12
    else if bytes < AUTO_FAT32_FROM then Fat16
    else Fat32
  }

  function ReservedFor(q: Request, kind: FatKind): Result<nat, LayoutError> {
    if q.reservedSectors.Some? then
      if (kind == Fat32 && q.reservedSectors.value < 8) || q.reservedSectors.value == 0 then Err(Invalid("reserved sectors"))
      else Ok(q.reservedSectors.value)
    else Ok(if kind == Fat32 then 32 else 1)
  }

  /** Root entries rounded up to whole sectors; none on FAT32. */
  function RootEntriesFor(q: Request, kind: FatKind): Result<nat, LayoutError>
    requires SectorSize(q.sectorSize)
  {
    var perSector := q.sectorSize / 32;
    var entries := CeilDiv(q.rootEntries, perSector) * perSector;
    if kind == Fat32 then Ok(0)
    else if q.rootEntries == 0 || entries >= U16 then Err(Invalid("root entries"))
    else Ok(entries)
  }

  /** The sectors before the FATs and the root directory, and what is left for the rest. */
  datatype Frame = Frame(kind: FatKind, reserved: nat, rootEntries: nat, available: nat)

  function FrameFor(q: Request): (r: Result<Frame, LayoutError>)
    ensures r.Ok? ==> Legal(r.value.available, q.fatCount, q.sectorSize) && q.totalSectors < U32
  {
    if !SectorSize(q.sectorSize) then Err(Invalid("sector size"))
    else if q.fatCount !in {1, 2} then Err(Invalid("FAT count"))
    else if q.totalSectors >= U32 then Err(TooLarge)
    else
      var kind := KindFor(q);
      var reserved :- ReservedFor(q, kind);
      var rootEntries :- RootEntriesFor(q, kind);
      var taken := reserved + RootSectors(rootEntries, q.sectorSize);
      if q.totalSectors <= taken then Err(TooSmall)
      else Ok(Frame(kind, reserved, rootEntries, q.totalSectors - taken))
  }

  /** Every power of two. */
  predicate PowerOfTwo(n: nat) {
    n == 1 || (n > 0 && n % 2 == 0 && PowerOfTwo(n / 2))
  }

  /** The sectors of a requested cluster size. */
  function AskedSectors(size: nat, sectorSize: nat): (r: Result<nat, LayoutError>)
    requires SectorSize(sectorSize)
    ensures r.Ok? ==> ClusterSectors(r.value) && r.value <= MaxSectors(sectorSize) && r.value * sectorSize == size
  {
    if !PowerOfTwo(size) || size % sectorSize != 0 || size / sectorSize > MaxSectors(sectorSize) then Err(Invalid("cluster size"))
    else
      Quotient(size, sectorSize);
      Ok(size / sectorSize)
  }

  lemma Quotient(size: nat, sectorSize: nat)
    requires SectorSize(sectorSize) && PowerOfTwo(size) && size % sectorSize == 0 && size / sectorSize <= 128
    ensures ClusterSectors(size / sectorSize) && size / sectorSize * sectorSize == size
  {
    hide SectorSize, PowerOfTwo, ClusterSectors;
    SectorPower(size, sectorSize);
    assert size == sectorSize * (size / sectorSize) + size % sectorSize;
    Divides(size, sectorSize, size / sectorSize);
    SmallPower(size / sectorSize);
  }

  lemma SectorPower(size: nat, sectorSize: nat)
    requires SectorSize(sectorSize) && PowerOfTwo(size) && size % sectorSize == 0
    ensures PowerOfTwo(sectorSize) && 0 < sectorSize <= size
  {
    assert size > 0;
    PowersOfTwo();
    hide PowerOfTwo;
    AtLeast(size, sectorSize);
  }

  lemma AtLeast(a: nat, d: nat)
    requires d > 0 && a > 0 && a % d == 0
    ensures a >= d
  {
    var q := a / d;
    assert a == q * d;
    assert q != 0;
    MulMono(1, q, d);
  }

  lemma PowersOfTwo()
    ensures PowerOfTwo(512) && PowerOfTwo(1024) && PowerOfTwo(2048) && PowerOfTwo(4096)
  {
    assert PowerOfTwo(2) && PowerOfTwo(4);
    assert PowerOfTwo(8) && PowerOfTwo(16);
    assert PowerOfTwo(32) && PowerOfTwo(64);
    assert PowerOfTwo(128) && PowerOfTwo(256);
  }

  lemma {:induction false} Divides(a: nat, b: nat, q: nat)
    requires PowerOfTwo(a) && PowerOfTwo(b) && a == q * b
    ensures PowerOfTwo(q)
    decreases b
  {
    if b > 1 {
      DoubleOut(q, b / 2);
      Divides(a / 2, b / 2, q);
    }
  }

  lemma SmallPower(n: nat)
    requires PowerOfTwo(n) && n <= 128
    ensures ClusterSectors(n)
  {
    if n > 8 {
      assert PowerOfTwo(n / 2) && PowerOfTwo(n / 4) && PowerOfTwo(n / 8);
    }
  }

  /** A layout whose regions fill the volume in order, with a FAT for every cluster. */
  predicate Laid(l: Layout) {
    && SectorSize(l.sectorSize) && ClusterSectors(l.clusterSectors) && l.clusterSectors <= MaxSectors(l.sectorSize)
    && l.fatCount in {1, 2} && 0 < l.reservedSectors < U16 && 0 < l.fatSectors && l.totalSectors < U32
    && (l.kind == Fat32 ==> l.reservedSectors >= 8 && l.rootEntries == 0)
    && (l.kind != Fat32 ==> 0 < l.rootEntries < U16 && l.rootEntries * 32 % l.sectorSize == 0)
    && MinClusters(l.kind) <= l.clusters <= l.kind.MaxClusters()
    && Covers(l.kind, l.clusters, l.fatSectors, l.sectorSize)
    && FatFits16(l) && Filled(l)
  }

  /** The FAT size fits the field that stores it. */
  predicate FatFits16(l: Layout) {
    if l.kind == Fat32 then l.fatSectors < U32 else l.fatSectors < U16
  }

  /** The sectors before the data region. */
  function DataSector(l: Layout): nat
    requires l.sectorSize > 0
  {
    l.reservedSectors + l.fatCount * l.fatSectors + RootSectors(l.rootEntries, l.sectorSize)
  }

  predicate Filled(l: Layout)
    requires l.sectorSize > 0 && l.clusterSectors > 0
  {
    DataSector(l) <= l.totalSectors && l.clusters == (l.totalSectors - DataSector(l)) / l.clusterSectors
  }

  function LayoutFor(q: Request, f: Frame, s: nat, sized: (nat, nat)): Layout {
    Layout(f.kind, q.sectorSize, s, f.reserved, q.fatCount, f.rootEntries, q.totalSectors, sized.0, sized.1)
  }

  lemma RootAligned(q: Request, kind: FatKind)
    requires SectorSize(q.sectorSize) && RootEntriesFor(q, kind).Ok?
    ensures var n := RootEntriesFor(q, kind).value;
            if kind == Fat32 then n == 0 else n >= q.rootEntries > 0 && n < U16 && n * 32 % q.sectorSize == 0
  {
    hide CeilDiv;
    var d := q.sectorSize / 32;
    assert d * 32 == q.sectorSize;
    var k := CeilDiv(q.rootEntries, d);
    CeilCovers(q.rootEntries, d, k);
    MulMod(k, d, q.sectorSize);
  }

  lemma MulMod(k: nat, d: nat, m: nat)
    requires m == d * 32 && m > 0
    ensures k * d * 32 % m == 0
  {
    assert k * d * 32 == k * m;
    DivIs(k * m, m, k);
    assert k * m == m * (k * m / m) + k * m % m;
  }

  /** Every layout that fits is one of those. */
  lemma FitLaid(q: Request, f: Frame, s: nat, sized: (nat, nat))
    requires FrameFor(q) == Ok(f) && Typed(q) && ClusterSectors(s) && s <= MaxSectors(q.sectorSize)
    requires Fits(f.kind, f.available, s, q.fatCount, q.sectorSize) == Ok(sized)
    ensures Laid(LayoutFor(q, f, s, sized))
  {
    hide Beside, Needed, EntryBytes, RootEntriesFor, RootSectors, Covers;
    SizedIs(f.kind, f.available, s, q.fatCount, q.sectorSize);
    var fat := FatOf(f.kind, f.available, s, q.fatCount, q.sectorSize);
    assert sized.0 == fat;
    RootAligned(q, f.kind);
    FatOfCovers(f.kind, f.available, s, q.fatCount, q.sectorSize);
    BesideRoomed(f.available, q.fatCount * fat, s);
    FatSmall(f.kind, f.available, s, q.fatCount, q.sectorSize);
    var l := LayoutFor(q, f, s, sized);
    assert Filled(l) && FatFits16(l);
  }

  lemma BesideRoomed(available: nat, taken: nat, s: nat)
    requires s > 0 && Beside(available, taken, s) > 0
    ensures taken <= available && Beside(available, taken, s) == (available - taken) / s
  {
  }

  lemma FatOfCovers(kind: FatKind, available: nat, s: nat, fatCount: nat, sectorSize: nat)
    requires s > 0 && sectorSize > 0
    ensures var fat := FatOf(kind, available, s, fatCount, sectorSize);
            Covers(kind, Beside(available, fatCount * fat, s), fat, sectorSize)
  {
    hide Beside, Needed, Covers;
    var fat := FatOf(kind, available, s, fatCount, sectorSize);
    assert fat == 1 ==> fatCount * fat == fatCount;
    SecondEnough(kind, available, s, fatCount, sectorSize, fat);
    NeededCovers(kind, Beside(available, fatCount * fat, s), fat, sectorSize);
  }

  /** With a cluster count in range the FAT is at most a little larger than it must be. */
  lemma FatSmall(kind: FatKind, available: nat, s: nat, fatCount: nat, sectorSize: nat)
    requires Legal(available, fatCount, sectorSize) && ClusterSectors(s)
    requires Count(kind, available, s, fatCount, sectorSize) <= kind.MaxClusters()
    ensures var fat := FatOf(kind, available, s, fatCount, sectorSize);
            fat < U32 && (kind != Fat32 ==> fat < U16)
  {
    hide Beside, Needed, Count;
    SizedIs(kind, available, s, fatCount, sectorSize);
    var fat := FatOf(kind, available, s, fatCount, sectorSize);
    var first := Beside(available, fatCount, s);
    NeededSmall(kind, first, sectorSize);
    if fat > 1 {
      BesideHalfRoom(available, fatCount, fatCount * fat, s);
    }
  }

  /** FATs that take at most a quarter of the room leave at least half of its clusters. */
  lemma BesideHalfRoom(available: nat, taken: nat, more: nat, s: nat)
    requires s > 0 && 4 * more <= available && taken <= more
    ensures Beside(available, taken, s) <= 2 * Beside(available, more, s) + 1
  {
    BesideRoom(available, taken, more, s);
    BesideHalf(available, taken, s);
  }

  /** The layout with the cluster size nearest to the default one of those that fit. */
  ghost predicate Nearest(q: Request, f: Frame, l: Layout)
    requires Legal(f.available, q.fatCount, q.sectorSize)
  {
    && ClusterSectors(l.clusterSectors) && l.clusterSectors <= MaxSectors(q.sectorSize)
    && Fits(f.kind, f.available, l.clusterSectors, q.fatCount, q.sectorSize) == Ok((l.fatSectors, l.clusters))
    && l == LayoutFor(q, f, l.clusterSectors, (l.fatSectors, l.clusters))
    && Passed(f.kind, f.available, q.fatCount, q.sectorSize,
              StartSectors(f.kind, q.totalSectors * q.sectorSize, q.sectorSize), l.clusterSectors)
  }

  /** What planning comes to: the layout asked for, the nearest that fits, or the reason none does. */
  ghost predicate Planned(q: Request, r: Result<Layout, LayoutError>) {
    match FrameFor(q)
    case Err(error) => r == Err(error)
    case Ok(f) =>
      match q.clusterSize
      case Some(size) =>
        (match AskedSectors(size, q.sectorSize)
         case Err(error) => r == Err(error)
         case Ok(s) =>
           match Fits(f.kind, f.available, s, q.fatCount, q.sectorSize)
           case Err(error) => r == Err(error)
           case Ok(sized) => r == Ok(LayoutFor(q, f, s, sized)))
      case None =>
        && (r.Err? <==> NoneFits(f.kind, f.available, q.fatCount, q.sectorSize))
        && (r.Ok? ==> Nearest(q, f, r.value))
        && (r.Err? ==>
              || (r.error == TooLarge
                  && Fits(f.kind, f.available, MaxSectors(q.sectorSize), q.fatCount, q.sectorSize) == Err(TooLarge))
              || (r.error == TooSmall && Fits(f.kind, f.available, 1, q.fatCount, q.sectorSize) == Err(TooSmall)))
  }

  /** Plans a volume: the layout asked for, the nearest that fits, or the reason none does. */
  method Plan(q: Request) returns (r: Result<Layout, LayoutError>)
    requires Typed(q)
    ensures Planned(q, r)
    ensures r.Ok? ==> Laid(r.value) && r.value.totalSectors == q.totalSectors
    ensures r.Ok? ==>
              match q.kind
              case Some(asked) => r.value.kind == asked
              case None =>
                match r.value.kind
                case Fat12 => q.totalSectors * q.sectorSize < 0x100_0000
                case Fat16 => 0x100_0000 <= q.totalSectors * q.sectorSize < 0x2000_0000
                case Fat32 => 0x2000_0000 <= q.totalSectors * q.sectorSize
  {
    hide Fits, NoneFits, Laid, Legal, Passed, StartSectors;
    var f :- FrameFor(q);
    var s, sized;
    if q.clusterSize.Some? {
      s :- AskedSectors(q.clusterSize.value, q.sectorSize);
      sized :- Fits(f.kind, f.available, s, q.fatCount, q.sectorSize);
    } else {
      var found :- Search(f.kind, f.available, q.fatCount, q.sectorSize, q.totalSectors * q.sectorSize);
      s, sized := found.0, found.1;
    }
    FitLaid(q, f, s, sized);
    r := Ok(LayoutFor(q, f, s, sized));
  }

  // ------------------------------------------------------------------
  // When the FAT is the smallest
  // ------------------------------------------------------------------

  /** Whether FATs of this size have an entry for every cluster they leave room for. */
  predicate Enough(kind: FatKind, available: nat, s: nat, fatCount: nat, sectorSize: nat, fat: nat)
    requires s > 0
  {
    Covers(kind, Beside(available, fatCount * fat, s), fat, sectorSize)
  }

  /** No FAT of fewer sectors, and at least one, is enough. */
  ghost predicate Smallest(kind: FatKind, available: nat, s: nat, fatCount: nat, sectorSize: nat, fat: nat)
    requires s > 0
  {
    && Enough(kind, available, s, fatCount, sectorSize, fat)
    && forall g :: 1 <= g < fat ==> !Enough(kind, available, s, fatCount, sectorSize, g)
  }

  /** A larger FAT leaves fewer clusters and holds more entries. */
  lemma EnoughGrows(kind: FatKind, available: nat, s: nat, fatCount: nat, sectorSize: nat, g: nat, fat: nat)
    requires s > 0 && sectorSize > 0 && g <= fat && Enough(kind, available, s, fatCount, sectorSize, g)
    ensures Enough(kind, available, s, fatCount, sectorSize, fat)
  {
    hide Beside, EntryBytes, Needed;
    MulMono(g, fat, fatCount);
    BesideMono(available, fatCount * g, fatCount * fat, s);
    NeededMono(kind, Beside(available, fatCount * fat, s), Beside(available, fatCount * g, s), sectorSize);
    MulMono(g, fat, sectorSize);
  }

  /**
   * The FAT is the smallest exactly when it is one sector, or when what the clusters beside FATs
   * one sector smaller need is more than those have.
   */
  lemma SmallestExactly(kind: FatKind, available: nat, s: nat, fatCount: nat, sectorSize: nat)
    requires s > 0 && sectorSize > 0 && Sized(kind, available, s, fatCount, sectorSize).Some?
    ensures var fat := FatOf(kind, available, s, fatCount, sectorSize);
            && fat >= 1 && Sized(kind, available, s, fatCount, sectorSize).value.0 == fat
            && (Smallest(kind, available, s, fatCount, sectorSize, fat) <==>
                  fat == 1 || Needed(kind, Beside(available, fatCount * (fat - 1), s), sectorSize) > fat - 1)
  {
    hide Beside, Needed, Covers, Enough;
    var fat := FatOf(kind, available, s, fatCount, sectorSize);
    FatOfCovers(kind, available, s, fatCount, sectorSize);
    EnoughIs(kind, available, s, fatCount, sectorSize, fat);
    if fat > 1 {
      EnoughIs(kind, available, s, fatCount, sectorSize, fat - 1);
      forall g | 1 <= g < fat && Enough(kind, available, s, fatCount, sectorSize, g)
        ensures Enough(kind, available, s, fatCount, sectorSize, fat - 1)
      {
        EnoughGrows(kind, available, s, fatCount, sectorSize, g, fat - 1);
      }
    }
  }

  lemma EnoughIs(kind: FatKind, available: nat, s: nat, fatCount: nat, sectorSize: nat, fat: nat)
    requires s > 0 && sectorSize > 0
    ensures Enough(kind, available, s, fatCount, sectorSize, fat) <==>
            Covers(kind, Beside(available, fatCount * fat, s), fat, sectorSize)
    ensures Enough(kind, available, s, fatCount, sectorSize, fat) <==>
            Needed(kind, Beside(available, fatCount * fat, s), sectorSize) <= fat
  {
    NeededCovers(kind, Beside(available, fatCount * fat, s), fat, sectorSize);
  }

  /** It is not always the smallest: here 1001 sectors are enough, and 1016 are taken. */
  lemma NotSmallest()
    ensures Sized(Fat32, 130000, 1, 2, 512) == Some((1016, 127968))
    ensures Enough(Fat32, 130000, 1, 2, 512, 1001) && !Smallest(Fat32, 130000, 1, 2, 512, 1016)
  {
    assert Enough(Fat32, 130000, 1, 2, 512, 1001);
  }
}

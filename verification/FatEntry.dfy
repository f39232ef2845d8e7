/** FAT12, FAT16 and FAT32 allocation-table entries, packed into one byte array. */
module FatEntry {
  import opened Wrappers
  import opened Bytes

  const FIRST_DATA_CLUSTER: nat := 2

  /** Why an entry does not name a next cluster. */
  datatype ChainError = Bad | OutOfBounds(cluster: nat)

  datatype FatKind = Fat12 | Fat16 | Fat32 {
    /** One more than the largest value an entry holds: the mask plus one. */
    function Span(): nat {
      match this
      case Fat12 => 0x1000
      case Fat16 => 0x1_0000
      case Fat32 => 0x1000_0000
    }

    function EndOfChain(): nat {
      match this
      case Fat12 => 0x0FF8
      case Fat16 => 0xFFF8
      case Fat32 => 0x0FFF_FFF8
    }

    function BadCluster(): nat {
      match this
      case Fat12 => 0x0FF7
      case Fat16 => 0xFFF7
      case Fat32 => 0x0FFF_FFF7
    }

    function MaxClusters(): nat {
      match this
      case Fat12 => 4084
      case Fat16 => 65524
      case Fat32 => 0x0FFF_FFF5
    }

    /** Byte offset of an entry within one FAT copy. */
    function EntryOffset(cluster: nat): nat {
      match this
      case Fat12 => cluster * 3 / 2
      case Fat16 => cluster * 2
      case Fat32 => cluster * 4
    }

    function EntryLen(): nat {
      if this == Fat32 then 4 else 2
    }

    /** The width of an entry, which 12-bit entries do not round to bytes. */
    function EntryBits(): nat {
      match this
      case Fat12 => 12
      case Fat16 => 16
      case Fat32 => 32
    }

    /** The stored entry of `cluster`, read at its offset; the reserved high nibble of FAT32 is kept. */
    function Decode(cluster: nat, bytes: seq<byte>): (v: nat)
      requires |bytes| >= EntryLen()
      ensures v < U32
    {
      var b0: nat, b1: nat := bytes[0], bytes[1];
      match this
      case Fat12 => if cluster % 2 == 0 then b0 + b1 % 16 * 256 else b0 / 16 + b1 * 16
      case Fat16 => b0 + 256 * b1
      case Fat32 =>
        var b2: nat, b3: nat := bytes[2], bytes[3];
        b0 + 256 * b1 + 0x1_0000 * b2 + 0x100_0000 * b3
    }

    /** What a stored value says of the cluster after its own; the last of a chain has none. */
    function Next(stored: nat, maxCluster: nat): Result<Option<nat>, ChainError> {
      var value := stored % Span();
      if value >= EndOfChain() then Ok(None)
      else if value == BadCluster() then Err(Bad)
      else if value < FIRST_DATA_CLUSTER || value > maxCluster then Err(OutOfBounds(value))
      else Ok(Some(value))
    }

    /** Whether entries 0 and 1 hold the media byte and an end-of-chain marker, clean bits aside. */
    predicate ReservedEntriesValid(media: byte, first: nat, second: nat) {
      && first % Span() == Span() - 256 + media
      && (match this
          case Fat12 => second % Span() >= EndOfChain()
          case Fat16 => second % 0x4000 + 0xC000 >= EndOfChain()
          case Fat32 => second % 0x400_0000 + 0x0C00_0000 >= EndOfChain())
    }
  }

  /** The marks that end a chain. */
  predicate EndMark(kind: FatKind, value: nat) {
    match kind
    case Fat12 => 0xFF8 <= value <= 0xFFF
    case Fat16 => 0xFFF8 <= value <= 0xFFFF
    case Fat32 => 0x0FFF_FFF8 <= value <= 0x0FFF_FFFF
  }

  predicate BadMark(kind: FatKind, value: nat) {
    match kind
    case Fat12 => value == 0xFF7
    case Fat16 => value == 0xFFF7
    case Fat32 => value == 0x0FFF_FFF7
  }

  /** Values an entry can hold. */
  predicate EntryValue(kind: FatKind, value: nat) {
    match kind
    case Fat12 => value <= 0xFFF
    case Fat16 => value <= 0xFFFF
    case Fat32 => value <= 0x0FFF_FFFF
  }

  /**
   * Entry 0 holds the media byte below set bits and entry 1 an end mark, whatever the two bits that record
   * a clean unmount hold on FAT16 and FAT32.
   */
  lemma ReservedExactly(kind: FatKind, media: byte, first: nat, low: nat, clean: nat)
    requires EntryValue(kind, first)
    requires match kind
             case Fat12 => low <= 0xFFF && clean == 0
             case Fat16 => low < 0x4000 && clean < 4
             case Fat32 => low < 0x400_0000 && clean < 4
    ensures kind.ReservedEntriesValid(media, first, low + clean * (if kind == Fat32 then 0x400_0000 else 0x4000)) <==>
            match kind
            case Fat12 => first == 0xF00 + media && EndMark(Fat12, low)
            case Fat16 => first == 0xFF00 + media && EndMark(Fat16, low + 0xC000)
            case Fat32 => first == 0x0FFF_FF00 + media && EndMark(Fat32, low + 0x0C00_0000)
  {
  }

  /**
   * Every mark of the range ends a chain, the bad mark and numbers outside the data clusters have errors
   * of their own, and any other value is the next cluster, whatever the reserved nibble above it.
   */
  lemma NextExactly(kind: FatKind, value: nat, high: nat, maxCluster: nat)
    requires EntryValue(kind, value) && (high == 0 || kind == Fat32)
    ensures var next := kind.Next(value + 0x1000_0000 * high, maxCluster);
            if EndMark(kind, value) then next == Ok(None)
            else if BadMark(kind, value) then next == Err(Bad)
            else if 2 <= value <= maxCluster then next == Ok(Some(value))
            else next == Err(OutOfBounds(value))
  {
  }

  /** Whether the entry of `cluster` lies inside a FAT of `len` bytes. */
  predicate Fits(kind: FatKind, len: nat, cluster: nat) {
    kind.EntryOffset(cluster) + kind.EntryLen() <= len
  }

  /** The stored entry of `cluster` in a FAT. */
  function Stored(kind: FatKind, fat: seq<byte>, cluster: nat): nat
    requires Fits(kind, |fat|, cluster)
  {
    kind.Decode(cluster, fat[kind.EntryOffset(cluster)..])
  }

  /** The part of a stored entry that is not the cluster value: the high nibble on FAT32, nothing otherwise. */
  function Reserved(kind: FatKind, stored: nat): nat {
    stored / kind.Span()
  }

  /** Where entry `cluster` starts and ends, the FAT12 nibbles counted by their bytes. */
  lemma Fat12Offset(cluster: nat)
    ensures Fat12.EntryOffset(cluster) == cluster / 2 * 3 + cluster % 2
  {
  }

  /**
   * `now` is `was` with `value` as the entry of `cluster`: the reserved nibble of that entry and
   * every other entry are as they were, and so is every byte the entry does not touch.
   */
  ghost predicate Updated(kind: FatKind, was: seq<byte>, now: seq<byte>, cluster: nat, value: nat)
    requires Fits(kind, |was|, cluster)
  {
    && |now| == |was|
    && Stored(kind, now, cluster) % kind.Span() == value % kind.Span()
    && Reserved(kind, Stored(kind, now, cluster)) == Reserved(kind, Stored(kind, was, cluster))
    && (forall c :: c != cluster && Fits(kind, |was|, c) ==> Stored(kind, now, c) == Stored(kind, was, c))
    && Outside(kind, was, now, cluster)
  }

  /** The bytes not read for the entry of `cluster` are the same. */
  predicate Outside(kind: FatKind, was: seq<byte>, now: seq<byte>, cluster: nat)
    requires |now| == |was|
  {
    var at := kind.EntryOffset(cluster);
    forall k :: 0 <= k < |was| && !(at <= k < at + kind.EntryLen()) ==> now[k] == was[k]
  }

  /** Other entries are kept when the other bytes and the neighbour's FAT12 nibble are. */
  lemma EntryKept(kind: FatKind, was: seq<byte>, now: seq<byte>, cluster: nat, c: nat)
    requires |now| == |was| && Fits(kind, |was|, cluster) && Fits(kind, |was|, c) && c != cluster
    requires Outside(kind, was, now, cluster)
    requires kind == Fat12 ==>
               var at := kind.EntryOffset(cluster);
               if cluster % 2 == 0 then now[at + 1] / 16 == was[at + 1] / 16 else now[at] % 16 == was[at] % 16
    ensures Stored(kind, now, c) == Stored(kind, was, c)
  {
    if kind == Fat12 {
      Fat12Offset(cluster);
      Fat12Offset(c);
    }
  }

  /** A 12-bit value packed over two bytes, the other entry's nibble kept. */
  function Packed12(cluster: nat, value: nat, b0: byte, b1: byte): (r: seq<byte>)
    ensures |r| == 2
  {
    if cluster % 2 == 0 then [value % 256, b1 / 16 * 16 + value / 256 % 16]
    else
      var low := value % 16;
      LowNibble(value);
      [b0 % 16 + value * 16 % 256, value / 16 % 256]
  }

  lemma LowNibble(value: nat)
    ensures value * 16 % 256 == value % 16 * 16
  {
    var q := value / 16;
    assert value * 16 == 256 * q + value % 16 * 16;
  }

  /** A 28-bit value stored into a 32-bit entry, the reserved nibble kept. */
  function Merged32(was: nat, value: nat): (v: nat)
    requires was < U32
    ensures v < U32
  {
    was / 0x1000_0000 * 0x1000_0000 + value % 0x1000_0000
  }

  /** The bytes of the entry with `value` stored over `held`. */
  function Packed(kind: FatKind, cluster: nat, value: nat, held: seq<byte>): (r: seq<byte>)
    requires |held| == kind.EntryLen() && value < U32
    ensures |r| == kind.EntryLen()
  {
    match kind
    case Fat12 => Packed12(cluster, value, held[0], held[1])
    case Fat16 => [value % 256, value / 256 % 256]
    case Fat32 =>
      var v := Merged32(kind.Decode(cluster, held), value);
      [v % 256, v / 256 % 256, v / 0x1_0000 % 256, v / 0x100_0000]
  }

  /** What is stored reads back, and nothing else of the bytes changes. */
  lemma PackedReads(kind: FatKind, cluster: nat, value: nat, held: seq<byte>)
    requires |held| == kind.EntryLen() && value < U32
    ensures var now := kind.Decode(cluster, Packed(kind, cluster, value, held));
            now % kind.Span() == value % kind.Span()
            && Reserved(kind, now) == Reserved(kind, kind.Decode(cluster, held))
    ensures kind == Fat12 ==>
              var now := Packed(kind, cluster, value, held);
              if cluster % 2 == 0 then now[1] / 16 == held[1] / 16 else now[0] % 16 == held[0] % 16
  {
    match kind {
      case Fat12 => PackedReads12(cluster, value, held);
      case Fat16 => Split16(value);
      case Fat32 => PackedReads32(cluster, value, held);
    }
  }

  lemma Split16(v: nat)
    ensures v % 256 + 256 * (v / 256 % 256) == v % 0x1_0000 < 0x1_0000
  {
    assert v == 0x1_0000 * (v / 256 / 256) + 256 * (v / 256 % 256) + v % 256;
  }

  lemma PackedReads32(cluster: nat, value: nat, held: seq<byte>)
    requires |held| == 4 && value < U32
    ensures var now := Fat32.Decode(cluster, Packed(Fat32, cluster, value, held));
            now % 0x1000_0000 == value % 0x1000_0000 && now / 0x1000_0000 == Fat32.Decode(cluster, held) / 0x1000_0000
  {
    var was := Fat32.Decode(cluster, held);
    Replaced32(was, value);
    Split32(Merged32(was, value));
  }

  lemma PackedReads12(cluster: nat, value: nat, held: seq<byte>)
    requires |held| == 2 && value < U32
    ensures var now := Packed(Fat12, cluster, value, held);
            && Fat12.Decode(cluster, now) == value % 0x1000
            && (if cluster % 2 == 0 then now[1] / 16 == held[1] / 16 else now[0] % 16 == held[0] % 16)
    ensures Fat12.Decode(cluster, held) < 0x1000
  {
    var tail := value / 16;
    var head := tail / 16;
    Digits12(value, head / 16, head % 16, tail % 16, value % 16);
    var b0: nat, b1: nat := held[0], held[1];
    if cluster % 2 == 0 {
      Nibbles(b1 / 16, head % 16);
    } else {
      Nibbles(value % 16, b0 % 16);
    }
  }

  lemma Nibbles(high: nat, low: nat)
    requires low < 16
    ensures (high * 16 + low) / 16 == high && (high * 16 + low) % 16 == low
  {
  }

  lemma Digits12(v: nat, q: nat, h: nat, m: nat, l: nat)
    requires h < 16 && m < 16 && l < 16 && v == 0x1000 * q + 256 * h + 16 * m + l
    ensures v % 256 == 16 * m + l && v / 256 % 16 == h && v % 0x1000 == 256 * h + 16 * m + l
    ensures v / 16 % 256 == 16 * h + m && v * 16 % 256 == 16 * l
  {
    Remainder256(v, 16 * q + h, 16 * m + l);
    Remainder4096(v, q, 256 * h + 16 * m + l);
    assert v == 16 * (256 * q + 16 * h + m) + l;
    assert v / 16 == 256 * q + (16 * h + m);
    Remainder256(v / 16, q, 16 * h + m);
    Remainder256(v * 16, 256 * q + 16 * h + m, 16 * l);
  }

  lemma Remainder256(v: nat, q: nat, r: nat)
    requires r < 256 && v == 256 * q + r
    ensures v % 256 == r && v / 256 == q
  {
  }

  lemma Remainder4096(v: nat, q: nat, r: nat)
    requires r < 0x1000 && v == 0x1000 * q + r
    ensures v % 0x1000 == r
  {
  }

  lemma Replaced32(was: nat, value: nat)
    requires was < U32
    ensures var v := Merged32(was, value);
            v < U32 && v % 0x1000_0000 == value % 0x1000_0000 && v / 0x1000_0000 == was / 0x1000_0000
  {
  }

  lemma Split32(v: nat)
    requires v < U32
    ensures v % 256 + 256 * (v / 256 % 256) + 0x1_0000 * (v / 0x1_0000 % 256) + 0x100_0000 * (v / 0x100_0000) == v
  {
    assert v / 0x1_0000 == v / 256 / 256 && v / 0x100_0000 == v / 256 / 256 / 256;
  }

  lemma PackedUpdates(kind: FatKind, was: seq<byte>, now: seq<byte>, cluster: nat, value: nat)
    requires |now| == |was| && Fits(kind, |was|, cluster) && value < U32 && Outside(kind, was, now, cluster)
    requires var at := kind.EntryOffset(cluster);
             var len := kind.EntryLen();
             now[at..at + len] == Packed(kind, cluster, value, was[at..at + len])
    ensures Updated(kind, was, now, cluster, value)
  {
    hide Packed, FatKind.EntryOffset, Outside;
    var at := kind.EntryOffset(cluster);
    var len := kind.EntryLen();
    PackedReads(kind, cluster, value, was[at..at + len]);
    assert now[at + 1] == now[at..at + len][1] && now[at] == now[at..at + len][0];
    assert Stored(kind, now, cluster) == kind.Decode(cluster, now[at..at + len]);
    assert Stored(kind, was, cluster) == kind.Decode(cluster, was[at..at + len]);
    forall c | c != cluster && Fits(kind, |was|, c)
      ensures Stored(kind, now, c) == Stored(kind, was, c)
    {
      EntryKept(kind, was, now, cluster, c);
    }
  }

  /** Stores `value` as the entry of `cluster`, keeping the nibbles that are not the entry's. */
  method Encode(kind: FatKind, cluster: nat, value: nat, fat: array<byte>)
    requires Fits(kind, fat.Length, cluster) && value < U32
    modifies fat
    ensures Updated(kind, old(fat[..]), fat[..], cluster, value)
  {
    hide FatKind.EntryOffset, Updated, Packed12, Merged32;
    var at := kind.EntryOffset(cluster);
    match kind {
      case Fat12 =>
        Store12(cluster, value, fat, at);
      case Fat16 =>
        fat[at], fat[at + 1] := value % 256, value / 256 % 256;
      case Fat32 =>
        var v := Merged32(kind.Decode(cluster, fat[at..at + 4]), value);
        fat[at], fat[at + 1], fat[at + 2], fat[at + 3] := v % 256, v / 256 % 256, v / 0x1_0000 % 256, v / 0x100_0000;
    }
    PackedUpdates(kind, old(fat[..]), fat[..], cluster, value);
  }

  method Store12(cluster: nat, value: nat, fat: array<byte>, at: nat)
    requires at + 2 <= fat.Length && value < U32
    modifies fat
    ensures fat[at..at + 2] == Packed12(cluster, value, old(fat[at]), old(fat[at + 1]))
    ensures forall k :: 0 <= k < fat.Length && k != at && k != at + 1 ==> fat[k] == old(fat[k])
  {
    if cluster % 2 == 0 {
      fat[at] := value % 256;
      fat[at + 1] := fat[at + 1] / 16 * 16 + value / 256 % 16;
    } else {
      LowNibble(value);
      fat[at] := fat[at] % 16 + value * 16 % 256;
      fat[at + 1] := value / 16 % 256;
    }
  }
}

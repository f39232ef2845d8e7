/** 32-byte directory slots: long-name fragments and short entries. */
module FatSlot {
  import opened Bytes

  const ENTRY_END: byte := 0x00
  const ENTRY_FREE: byte := 0xE5
  const ATTR_LONG_NAME: byte := 0x0F
  const UNITS_PER_ENTRY: nat := 13

  /** A UTF-16 code unit. */
  type Unit = u: int | 0 <= u < 0x1_0000

  /** One long-name fragment; its name fields hold 5, 6 and 2 code units. */
  datatype LongEntry = LongEntry(sequence: byte, checksum: byte, name1: seq<byte>, name2: seq<byte>, name3: seq<byte>) {
    predicate Typed() {
      |name1| == 10 && |name2| == 12 && |name3| == 4
    }
  }

  datatype ShortEntry = ShortEntry(
    name: seq<byte>, attr: byte, ntCase: byte, createdTenths: byte, createdTime: nat, createdDate: nat, accessedDate: nat,
    clusterHigh: nat, modifiedTime: nat, modifiedDate: nat, clusterLow: nat, size: nat)
  {
    predicate Typed() {
      && |name| == 11 && createdTime < U16 && createdDate < U16 && accessedDate < U16 && clusterHigh < U16
      && modifiedTime < U16 && modifiedDate < U16 && clusterLow < U16 && size < U32
    }
  }

  datatype Slot = End | Free | Long(long: LongEntry) | Short(short: ShortEntry)

  /** Whether the attribute bits mark a long-name fragment. */
  predicate IsLong(attr: byte) {
    attr % 64 == ATTR_LONG_NAME
  }

  function Parse(raw: seq<byte>): Slot
    requires |raw| == 32
  {
    if raw[0] == ENTRY_END then End
    else if raw[0] == ENTRY_FREE then Free
    else if IsLong(raw[11]) then Long(LongEntry(raw[0], raw[13], raw[1..11], raw[14..26], raw[28..32]))
    else
      Short(ShortEntry(raw[..11], raw[11], raw[12], raw[13], LeValue(raw[14..16]), LeValue(raw[16..18]), LeValue(raw[18..20]),
                       LeValue(raw[20..22]), LeValue(raw[22..24]), LeValue(raw[24..26]), LeValue(raw[26..28]),
                       LeValue(raw[28..32])))
  }

  function EncodeLong(e: LongEntry): (raw: seq<byte>)
    requires e.Typed()
    ensures |raw| == 32
  {
    [e.sequence] + e.name1 + [ATTR_LONG_NAME, 0, e.checksum] + e.name2 + [0, 0] + e.name3
  }

  function EncodeShort(e: ShortEntry): (raw: seq<byte>)
    requires e.Typed()
    ensures |raw| == 32
  {
    (e.name + [e.attr, e.ntCase, e.createdTenths])
    + (LeBytes(e.createdTime, 2) + LeBytes(e.createdDate, 2) + LeBytes(e.accessedDate, 2))
    + (LeBytes(e.clusterHigh, 2) + LeBytes(e.modifiedTime, 2) + LeBytes(e.modifiedDate, 2))
    + (LeBytes(e.clusterLow, 2) + LeBytes(e.size, 4))
  }

  /** Where the fields of a fragment lie; what marks it as one and its unused bytes are constant. */
  lemma LongFields(e: LongEntry)
    requires e.Typed()
    ensures var raw := EncodeLong(e);
            && raw[0] == e.sequence && raw[1..11] == e.name1 && raw[11] == 0x0F && raw[12] == 0 && raw[13] == e.checksum
            && raw[14..26] == e.name2 && raw[26] == 0 && raw[27] == 0 && raw[28..32] == e.name3
  {
  }

  /** A fragment reads back unless its sequence byte is one of the markers. */
  lemma LongRoundTrip(e: LongEntry)
    requires e.Typed()
    ensures Parse(EncodeLong(e)) == Long(e) <==> e.sequence != ENTRY_END && e.sequence != ENTRY_FREE
  {
    LongFields(e);
  }

  /** Every slot is one of four kinds, and what a fragment or a short entry says is written back as it was. */
  lemma ParsedBack(raw: seq<byte>)
    requires |raw| == 32
    ensures match Parse(raw)
            case End => raw[0] == 0
            case Free => raw[0] == 0xE5
            case Long(e) =>
              raw[0] !in [0, 0xE5] && raw[11] % 64 == 15 && e.Typed()
              && EncodeLong(e) == raw[11 := 15][12 := 0][26 := 0][27 := 0]
            case Short(e) => raw[0] !in [0, 0xE5] && raw[11] % 64 != 15 && e.Typed() && EncodeShort(e) == raw
  {
    hide EncodeShort, LeBytes, LeValue;
    match Parse(raw)
    case End =>
    case Free =>
    case Long(e) =>
      LongFields(e);
      assert EncodeLong(e) == raw[11 := 15][12 := 0][26 := 0][27 := 0];
    case Short(e) =>
      WordsBack(raw);
      ShortFields(e);
      SameSlot(EncodeShort(e), raw);
  }

  lemma WordBack(raw: seq<byte>, at: nat)
    requires |raw| == 32 && at <= 30
    ensures LeValue(raw[at..at + 2]) < U16 && LeBytes(LeValue(raw[at..at + 2]), 2) == raw[at..at + 2]
  {
    hide LeBytes, LeValue;
    assert Pow(256, 2) == U16;
    LeValueBytes(raw[at..at + 2]);
  }

  lemma WordsBack(raw: seq<byte>)
    requires |raw| == 32 && Parse(raw).Short?
    ensures Parse(raw).short.Typed() && var e := Parse(raw).short;
            && e.name == raw[..11] && e.attr == raw[11] && e.ntCase == raw[12] && e.createdTenths == raw[13]
            && LeBytes(e.createdTime, 2) == raw[14..16] && LeBytes(e.createdDate, 2) == raw[16..18]
            && LeBytes(e.accessedDate, 2) == raw[18..20] && LeBytes(e.clusterHigh, 2) == raw[20..22]
            && LeBytes(e.modifiedTime, 2) == raw[22..24] && LeBytes(e.modifiedDate, 2) == raw[24..26]
            && LeBytes(e.clusterLow, 2) == raw[26..28] && LeBytes(e.size, 4) == raw[28..32]
  {
    hide LeBytes, LeValue;
    WordBack(raw, 14);
    WordBack(raw, 16);
    WordBack(raw, 18);
    WordBack(raw, 20);
    WordBack(raw, 22);
    WordBack(raw, 24);
    WordBack(raw, 26);
    assert Pow(256, 2) == U16;
    assert Pow(256, 4) == U32;
    LeValueBytes(raw[28..32]);
  }

  lemma SameSlot(a: seq<byte>, b: seq<byte>)
    requires |a| == |b| == 32 && a[..11] == b[..11] && a[11] == b[11] && a[12] == b[12] && a[13] == b[13]
    requires a[14..16] == b[14..16] && a[16..18] == b[16..18] && a[18..20] == b[18..20] && a[20..22] == b[20..22]
    requires a[22..24] == b[22..24] && a[24..26] == b[24..26] && a[26..28] == b[26..28] && a[28..32] == b[28..32]
    ensures a == b
  {
    assert a == a[..11] + [a[11], a[12], a[13]] + a[14..16] + a[16..18] + a[18..20] + a[20..22] + a[22..24] + a[24..26]
                + a[26..28] + a[28..32];
    assert b == b[..11] + [b[11], b[12], b[13]] + b[14..16] + b[16..18] + b[18..20] + b[20..22] + b[22..24] + b[24..26]
                + b[26..28] + b[28..32];
  }

  lemma ShortFields(e: ShortEntry)
    requires e.Typed()
    ensures var raw := EncodeShort(e);
            && raw[..11] == e.name && raw[11] == e.attr && raw[12] == e.ntCase && raw[13] == e.createdTenths
            && raw[14..16] == LeBytes(e.createdTime, 2) && raw[16..18] == LeBytes(e.createdDate, 2)
            && raw[18..20] == LeBytes(e.accessedDate, 2) && raw[20..22] == LeBytes(e.clusterHigh, 2)
            && raw[22..24] == LeBytes(e.modifiedTime, 2) && raw[24..26] == LeBytes(e.modifiedDate, 2)
            && raw[26..28] == LeBytes(e.clusterLow, 2) && raw[28..32] == LeBytes(e.size, 4)
  {
    hide LeBytes;
  }

  /** A short entry reads back exactly when its first byte is no marker and its attributes are not a fragment's. */
  lemma ShortRoundTrip(e: ShortEntry)
    requires e.Typed()
    ensures Parse(EncodeShort(e)) == Short(e) <==> e.name[0] != ENTRY_END && e.name[0] != ENTRY_FREE && !IsLong(e.attr)
  {
    hide EncodeShort, LeBytes, LeValue;
    ShortFields(e);
    assert EncodeShort(e)[0] == e.name[0];
    forall v: nat | v < U16
      ensures LeValue(LeBytes(v, 2)) == v
    {
      Word(v);
    }
    Double(e.size);
  }

  lemma Word(v: nat)
    requires v < U16
    ensures LeValue(LeBytes(v, 2)) == v
  {
    assert Pow(256, 2) == U16;
    LeBytesValue(v, 2);
  }

  lemma Double(v: nat)
    requires v < U32
    ensures LeValue(LeBytes(v, 4)) == v
  {
    assert Pow(256, 2) == U16;
    assert Pow(256, 4) == U32;
    LeBytesValue(v, 4);
  }
}

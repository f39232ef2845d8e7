/**
 * The requests a reader makes of the stream. One that runs into the end takes the bytes that are
 * left and counts none of them; a byte sum that is due is compared once.
 */
module CpioRequests {
  import opened Wrappers
  import opened Bytes
  import opened CpioRaw
  import opened CpioHeader
  import opened E = CpioError
  import opened CpioParse

  /** Data that is passed over is asked for in chunks of this many bytes. */
  const SKIP_CHUNK: nat := 512

  // ------------------------------------------------------------------
  // Bytes taken in vain
  // ------------------------------------------------------------------

  /** What a request for `len` bytes at `at` takes when the stream ends before it is met. */
  function Cut(s: seq<byte>, at: nat, len: nat): nat {
    if at <= |s| < at + len then |s| - at else 0
  }

  /** The requests for the fixed fields of a header: a first byte, the rest of the magic, the rest of the fields. */
  function FixedCut(s: seq<byte>, pos: nat): nat
    requires pos < |s|
  {
    if pos + 6 > |s| then Cut(s, pos + 1, 5)
    else
      match Detect(s[pos..pos + 6])
      case None => 0
      case Some(format) => Cut(s, pos + 6, HeaderLen(format) - 6)
  }

  /** The requests for a name and its padding. */
  function NameCut(s: seq<byte>, at: nat, h: Header): nat
    requires at <= |s|
  {
    var nameEnd := at + h.namesize;
    if nameEnd > |s| then Cut(s, at, h.namesize)
    else if BadName(s[at..nameEnd]) then 0
    else Cut(s, nameEnd, NamePadding(h.format, h.namesize))
  }

  lemma NameWhole(s: seq<byte>, at: nat, h: Header)
    requires at <= |s| && StoredName(s, at, h).Ok?
    ensures NameCut(s, at, h) == 0
  {
  }

  /** What the name and padding under the fixed fields `h` of `start` cost. */
  function NamedCut(s: seq<byte>, start: nat, h: Header, capacity: nat): nat
    requires start + HeaderLen(h.format) <= |s|
  {
    if HeaderFault(h, capacity).Some? then 0 else NameCut(s, start + HeaderLen(h.format), h)
  }

  function HeadCut(s: seq<byte>, pos: nat, options: Options): nat
    requires pos <= |s|
  {
    if pos == |s| then 0
    else
      match FixedHeader(s, pos)
      case Err(_) => FixedCut(s, pos)
      case Ok(h) => NamedCut(s, pos, h, options.capacity)
  }

  /** Passing what is left of an entry of which reading stands at `from`. */
  function PassCut(s: seq<byte>, e: EntryInfo, from: nat): nat {
    var dataEnd := e.dataOffset + e.header.len;
    if dataEnd > |s| then (if from <= |s| then (|s| - from) % SKIP_CHUNK else 0)
    else if Summed(e.header) && CpioHeader.Checksum(0, Data(s, e)) != e.header.check then 0
    else Cut(s, dataEnd, DataPadding(e.header.format, e.header.len))
  }

  /** Passing an entry and reading the header after it. */
  function StepCut(s: seq<byte>, e: EntryInfo, from: nat, options: Options): nat {
    match Pass(s, e)
    case Err(_) => PassCut(s, e, from)
    case Ok(next) => HeadCut(s, next, options)
  }

  // ------------------------------------------------------------------
  // Sums to be compared
  // ------------------------------------------------------------------

  /** An entry of this header owes one comparison, even when it is refused for it at once. */
  function KindOwes(path: seq<byte>, h: Header): nat {
    if path != TRAILER_NAME && h.mode != 0 && Summed(h) then 1 else 0
  }

  function NamedOwes(s: seq<byte>, start: nat, h: Header, capacity: nat): nat
    requires start + HeaderLen(h.format) <= |s|
  {
    if HeaderFault(h, capacity).Some? then 0
    else
      match StoredName(s, start + HeaderLen(h.format), h)
      case Err(_) => 0
      case Ok((path, _)) => KindOwes(path, h)
  }

  function HeadOwes(s: seq<byte>, pos: nat, options: Options): nat
    requires pos <= |s|
  {
    if pos == |s| then 0
    else
      match FixedHeader(s, pos)
      case Err(_) => 0
      case Ok(h) => NamedOwes(s, pos, h, options.capacity)
  }

  function StepOwes(s: seq<byte>, e: EntryInfo, options: Options): nat {
    match Pass(s, e)
    case Err(_) => 0
    case Ok(next) => HeadOwes(s, next, options)
  }

  /** A head that is an entry owes what its header says; one that is none and no fault owes nothing. */
  lemma OwesOf(s: seq<byte>, pos: nat, options: Options)
    requires pos <= |s|
    ensures match ParseHead(s, pos, options)
            case EntryHead(e) => HeadOwes(s, pos, options) == if Summed(e.header) then 1 else 0
            case BadHead(_) => HeadOwes(s, pos, options) <= 1
            case _ => HeadOwes(s, pos, options) == 0
  {
  }

  // ------------------------------------------------------------------
  // When bytes are taken in vain
  // ------------------------------------------------------------------

  /** The stream ends where a request of the header at `pos` starts. */
  predicate HeadRequestAtEnd(s: seq<byte>, pos: nat)
    requires pos <= |s|
  {
    || |s| == pos + 1 || |s| == pos + 6
    || (pos < |s| && FixedHeader(s, pos).Ok?
        && var h := FixedHeader(s, pos).value;
           var at := pos + HeaderLen(h.format);
           |s| == at || |s| == at + h.namesize)
  }

  /** A header is read in vain exactly when it is cut off inside a request. */
  lemma HeadCutExactly(s: seq<byte>, pos: nat, options: Options)
    requires pos <= |s|
    ensures HeadCut(s, pos, options) > 0 <==>
            ParseHead(s, pos, options) == BadHead(Corrupted(Truncated)) && !HeadRequestAtEnd(s, pos)
  {
  }

  /** The stream ends where a request for the rest of an entry, read as far as `from`, starts. */
  predicate PassRequestAtEnd(s: seq<byte>, e: EntryInfo, from: nat)
    requires from <= |s|
  {
    var dataEnd := e.dataOffset + e.header.len;
    if |s| < dataEnd then (|s| - from) % SKIP_CHUNK == 0 else |s| == dataEnd
  }

  /** An entry is passed in vain exactly when it is cut off inside a request. */
  lemma PassCutExactly(s: seq<byte>, e: EntryInfo, from: nat)
    requires e.dataOffset <= from <= |s| && from <= e.dataOffset + e.header.len
    ensures PassCut(s, e, from) > 0 <==> Pass(s, e) == Err(Corrupted(Truncated)) && !PassRequestAtEnd(s, e, from)
  {
  }

  /** The fault of an entry's data: cut off, or with another sum than its header says. */
  function DataFault(s: seq<byte>, e: EntryInfo): (f: Option<Error>)
    ensures f.Some? ==> Pass(s, e) == Err(f.value)
  {
    if e.dataOffset + e.header.len > |s| then Some(Corrupted(Truncated))
    else if Summed(e.header) && CpioHeader.Checksum(0, Data(s, e)) != e.header.check then Some(Corrupted(E.Checksum))
    else None
  }

  /** A fault of its data ends the segment at an entry; met by a read of the stream, it loses nothing. */
  lemma FaultEnds(s: seq<byte>, e: EntryInfo, from: nat, options: Options)
    requires DataFault(s, e).Some? && e.dataOffset <= |s|
    requires DataFault(s, e) == Some(Corrupted(Truncated)) ==> from == |s|
    ensures After(s, e, options) == ([], Failed(DataFault(s, e).value))
    ensures StepCut(s, e, from, options) == 0
  {
    hide CpioHeader.Checksum, Segment, HeadCut;
  }
}

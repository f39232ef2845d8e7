/**
 * What a byte string means as a cpio archive, independent of how it is read:
 * the entries of each segment and how the segment stops.
 */
module CpioParse {
  import opened Wrappers
  import opened Bytes
  import opened CpioRaw
  import opened CpioHeader
  import opened E = CpioError

  datatype Options = Options(strictTrailer: bool, capacity: nat)

  /** One entry: its name, header and where both lie in the stream. */
  datatype EntryInfo = EntryInfo(path: seq<byte>, header: Header, headerOffset: nat, dataOffset: nat)

  /** What stands where a header may stand. */
  datatype Head =
    | NoHead
    | TrailerHead(next: nat)
    | EntryHead(entry: EntryInfo)
    | BadHead(error: Error)

  /** How a segment stops. */
  datatype Stop = AtTrailer(next: nat) | AtEof | Failed(error: Error)

  /** The position of the first zero byte, or the length. */
  function FirstZero(s: seq<byte>): (n: nat)
    ensures n <= |s| && (forall i :: 0 <= i < n ==> s[i] != 0) && (n < |s| ==> s[n] == 0)
  {
    if s == [] || s[0] == 0 then 0 else 1 + FirstZero(s[1..])
  }

  predicate AllZero(s: seq<byte>) {
    forall i :: 0 <= i < |s| ==> s[i] == 0
  }

  /** The fault of a decoded header, before its name is read. */
  function HeaderFault(h: Header, capacity: nat): Option<Error> {
    if h.format == Newc && h.check != 0 then Some(Corrupted(Check))
    else if TypeOf(h.mode).None? && h.mode != 0 then Some(Corrupted(Field))
    else if h.namesize < 2 then Some(Corrupted(Name))
    else if h.namesize > capacity then Some(Error(Name, LimitExceeded))
    else None
  }

  /** The fault of a stored name: empty, unterminated, or with bytes after its NUL. */
  predicate BadName(name: seq<byte>) {
    var len := FirstZero(name);
    len == 0 || len == |name| || !AllZero(name[len..])
  }

  /** The fixed fields of the header at `pos`. */
  function FixedHeader(s: seq<byte>, pos: nat): (r: Result<Header, Error>)
    requires pos < |s|
    ensures r.Ok? ==> pos + HeaderLen(r.value.format) <= |s|
  {
    if pos + 6 > |s| then Err(Corrupted(Truncated))
    else
      match Detect(s[pos..pos + 6])
      case None => Err(Error(Magic, if pos == 0 then NotRecognized else Corrupt))
      case Some(format) =>
        var at := pos + HeaderLen(format);
        if at > |s| then Err(Corrupted(Truncated))
        else
          match Decode(format, s[pos..at])
          case None => Err(Corrupted(Field))
          case Some(h) => Ok(h)
  }

  /** The name stored at `at` under header `h`, and where its padding ends. */
  function StoredName(s: seq<byte>, at: nat, h: Header): (r: Result<(seq<byte>, nat), Error>)
    requires at <= |s|
    ensures r.Ok? ==> at <= r.value.1 <= |s|
  {
    var nameEnd := at + h.namesize;
    var dataAt := nameEnd + NamePadding(h.format, h.namesize);
    if nameEnd > |s| then Err(Corrupted(Truncated))
    else if BadName(s[at..nameEnd]) then Err(Corrupted(Name))
    else if dataAt > |s| then Err(Corrupted(Truncated))
    else if !AllZero(s[nameEnd..dataAt]) then Err(Corrupted(Padding))
    else Ok((s[at..nameEnd][..FirstZero(s[at..nameEnd])], dataAt))
  }

  /** Whether a named header is the trailer, an entry, or neither. */
  function Classify(path: seq<byte>, start: nat, dataAt: nat, h: Header): (head: Head)
    ensures head.EntryHead? ==> head.entry == EntryInfo(path, h, start, dataAt)
    ensures head.TrailerHead? ==> head.next == dataAt
    ensures !head.NoHead?
  {
    if path == TRAILER_NAME then
      if h.len != 0 then BadHead(Corrupted(Trailer))
      else if h.format == Crc && h.check != 0 then BadHead(Corrupted(E.Checksum))
      else TrailerHead(dataAt)
    else if h.mode == 0 then BadHead(Corrupted(Field))
    else if h.len == 0 && Summed(h) && h.check != 0 then BadHead(Corrupted(E.Checksum))
    else EntryHead(EntryInfo(path, h, start, dataAt))
  }

  function ParseHead(s: seq<byte>, pos: nat, options: Options): (head: Head)
    requires pos <= |s|
    ensures head.EntryHead? ==> pos < head.entry.dataOffset <= |s|
    ensures head.TrailerHead? ==> pos < head.next <= |s|
  {
    if pos == |s| then (if options.strictTrailer then BadHead(Corrupted(Trailer)) else NoHead)
    else
      match FixedHeader(s, pos)
      case Err(error) => BadHead(error)
      case Ok(h) => ParseNamed(s, pos, h, options.capacity)
  }

  /** What the fixed fields `h` of `start`, with the name after them, make. */
  function ParseNamed(s: seq<byte>, start: nat, h: Header, capacity: nat): (head: Head)
    requires start + HeaderLen(h.format) <= |s|
    ensures head.EntryHead? ==> start < head.entry.dataOffset <= |s|
    ensures head.TrailerHead? ==> start < head.next <= |s|
    ensures !head.NoHead?
  {
    match HeaderFault(h, capacity)
    case Some(error) => BadHead(error)
    case None =>
      match StoredName(s, start + HeaderLen(h.format), h)
      case Err(error) => BadHead(error)
      case Ok((path, dataAt)) => Classify(path, start, dataAt, h)
  }

  function Data(s: seq<byte>, e: EntryInfo): seq<byte>
    requires e.dataOffset + e.header.len <= |s|
  {
    s[e.dataOffset..e.dataOffset + e.header.len]
  }

  /** Where the header after `e` starts, or why passing its data fails. */
  function Pass(s: seq<byte>, e: EntryInfo): (r: Result<nat, Error>)
    ensures r.Ok? ==> e.dataOffset + e.header.len <= r.value <= |s|
  {
    var dataEnd := e.dataOffset + e.header.len;
    var next := dataEnd + DataPadding(e.header.format, e.header.len);
    if dataEnd > |s| then Err(Corrupted(Truncated))
    else if Summed(e.header) && CpioHeader.Checksum(0, Data(s, e)) != e.header.check then Err(Corrupted(E.Checksum))
    else if next > |s| then Err(Corrupted(Truncated))
    else if !AllZero(s[dataEnd..next]) then Err(Corrupted(Padding))
    else Ok(next)
  }

  /** The entries from `pos` to the trailer, the end of the input, or a fault. */
  function Segment(s: seq<byte>, pos: nat, options: Options): (r: (seq<EntryInfo>, Stop))
    requires pos <= |s|
    ensures r.1.AtTrailer? ==> pos < r.1.next <= |s|
    decreases |s| - pos, 0
  {
    match ParseHead(s, pos, options)
    case NoHead => ([], AtEof)
    case TrailerHead(next) => ([], AtTrailer(next))
    case BadHead(error) => ([], Failed(error))
    case EntryHead(e) =>
      var (rest, stop) := After(s, e, options);
      ([e] + rest, stop)
  }

  /** The entries after `e`. */
  function After(s: seq<byte>, e: EntryInfo, options: Options): (r: (seq<EntryInfo>, Stop))
    requires e.dataOffset <= |s|
    ensures r.1.AtTrailer? ==> e.dataOffset < r.1.next <= |s|
    decreases |s| - e.dataOffset, 1
  {
    match Pass(s, e)
    case Err(error) => ([], Failed(error))
    case Ok(next) => Segment(s, next, options)
  }

  /** The first byte at or after `pos` that is not zero, or the length. */
  function SkipZeros(s: seq<byte>, pos: nat): (n: nat)
    requires pos <= |s|
    ensures pos <= n <= |s| && AllZero(s[pos..n]) && (n < |s| ==> s[n] != 0)
    decreases |s| - pos
  {
    if pos < |s| && s[pos] == 0 then
      var n := SkipZeros(s, pos + 1);
      assert s[pos..n] == [s[pos]] + s[pos + 1..n];
      n
    else pos
  }

  /** Every concatenated segment from `pos`, zero padding between them skipped. */
  function Segments(s: seq<byte>, pos: nat, options: Options): seq<(seq<EntryInfo>, Stop)>
    requires pos <= |s|
    decreases |s| - pos
  {
    var segment := Segment(s, pos, options);
    [segment] +
    (if segment.1.AtTrailer? && SkipZeros(s, segment.1.next) < |s|
     then Segments(s, SkipZeros(s, segment.1.next), options)
     else [])
  }

  lemma SegmentsStep(s: seq<byte>, pos: nat, options: Options)
    requires pos <= |s|
    ensures var segment := Segment(s, pos, options);
            Segments(s, pos, options) ==
            if segment.1.AtTrailer? && SkipZeros(s, segment.1.next) < |s|
            then [segment] + Segments(s, SkipZeros(s, segment.1.next), options)
            else [segment]
  {
  }

  /** The entries taken so far, and what is still to come, make up a whole segment. */
  predicate Progress(whole: (seq<EntryInfo>, Stop), done: seq<EntryInfo>, rest: (seq<EntryInfo>, Stop)) {
    whole == (done + rest.0, rest.1)
  }

  lemma ProgressStart(whole: (seq<EntryInfo>, Stop))
    ensures Progress(whole, [], whole)
  {
    assert [] + whole.0 == whole.0;
  }

  lemma ProgressStep(whole: (seq<EntryInfo>, Stop), done: seq<EntryInfo>, rest: (seq<EntryInfo>, Stop))
    requires Progress(whole, done, rest) && rest.0 != []
    ensures Progress(whole, done + [rest.0[0]], (rest.0[1..], rest.1))
    ensures |done| < |whole.0| && whole.0[..|done|] == done && whole.0[|done|] == rest.0[0]
  {
    assert done + rest.0 == (done + [rest.0[0]]) + rest.0[1..];
  }

  lemma ProgressEnd(whole: (seq<EntryInfo>, Stop), done: seq<EntryInfo>, rest: (seq<EntryInfo>, Stop))
    requires Progress(whole, done, rest)
    ensures whole.1 == rest.1 && (rest.0 == [] ==> whole.0 == done)
  {
    assert done + [] == done;
  }
}

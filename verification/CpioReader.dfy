/** The streaming cpio reader: a state machine over a stream with short reads. */
module CpioReader {
  import opened Wrappers
  import opened Bytes
  import opened CpioRaw
  import opened CpioHeader
  import opened E = CpioError
  import opened CpioParse
  import opened CpioRequests

  /** An input stream that answers each read with as many bytes as it likes, but at least one. */
  class Source {
    const data: seq<byte>
    var pos: nat

    constructor (data: seq<byte>)
      ensures this.data == data && pos == 0
    {
      this.data := data;
      pos := 0;
    }

    method Read(max: nat) returns (chunk: seq<byte>)
      requires pos <= |data|
      modifies this
      ensures pos == old(pos) + |chunk| <= |data|
      ensures |chunk| <= max && chunk == data[old(pos)..pos]
      ensures chunk == [] <==> max == 0 || old(pos) == |data|
    {
      var most := if max < |data| - pos then max else |data| - pos;
      var n: nat := 0;
      if most > 0 {
        n :| 1 <= n <= most;
      }
      chunk := data[pos..pos + n];
      pos := pos + n;
    }

    /** Reads exactly `len` bytes, or runs into the end of the stream. */
    method ReadExact(len: nat) returns (bytes: Option<seq<byte>>)
      requires pos <= |data|
      modifies this
      ensures old(pos) + len <= |data| ==>
                pos == old(pos) + len && bytes == Some(data[old(pos)..pos])
      ensures old(pos) + len > |data| ==> pos == |data| && bytes == None
    {
      var got: seq<byte> := [];
      while |got| < len
        invariant |got| <= len && old(pos) + |got| == pos <= |data|
        invariant got == data[old(pos)..pos]
        decreases len - |got|
      {
        var chunk := Read(len - |got|);
        if chunk == [] {
          return None;
        }
        got := got + chunk;
      }
      bytes := Some(got);
    }
  }

  datatype State = Entries | Trailer | Done

  class Reader {
    const source: Source
    const options: Options
    var state: State
    var offset: nat
    var header: Header
    var name: seq<byte>
    var pending: Option<byte>
    var headerOffset: nat
    var dataOffset: nat
    var nameLen: nat
    var remaining: nat
    var padding: nat
    var sum: Option<nat>

    /** An entry was returned and not yet passed. */
    ghost var open: bool
    /** A call returned an error. */
    ghost var failed: bool
    /** Bytes taken from the source by requests that ran into its end, which `offset` does not count. */
    ghost var lost: nat
    /** Byte sums compared so far. */
    ghost var checks: nat

    constructor (source: Source, options: Options)
      requires source.pos == 0
      ensures Valid() && this.source == source && this.options == options
      ensures state == Entries && !open && !failed && Cursor() == 0 && Owed() == 0 && lost == 0
    {
      this.source := source;
      this.options := options;
      state := Entries;
      offset := 0;
      header := Header(Newc, 0, 0, 0, 0, 0, 0, 0, Device(0, 0), Device(0, 0), 0, 0);
      name := Zeros(options.capacity);
      pending := None;
      headerOffset, dataOffset, nameLen, remaining, padding := 0, 0, 0, 0, 0;
      sum := None;
      open, failed, lost, checks := false, false, 0, 0;
    }

    /** The entry the header fields describe. */
    ghost function Current(): EntryInfo
      reads this
      requires nameLen <= |name|
    {
      EntryInfo(name[..nameLen], header, headerOffset, dataOffset)
    }

    /** The entry being read: how far its data, sum and padding have come. */
    ghost predicate Reading()
      reads this, source
    {
      && nameLen <= |name|
      && remaining <= header.len
      && dataOffset + header.len - remaining == source.pos <= |source.data|
      && padding == DataPadding(header.format, header.len)
      && sum == (if Summed(header) && remaining > 0
                 then Some(CpioHeader.Checksum(0, source.data[dataOffset..source.pos])) else None)
      && (remaining == 0 && Summed(header) ==>
            CpioHeader.Checksum(0, source.data[dataOffset..source.pos]) == header.check)
    }

    /** Every byte consumed is counted in `offset` or lost. */
    ghost predicate Counted()
      reads this, source
    {
      source.pos <= |source.data| && offset + lost == source.pos
    }

    ghost predicate Valid()
      reads this, source
    {
      && Counted()
      && |name| == options.capacity
      && (!failed ==> lost == 0)
      && (failed ==> state == Done)
      && (pending.Some? ==> state == Entries && !open
                            && offset > 1 && pending.value == source.data[offset - 1])
      && (state == State.Trailer ==> offset > 0)
      && (!failed ==> if open then state == Entries && Reading()
                            else remaining == 0 && padding == 0 && sum == None)
      && (state == Done && open ==> remaining == 0 || source.pos == |source.data|)
    }

    /** Where the next byte to be parsed stands. */
    ghost function Cursor(): nat
      reads this
      requires pending.Some? ==> offset > 0
    {
      if pending.Some? then offset - 1 else offset
    }

    /** The entries still to come in this segment, and how it will stop. */
    ghost function Rest(): (seq<EntryInfo>, Stop)
      reads this, source
      requires Valid() && state == Entries
    {
      if open then After(source.data, Current(), options) else Segment(source.data, Cursor(), options)
    }

    /** Sums compared, counting the one the open entry still owes. */
    ghost function Owed(): nat
      reads this
    {
      checks + if sum.Some? then 1 else 0
    }

    /** What the next step of the state machine takes in vain. */
    ghost function NextCut(): nat
      reads this, source
      requires Valid() && state == Entries
    {
      if open then StepCut(source.data, Current(), source.pos, options) else HeadCut(source.data, Cursor(), options)
    }

    /** The comparison the entry the next step comes to owes. */
    ghost function NextOwes(): nat
      reads this, source
      requires Valid() && state == Entries
    {
      if open then StepOwes(source.data, Current(), options) else HeadOwes(source.data, Cursor(), options)
    }

    /** The open entry owes a comparison it will never come to: its data is cut off. */
    ghost predicate Unpaid()
      reads this, source
    {
      open && Summed(header) && dataOffset + header.len > |source.data|
    }

    /** An error: a truncation is met at the end of the stream. */
    ghost predicate AtEndWhenTruncated(error: Error)
      reads source
    {
      error == Corrupted(Truncated) ==> source.pos == |source.data|
    }

    /** Reads exactly `len` bytes and counts them; one that runs into the end loses what it took. */
    method Fill(len: nat) returns (bytes: Result<seq<byte>, Error>)
      requires Counted()
      modifies this`offset, this`lost, source
      ensures Counted() && lost == old(lost) + Cut(source.data, old(source.pos), len)
      ensures old(source.pos) + len <= |source.data| ==>
                && source.pos == old(source.pos) + len && offset == old(offset) + len
                && bytes == Ok(source.data[old(source.pos)..source.pos])
      ensures old(source.pos) + len > |source.data| ==>
                bytes == Err(Corrupted(Truncated)) && source.pos == |source.data| && offset == old(offset)
    {
      var got := source.ReadExact(len);
      if got == None {
        lost := lost + (source.pos - old(source.pos));
        return Err(Corrupted(Truncated));
      }
      offset := offset + len;
      bytes := Ok(got.value);
    }

    method SkipPadding(len: nat) returns (r: Result<(), Error>)
      requires Counted()
      modifies this`offset, this`lost, source
      ensures Counted() && lost == old(lost) + Cut(source.data, old(source.pos), len)
      ensures r.Err? ==> AtEndWhenTruncated(r.error)
      ensures r == (if old(source.pos) + len > |source.data| then Err(Corrupted(Truncated))
                    else if !AllZero(source.data[old(source.pos)..old(source.pos) + len]) then Err(Corrupted(Padding))
                    else Ok(()))
      ensures r.Ok? ==> source.pos == old(source.pos) + len && offset == old(offset) + len
    {
      var pad :- Fill(len);
      if exists i :: 0 <= i < |pad| && pad[i] != 0 {
        return Err(Corrupted(Padding));
      }
      r := Ok(());
    }

    /** Compares the sum once, when one is due. */
    method Verify() returns (r: Result<(), Error>)
      modifies this`sum, this`checks
      ensures sum == None && Owed() == old(Owed())
      ensures r == if old(sum).Some? && old(sum).value != header.check
                   then Err(Corrupted(E.Checksum)) else Ok(())
    {
      if sum.Some? {
        checks := checks + 1;
        if sum.value != header.check {
          sum := None;
          return Err(Corrupted(E.Checksum));
        }
        sum := None;
      }
      r := Ok(());
    }

    /** Counts `data` as read. */
    method Account(data: seq<byte>) returns (r: Result<(), Error>)
      requires |data| <= remaining
      modifies this`remaining, this`sum, this`checks
      ensures remaining == old(remaining) - |data|
      ensures Owed() == old(Owed())
      ensures var due := if old(sum).Some? then Some(CpioHeader.Checksum(old(sum).value, data)) else None;
              if remaining == 0
              then sum == None && r == (if due.Some? && due.value != header.check
                                        then Err(Corrupted(E.Checksum)) else Ok(()))
              else sum == due && r == Ok(())
    {
      remaining := remaining - |data|;
      if sum.Some? {
        sum := Some(CpioHeader.Checksum(sum.value, data));
      }
      if remaining == 0 {
        var _ :- Verify();
      }
      r := Ok(());
    }

    /** Reads the rest of the open entry's data in chunks, counting its sum. */
    method SkipData(ghost e: EntryInfo) returns (r: Result<(), Error>)
      requires Counted() && lost == 0
      requires if open then Reading() && Current() == e else remaining == 0 && sum == None
      modifies this`offset, this`lost, this`remaining, this`sum, this`checks, source
      ensures Counted() && Owed() == old(Owed())
      ensures !open ==> r == Ok(()) && source.pos == old(source.pos) && remaining == 0 && sum == None && lost == 0
      ensures open ==> r == match DataFault(source.data, e) case Some(error) => Err(error) case None => Ok(())
      ensures open ==> (sum.Some? <==> Unpaid())
      ensures open && r.Ok? ==> remaining == 0 && lost == 0 && source.pos == e.dataOffset + e.header.len
      ensures r.Err? ==> AtEndWhenTruncated(r.error) && lost == PassCut(source.data, e, old(source.pos))
    {
      hide CpioHeader.Checksum, DataPadding, Summed, Cut;
      ghost var from := source.pos;
      while remaining > 0
        invariant if open then Reading() && Current() == e
                  else remaining == 0 && sum == None && source.pos == from
        invariant Counted() && lost == 0 && Owed() == old(Owed())
        invariant from <= source.pos && (remaining > 0 ==> (source.pos - from) % SKIP_CHUNK == 0)
        decreases remaining
      {
        var take := if remaining < SKIP_CHUNK then remaining else SKIP_CHUNK;
        ghost var at := source.pos;
        ChunkCut(source.data, from, at, take);
        var chunk :- Fill(take);
        assert source.data[dataOffset..source.pos] == source.data[dataOffset..at] + chunk;
        ChecksumAppend(0, source.data[dataOffset..at], chunk);
        var _ :- Account(chunk);
      }
      r := Verify();
    }

    /** A chunk that cannot be read whole takes what is left after whole chunks. */
    lemma ChunkCut(s: seq<byte>, from: nat, at: nat, take: nat)
      requires from <= at <= |s| && (at - from) % SKIP_CHUNK == 0 && take <= SKIP_CHUNK
      ensures at + take > |s| ==> Cut(s, at, take) == (|s| - from) % SKIP_CHUNK
      ensures at + take <= |s| ==> Cut(s, at, take) == 0
      ensures take == SKIP_CHUNK ==> (at + take - from) % SKIP_CHUNK == 0
    {
    }

    /** Reads the rest of the open entry's data and its padding. */
    method FinishEntry() returns (r: Result<(), Error>)
      requires Valid() && state == Entries
      modifies this`offset, this`lost, this`remaining, this`padding, this`sum, this`checks, this`open, source
      ensures Counted() && Owed() == old(Owed())
      ensures old(open) ==>
                match Pass(source.data, old(Current()))
                case Ok(next) => r == Ok(()) && offset == source.pos == next
                case Err(error) => r == Err(error)
      ensures !old(open) ==> r == Ok(()) && offset == old(offset) && source.pos == old(source.pos)
      ensures r.Ok? ==> Valid() && !open
      ensures sum.Some? <==> old(Unpaid())
      ensures r.Err? ==> AtEndWhenTruncated(r.error) && lost == PassCut(source.data, old(Current()), old(source.pos))
    {
      hide CpioHeader.Checksum, DataPadding, Summed;
      var _ :- SkipData(if open then Current() else EntryInfo([], header, 0, 0));
      var len := padding;
      padding := 0;
      open := false;
      r := SkipPadding(len);
    }

    /** The next byte, or `None` at the end of the stream. */
    method FirstByte() returns (b: Option<byte>)
      requires Counted() && lost == 0
      requires pending.Some? ==> offset > 0 && pending.value == source.data[offset - 1]
      modifies this`pending, this`offset, source
      ensures pending == None && Counted()
      ensures if old(Cursor()) < |source.data|
              then b == Some(source.data[old(Cursor())]) && offset == old(Cursor()) + 1
              else b == None && offset == old(Cursor())
    {
      if pending.Some? {
        b := pending;
        pending := None;
        return;
      }
      var chunk := source.Read(1);
      if chunk == [] {
        return None;
      }
      offset := offset + 1;
      b := Some(chunk[0]);
    }

    /** Reads the fixed fields of the header that starts with `first`. */
    method TakeFixed(first: byte, atStart: bool, ghost pos: nat) returns (r: Result<Header, Error>)
      requires Counted() && lost == 0 && pos < source.pos == pos + 1
      requires first == source.data[pos] && (atStart <==> pos == 0)
      modifies this`offset, this`lost, source
      ensures Counted() && r == FixedHeader(source.data, pos)
      ensures r.Ok? ==> lost == 0 && source.pos == pos + HeaderLen(r.value.format)
      ensures r.Err? ==> AtEndWhenTruncated(r.error) && lost == FixedCut(source.data, pos)
    {
      hide Detect, Decode;
      ghost var s := source.data;
      var rest :- Fill(5);
      var start := [first] + rest;
      assert start == s[pos..pos + 6];
      var format := Detect(start);
      if format == None {
        return Err(Error(Magic, if atStart then NotRecognized else Corrupt));
      }
      var len := HeaderLen(format.value);
      var body :- Fill(len - 6);
      assert start + body == s[pos..pos + len];
      var decoded := Decode(format.value, start + body);
      r := if decoded == None then Err(Corrupted(Field)) else Ok(decoded.value);
    }

    method CheckHeader(h: Header) returns (r: Result<(), Error>)
      requires |name| == options.capacity
      ensures r == match HeaderFault(h, options.capacity)
                   case Some(error) => Err(error)
                   case None => Ok(())
    {
      if h.format == Newc && h.check != 0 {
        return Err(Corrupted(Check));
      }
      if TypeOf(h.mode) == None && h.mode != 0 {
        return Err(Corrupted(Field));
      }
      if h.namesize < 2 {
        return Err(Corrupted(Name));
      }
      if h.namesize > |name| {
        return Err(Error(Name, LimitExceeded));
      }
      r := Ok(());
    }

    /** The length of a stored name before its NUL. */
    method NameLength(stored: seq<byte>) returns (r: Result<nat, Error>)
      ensures r == if BadName(stored) then Err(Corrupted(Name)) else Ok(FirstZero(stored))
    {
      var length := FirstZero(stored);
      if length == 0 || length == |stored| || exists i :: length <= i < |stored| && stored[i] != 0 {
        return Err(Corrupted(Name));
      }
      r := Ok(length);
    }

    /** Reads the name and its padding into the name buffer; the length of the name. */
    method TakeName(h: Header) returns (r: Result<nat, Error>)
      requires Counted() && lost == 0 && h.namesize <= |name|
      modifies this`offset, this`lost, this`name, source
      ensures Counted() && |name| == old(|name|)
      ensures match StoredName(source.data, old(source.pos), h)
              case Err(error) => r == Err(error)
              case Ok((path, dataAt)) =>
                r == Ok(|path|) && |path| <= |name| && name[..|path|] == path && source.pos == dataAt && lost == 0
      ensures r.Err? ==> AtEndWhenTruncated(r.error) && lost == NameCut(source.data, old(source.pos), h)
    {
      hide BadName, FirstZero, AllZero;
      var stored :- Fill(h.namesize);
      name := stored + name[h.namesize..];
      var length :- NameLength(stored);
      var _ :- SkipPadding(NamePadding(h.format, h.namesize));
      assert name[..length] == stored[..length];
      r := Ok(length);
    }

    /** The reader between entries, its cursor at `pos`. */
    ghost predicate Between(pos: nat)
      reads this, source
    {
      Valid() && state == Entries && !open && pos == Cursor()
    }

    /** The reader after it met `head`. */
    ghost predicate Shows(head: Head)
      reads this, source
    {
      && Valid()
      && match head
         case EntryHead(e) => state == Entries && open && Current() == e && remaining == e.header.len
         case TrailerHead(next) => state == State.Trailer && !open && offset == next
         case NoHead => state == Done && !open && offset == |source.data|
         case BadHead(_) => false
    }

    /** Reads the header at the cursor. True when it is an entry. */
    method TakeHead(ghost pos: nat) returns (r: Result<bool, Error>)
      requires Between(pos)
      modifies this, source
      ensures var head := ParseHead(source.data, pos, options);
              if head.BadHead? then r == Err(head.error) && Stuck(head.error) && sum == None
              else r == Ok(head.EntryHead?) && Shows(head)
      ensures lost == HeadCut(source.data, pos, options)
      ensures Owed() == old(Owed()) + HeadOwes(source.data, pos, options)
      ensures failed == old(failed)
    {
      hide FixedHeader, ParseNamed, NamedCut, NamedOwes;
      var atStart := offset == 0;
      var first := FirstByte();
      if first == None {
        if options.strictTrailer {
          return Err(Corrupted(E.Trailer));
        }
        state := Done;
        return Ok(false);
      }
      headerOffset := offset - 1;
      var h :- TakeFixed(first.value, atStart, pos);
      assert ParseHead(source.data, pos, options) == ParseNamed(source.data, pos, h, options.capacity);
      r := TakeNamed(h, pos);
    }

    /** The part of a header after its fixed fields: checks, name, and what the entry is. */
    method TakeNamed(h: Header, ghost pos: nat) returns (r: Result<bool, Error>)
      requires Valid() && state == Entries && !open && pending == None
      requires headerOffset == pos && source.pos == pos + HeaderLen(h.format)
      modifies this, source
      ensures var head := ParseNamed(source.data, pos, h, options.capacity);
              if head.BadHead? then r == Err(head.error) && Stuck(head.error) && sum == None
              else r == Ok(head.EntryHead?) && Shows(head)
      ensures lost == NamedCut(source.data, pos, h, options.capacity)
      ensures Owed() == old(Owed()) + NamedOwes(source.data, pos, h, options.capacity)
      ensures failed == old(failed)
    {
      hide StoredName, Classify, NameCut, KindOwes;
      var _ :- CheckHeader(h);
      ghost var at := source.pos;
      var length :- TakeName(h);
      NameWhole(source.data, at, h);
      r := TakeKind(h, length);
    }

    /** What an error leaves behind. */
    ghost predicate Stuck(error: Error)
      reads this, source
    {
      Counted() && |name| == options.capacity && AtEndWhenTruncated(error)
    }

    /** Decides what a header with its name is: the trailer, or an entry, which it opens. */
    method TakeKind(h: Header, length: nat) returns (r: Result<bool, Error>)
      requires Valid() && state == Entries && !open && pending == None && length <= |name| && offset > 0
      modifies this
      ensures name == old(name)
      ensures var head := Classify(old(name)[..length], old(headerOffset), source.pos, h);
              if head.BadHead? then r == Err(head.error) && Stuck(head.error) && sum == None
              else r == Ok(head.EntryHead?) && Shows(head)
      ensures lost == 0 && Owed() == old(Owed()) + KindOwes(old(name)[..length], h)
      ensures failed == old(failed)
    {
      if name[..length] == TRAILER_NAME {
        if h.len != 0 {
          return Err(Corrupted(E.Trailer));
        }
        if h.format == Crc && h.check != 0 {
          return Err(Corrupted(E.Checksum));
        }
        state := State.Trailer;
        return Ok(false);
      }
      if h.mode == 0 {
        return Err(Corrupted(Field));
      }
      var _ :- Open(h, length);
      r := Ok(true);
    }

    lemma NoSum()
      ensures CpioHeader.Checksum(0, []) == 0
    {
    }

    /** Makes `h` the open entry; an empty one's sum is compared at once. */
    method Open(h: Header, length: nat) returns (r: Result<(), Error>)
      requires Valid() && state == Entries && !open && pending == None && length <= |name|
      modifies this`dataOffset, this`nameLen, this`header, this`remaining, this`padding, this`sum, this`open, this`checks
      ensures Owed() == old(Owed()) + if Summed(h) then 1 else 0
      ensures if h.len == 0 && Summed(h) && h.check != 0 then r == Err(Corrupted(E.Checksum)) && sum == None
              else r == Ok(()) && open && Valid()
                   && Current() == EntryInfo(name[..length], h, headerOffset, source.pos) && remaining == h.len
    {
      hide DataPadding, CpioHeader.Checksum, Summed;
      SetEntry(h, length);
      if h.len == 0 {
        var _ :- Verify();
      }
      open := true;
      OpenedValid(h);
      r := Ok(());
    }

    /** Sets the fields of the entry a header starts. */
    method SetEntry(h: Header, length: nat)
      requires lost == 0 && Counted()
      modifies this`dataOffset, this`nameLen, this`header, this`remaining, this`padding, this`sum
      ensures dataOffset == offset == source.pos && nameLen == length && header == h && remaining == h.len
      ensures padding == DataPadding(h.format, h.len) && sum == if Summed(h) then Some(0) else None
    {
      dataOffset := offset;
      nameLen := length;
      header := h;
      remaining := h.len;
      padding := DataPadding(h.format, h.len);
      sum := if Summed(h) then Some(0) else None;
    }

    lemma OpenedValid(h: Header)
      requires Counted() && lost == 0 && |name| == options.capacity && !failed && pending == None
      requires state == Entries && open && nameLen <= |name|
      requires dataOffset == source.pos && header == h && remaining == h.len && padding == DataPadding(h.format, h.len)
      requires sum == if Summed(h) && h.len > 0 then Some(0) else None
      requires h.len == 0 && Summed(h) ==> h.check == 0
      ensures Valid()
    {
      hide DataPadding, CpioHeader.Checksum, Summed;
      NoSum();
      assert source.data[dataOffset..source.pos] == [];
    }

    /** Passes the open entry and reads the next header. True when it is an entry. */
    method Advance() returns (r: Result<bool, Error>)
      requires Valid()
      modifies this, source
      ensures old(state) != Entries ==> r == Ok(false) && state == old(state) && offset == old(offset) && Valid()
      ensures old(state) != Entries ==> lost == old(lost) && Owed() == old(Owed())
      ensures old(state) == Entries ==>
                && Advanced(old(Rest()), r) && lost == old(NextCut()) && Owed() == old(Owed()) + old(NextOwes())
                && (r.Err? ==> (sum.Some? <==> old(Unpaid())))
      ensures r == Ok(true) ==> nameLen <= |name| && Owed() == old(Owed()) + if Summed(header) then 1 else 0
      ensures r == Ok(false) ==> Owed() == old(Owed())
      ensures failed == old(failed)
    {
      hide ParseHead, Pass, Summed, PassCut, HeadCut, HeadOwes;
      if state == Entries {
        var _ :- FinishEntry();
      }
      if state != Entries {
        return Ok(false);
      }
      ghost var pos := Cursor();
      assert old(Rest()) == Segment(source.data, pos, options);
      OwesOf(source.data, pos, options);
      r := TakeHead(pos);
    }

    /** The reader one step into what was to come. */
    ghost predicate Advanced(was: (seq<EntryInfo>, Stop), r: Result<bool, Error>)
      reads this, source
    {
      var (es, stop) := was;
      if es != [] then
        r == Ok(true) && Shows(EntryHead(es[0])) && Rest() == (es[1..], stop)
      else
        match stop
        case AtTrailer(next) => r == Ok(false) && Shows(TrailerHead(next))
        case AtEof => r == Ok(false) && Shows(NoHead)
        case Failed(error) => r == Err(error) && Stuck(error)
    }

    /** One step through the meaning of the remaining bytes: an entry, a stop, or the segment's fault. */
    method NextEntry() returns (r: Result<Option<EntryInfo>, Error>)
      requires Valid()
      modifies this, source
      ensures Valid()
      ensures old(state) != Entries ==> r == Ok(None) && state == old(state) && offset == old(offset)
      ensures old(state) == Entries ==>
                var (es, stop) := old(Rest());
                if es != [] then
                  r == Ok(Some(es[0])) && Shows(EntryHead(es[0])) && Rest() == (es[1..], stop)
                else
                  match stop
                  case AtTrailer(next) => r == Ok(None) && Shows(TrailerHead(next))
                  case AtEof => r == Ok(None) && Shows(NoHead)
                  case Failed(error) => r == Err(error) && state == Done && failed
      ensures r.Ok? ==> failed == old(failed)
      ensures old(state) != Entries ==> lost == old(lost) && Owed() == old(Owed())
      ensures old(state) == Entries ==> lost == old(NextCut()) && Owed() == old(Owed()) + old(NextOwes())
      ensures r.Ok? && r.value.Some? ==> Owed() == old(Owed()) + if Summed(r.value.value.header) then 1 else 0
      ensures r == Ok(None) ==> Owed() == old(Owed())
      ensures r.Err? ==> AtEndWhenTruncated(r.error) && (sum.Some? <==> old(Unpaid()))
    {
      hide Segment, After, Pass, Summed, StepCut, HeadCut, StepOwes, HeadOwes, CpioHeader.Checksum, DataPadding;
      var more := Advance();
      match more {
        case Ok(true) =>
          r := Ok(Some(EntryInfo(name[..nameLen], header, headerOffset, dataOffset)));
        case Ok(false) =>
          r := Ok(None);
        case Err(error) =>
          state := Done;
          pending := None;
          open, failed := false, true;
          r := Err(error);
      }
    }

    /**
     * Reads up to `max` bytes of the open entry's data. Whatever is read, the entries still
     * to come and the way the segment stops are the same; a fault shows here first.
     */
    method Read(max: nat) returns (r: Result<seq<byte>, Error>)
      requires Valid() && open
      modifies this, source
      ensures Valid() && open && state in {old(state), Done}
      ensures old(state) == Entries && r.Ok? ==>
                && state == Entries && Current() == old(Current()) && Rest() == old(Rest())
                && old(source.pos) <= source.pos && r.value == source.data[old(source.pos)..source.pos]
                && |r.value| <= max && remaining == old(remaining) - |r.value|
                && (r.value == [] <==> max == 0 || old(remaining) == 0)
      ensures old(state) == Entries && r.Err? ==>
                && state == Done && failed && old(Rest()) == ([], Failed(r.error))
                && DataFault(source.data, old(Current())) == Some(r.error) && (sum.Some? <==> old(Unpaid()))
                && old(NextCut()) == 0 && AtEndWhenTruncated(r.error)
      ensures old(state) == Done ==>
                r == if max == 0 || old(remaining) == 0 then Ok([]) else Err(Corrupted(Truncated))
      ensures lost == old(lost) && Owed() == old(Owed()) && (r.Ok? ==> failed == old(failed))
    {
      hide Segment, After, Summed, StepCut, HeadCut, StepOwes, HeadOwes, CpioHeader.Checksum, DataPadding, DataFault;
      if remaining == 0 || max == 0 {
        return Ok([]);
      }
      ghost var from := source.pos;
      r := Take(if remaining < max then remaining else max);
      if r.Err? {
        if state == Entries {
          FaultEnds(source.data, Current(), from, options);
        }
        state, failed := Done, true;
      }
    }

    /** One read of the stream for the open entry, counted. */
    method Take(most: nat) returns (r: Result<seq<byte>, Error>)
      requires Valid() && open && 0 < most <= remaining
      modifies this`offset, this`remaining, this`sum, this`checks, source
      ensures Owed() == old(Owed()) && Counted()
      ensures old(state) == Entries && r.Ok? ==>
                && Valid() && 0 < |r.value| <= most && remaining == old(remaining) - |r.value|
                && r.value == source.data[source.pos - |r.value|..source.pos]
                && source.pos == old(source.pos) + |r.value|
      ensures r.Err? ==> remaining == 0 || source.pos == |source.data|
      ensures old(state) == Entries && r.Err? ==>
                && DataFault(source.data, Current()) == Some(r.error) && AtEndWhenTruncated(r.error)
                && (sum.Some? <==> Unpaid()) && (r.error == Corrupted(Truncated) ==> source.pos == old(source.pos))
      ensures old(state) == Done ==> r == Err(Corrupted(Truncated))
    {
      hide CpioHeader.Checksum, DataPadding, Summed;
      ghost var at := source.pos;
      var chunk := source.Read(most);
      if chunk == [] {
        return Err(Corrupted(Truncated));
      }
      offset := offset + |chunk|;
      assert source.data[dataOffset..source.pos] == source.data[dataOffset..at] + chunk;
      ChecksumAppend(0, source.data[dataOffset..at], chunk);
      var counted := Account(chunk);
      r := if counted.Ok? then Ok(chunk) else Err(counted.error);
    }

    /** Goes to the first byte that is not zero, which is kept for the next header, or to the end. */
    method NextSegment() returns (r: Result<bool, Error>)
      requires Valid()
      modifies this, source
      ensures Valid() && Owed() == old(Owed()) && failed == old(failed) && lost == old(lost)
      ensures old(state) == Done ==> r == Ok(false) && state == Done
      ensures old(state) == Entries ==>
                r == Err(Error(NoDetail, InvalidInput)) && state == Entries && Rest() == old(Rest())
      ensures old(state) == State.Trailer ==>
                var at := SkipZeros(source.data, old(offset));
                if at < |source.data|
                then r == Ok(true) && state == Entries && !open && Cursor() == at && offset == at + 1
                else r == Ok(false) && state == Done && offset == |source.data|
    {
      if state == Done {
        return Ok(false);
      }
      if state != State.Trailer {
        return Err(Error(NoDetail, InvalidInput));
      }
      while true
        invariant Valid() && state == State.Trailer && !open
        invariant Owed() == old(Owed()) && failed == old(failed) && lost == old(lost)
        invariant SkipZeros(source.data, offset) == SkipZeros(source.data, old(offset))
        decreases |source.data| - offset
      {
        var b := FirstByte();
        if b == None {
          state := Done;
          return Ok(false);
        }
        if b.value != 0 {
          pending := b;
          state := Entries;
          return Ok(true);
        }
      }
    }
  }
}

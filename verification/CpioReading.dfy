/**
 * Driving the reader. However much of each entry is read, in whatever chunks, and however the
 * stream splits its answers, the caller sees the entries and the stop the byte string means.
 */
module CpioReading {
  import opened Wrappers
  import opened Bytes
  import opened CpioHeader
  import opened E = CpioError
  import opened CpioParse
  import opened CpioRequests
  import opened CpioReader

  /** How many of `entries` carry a sum to be verified. */
  function SummedCount(entries: seq<EntryInfo>): nat {
    if entries == [] then 0
    else SummedCount(entries[..|entries| - 1]) + if Summed(entries[|entries| - 1].header) then 1 else 0
  }

  /** The data of `e` as far as the stream holds it. */
  function Held(s: seq<byte>, e: EntryInfo): seq<byte>
    requires e.dataOffset <= |s|
  {
    if e.dataOffset + e.header.len <= |s| then Data(s, e) else s[e.dataOffset..]
  }

  // ------------------------------------------------------------------
  // What reading a segment costs
  // ------------------------------------------------------------------

  /** Whether the stream holds all the data of `e`. */
  predicate DataThere(s: seq<byte>, e: EntryInfo) {
    e.dataOffset + e.header.len <= |s|
  }

  /** How many of `entries` carry a sum and have all their data. */
  function SummedWhole(s: seq<byte>, entries: seq<EntryInfo>): (n: nat)
    ensures n <= SummedCount(entries)
  {
    if entries == [] then 0
    else
      var e := entries[|entries| - 1];
      SummedWhole(s, entries[..|entries| - 1]) + if Summed(e.header) && DataThere(s, e) then 1 else 0
  }

  /**
   * The comparisons reading a segment makes: one for each of its entries that carries a sum and has
   * all its data, and one for an empty entry refused for its sum.
   */
  function Comparisons(s: seq<byte>, start: nat, entries: seq<EntryInfo>, options: Options): nat
    requires start <= |s|
  {
    SummedWhole(s, entries)
    + if entries == [] then HeadOwes(s, start, options) else StepOwes(s, entries[|entries| - 1], options)
  }

  /**
   * Bytes taken in vain when the segment at `start` has been read, `data` being what was read of its
   * entries: those of the one request that ran into the end.
   */
  function Torn(s: seq<byte>, start: nat, entries: seq<EntryInfo>, data: seq<seq<byte>>, options: Options): nat
    requires start <= |s| && |data| == |entries|
  {
    if entries == [] then HeadCut(s, start, options)
    else
      var e := entries[|entries| - 1];
      StepCut(s, e, e.dataOffset + |data[|data| - 1]|, options)
  }

  /** The stream ends where a request for what follows the entries would start. */
  predicate RequestAtEnd(s: seq<byte>, start: nat, entries: seq<EntryInfo>, data: seq<seq<byte>>)
    requires start <= |s| && |data| == |entries|
    requires entries != [] ==> entries[|entries| - 1].dataOffset + |data[|data| - 1]| <= |s|
  {
    if entries == [] then HeadRequestAtEnd(s, start)
    else
      var e := entries[|entries| - 1];
      if Pass(s, e).Ok? then HeadRequestAtEnd(s, Pass(s, e).value)
      else PassRequestAtEnd(s, e, e.dataOffset + |data[|data| - 1]|)
  }

  /** After the last entry of a segment the segment stops. */
  lemma {:induction false} LastStops(s: seq<byte>, pos: nat, options: Options)
    requires pos <= |s|
    ensures var (es, stop) := Segment(s, pos, options);
            if es == [] then
              ParseHead(s, pos, options).BadHead? <==> stop.Failed?
            else
              && es[|es| - 1].dataOffset <= |s|
              && After(s, es[|es| - 1], options) == ([], stop)
    decreases |s| - pos
  {
    hide ParseHead;
    match ParseHead(s, pos, options) {
      case EntryHead(e) =>
        if Pass(s, e).Ok? {
          LastStops(s, Pass(s, e).value, options);
        }
      case _ =>
    }
  }

  /** A header where a segment stops: the fault it stops with is the header's. */
  lemma StopsAtHead(s: seq<byte>, pos: nat, options: Options)
    requires pos <= |s| && Segment(s, pos, options).0 == []
    ensures var stop := Segment(s, pos, options).1;
            var head := ParseHead(s, pos, options);
            && !head.EntryHead? && (stop.Failed? <==> head.BadHead?) && (stop.Failed? ==> head.error == stop.error)
  {
    hide ParseHead;
  }

  /**
   * `offset` falls behind the bytes consumed exactly when the segment is cut off inside a request:
   * it stops truncated, and not where a request starts.
   */
  lemma OffsetLags(s: seq<byte>, start: nat, entries: seq<EntryInfo>, data: seq<seq<byte>>, stop: Stop, options: Options)
    requires start <= |s| && (entries, stop) == Segment(s, start, options) && Collected(s, entries, data)
    ensures entries != [] ==> entries[|entries| - 1].dataOffset + |data[|data| - 1]| <= |s|
    ensures Torn(s, start, entries, data, options) > 0 <==>
            stop == Failed(Corrupted(Truncated)) && !RequestAtEnd(s, start, entries, data)
  {
    hide Segment, After, ParseHead, HeadCut, PassCut, HeadRequestAtEnd, PassRequestAtEnd;
    LastStops(s, start, options);
    if entries == [] {
      HeadCutExactly(s, start, options);
      StopsAtHead(s, start, options);
    } else {
      var e, from := entries[|entries| - 1], entries[|entries| - 1].dataOffset + |data[|data| - 1]|;
      assert data[|data| - 1] <= Held(s, e);
      PassCutExactly(s, e, from);
      AfterIs(s, e, options);
      if Pass(s, e).Ok? {
        HeadCutExactly(s, Pass(s, e).value, options);
        StopsAtHead(s, Pass(s, e).value, options);
      }
    }
  }

  lemma AfterIs(s: seq<byte>, e: EntryInfo, options: Options)
    requires e.dataOffset <= |s|
    ensures After(s, e, options) ==
            if Pass(s, e).Err? then ([], Failed(Pass(s, e).error)) else Segment(s, Pass(s, e).value, options)
  {
  }

  /** A segment that does not fail compares the sum of every entry that carries one, and no other. */
  lemma AllCompared(s: seq<byte>, start: nat, entries: seq<EntryInfo>, stop: Stop, options: Options)
    requires start <= |s| && (entries, stop) == Segment(s, start, options) && !stop.Failed?
    ensures Comparisons(s, start, entries, options) == SummedCount(entries)
  {
    hide Segment, After, ParseHead, HeadOwes;
    LastStops(s, start, options);
    if entries == [] {
      StopsAtHead(s, start, options);
      OwesOf(s, start, options);
    } else {
      var e := entries[|entries| - 1];
      AfterIs(s, e, options);
      StopsAtHead(s, Pass(s, e).value, options);
      OwesOf(s, Pass(s, e).value, options);
      WholeAll(s, start, entries, options);
    }
  }

  /** Every entry but the last was passed, so its data is there. */
  lemma {:induction false} AllThere(s: seq<byte>, pos: nat, options: Options)
    requires pos <= |s|
    ensures var es := Segment(s, pos, options).0;
            forall k :: 0 <= k < |es| - 1 ==> DataThere(s, es[k])
    decreases |s| - pos
  {
    hide ParseHead;
    match ParseHead(s, pos, options) {
      case EntryHead(e) =>
        AfterIs(s, e, options);
        if Pass(s, e).Ok? {
          var es, rest := Segment(s, pos, options).0, Segment(s, Pass(s, e).value, options).0;
          AllThere(s, Pass(s, e).value, options);
          forall k | 0 <= k < |rest|
            ensures DataThere(s, es[k])
          {
            assert k > 0 ==> es[k] == rest[k - 1];
          }
        }
      case _ =>
    }
  }

  /** Only the last entry may lack data, so at most its sum is not compared. */
  lemma WholeAll(s: seq<byte>, start: nat, entries: seq<EntryInfo>, options: Options)
    requires start <= |s| && entries == Segment(s, start, options).0
    ensures SummedWhole(s, entries) ==
            SummedCount(entries)
            - if entries != [] && Summed(entries[|entries| - 1].header) && !DataThere(s, entries[|entries| - 1]) then 1 else 0
  {
    hide Segment;
    AllThere(s, start, options);
    CountWhole(s, entries);
  }

  lemma {:induction false} CountWhole(s: seq<byte>, entries: seq<EntryInfo>)
    requires forall k :: 0 <= k < |entries| - 1 ==> DataThere(s, entries[k])
    ensures SummedWhole(s, entries) ==
            SummedCount(entries)
            - if entries != [] && Summed(entries[|entries| - 1].header) && !DataThere(s, entries[|entries| - 1]) then 1 else 0
  {
    if entries != [] {
      var front := entries[..|entries| - 1];
      if front != [] {
        assert front[|front| - 1] == entries[|entries| - 2];
      }
      CountWhole(s, front);
    }
  }

  // ------------------------------------------------------------------
  // Reading
  // ------------------------------------------------------------------

  /** Reads the open entry in requests of the given sizes; the error, if a request failed. */
  method ReadSome(reader: Reader, sizes: seq<nat>) returns (data: seq<byte>, fault: Option<Error>)
    requires reader.Valid() && reader.open && reader.state == Entries
    requires reader.remaining == reader.header.len
    modifies reader, reader.source
    ensures reader.Valid() && reader.Owed() == old(reader.Owed()) && reader.lost == old(reader.lost)
    ensures old(reader.dataOffset) <= |reader.source.data|
    ensures data <= Held(reader.source.data, old(reader.Current()))
    ensures fault == None ==>
              && reader.state == Entries && reader.open && reader.Rest() == old(reader.Rest())
              && reader.Current() == old(reader.Current()) && reader.failed == old(reader.failed)
              && reader.source.pos == old(reader.dataOffset) + |data|
    ensures fault.Some? ==>
              && reader.state == Done && old(reader.Rest()) == ([], Failed(fault.value))
              && DataFault(reader.source.data, old(reader.Current())) == fault
              && (reader.sum.Some? <==> old(reader.Unpaid())) && reader.AtEndWhenTruncated(fault.value)
              && StepCut(reader.source.data, old(reader.Current()), old(reader.dataOffset) + |data|, reader.options) == 0
  {
    hide StepCut, StepOwes, Segment, After, DataFault, Held, Summed;
    ghost var s := reader.source.data;
    ghost var e := reader.Current();
    data, fault := [], None;
    for k := 0 to |sizes|
      invariant reader.Valid() && reader.open && reader.state == Entries
      invariant reader.Rest() == old(reader.Rest()) && reader.Current() == e
      invariant reader.failed == old(reader.failed) && reader.Owed() == old(reader.Owed())
      invariant e.dataOffset + |data| == reader.source.pos && data == s[e.dataOffset..reader.source.pos]
    {
      HeldPrefix(s, e, data);
      var chunk := reader.Read(sizes[k]);
      match chunk {
        case Ok(bytes) =>
          data := data + bytes;
        case Err(error) =>
          fault := Some(error);
          return;
      }
    }
    HeldPrefix(s, e, data);
  }

  lemma HeldPrefix(s: seq<byte>, e: EntryInfo, data: seq<byte>)
    requires e.dataOffset + |data| <= |s| && data == s[e.dataOffset..e.dataOffset + |data|] && |data| <= e.header.len
    ensures data <= Held(s, e)
  {
  }

  /** Where reading a segment stands: at its start, or in its last entry, read as far as its data says. */
  ghost predicate Standing(reader: Reader, start: nat, entries: seq<EntryInfo>, data: seq<seq<byte>>)
    reads reader, reader.source
    requires |data| == |entries|
  {
    && reader.Valid() && reader.state == Entries
    && if entries == [] then !reader.open && reader.Cursor() == start
       else
         && reader.open && reader.Current() == entries[|entries| - 1]
         && reader.source.pos == reader.dataOffset + |data[|data| - 1]|
  }

  /** Reading stands after `entries` of the segment at `start`. */
  ghost predicate Underway(reader: Reader, start: nat, owed: nat, entries: seq<EntryInfo>, data: seq<seq<byte>>)
    reads reader, reader.source
  {
    && start <= |reader.source.data| && |data| == |entries| && Collected(reader.source.data, entries, data)
    && Standing(reader, start, entries, data)
    && Progress(Segment(reader.source.data, start, reader.options), entries, reader.Rest())
    && reader.Owed() == owed + SummedCount(entries)
  }

  /**
   * What reading a segment leaves, failed or not: `offset` counts every byte consumed but those of a
   * request that ran into the end, and each sum that could be compared was compared once.
   */
  ghost predicate Settled(reader: Reader, start: nat, owed: nat, entries: seq<EntryInfo>, data: seq<seq<byte>>)
    reads reader, reader.source
    requires start <= |reader.source.data| && |data| == |entries|
  {
    && reader.offset + reader.lost == reader.source.pos
    && reader.lost == Torn(reader.source.data, start, entries, data, reader.options)
    && reader.checks == owed + Comparisons(reader.source.data, start, entries, reader.options)
  }

  /** Reading of the segment at `start` stopped. */
  ghost predicate Finished(reader: Reader, start: nat, owed: nat, entries: seq<EntryInfo>, data: seq<seq<byte>>, stop: Stop)
    reads reader, reader.source
  {
    && start <= |reader.source.data| && Collected(reader.source.data, entries, data)
    && (entries, stop) == Segment(reader.source.data, start, reader.options)
    && reader.Valid() && Settled(reader, start, owed, entries, data)
    && (if stop.AtTrailer? then reader.state == State.Trailer && reader.offset == stop.next else reader.state == Done)
    && (stop == Failed(Corrupted(Truncated)) ==> reader.source.pos == |reader.source.data|)
  }

  lemma StandingCosts(reader: Reader, start: nat, entries: seq<EntryInfo>, data: seq<seq<byte>>)
    requires start <= |reader.source.data| && |data| == |entries| && Standing(reader, start, entries, data)
    ensures reader.NextCut() == Torn(reader.source.data, start, entries, data, reader.options)
    ensures SummedWhole(reader.source.data, entries) + reader.NextOwes()
         == Comparisons(reader.source.data, start, entries, reader.options)
    ensures reader.Unpaid() <==>
            entries != [] && Summed(entries[|entries| - 1].header) && !DataThere(reader.source.data, entries[|entries| - 1])
  {
    hide StepCut, HeadCut, StepOwes, HeadOwes, SummedWhole, Summed;
  }

  /** Reads the next entry of a segment, its data in requests of the given sizes; or how the segment stops. */
  method ReadEntry(reader: Reader, sizes: seq<nat>, ghost start: nat, ghost owed: nat,
                   ghost entries: seq<EntryInfo>, ghost data: seq<seq<byte>>)
    returns (e: Option<EntryInfo>, bytes: seq<byte>, stop: Option<Stop>)
    requires Underway(reader, start, owed, entries, data)
    modifies reader, reader.source
    ensures e == None ==> stop.Some? && Finished(reader, start, owed, entries, data, stop.value)
    ensures e.Some? ==> |entries| < |Segment(reader.source.data, start, reader.options).0|
    ensures e.Some? && stop == None ==> Underway(reader, start, owed, entries + [e.value], data + [bytes])
    ensures e.Some? && stop.Some? ==>
              Finished(reader, start, owed, entries + [e.value], data + [bytes], stop.value)
  {
    hide Segment, After, Held, Summed, Progress, Collected, SummedCount, SummedWhole, Torn, Comparisons, StepCut, StepOwes,
         HeadCut, HeadOwes, DataFault;
    ghost var s := reader.source.data;
    ghost var whole, rest := Segment(s, start, reader.options), reader.Rest();
    ProgressEnd(whole, entries, rest);
    StandingCosts(reader, start, entries, data);
    var next := reader.NextEntry();
    e, bytes, stop := None, [], None;
    if next.Err? {
      stop := Some(Failed(next.error));
      WholeAll(s, start, entries, reader.options);
      return;
    }
    if next.value == None {
      AllCompared(s, start, entries, rest.1, reader.options);
      stop := Some(if reader.state == State.Trailer then AtTrailer(reader.offset) else AtEof);
      return;
    }
    e := next.value;
    ProgressStep(whole, entries, rest);
    ProgressEnd(whole, entries + [e.value], reader.Rest());
    var fault;
    bytes, fault := ReadSome(reader, sizes);
    CollectedStep(s, entries, data, e.value, bytes);
    if fault.Some? {
      stop := Some(Failed(fault.value));
      WholeAll(s, start, entries + [e.value], reader.options);
      FaultCosts(s, start, entries + [e.value], data + [bytes], reader.options);
    }
  }

  /** Reads one segment, entry `k` in requests of the sizes `pattern[k]`, skipping what is left. */
  method ReadSegment(reader: Reader, pattern: seq<seq<nat>>)
    returns (entries: seq<EntryInfo>, data: seq<seq<byte>>, stop: Stop)
    requires reader.Valid() && reader.state == Entries && !reader.open
    modifies reader, reader.source
    ensures reader.Valid()
    ensures old(reader.Cursor()) <= |reader.source.data|
    ensures (entries, stop) == Segment(reader.source.data, old(reader.Cursor()), reader.options)
    ensures Collected(reader.source.data, entries, data)
    ensures Settled(reader, old(reader.Cursor()), old(reader.Owed()), entries, data)
    ensures stop.AtTrailer? ==> reader.state == State.Trailer && reader.offset == stop.next
    ensures !stop.AtTrailer? ==> reader.state == Done
    ensures stop == Failed(Corrupted(Truncated)) ==> reader.source.pos == |reader.source.data|
  {
    hide Segment, Underway, Settled;
    ghost var start, owed := reader.Cursor(), reader.Owed();
    entries, data := [], [];
    StartUnderway(reader);
    while true
      invariant Underway(reader, start, owed, entries, data)
      decreases |Segment(reader.source.data, start, reader.options).0| - |entries|
    {
      var sizes := if |entries| < |pattern| then pattern[|entries|] else [];
      var e, bytes, end := ReadEntry(reader, sizes, start, owed, entries, data);
      if e.Some? {
        entries, data := entries + [e.value], data + [bytes];
      }
      if end.Some? {
        stop := end.value;
        return;
      }
    }
  }

  lemma StartUnderway(reader: Reader)
    requires reader.Valid() && reader.state == Entries && !reader.open
    ensures Underway(reader, reader.Cursor(), reader.Owed(), [], [])
  {
    hide Segment, Collected, SummedCount, Progress;
    NoneCollected(reader.source.data);
    ProgressStart(reader.Rest());
  }

  /** A fault in the data of the last entry loses nothing and brings nothing further to compare. */
  lemma FaultCosts(s: seq<byte>, start: nat, entries: seq<EntryInfo>, data: seq<seq<byte>>, options: Options)
    requires start <= |s| && |data| == |entries| && entries != [] && DataFault(s, entries[|entries| - 1]).Some?
    ensures var e := entries[|entries| - 1];
            Torn(s, start, entries, data, options) == StepCut(s, e, e.dataOffset + |data[|data| - 1]|, options)
    ensures Comparisons(s, start, entries, options) == SummedWhole(s, entries)
  {
    hide StepCut, SummedWhole;
  }

  /** For every entry, data that starts like what the stream holds of it. */
  ghost predicate Collected(s: seq<byte>, entries: seq<EntryInfo>, data: seq<seq<byte>>) {
    && |data| == |entries|
    && forall k :: 0 <= k < |data| ==> entries[k].dataOffset <= |s| && data[k] <= Held(s, entries[k])
  }

  lemma NoneCollected(s: seq<byte>)
    ensures Collected(s, [], []) && SummedCount([]) == 0
  {
  }

  lemma CollectedStep(s: seq<byte>, entries: seq<EntryInfo>, data: seq<seq<byte>>, e: EntryInfo, bytes: seq<byte>)
    requires Collected(s, entries, data) && e.dataOffset <= |s| && bytes <= Held(s, e)
    ensures Collected(s, entries + [e], data + [bytes])
    ensures SummedCount(entries + [e]) == SummedCount(entries) + if Summed(e.header) then 1 else 0
  {
    hide Held;
    assert (entries + [e])[..|entries|] == entries;
  }

  /** The segments read so far, and those that follow, make up all. */
  predicate SoFar(all: seq<(seq<EntryInfo>, Stop)>, done: seq<(seq<EntryInfo>, Stop)>, rest: seq<(seq<EntryInfo>, Stop)>) {
    all == done + rest
  }

  lemma SoFarStart(all: seq<(seq<EntryInfo>, Stop)>)
    ensures SoFar(all, [], all)
  {
    assert [] + all == all;
  }

  lemma SoFarStep(all: seq<(seq<EntryInfo>, Stop)>, done: seq<(seq<EntryInfo>, Stop)>, one: (seq<EntryInfo>, Stop),
                  rest: seq<(seq<EntryInfo>, Stop)>)
    requires SoFar(all, done, [one] + rest)
    ensures SoFar(all, done + [one], rest)
  {
    assert done + ([one] + rest) == (done + [one]) + rest;
  }

  /** Reads every concatenated segment of an archive, segment `k` by `patterns[k]`. */
  method ReadArchive(data: seq<byte>, options: Options, patterns: seq<seq<seq<nat>>>)
    returns (segments: seq<(seq<EntryInfo>, Stop)>)
    ensures segments == Segments(data, 0, options)
  {
    hide Segment, Segments, SkipZeros, Settled, Collected, SoFar, Reader.Owed, Reader.Reading, Reader.Counted;
    var source := new Source(data);
    var reader := new Reader(source, options);
    segments := [];
    SoFarStart(Segments(data, 0, options));
    while true
      invariant fresh(reader) && fresh(source) && reader.source == source && source.data == data
      invariant reader.options == options
      invariant reader.Valid() && reader.state == Entries && !reader.open && reader.Cursor() <= |data|
      invariant SoFar(Segments(data, 0, options), segments, Segments(data, reader.Cursor(), options))
      decreases |data| - reader.Cursor()
    {
      ghost var at := reader.Cursor();
      var pattern := if |segments| < |patterns| then patterns[|segments|] else [];
      var entries, _, stop := ReadSegment(reader, pattern);
      var more := reader.NextSegment();
      SegmentsStep(data, at, options);
      if more != Ok(true) {
        SoFarEnd(Segments(data, 0, options), segments, (entries, stop));
        return segments + [(entries, stop)];
      }
      SoFarStep(Segments(data, 0, options), segments, (entries, stop), Segments(data, SkipZeros(data, stop.next), options));
      segments := segments + [(entries, stop)];
    }
  }

  lemma SoFarEnd(all: seq<(seq<EntryInfo>, Stop)>, done: seq<(seq<EntryInfo>, Stop)>, one: (seq<EntryInfo>, Stop))
    requires SoFar(all, done, [one])
    ensures all == done + [one]
  {
  }

  /** A stream of two bytes, the start of an odc header: one byte is counted, two are consumed. */
  method TornStream() returns (offset: nat, consumed: nat)
    ensures offset == 1 && consumed == 2
  {
    var source := new Source([48, 55]);
    var reader := new Reader(source, Options(false, 4096));
    ShortHeader([48, 55], reader.options);
    var _, _, _ := ReadSegment(reader, []);
    offset, consumed := reader.offset, source.pos;
  }

  lemma ShortHeader(s: seq<byte>, options: Options)
    requires |s| == 2
    ensures Segment(s, 0, options) == ([], Failed(Corrupted(Truncated)))
    ensures Torn(s, 0, [], [], options) == 1
  {
  }
}

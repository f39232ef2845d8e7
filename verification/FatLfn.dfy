/** Long names in directory slots: cut into fragments, and put together from whatever is read. */
module FatLfn {
  import opened Wrappers
  import opened Bytes
  import opened FatSlot

  const MAX_UNITS: nat := 255
  const MAX_ENTRIES: nat := 20
  const LAST_ENTRY: nat := 0x40

  // ------------------------------------------------------------------
  // Units and bytes
  // ------------------------------------------------------------------

  /** Code units as little-endian pairs. */
  function UnitBytes(units: seq<Unit>): (b: seq<byte>)
    ensures |b| == 2 * |units|
  {
    if units == [] then []
    else UnitBytes(units[..|units| - 1]) + [units[|units| - 1] % 256, units[|units| - 1] / 256]
  }

  function UnitAt(b: seq<byte>, i: nat): Unit
    requires 2 * i + 1 < |b|
  {
    var low: nat, high: nat := b[2 * i], b[2 * i + 1];
    low + 256 * high
  }

  /** The code units a run of pairs holds. */
  function UnitsOf(b: seq<byte>): (u: seq<Unit>)
    ensures |u| == |b| / 2
  {
    seq(|b| / 2, i requires 0 <= i < |b| / 2 => UnitAt(b, i))
  }

  lemma {:induction false} UnitsRoundTrip(units: seq<Unit>)
    ensures UnitsOf(UnitBytes(units)) == units
  {
    if units != [] {
      var n := |units| - 1;
      UnitsRoundTrip(units[..n]);
      var b, front := UnitBytes(units), UnitBytes(units[..n]);
      forall i | 0 <= i < n
        ensures UnitAt(b, i) == units[i]
      {
        assert UnitAt(front, i) == UnitsOf(front)[i];
      }
    }
  }

  /** The three name fields of a fragment, one after the other. */
  function NameBytes(e: LongEntry): seq<byte> {
    e.name1 + e.name2 + e.name3
  }

  /** How many units precede the terminator or the filler. */
  function UsedUnits(units: seq<Unit>): (n: nat)
    ensures n <= |units| && (n < |units| ==> units[n] == 0 || units[n] == 0xFFFF)
    ensures forall i :: 0 <= i < n ==> units[i] != 0 && units[i] != 0xFFFF
  {
    if units == [] || units[0] == 0 || units[0] == 0xFFFF then 0 else 1 + UsedUnits(units[1..])
  }

  /** The name units of a fragment. */
  function Part(e: LongEntry): (u: seq<Unit>)
    requires e.Typed()
    ensures |u| <= UNITS_PER_ENTRY
  {
    var units := UnitsOf(NameBytes(e));
    units[..UsedUnits(units)]
  }

  /** Splits 13 units into the name fields. */
  method Pack(units: seq<Unit>) returns (name1: seq<byte>, name2: seq<byte>, name3: seq<byte>)
    requires |units| == UNITS_PER_ENTRY
    ensures |name1| == 10 && |name2| == 12 && |name3| == 4
    ensures UnitsOf(name1 + name2 + name3) == units
  {
    hide UnitBytes;
    var out: seq<byte> := [];
    UnitBytesNone();
    for k := 0 to UNITS_PER_ENTRY
      invariant out == UnitBytes(units[..k])
    {
      UnitBytesStep(units, k);
      out := out + [units[k] % 256, units[k] / 256];
    }
    assert units[..UNITS_PER_ENTRY] == units;
    name1, name2, name3 := out[..10], out[10..22], out[22..];
    assert name1 + name2 + name3 == out;
    UnitsRoundTrip(units);
  }

  lemma UnitBytesNone()
    ensures UnitBytes([]) == []
  {
  }

  lemma UnitBytesStep(units: seq<Unit>, k: nat)
    requires k < |units|
    ensures UnitBytes(units[..k + 1]) == UnitBytes(units[..k]) + [units[k] % 256, units[k] / 256]
  {
    assert units[..k + 1][..k] == units[..k];
  }

  /** The units of a fragment, and how many belong to the name. */
  method Unpack(e: LongEntry) returns (units: seq<Unit>, len: nat)
    requires e.Typed()
    ensures units == UnitsOf(NameBytes(e)) && len <= |units| == UNITS_PER_ENTRY && units[..len] == Part(e)
  {
    var b := NameBytes(e);
    units := [];
    for k := 0 to UNITS_PER_ENTRY
      invariant units == UnitsOf(b)[..k]
    {
      units := units + [UnitAt(b, k)];
    }
    len := 0;
    while len < UNITS_PER_ENTRY && units[len] != 0 && units[len] != 0xFFFF
      invariant len <= UsedUnits(units)
    {
      len := len + 1;
    }
  }

  // ------------------------------------------------------------------
  // Encoding
  // ------------------------------------------------------------------

  /** A name the entries can hold. */
  predicate Storable(name: seq<Unit>) {
    0 < |name| <= MAX_UNITS && forall i :: 0 <= i < |name| ==> name[i] != 0 && name[i] != 0xFFFF
  }

  function Entries(name: seq<Unit>): nat {
    (|name| + UNITS_PER_ENTRY - 1) / UNITS_PER_ENTRY
  }

  /** Where the units of entry `number` start in the name. */
  function PartStart(number: nat): nat
    requires number > 0
  {
    (number - 1) * UNITS_PER_ENTRY
  }

  /** The units of entry `number`: its part of the name, the terminator, and filler. */
  function EntryUnits(name: seq<Unit>, number: nat): (u: seq<Unit>)
    requires number > 0
    ensures |u| == UNITS_PER_ENTRY
  {
    seq(UNITS_PER_ENTRY, i requires 0 <= i =>
      var at := PartStart(number) + i;
      if at < |name| then name[at] else if at == |name| then 0 else 0xFFFF)
  }

  /** The sequence byte and units of the entry at `index` in disk order. */
  method EncodedEntry(name: seq<Unit>, index: nat) returns (sequence: byte, units: seq<Unit>)
    requires 0 < |name| <= MAX_UNITS && index < Entries(name)
    ensures sequence == Entries(name) - index + (if index == 0 then LAST_ENTRY else 0)
    ensures units == EntryUnits(name, Entries(name) - index)
  {
    var number := Entries(name) - index;
    sequence := if index == 0 then number + LAST_ENTRY else number;
    var start := PartStart(number);
    units := seq(UNITS_PER_ENTRY, _ => 0xFFFF);
    var filled := 0;
    while filled < UNITS_PER_ENTRY && start + filled < |name|
      invariant filled <= UNITS_PER_ENTRY && |units| == UNITS_PER_ENTRY && start + filled <= |name|
      invariant forall i :: 0 <= i < UNITS_PER_ENTRY ==> units[i] == if i < filled then name[start + i] else 0xFFFF
    {
      units := units[filled := name[start + filled]];
      filled := filled + 1;
    }
    if filled < UNITS_PER_ENTRY {
      units := units[filled := 0];
    }
  }

  // ------------------------------------------------------------------
  // Assembling
  // ------------------------------------------------------------------

  /** A name being assembled: its checksum, the number still expected, and the units so far. */
  datatype Partial = Idle | Building(checksum: byte, expected: nat, name: seq<Unit>)

  predicate Last(e: LongEntry) {
    e.sequence / 64 % 2 == 1
  }

  function Number(e: LongEntry): nat {
    e.sequence % 64
  }

  /** A sequence byte is a number below 64, with bit 6 set on the last fragment; bit 7 counts for nothing. */
  lemma SequenceExactly(e: LongEntry, number: nat, last: bool, high: bool)
    requires number < 64 && e.sequence == number + (if last then 0x40 else 0) + if high then 0x80 else 0
    ensures Number(e) == number && (Last(e) <==> last)
  {
  }

  /** What feeding one fragment does. */
  function Step(p: Partial, e: LongEntry): (r: Partial)
    requires e.Typed()
  {
    var start := if !Last(e) then p
                 else if Number(e) == 0 || Number(e) > MAX_ENTRIES then Idle
                 else Building(e.checksum, Number(e), []);
    if start.Idle? then Idle
    else if Number(e) == 0 || Number(e) != start.expected || e.checksum != start.checksum then Idle
    else if |start.name| + |Part(e)| > MAX_UNITS then Idle
    else Building(start.checksum, start.expected - 1, Part(e) + start.name)
  }

  predicate AllTyped(es: seq<LongEntry>) {
    forall i :: 0 <= i < |es| ==> es[i].Typed()
  }

  function Run(p: Partial, es: seq<LongEntry>): Partial
    requires AllTyped(es)
  {
    if es == [] then p else Step(Run(p, es[..|es| - 1]), es[|es| - 1])
  }

  /** The name the state holds when a short entry with this checksum follows. */
  function Finished(p: Partial, short: byte): Option<seq<Unit>> {
    if p.Building? && p.expected == 0 && p.checksum == short then Some(p.name) else None
  }

  class Assembler {
    const units: array<Unit>
    var len: nat
    var checksum: byte
    var expected: nat
    var building: bool

    constructor ()
      ensures Valid() && fresh(units) && Held() == Idle
    {
      units := new Unit[MAX_UNITS](_ => 0);
      len, checksum, expected, building := 0, 0, 0, false;
    }

    predicate Valid()
      reads this
    {
      units.Length == MAX_UNITS && len <= MAX_UNITS
    }

    /** What the fields hold. */
    function Held(): Partial
      requires Valid()
      reads this, units
    {
      if building then Building(checksum, expected, units[..len]) else Idle
    }

    method Reset()
      requires Valid()
      modifies this
      ensures Valid() && Held() == Idle && len == 0
    {
      len, checksum, expected, building := 0, 0, 0, false;
    }

    /** Feeds one fragment. */
    method Push(e: LongEntry)
      requires Valid() && e.Typed()
      modifies this, units
      ensures Valid() && Held() == Step(old(Held()), e)
    {
      hide UsedUnits, UnitsOf, NameBytes, Part;
      if Last(e) {
        Reset();
        if Number(e) == 0 || Number(e) > MAX_ENTRIES {
          return;
        }
        building := true;
        checksum := e.checksum;
        expected := Number(e);
      }
      if !building {
        return;
      }
      if Number(e) == 0 || Number(e) != expected || e.checksum != checksum {
        Reset();
        return;
      }
      var part, n := Unpack(e);
      if len + n > MAX_UNITS {
        Reset();
        return;
      }
      Prepend(part[..n]);
      expected := expected - 1;
    }

    /** Shifts the units and puts `part` before them. */
    method Prepend(part: seq<Unit>)
      requires Valid() && len + |part| <= MAX_UNITS
      modifies this`len, units
      ensures Valid() && units[..len] == part + old(units[..len])
    {
      ghost var was := units[..len];
      forall i | 0 <= i < len {
        units[|part| + i] := units[i];
      }
      forall i | 0 <= i < |part| {
        units[i] := part[i];
      }
      len := len + |part|;
      assert units[..len] == part + was;
    }

    /** Ends the name at a short entry and gives it, if it was complete and matches. */
    method Finish(short: byte) returns (name: Option<seq<Unit>>)
      requires Valid()
      modifies this
      ensures Valid() && Held() == Idle && name == Finished(old(Held()), short)
    {
      var complete := building && expected == 0 && checksum == short;
      var n := len;
      Reset();
      name := if complete then Some(units[..n]) else None;
    }
  }

  // ------------------------------------------------------------------
  // Round trip
  // ------------------------------------------------------------------

  /** A fragment that carries entry `number` of a name, as read back from its slot. */
  predicate Carries(e: LongEntry, name: seq<Unit>, number: nat, sum: byte)
    requires number > 0
  {
    && e.Typed() && Number(e) == number && (Last(e) <==> number == Entries(name)) && e.checksum == sum
    && UnitsOf(NameBytes(e)) == EntryUnits(name, number)
  }

  /** The fragments of a name in disk order, numbered down to 1. */
  ghost predicate Fragments(es: seq<LongEntry>, name: seq<Unit>, sum: byte) {
    |es| == Entries(name) && forall i :: 0 <= i < |es| ==> Carries(es[i], name, |es| - i, sum)
  }

  /** The units used by an entry are its part of the name. */
  lemma EntryPart(name: seq<Unit>, number: nat)
    requires Storable(name) && 0 < number <= Entries(name)
    ensures PartStart(number) < |name|
    ensures var end := if number == Entries(name) then |name| else PartStart(number + 1);
            end <= |name| && EntryUnits(name, number)[..UsedUnits(EntryUnits(name, number))] == name[PartStart(number)..end]
  {
    var units, start := EntryUnits(name, number), PartStart(number);
    var end := if number == Entries(name) then |name| else PartStart(number + 1);
    assert start < |name| && end == if start + UNITS_PER_ENTRY < |name| then start + UNITS_PER_ENTRY else |name|;
    UsedIs(units, end - start);
  }

  lemma {:induction false} UsedIs(units: seq<Unit>, n: nat)
    requires n <= |units| && forall i :: 0 <= i < n ==> units[i] != 0 && units[i] != 0xFFFF
    requires n < |units| ==> units[n] == 0 || units[n] == 0xFFFF
    ensures UsedUnits(units) == n
    decreases n
  {
    if n > 0 {
      UsedIs(units[1..], n - 1);
    }
  }

  /** A fragment that carries an entry brings that part of the name. */
  lemma CarriedPart(e: LongEntry, name: seq<Unit>, number: nat, sum: byte)
    requires Storable(name) && 0 < number <= Entries(name) && Carries(e, name, number, sum)
    ensures number < Entries(name) ==>
              PartStart(number + 1) <= |name|
              && name[PartStart(number)..] == Part(e) + name[PartStart(number + 1)..]
    ensures PartStart(number) < |name| && (number == Entries(name) ==> Part(e) == name[PartStart(number)..])
    ensures 0 < number <= MAX_ENTRIES
  {
    hide UnitsOf, EntryUnits, UsedUnits;
    EntryPart(name, number);
  }

  /** Whatever the assembler held before, the fragments of a name leave exactly that name. */
  lemma {:induction false} Assembles(p: Partial, es: seq<LongEntry>, name: seq<Unit>, sum: byte, k: nat)
    requires Storable(name) && AllTyped(es) && Fragments(es, name, sum) && 0 < k <= |es|
    ensures Run(p, es[..k]) == Building(sum, |es| - k, name[PartStart(|es| - k + 1)..])
    decreases k
  {
    hide Carries, Part, EntryUnits, PartStart, Storable, Run;
    var e, number := es[k - 1], |es| - k + 1;
    assert Carries(e, name, number, sum) && |es| == Entries(name);
    CarriedPart(e, name, number, sum);
    CarriedTags(e, name, number, sum);
    assert es[..k][..k - 1] == es[..k - 1];
    assert Part(e) + [] == Part(e);
    RunLast(p, es[..k]);
    if k > 1 {
      Assembles(p, es, name, sum, k - 1);
    }
  }

  lemma RunLast(p: Partial, es: seq<LongEntry>)
    requires es != [] && AllTyped(es)
    ensures Run(p, es) == Step(Run(p, es[..|es| - 1]), es[|es| - 1])
  {
  }

  lemma CarriedTags(e: LongEntry, name: seq<Unit>, number: nat, sum: byte)
    requires Storable(name) && 0 < number && Carries(e, name, number, sum)
    ensures e.Typed() && Number(e) == number && (Last(e) <==> number == Entries(name)) && e.checksum == sum
    ensures |name| <= MAX_UNITS && PartStart(number) >= 0
  {
  }

  /** Feeding the fragments of a name to an assembler in any state, then its short entry, gives the name. */
  lemma NameRoundTrip(p: Partial, es: seq<LongEntry>, name: seq<Unit>, sum: byte)
    requires Storable(name) && AllTyped(es) && Fragments(es, name, sum)
    ensures Finished(Run(p, es), sum) == Some(name)
  {
    assert |es| > 0;
    Assembles(p, es, name, sum, |es|);
    assert es[..|es|] == es;
  }

  /** Encodes a name as slots and reads them back: its fragments. */
  method WriteAndRead(name: seq<Unit>, sum: byte) returns (es: seq<LongEntry>)
    requires Storable(name)
    ensures AllTyped(es) && Fragments(es, name, sum)
  {
    es := [];
    for index := 0 to Entries(name)
      invariant |es| == index && AllTyped(es)
      invariant forall i :: 0 <= i < index ==> Carries(es[i], name, Entries(name) - i, sum)
    {
      var sequence, units := EncodedEntry(name, index);
      var name1, name2, name3 := Pack(units);
      var e := LongEntry(sequence, sum, name1, name2, name3);
      LongRoundTrip(e);
      assert Carries(e, name, Entries(name) - index, sum);
      es := es + [Parse(EncodeLong(e)).long];
    }
  }

  // ------------------------------------------------------------------
  // Nothing but a complete run gives a name
  // ------------------------------------------------------------------

  /** The parts of a run, last part first on disk. */
  function Joined(es: seq<LongEntry>): seq<Unit>
    requires AllTyped(es)
  {
    if es == [] then [] else Part(es[|es| - 1]) + Joined(es[..|es| - 1])
  }

  /** A run that starts at its last entry and counts down from `n` without a gap, with one checksum. */
  predicate CountsDown(es: seq<LongEntry>, n: nat, sum: byte) {
    && 0 < |es| <= n <= MAX_ENTRIES
    && forall i :: 0 <= i < |es| ==> Number(es[i]) == n - i && es[i].checksum == sum && (Last(es[i]) <==> i == 0)
  }

  /** A name under assembly comes from such a run at the end of what was fed. */
  ghost predicate Explained(p: Partial, es: seq<LongEntry>)
    requires AllTyped(es)
  {
    p.Building? ==>
      exists k :: 0 <= k < |es| && CountsDown(es[k..], |es| - k + p.expected, p.checksum) && Joined(es[k..]) == p.name
  }

  /** A run that goes on with its next fragment is still one. */
  lemma RunExtends(es: seq<LongEntry>, e: LongEntry, n: nat, sum: byte)
    requires AllTyped(es) && e.Typed() && CountsDown(es, n, sum) && |es| < n
    requires Number(e) == n - |es| && e.checksum == sum && !Last(e)
    ensures CountsDown(es + [e], n, sum) && Joined(es + [e]) == Part(e) + Joined(es)
  {
    hide Part, Number, Last;
    assert (es + [e])[..|es|] == es;
  }

  lemma RunStarts(e: LongEntry)
    requires e.Typed() && Last(e) && 0 < Number(e) <= MAX_ENTRIES
    ensures CountsDown([e], Number(e), e.checksum) && Joined([e]) == Part(e)
  {
    hide Part, Number, Last;
    assert [e][..0] == [];
    assert Part(e) + [] == Part(e);
  }

  lemma StepKeeps(p: Partial, e: LongEntry)
    requires e.Typed() && Step(p, e).Building?
    ensures var r := Step(p, e);
            if Last(e) then 0 < Number(e) <= MAX_ENTRIES && r == Building(e.checksum, Number(e) - 1, Part(e))
            else p.Building? && 0 < p.expected == Number(e) && e.checksum == p.checksum
                 && r == Building(p.checksum, p.expected - 1, Part(e) + p.name)
  {
    hide Part, Number, Last;
    assert Part(e) + [] == Part(e);
  }

  lemma {:induction false} RunExplained(es: seq<LongEntry>)
    requires AllTyped(es)
    ensures Explained(Run(Idle, es), es)
    decreases |es|
  {
    hide Step, CountsDown, Joined, Part, Number, Last;
    if es != [] {
      var n := |es| - 1;
      var e := es[n];
      RunExplained(es[..n]);
      var before, after := Run(Idle, es[..n]), Run(Idle, es);
      if after.Building? {
        StepKeeps(before, e);
        if Last(e) {
          RunStarts(e);
          assert es[n..] == [e];
        } else {
          var k :| 0 <= k < n && CountsDown(es[..n][k..], n - k + before.expected, before.checksum)
                   && Joined(es[..n][k..]) == before.name;
          RunExtends(es[..n][k..], e, n - k + before.expected, before.checksum);
          assert es[k..] == es[..n][k..] + [e];
        }
      }
    }
  }

  /** A run of no more than the longest name's units is assembled, whatever came before it. */
  lemma {:induction false} RunCompletes(p: Partial, es: seq<LongEntry>, k: nat, n: nat, sum: byte)
    requires AllTyped(es) && k < |es| && CountsDown(es[k..], n, sum) && |Joined(es[k..])| <= MAX_UNITS
    ensures Run(p, es) == Building(sum, n - (|es| - k), Joined(es[k..]))
    decreases |es|
  {
    hide Part, Number, Last, CountsDown, Joined;
    var m := |es| - 1;
    assert es[k..][m - k] == es[m] && es[k..][..m - k] == es[..m][k..];
    RunEnds(es[k..], n, sum);
    if k < m {
      RunCompletes(p, es[..m], k, n, sum);
    } else {
      assert Part(es[m]) + [] == Part(es[m]);
    }
  }

  /** The last fragment of a run, and the run before it. */
  lemma RunEnds(run: seq<LongEntry>, n: nat, sum: byte)
    requires AllTyped(run) && CountsDown(run, n, sum)
    ensures var m := |run| - 1;
            && 0 <= m < n <= MAX_ENTRIES && run[m].Typed() && AllTyped(run[..m])
            && Number(run[m]) == n - m && run[m].checksum == sum && (Last(run[m]) <==> m == 0)
            && Joined(run) == Part(run[m]) + Joined(run[..m]) && (m == 0 ==> Joined(run[..m]) == [])
            && (m > 0 ==> CountsDown(run[..m], n, sum))
  {
    hide Part, Number, Last, LongEntry.Typed, Joined;
    var m := |run| - 1;
    assert AllTyped(run[..m]);
    JoinedEnds(run);
    if m > 0 {
      forall i | 0 <= i < m
        ensures run[..m][i] == run[i]
      {
      }
    }
  }

  lemma JoinedEnds(run: seq<LongEntry>)
    requires AllTyped(run) && run != []
    ensures Joined(run) == Part(run[|run| - 1]) + Joined(run[..|run| - 1]) && Joined([]) == []
  {
    hide Part;
  }

  /** Whether the fragments fed end in a complete run for `short` of no more units than a name has. */
  ghost predicate Complete(es: seq<LongEntry>, k: nat, short: byte)
    requires AllTyped(es)
  {
    k < |es| && CountsDown(es[k..], |es| - k, short) && |Joined(es[k..])| <= MAX_UNITS
  }

  /**
   * A name is given exactly when the fragments since the last reset end in a run that counts down
   * to 1 with the short entry's checksum; it is then the concatenation of their parts.
   */
  lemma FinishExactly(es: seq<LongEntry>, short: byte)
    requires AllTyped(es)
    ensures Finished(Run(Idle, es), short).Some? <==> exists k: nat :: Complete(es, k, short)
    ensures forall k: nat :: Complete(es, k, short) ==> Finished(Run(Idle, es), short) == Some(Joined(es[k..]))
  {
    hide CountsDown, Joined, Run;
    forall k: nat | Complete(es, k, short)
      ensures Finished(Run(Idle, es), short) == Some(Joined(es[k..]))
    {
      RunCompletes(Idle, es, k, |es| - k, short);
    }
    if Finished(Run(Idle, es), short).Some? {
      RunExplained(es);
      RunShort(es);
      var p := Run(Idle, es);
      var k :| 0 <= k < |es| && CountsDown(es[k..], |es| - k + p.expected, p.checksum) && Joined(es[k..]) == p.name;
      assert Complete(es, k, short);
    }
  }

  lemma RunShort(es: seq<LongEntry>)
    requires AllTyped(es) && Run(Idle, es).Building?
    ensures |Run(Idle, es).name| <= MAX_UNITS
  {
    hide Part, Number, Last;
  }
}

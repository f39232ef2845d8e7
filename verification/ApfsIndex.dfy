/** The index built at mount: what it leaves undamaged can be read without surprises. */
module ApfsIndex {
  import opened Wrappers
  import opened Bytes
  import opened ApfsExtents

  /** An inode; its data's size may be stored with the stream or as that before compression. */
  datatype Inode = Inode(
    id: nat, privateId: nat, parentId: nat, mode: nat, flags: nat, streamSize: Option<u64>, plainSize: u64)

  datatype DirEntry = DirEntry(parent: nat, file: nat, flags: nat)

  /** A file-system record after parsing; `None` is one whose key parsed and whose value did not. */
  datatype Record =
    | BadKey
    | InodeRecord(key: nat, inode: Option<Inode>)
    | DirectoryRecord(entry: Option<DirEntry>)
    | ExtentRecord(key: nat, extent: Option<Extent>)
    | SymlinkRecord(inodeId: nat)
    | OtherRecord

  datatype ParseError = Malformed | LimitExceeded

  const DREC_TYPE_MASK: nat := 16
  const DIRECTORY: nat := 4

  /** The type an inode's mode names, as directory entries code it. */
  function FileType(mode: nat): Option<nat> {
    var code := mode / 4096 % 16;
    if code in {8, 4, 10, 2, 6, 1, 12} then Some(code) else None
  }

  /** The type is the top four of 16 bits of the mode, and none for nine of their values. */
  lemma FileTypeExactly(mode: nat, code: nat)
    requires code < 16 && code * 0x1000 <= mode % 0x1_0000 < (code + 1) * 0x1000
    ensures FileType(mode) == if code in [1, 2, 4, 6, 8, 10, 12] then Some(code) else None
  {
    var top, low := mode / 0x1_0000, mode % 0x1_0000;
    assert low / 0x1000 == code;
    assert mode / 4096 == 16 * top + low / 4096;
  }

  // ------------------------------------------------------------------
  // Streams
  // ------------------------------------------------------------------

  /** The extents of a stream, in the order given. */
  function OfStream(es: seq<Extent>, id: nat): (s: seq<Extent>)
    ensures forall e :: e in s <==> e in es && e.id == id
  {
    if es == [] then []
    else
      var front, e := OfStream(es[..|es| - 1], id), es[|es| - 1];
      assert forall x :: x in es <==> x in es[..|es| - 1] || x == e;
      if e.id == id then front + [e] else front
  }

  /** The extents the records hold. */
  function ExtentsOf(records: seq<Record>): seq<Extent> {
    if records == [] then []
    else
      var front, r := ExtentsOf(records[..|records| - 1]), records[|records| - 1];
      if r.ExtentRecord? && r.extent.Some? then front + [r.extent.value] else front
  }

  /** Whether a stream has an extent record that does not parse. */
  predicate Unparsed(records: seq<Record>, id: nat) {
    ExtentRecord(id, None) in records
  }

  // ------------------------------------------------------------------
  // What the records say
  // ------------------------------------------------------------------

  /** The numbers of the inodes that parse, in order. */
  function InodeIds(records: seq<Record>): seq<nat> {
    if records == [] then []
    else
      var front, r := InodeIds(records[..|records| - 1]), records[|records| - 1];
      if r.InodeRecord? && r.inode.Some? then front + [r.inode.value.id] else front
  }

  /** The inodes under their numbers; of several with one number, the last. */
  function InodesOf(records: seq<Record>): (m: map<nat, Inode>)
    ensures forall i :: i in m <==> i in InodeIds(records)
    ensures forall i :: i in m ==> m[i].id == i
  {
    if records == [] then map[]
    else
      var front, r := InodesOf(records[..|records| - 1]), records[|records| - 1];
      if r.InodeRecord? && r.inode.Some? then front[r.inode.value.id := r.inode.value] else front
  }

  /** The entries of a directory, in order. */
  function EntriesOf(records: seq<Record>, parent: nat): seq<DirEntry> {
    if records == [] then []
    else
      var front, r := EntriesOf(records[..|records| - 1], parent), records[|records| - 1];
      if r.DirectoryRecord? && r.entry.Some? && r.entry.value.parent == parent then front + [r.entry.value] else front
  }

  /** The nodes given symbolic-link targets, in order. */
  function LinkIds(records: seq<Record>): seq<nat> {
    if records == [] then []
    else
      var front, r := LinkIds(records[..|records| - 1]), records[|records| - 1];
      if r.SymlinkRecord? then front + [r.inodeId] else front
  }

  predicate Twice(ids: seq<nat>, i: nat) {
    multiset(ids)[i] > 1
  }

  /** The records of a node are at fault: an inode that does not parse, two inodes or two link targets. */
  predicate RecordFault(records: seq<Record>, i: nat) {
    InodeRecord(i, None) in records || Twice(InodeIds(records), i) || Twice(LinkIds(records), i)
  }

  /** More inodes than the limit allows. */
  predicate Exceeds(records: seq<Record>, limit: Option<nat>) {
    limit.Some? && |InodesOf(records)| > limit.value
  }

  predicate Fits(e: Extent) {
    e.End() < U64
  }

  /** The extents whose addresses do not overflow. */
  function Fitting(es: seq<Extent>): (s: seq<Extent>)
    ensures forall e :: e in s <==> e in es && Fits(e)
  {
    if es == [] then []
    else
      var front, e := Fitting(es[..|es| - 1]), es[|es| - 1];
      assert forall x :: x in es <==> x in es[..|es| - 1] || x == e;
      if Fits(e) then front + [e] else front
  }

  predicate SortedByAddress(s: seq<Extent>) {
    forall j, k :: 0 <= j < k < |s| ==> s[j].logical <= s[k].logical
  }

  /** Each extent starts at or after the end of every one before it. */
  predicate InOrder(s: seq<Extent>) {
    forall j, k :: 0 <= j < k < |s| ==> s[j].End() <= s[k].logical
  }

  /** Inserts behind the extents that start no later. */
  function Insert(e: Extent, s: seq<Extent>): (r: seq<Extent>)
    ensures multiset(r) == multiset(s) + multiset{e} && |r| == |s| + 1
  {
    if s == [] || s[|s| - 1].logical <= e.logical then s + [e]
    else
      assert s == s[..|s| - 1] + [s[|s| - 1]];
      Insert(e, s[..|s| - 1]) + [s[|s| - 1]]
  }

  /** A stable sort by address. */
  function Sorted(s: seq<Extent>): (r: seq<Extent>)
    ensures multiset(r) == multiset(s) && |r| == |s|
  {
    if s == [] then []
    else
      assert s == s[..|s| - 1] + [s[|s| - 1]];
      Insert(s[|s| - 1], Sorted(s[..|s| - 1]))
  }

  lemma {:induction false} InsertSorted(e: Extent, s: seq<Extent>)
    requires SortedByAddress(s)
    ensures SortedByAddress(Insert(e, s))
    ensures Insert(e, s) != [] && (forall x :: x in Insert(e, s) ==> x in s || x == e)
  {
    if s != [] && s[|s| - 1].logical > e.logical {
      InsertSorted(e, s[..|s| - 1]);
      var r := Insert(e, s[..|s| - 1]);
      forall j | 0 <= j < |r|
        ensures r[j].logical <= s[|s| - 1].logical
      {
        assert r[j] in r;
      }
    }
  }

  lemma {:induction false} SortedIs(s: seq<Extent>)
    ensures SortedByAddress(Sorted(s))
  {
    if s != [] {
      SortedIs(s[..|s| - 1]);
      InsertSorted(s[|s| - 1], Sorted(s[..|s| - 1]));
    }
  }

  /** Whether some extent starts before the end of the one before it. */
  predicate Overlapping(s: seq<Extent>) {
    exists k :: 1 <= k < |s| && s[k].logical < s[k - 1].End()
  }

  /** Without such a step, all are in order. */
  lemma {:induction false} StepsInOrder(s: seq<Extent>, j: nat, k: nat)
    requires !Overlapping(s) && j < k < |s|
    ensures s[j].End() <= s[k].logical
    decreases k
  {
    assert !(s[k].logical < s[k - 1].End());
    if j < k - 1 {
      StepsInOrder(s, j, k - 1);
    }
  }

  predicate Inside(e: Extent, blockSize: nat, blockCount: nat)
    requires blockSize > 0
  {
    e.physical == 0 || e.physical + CeilDiv(e.length, blockSize) <= blockCount
  }

  /** A stream that can be read: sorted, disjoint extents with addresses that fit. */
  ghost predicate StreamSound(s: seq<Extent>) {
    InOrder(s) && SortedByAddress(s) && forall e :: e in s ==> Fits(e)
  }

  /** An extent that is no hole lies inside exactly when its bytes end no later than the container's. */
  lemma InsideExactly(e: Extent, blockSize: nat, blockCount: nat, blocks: nat)
    requires blockSize > 0 && BlocksOf(e.length, blockSize, blocks)
    ensures Inside(e, blockSize, blockCount) <==>
            e.physical == 0 || e.physical * blockSize + e.length <= blockCount * blockSize
  {
    BlocksAre(e.length, blockSize, blocks);
    InsideBytes(e.physical, blocks, blockCount, e.length, blockSize);
  }

  // ------------------------------------------------------------------
  // The index
  // ------------------------------------------------------------------

  /** The extents a map of streams lists for one. */
  function Listed(streams: map<nat, seq<Extent>>, id: nat): seq<Extent> {
    if id in streams then streams[id] else []
  }

  /** Every stream lists its extents with addresses that fit, in the order given. */
  ghost predicate Collected(streams: map<nat, seq<Extent>>, es: seq<Extent>) {
    forall id :: Listed(streams, id) == OfStream(Fitting(es), id)
  }

  /** Streams with an extent that overflows. */
  ghost predicate Overflowed(es: seq<Extent>, id: nat) {
    exists e :: e in es && e.id == id && !Fits(e)
  }

  /** The extents of a stream with addresses that fit, sorted. */
  function StreamOf(all: seq<Extent>, id: nat): seq<Extent> {
    Sorted(OfStream(Fitting(all), id))
  }

  /**
   * A stream that can be read: every record of it parsed, and what is listed are all its extents,
   * sorted and disjoint, with addresses that fit.
   */
  ghost predicate Whole(records: seq<Record>, all: seq<Extent>, id: nat) {
    && !Unparsed(records, id) && StreamSound(StreamOf(all, id))
    && multiset(StreamOf(all, id)) == multiset(OfStream(all, id))
  }

  /** What parsing finds wrong with a stream. */
  ghost predicate BadStream(records: seq<Record>, all: seq<Extent>, id: nat) {
    Unparsed(records, id) || Overflowed(all, id) || Overlapping(StreamOf(all, id))
  }

  function ListedEntries(directories: map<nat, seq<DirEntry>>, parent: nat): seq<DirEntry> {
    if parent in directories then directories[parent] else []
  }

  class Index {
    var inodes: map<nat, Inode>
    var damaged: set<nat>
    var directories: map<nat, seq<DirEntry>>
    var extents: map<nat, seq<Extent>>
    var symlinks: set<nat>

    constructor ()
      ensures inodes == map[] && damaged == {} && directories == map[] && extents == map[] && symlinks == {}
    {
      inodes, damaged, directories, extents, symlinks := map[], {}, map[], map[], {};
    }

    /** Inodes are listed under their own numbers. */
    ghost predicate Valid()
      reads this
    {
      forall i :: i in inodes ==> inodes[i].id == i
    }

    /** The index holds just what the records say, apart from extents, and damage is just their faults. */
    ghost predicate Entered(records: seq<Record>)
      reads `inodes, `damaged, `directories, `symlinks
    {
      && inodes == InodesOf(records)
      && (forall parent :: ListedEntries(directories, parent) == EntriesOf(records, parent))
      && (forall i :: i in symlinks <==> i in LinkIds(records))
      && forall i :: i in damaged <==> RecordFault(records, i)
    }

    /** Damages the nodes of these streams. */
    method DamageStreams(streams: set<nat>)
      requires Valid()
      modifies this`damaged
      ensures forall i :: i in damaged <==> i in old(damaged) || (i in inodes && inodes[i].privateId in streams)
    {
      if streams == {} {
        return;
      }
      var todo := inodes.Keys;
      while todo != {}
        invariant todo <= inodes.Keys
        invariant forall i :: i in damaged <==>
                    i in old(damaged) || (i in inodes && i !in todo && inodes[i].privateId in streams)
        decreases |todo|
      {
        var i :| i in todo;
        todo := todo - {i};
        if inodes[i].privateId in streams {
          damaged := damaged + {i};
        }
      }
    }

    /** Enters one record; extents and bad streams are collected for later. */
    method Enter(r: Record, bad: set<nat>, found: seq<Extent>, ghost was: seq<Record>)
      returns (newBad: set<nat>, newFound: seq<Extent>)
      requires Entered(was) && !r.BadKey?
      modifies this`inodes, this`damaged, this`directories, this`symlinks
      ensures Entered(was + [r])
      ensures newBad == bad + (if r.ExtentRecord? && r.extent == None then {r.key} else {})
      ensures newFound == if r.ExtentRecord? && r.extent.Some? then found + [r.extent.value] else found
    {
      hide InodesOf, InodeIds, EntriesOf, LinkIds, RecordFault;
      newBad, newFound := bad, found;
      EnterStep(was, r);
      FaultStep(was, r);
      match r {
        case InodeRecord(key, Some(inode)) =>
          if inode.id in inodes {
            damaged := damaged + {inode.id};
          }
          inodes := inodes[inode.id := inode];
        case InodeRecord(key, None) => damaged := damaged + {key};
        case DirectoryRecord(Some(entry)) =>
          directories := directories[entry.parent := ListedEntries(directories, entry.parent) + [entry]];
        case DirectoryRecord(None) =>
        case ExtentRecord(key, Some(extent)) => newFound := found + [extent];
        case ExtentRecord(key, None) => newBad := bad + {key};
        case SymlinkRecord(id) =>
          if id in symlinks {
            damaged := damaged + {id};
          }
          symlinks := symlinks + {id};
        case OtherRecord =>
        case BadKey => assert false;
      }
    }

    /** Lists the extents of each stream; one that overflows makes its stream bad. */
    method Collect(all: seq<Extent>, bad: set<nat>) returns (newBad: set<nat>)
      requires extents == map[]
      modifies this`extents
      ensures Collected(extents, all)
      ensures forall id :: id in newBad <==> id in bad || Overflowed(all, id)
    {
      newBad := bad;
      for k := 0 to |all|
        invariant Collected(extents, all[..k])
        invariant forall id :: id in newBad <==> id in bad || Overflowed(all[..k], id)
      {
        var e := all[k];
        CollectStep(extents, all, k);
        OverflowStep(all, k);
        if Fits(e) {
          extents := extents[e.id := Listed(extents, e.id) + [e]];
        } else {
          newBad := newBad + {e.id};
        }
      }
      assert all[..|all|] == all;
    }

    /** Sorts the extents of every stream; one whose extents overlap makes its stream bad. */
    method SortStreams(bad: set<nat>) returns (newBad: set<nat>)
      modifies this`extents
      ensures extents.Keys == old(extents).Keys
      ensures forall id :: id in extents ==> extents[id] == Sorted(old(extents)[id])
      ensures forall id :: id in newBad <==> id in bad || (id in extents && Overlapping(extents[id]))
    {
      hide Sorted, Overlapping, SortedBut, BadBut;
      newBad := bad;
      var todo := extents.Keys;
      ghost var was := extents;
      SortingStart(was, bad);
      while todo != {}
        invariant todo <= extents.Keys == was.Keys
        invariant SortedBut(was, extents, todo) && BadBut(bad, newBad, extents, todo)
        decreases |todo|
      {
        var id :| id in todo;
        var s := Sorted(extents[id]);
        var overlaps := CheckOrder(s);
        SortingStep(was, extents, bad, newBad, todo, id);
        todo := todo - {id};
        extents := extents[id := s];
        if overlaps {
          newBad := newBad + {id};
        }
      }
      SortingEnd(was, extents, bad, newBad);
    }

    /** Enters every record, and gives the bad streams and all extents. */
    method EnterAll(records: seq<Record>, sealedExtents: seq<Extent>, limit: Option<nat>)
      returns (r: Result<(set<nat>, seq<Extent>), ParseError>)
      requires Entered([])
      modifies this`inodes, this`damaged, this`directories, this`symlinks
      ensures r.Err? <==> BadKey in records || Exceeds(records, limit)
      ensures r == Err(Malformed) <==> BadKeyFirst(records, limit)
      ensures r.Ok? ==>
                && Entered(records) && r.value.1 == sealedExtents + ExtentsOf(records)
                && forall id :: id in r.value.0 <==> Unparsed(records, id)
    {
      hide ExtentsOf, Unparsed, Entered, InodesOf, Exceeds, BadKeyFirst;
      var bad: set<nat> := {};
      var found := sealedExtents;
      NoRecords(sealedExtents, limit);
      for k := 0 to |records|
        invariant Entered(records[..k]) && BadKey !in records[..k] && !Exceeds(records[..k], limit)
        invariant found == sealedExtents + ExtentsOf(records[..k])
        invariant forall id :: id in bad <==> Unparsed(records[..k], id)
      {
        RecordStep(records, k);
        if records[k].BadKey? {
          KeyFirst(records, k, limit);
          return Err(Malformed);
        }
        ghost var was := found;
        bad, found := Enter(records[k], bad, found, records[..k]);
        assert records[..k] + [records[k]] == records[..k + 1];
        assert found == sealedExtents + ExtentsOf(records[..k + 1]);
        InodesEntered(records[..k + 1], limit);
        if limit.Some? && |inodes| > limit.value {
          LimitFirst(records, k + 1, limit);
          return Err(LimitExceeded);
        }
      }
      assert records[..|records|] == records;
      NoKeyFirst(records, limit);
      r := Ok((bad, found));
    }

    lemma NothingEntered()
      requires inodes == map[] && damaged == {} && directories == map[] && symlinks == {}
      ensures Entered([])
    {
    }

    lemma InodesEntered(records: seq<Record>, limit: Option<nat>)
      requires Entered(records)
      ensures Exceeds(records, limit) <==> limit.Some? && |inodes| > limit.value
    {
    }

    /**
     * Builds the index from the records of the file-system tree and the extents of a sealed
     * volume. It damages exactly the nodes whose records are at fault and those whose streams
     * cannot be read as a whole.
     */
    method Parse(records: seq<Record>, sealedExtents: seq<Extent>, limit: Option<nat>) returns (r: Result<(), ParseError>)
      requires inodes == map[] && damaged == {} && directories == map[] && extents == map[] && symlinks == {}
      modifies this
      ensures r.Err? <==> BadKey in records || Exceeds(records, limit)
      ensures r == Err(Malformed) <==> BadKeyFirst(records, limit)
      ensures r.Ok? ==>
                var all := sealedExtents + ExtentsOf(records);
                && Holds(records, all)
                && forall i :: i in damaged <==>
                     RecordFault(records, i) || (i in inodes && !Whole(records, all, inodes[i].privateId))
    {
      hide ExtentsOf, Unparsed, Whole, Collected, Overflowed, Overlapping, RecordFault, StreamOf, BadStream, Exceeds,
           Sorted, Fitting, InodesOf, EntriesOf, LinkIds, Listed, ListedEntries;
      NothingEntered();
      var entered :- EnterAll(records, sealedExtents, limit);
      var bad, found := entered.0, entered.1;
      bad := Collect(found, bad);
      ghost var collected := extents;
      bad := SortStreams(bad);
      assert inodes == InodesOf(records);
      DamageStreams(bad);
      StreamsHeld(collected, extents, found);
      forall id
        ensures id in bad <==> !Whole(records, found, id)
      {
        BadFound(extents, records, found, bad, id);
        WholeExactly(records, found, id);
      }
      r := Ok(());
    }

    /** What a parsed index holds: just the inodes, entries, links and sorted extents of the records. */
    ghost predicate Holds(records: seq<Record>, all: seq<Extent>)
      reads `inodes, `directories, `symlinks, `extents
    {
      && inodes == InodesOf(records)
      && (forall parent :: ListedEntries(directories, parent) == EntriesOf(records, parent))
      && (forall i :: i in symlinks <==> i in LinkIds(records))
      && forall id :: Listed(extents, id) == StreamOf(all, id)
    }

    /** What mounting leaves: the index of the records, with all damage marked and nothing else. */
    ghost predicate Mounted(records: seq<Record>, all: seq<Extent>, blockSize: nat, blockCount: nat)
      reads this
      requires blockSize > 0
    {
      && Holds(records, all)
      && forall i :: i in damaged <==>
           || RecordFault(records, i) || Disagrees(i)
           || (i in inodes && !Readable(records, all, inodes[i].privateId, blockSize, blockCount))
    }

    /** Some directory entry of this node disagrees with its inode. */
    ghost predicate Disagrees(i: nat)
      reads `inodes, `directories
    {
      exists parent, k :: parent in directories && 0 <= k < |directories[parent]| && FaultAt(parent, k, i)
    }

    /** Entry `k` of a directory names node `i` and disagrees with its inode. */
    predicate FaultAt(parent: nat, k: nat, i: nat)
      reads `inodes, `directories
      requires parent in directories && k < |directories[parent]|
    {
      directories[parent][k].file == i && EntryFault(parent, directories[parent][k])
    }

    /** Some extent of this stream lies outside the container. */
    predicate Outside(id: nat, blockSize: nat, blockCount: nat)
      reads `extents
      requires blockSize > 0
    {
      id in extents && exists k :: 0 <= k < |extents[id]| && !Inside(extents[id][k], blockSize, blockCount)
    }

    /**
     * Checks the directories against the inodes and the extents against the container: it damages
     * exactly the nodes with an entry that disagrees and those with an extent outside.
     */
    method Validate(blockSize: nat, blockCount: nat)
      requires Valid() && blockSize > 0
      modifies this`damaged
      ensures forall i :: i in damaged <==>
                i in old(damaged) || Disagrees(i) || (i in inodes && Outside(inodes[i].privateId, blockSize, blockCount))
    {
      hide EntryFault;
      var more: set<nat> := {};
      var todo := directories.Keys;
      while todo != {}
        modifies {}
        invariant todo <= directories.Keys
        invariant forall i :: i in more <==>
                    exists parent, k :: parent in directories && parent !in todo && 0 <= k < |directories[parent]|
                                        && FaultAt(parent, k, i)
        decreases |todo|
      {
        var parent :| parent in todo;
        ghost var before, left := more, todo;
        todo := todo - {parent};
        for k := 0 to |directories[parent]|
          modifies {}
          invariant forall i :: i in more <==> i in before || exists j :: 0 <= j < k && FaultAt(parent, j, i)
        {
          var entry := directories[parent][k];
          assert FaultAt(parent, k, entry.file) <==> EntryFault(parent, entry);
          if EntryFault(parent, entry) {
            more := more + {entry.file};
          }
        }
      }
      damaged := damaged + more;
      var outside := set id | id in extents && Outside(id, blockSize, blockCount);
      DamageStreams(outside);
    }

    lemma OutsideExactly(id: nat, blockSize: nat, blockCount: nat)
      requires blockSize > 0
      ensures Outside(id, blockSize, blockCount) <==> !AllInside(Listed(extents, id), blockSize, blockCount)
    {
      var s := Listed(extents, id);
      if !AllInside(s, blockSize, blockCount) {
        var e :| e in s && !Inside(e, blockSize, blockCount);
        var k :| 0 <= k < |s| && s[k] == e;
      }
    }

    /** Whether a directory entry disagrees with the inode it names. */
    predicate EntryFault(parent: nat, entry: DirEntry)
      reads `inodes
    {
      if entry.file !in inodes then true
      else
        var inode := inodes[entry.file];
        match FileType(inode.mode)
        case None => false
        case Some(code) =>
          var recorded := entry.flags % DREC_TYPE_MASK;
          (recorded != 0 && recorded != code)
          || (code == DIRECTORY && (inode.parentId != parent || inode.id == parent))
    }
  }

  /**
   * An entry agrees with its inode when there is one, unless the mode has no type, when the entry's low
   * four flags are zero or the type, and a directory's parent is where the entry is, not the directory itself.
   */
  lemma EntryAgrees(index: Index, parent: nat, entry: DirEntry, code: nat)
    requires entry.file in index.inodes ==>
               code * 0x1000 <= index.inodes[entry.file].mode % 0x1_0000 < (code + 1) * 0x1000
    ensures !index.EntryFault(parent, entry) <==>
            && entry.file in index.inodes
            && var inode := index.inodes[entry.file];
               code in [1, 2, 4, 6, 8, 10, 12] ==>
                 && (entry.flags % 16 == 0 || entry.flags % 16 == code)
                 && (code == 4 ==> inode.parentId == parent && inode.id != parent)
  {
    if entry.file in index.inodes {
      FileTypeExactly(index.inodes[entry.file].mode, code);
    }
  }

  /**
   * Builds and validates the index, as mounting does. Undamaged are exactly the nodes whose records
   * and directory entries agree and whose extents are whole and inside the container.
   */
  method Mount(records: seq<Record>, sealedExtents: seq<Extent>, limit: Option<nat>, blockSize: nat, blockCount: nat)
    returns (r: Result<Index, ParseError>)
    requires blockSize > 0
    ensures r.Err? <==> BadKey in records || Exceeds(records, limit)
    ensures r.Ok? ==>
              r.value.Mounted(records, sealedExtents + ExtentsOf(records), blockSize, blockCount)
  {
    hide Whole, ExtentsOf, RecordFault, Exceeds;
    var index := new Index();
    var parsed :- index.Parse(records, sealedExtents, limit);
    ghost var all := sealedExtents + ExtentsOf(records);
    index.Validate(blockSize, blockCount);
    forall id
      ensures index.Outside(id, blockSize, blockCount) <==> !AllInside(StreamOf(all, id), blockSize, blockCount)
    {
      index.OutsideExactly(id, blockSize, blockCount);
    }
    r := Ok(index);
  }

  predicate AllInside(s: seq<Extent>, blockSize: nat, blockCount: nat)
    requires blockSize > 0
  {
    forall e :: e in s ==> Inside(e, blockSize, blockCount)
  }

  /** A whole stream inside the container. */
  ghost predicate Readable(records: seq<Record>, all: seq<Extent>, id: nat, blockSize: nat, blockCount: nat)
    requires blockSize > 0
  {
    Whole(records, all, id) && AllInside(StreamOf(all, id), blockSize, blockCount)
  }

  /** Every stream not in `todo` is sorted, and those in it are as they were. */
  ghost predicate SortedBut(was: map<nat, seq<Extent>>, now: map<nat, seq<Extent>>, todo: set<nat>) {
    now.Keys == was.Keys
    && forall id :: id in now ==> now[id] == if id in todo then was[id] else Sorted(was[id])
  }

  /** The streams that overlap, but for those in `todo`, are bad now. */
  ghost predicate BadBut(bad: set<nat>, newBad: set<nat>, now: map<nat, seq<Extent>>, todo: set<nat>) {
    forall id :: id in newBad <==> id in bad || (id in now && id !in todo && Overlapping(now[id]))
  }

  lemma SortingStart(was: map<nat, seq<Extent>>, bad: set<nat>)
    ensures SortedBut(was, was, was.Keys) && BadBut(bad, bad, was, was.Keys)
  {
  }

  lemma SortingStep(was: map<nat, seq<Extent>>, now: map<nat, seq<Extent>>, bad: set<nat>, newBad: set<nat>,
                    todo: set<nat>, id: nat)
    requires SortedBut(was, now, todo) && BadBut(bad, newBad, now, todo) && id in todo && todo <= now.Keys
    ensures var s := Sorted(now[id]);
            && SortedBut(was, now[id := s], todo - {id})
            && BadBut(bad, if Overlapping(s) then newBad + {id} else newBad, now[id := s], todo - {id})
  {
    hide Sorted, Overlapping;
  }

  lemma SortingEnd(was: map<nat, seq<Extent>>, now: map<nat, seq<Extent>>, bad: set<nat>, newBad: set<nat>)
    requires SortedBut(was, now, {}) && BadBut(bad, newBad, now, {})
    ensures now.Keys == was.Keys && forall id :: id in now ==> now[id] == Sorted(was[id])
    ensures forall id :: id in newBad <==> id in bad || (id in now && Overlapping(now[id]))
  {
    hide Sorted, Overlapping;
  }

  method CheckOrder(s: seq<Extent>) returns (overlaps: bool)
    ensures overlaps <==> Overlapping(s)
  {
    var end := 0;
    overlaps := false;
    for k := 0 to |s|
      invariant end == if k == 0 then 0 else s[k - 1].End()
      invariant overlaps <==> exists j :: 1 <= j < k && s[j].logical < s[j - 1].End()
    {
      if s[k].logical < end {
        overlaps := true;
      }
      end := s[k].End();
    }
  }

  lemma CollectStep(streams: map<nat, seq<Extent>>, all: seq<Extent>, k: nat)
    requires k < |all| && Collected(streams, all[..k])
    ensures var e := all[k];
            Collected(if Fits(e) then streams[e.id := Listed(streams, e.id) + [e]] else streams, all[..k + 1])
  {
    var e := all[k];
    assert all[..k + 1][..k] == all[..k];
    var was, now := Fitting(all[..k]), Fitting(all[..k + 1]);
    forall id
      ensures OfStream(now, id) == if Fits(e) && e.id == id then OfStream(was, id) + [e] else OfStream(was, id)
    {
      if Fits(e) {
        assert now[..|now| - 1] == was;
      }
    }
    forall id
      ensures Listed(if Fits(e) then streams[e.id := Listed(streams, e.id) + [e]] else streams, id) == OfStream(now, id)
    {
      assert Listed(streams, id) == OfStream(was, id);
    }
  }

  lemma OverflowStep(all: seq<Extent>, k: nat)
    requires k < |all|
    ensures forall id :: Overflowed(all[..k + 1], id) <==> Overflowed(all[..k], id) || (all[k].id == id && !Fits(all[k]))
  {
    hide Overflowed;
    forall id
      ensures Overflowed(all[..k + 1], id) <==> Overflowed(all[..k], id) || (all[k].id == id && !Fits(all[k]))
    {
      OverflowAt(all, k, id);
    }
  }

  lemma OverflowAt(all: seq<Extent>, k: nat, id: nat)
    requires k < |all|
    ensures Overflowed(all[..k + 1], id) <==> Overflowed(all[..k], id) || (all[k].id == id && !Fits(all[k]))
  {
    var was, now := all[..k], all[..k + 1];
    assert now == was + [all[k]];
    if Overflowed(now, id) {
      var e :| e in now && e.id == id && !Fits(e);
      assert e in was || e == all[k];
    }
    if Overflowed(was, id) {
      var e :| e in was && e.id == id && !Fits(e);
      assert e in now;
    }
    assert all[k] in now;
  }

  lemma RecordStep(records: seq<Record>, k: nat)
    requires k < |records|
    ensures var r := records[k];
            && ExtentsOf(records[..k + 1]) ==
                 (if r.ExtentRecord? && r.extent.Some?
                  then ExtentsOf(records[..k]) + [r.extent.value] else ExtentsOf(records[..k]))
            && (BadKey in records[..k + 1] <==> BadKey in records[..k] || r.BadKey?)
            && forall id :: Unparsed(records[..k + 1], id) <==> Unparsed(records[..k], id) || r == ExtentRecord(id, None)
  {
    assert records[..k + 1][..k] == records[..k];
    assert records[..k + 1] == records[..k] + [records[k]];
  }

  lemma NoRecords(sealedExtents: seq<Extent>, limit: Option<nat>)
    ensures sealedExtents + ExtentsOf([]) == sealedExtents && !Exceeds([], limit)
    ensures forall id :: !Unparsed([], id)
  {
  }

  /** What one more record adds to what the records say. */
  lemma EnterStep(was: seq<Record>, r: Record)
    ensures InodeIds(was + [r]) == if r.InodeRecord? && r.inode.Some? then InodeIds(was) + [r.inode.value.id] else InodeIds(was)
    ensures InodesOf(was + [r]) ==
            if r.InodeRecord? && r.inode.Some? then InodesOf(was)[r.inode.value.id := r.inode.value] else InodesOf(was)
    ensures forall parent :: EntriesOf(was + [r], parent) ==
              if r.DirectoryRecord? && r.entry.Some? && r.entry.value.parent == parent
              then EntriesOf(was, parent) + [r.entry.value] else EntriesOf(was, parent)
    ensures LinkIds(was + [r]) == if r.SymlinkRecord? then LinkIds(was) + [r.inodeId] else LinkIds(was)
  {
    assert (was + [r])[..|was|] == was;
  }

  /** The faults one more record brings. */
  lemma FaultStep(was: seq<Record>, r: Record)
    ensures forall i :: RecordFault(was + [r], i) <==> RecordFault(was, i) || Spoils(was, r, i)
  {
    hide InodesOf, InodeIds, LinkIds;
    EnterStep(was, r);
  }

  /** Whether a record puts a node at fault: it is malformed, or says again what was said. */
  predicate Spoils(was: seq<Record>, r: Record, i: nat) {
    match r
    case InodeRecord(_, Some(inode)) => i == inode.id && i in InodeIds(was)
    case InodeRecord(key, None) => i == key
    case SymlinkRecord(id) => i == id && id in LinkIds(was)
    case _ => false
  }

  lemma InodesGrow(was: seq<Record>, r: Record, limit: Option<nat>)
    requires Exceeds(was, limit)
    ensures Exceeds(was + [r], limit)
  {
    hide InodesOf, InodeIds, EntriesOf, LinkIds;
    EnterStep(was, r);
  }

  /** Once over the limit, always over it. */
  lemma {:induction false} StaysExceeded(records: seq<Record>, j: nat, k: nat, limit: Option<nat>)
    requires j <= k <= |records| && Exceeds(records[..j], limit)
    ensures Exceeds(records[..k], limit)
    decreases k
  {
    hide Exceeds;
    if j < k {
      StaysExceeded(records, j, k - 1, limit);
      assert records[..k - 1] + [records[k - 1]] == records[..k];
      InodesGrow(records[..k - 1], records[k - 1], limit);
    }
  }

  /** A bad key is refused where it stands, unless the limit was passed before it. */
  predicate BadKeyFirst(records: seq<Record>, limit: Option<nat>) {
    exists k :: 0 <= k < |records| && records[k] == BadKey && !Exceeds(records[..k], limit)
  }

  lemma KeyFirst(records: seq<Record>, k: nat, limit: Option<nat>)
    requires k < |records| && records[k] == BadKey && !Exceeds(records[..k], limit)
    ensures BadKeyFirst(records, limit)
  {
  }

  lemma NoKeyFirst(records: seq<Record>, limit: Option<nat>)
    requires BadKey !in records
    ensures !BadKeyFirst(records, limit)
  {
  }

  /** The limit was passed before any bad key. */
  lemma LimitFirst(records: seq<Record>, k: nat, limit: Option<nat>)
    requires k <= |records| && BadKey !in records[..k] && Exceeds(records[..k], limit)
    ensures Exceeds(records, limit) && !BadKeyFirst(records, limit)
  {
    hide Exceeds;
    assert records[..|records|] == records;
    StaysExceeded(records, k, |records|, limit);
    forall j | 0 <= j < k
      ensures records[j] != BadKey
    {
      assert records[..k][j] == records[j];
    }
    forall j | k <= j < |records|
      ensures Exceeds(records[..j], limit)
    {
      StaysExceeded(records, k, j, limit);
    }
  }

  /** A stream without an overflow keeps all its extents. */
  lemma {:induction false} AllFit(all: seq<Extent>, id: nat)
    requires !Overflowed(all, id)
    ensures OfStream(Fitting(all), id) == OfStream(all, id)
  {
    if all != [] {
      var n := |all| - 1;
      assert all == all[..n] + [all[n]];
      forall e | e in all[..n] && e.id == id
        ensures Fits(e)
      {
        assert e in all;
      }
      AllFit(all[..n], id);
      assert all[n] in all;
      if Fits(all[n]) {
        assert Fitting(all)[..|Fitting(all)| - 1] == Fitting(all[..n]);
      }
    }
  }

  /** After sorting, every stream lists its extents in order of address. */
  lemma StreamsHeld(collected: map<nat, seq<Extent>>, streams: map<nat, seq<Extent>>, all: seq<Extent>)
    requires Collected(collected, all) && streams.Keys == collected.Keys
    requires forall k :: k in streams ==> streams[k] == Sorted(collected[k])
    ensures forall id :: Listed(streams, id) == StreamOf(all, id)
  {
    forall id
      ensures Listed(streams, id) == StreamOf(all, id)
    {
      assert Listed(collected, id) == OfStream(Fitting(all), id);
    }
  }

  lemma BadFound(streams: map<nat, seq<Extent>>, records: seq<Record>, all: seq<Extent>, bad: set<nat>, id: nat)
    requires forall k :: Listed(streams, k) == StreamOf(all, k)
    requires id in bad <==> Unparsed(records, id) || Overflowed(all, id) || (id in streams && Overlapping(streams[id]))
    ensures id in bad <==> BadStream(records, all, id)
  {
    hide Overlapping;
    assert !Overlapping([]) by { EmptyOverlap(); }
    assert Listed(streams, id) == StreamOf(all, id);
  }

  lemma EmptyOverlap()
    ensures !Overlapping([])
  {
  }

  lemma MembersOf(all: seq<Extent>, id: nat)
    ensures forall e :: e in StreamOf(all, id) <==> e in all && Fits(e) && e.id == id
  {
    hide Sorted, OfStream, Fitting;
    var s := StreamOf(all, id);
    forall e
      ensures e in s <==> e in OfStream(Fitting(all), id)
    {
      assert e in s <==> e in multiset(s);
    }
  }

  /** A stream with nothing found wrong is whole. */
  lemma GoodWhole(records: seq<Record>, all: seq<Extent>, id: nat)
    requires !BadStream(records, all, id)
    ensures Whole(records, all, id)
  {
    hide Sorted, OfStream, Fitting, Overlapping, Unparsed;
    var s := StreamOf(all, id);
    MembersOf(all, id);
    AllFit(all, id);
    SortedIs(OfStream(Fitting(all), id));
    forall j, k | 0 <= j < k < |s|
      ensures s[j].End() <= s[k].logical
    {
      StepsInOrder(s, j, k);
    }
  }

  /** A whole stream has nothing wrong. */
  lemma WholeGood(records: seq<Record>, all: seq<Extent>, id: nat)
    requires Whole(records, all, id)
    ensures !BadStream(records, all, id)
  {
    hide Sorted, OfStream, Fitting, Unparsed;
    var s := StreamOf(all, id);
    MembersOf(all, id);
    forall e | e in all && e.id == id
      ensures Fits(e)
    {
      assert e in OfStream(all, id);
      assert e in s <==> e in multiset(s);
    }
  }

  /** A stream is whole exactly when nothing is found wrong with it. */
  lemma WholeExactly(records: seq<Record>, all: seq<Extent>, id: nat)
    ensures Whole(records, all, id) <==> !BadStream(records, all, id)
  {
    hide *;
    if BadStream(records, all, id) {
      if Whole(records, all, id) {
        WholeGood(records, all, id);
      }
    } else {
      GoodWhole(records, all, id);
    }
  }

  /** With sorted and disjoint extents the map from positions to bytes has one answer, whatever the order of the list. */
  lemma OneExtentAt(s: seq<Extent>, j: nat, k: nat, pos: nat)
    requires InOrder(s) && j < |s| && k < |s| && Shows(s[j], pos) && Shows(s[k], pos)
    ensures j == k
  {
    hide InOrder;
    if j < k {
      OrderedAt(s, j, k);
    } else if k < j {
      OrderedAt(s, k, j);
    }
  }

  /** The byte at a position of sorted, disjoint extents does not depend on the order they are listed in. */
  lemma OrderFree(c: Container, s: seq<Extent>, t: seq<Extent>, pos: nat)
    requires c.Ok() && InOrder(s) && multiset(s) == multiset(t)
    ensures ByteAt(c, t, pos) == ByteAt(c, s, pos)
  {
    hide Container.Ok, ByteAt, InOrder;
    forall e
      ensures e in s <==> e in t
    {
      assert e in multiset(s) <==> e in multiset(t);
    }
    if exists k :: 0 <= k < |s| && Shows(s[k], pos) {
      var k :| 0 <= k < |s| && Shows(s[k], pos);
      forall x | x in s && Shows(x, pos)
        ensures x == s[k]
      {
        var j :| 0 <= j < |s| && s[j] == x;
        OneExtentAt(s, j, k, pos);
      }
      OnlyOne(c, s, s[k], pos);
      OnlyOne(c, t, s[k], pos);
    } else {
      var any := Extent(0, 0, 0, 0, 0);
      OnlyOne(c, s, any, pos);
      OnlyOne(c, t, any, pos);
    }
  }

  lemma OrderedAt(s: seq<Extent>, j: nat, k: nat)
    requires InOrder(s) && j < k < |s|
    ensures s[j].End() <= s[k].logical
  {
  }

  /** Whether an encrypted extent can be read: its volume's key is there, and its tweaks fit 64 bits. */
  predicate Decryptable(c: Container, e: Extent, scoped: bool)
    requires c.blockSize > 0
  {
    scoped && c.key.Some? && (e.crypto + CeilDiv(e.length, c.blockSize)) * (c.blockSize / 512) < U64
  }

  /** Extents of an undamaged node pass every check before reading exactly when the encrypted ones can be read. */
  lemma SoundPasses(c: Container, s: seq<Extent>, scoped: bool)
    requires c.blockSize > 0 && StreamSound(s) && AllInside(s, c.blockSize, c.blockCount)
    ensures Preflight(c, s, scoped) == None <==> forall e :: e in s && e.crypto != 0 ==> Decryptable(c, e, scoped)
  {
    hide CeilDiv;
    forall k | 0 <= k < |s|
      ensures ExtentFault(c, s[k], scoped) == None <==> s[k].crypto == 0 || Decryptable(c, s[k], scoped)
    {
      assert s[k] in s;
    }
  }
}

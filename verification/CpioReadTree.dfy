/** Reading an archive into a tree, against what the order of its entries says each name must hold. */
module CpioReadTree {
  import opened Wrappers
  import opened Bytes
  import opened CpioHeader
  import opened E = CpioError
  import opened CpioParse
  import opened CpioRequests
  import opened CpioReader
  import opened NameTree
  import opened Instants
  import opened Nodes
  import opened G = CpioGroups

  const SLASH: byte := 47
  const DOT: byte := 46

  /** Drops a leading run of `/` and `./`. */
  function Strip(name: seq<byte>): (r: seq<byte>)
    ensures |r| <= |name| && (r == [] || r[0] != SLASH)
  {
    if name != [] && name[0] == SLASH then Strip(name[1..])
    else if |name| >= 2 && name[0] == DOT && name[1] == SLASH then Strip(name[2..])
    else name
  }

  /** The components between separators, empty ones dropped; `part` is what has been read of the first. */
  function Split(name: seq<byte>, part: seq<byte>): (r: Path)
    ensures (part != [] || (name != [] && name[0] != SLASH)) ==> r != []
    decreases |name|
  {
    if name == [] then (if part == [] then [] else [part])
    else if name[0] == SLASH then (if part == [] then [] else [part]) + Split(name[1..], [])
    else Split(name[1..], part + [name[0]])
  }

  /** Where an entry of this name goes, the root being `[]`. */
  function Normalize(name: seq<byte>): Path {
    var path := Strip(name);
    if path == [] || path == [DOT] then [] else Split(path, [])
  }

  function Join(path: Path): seq<byte> {
    if path == [] then [] else if |path| == 1 then path[0] else path[0] + [SLASH] + Join(path[1..])
  }

  /** A component a stored name can hold: neither empty nor with a separator in it. */
  predicate Component(c: seq<byte>) {
    c != [] && SLASH !in c
  }

  lemma {:induction false} SplitPart(c: seq<byte>, part: seq<byte>, rest: seq<byte>)
    requires SLASH !in c && (rest == [] || rest[0] == SLASH)
    ensures Split(c + rest, part) == Split(rest, part + c)
    decreases |c|
  {
    if c == [] {
      assert c + rest == rest && part + c == part;
    } else {
      assert (c + rest)[1..] == c[1..] + rest;
      SplitPart(c[1..], part + [c[0]], rest);
      assert part + [c[0]] + c[1..] == part + c;
    }
  }

  function Slashes(n: nat): seq<byte> {
    if n == 0 then [] else [SLASH] + Slashes(n - 1)
  }

  /** The components with runs of separators after them; only the last may have none. */
  function Spelled(path: Path, runs: seq<nat>): seq<byte>
    requires |runs| == |path|
  {
    if path == [] then [] else path[0] + (Slashes(runs[0]) + Spelled(path[1..], runs[1..]))
  }

  predicate Separated(path: Path, runs: seq<nat>) {
    |runs| == |path| && forall k :: 0 <= k < |runs| - 1 ==> runs[k] > 0
  }

  /** A run of `/` and `./` before a name. */
  predicate Leading(lead: seq<byte>) {
    lead == [] || (lead[0] == SLASH && Leading(lead[1..]))
    || (|lead| >= 2 && lead[0] == DOT && lead[1] == SLASH && Leading(lead[2..]))
  }

  lemma {:induction false} SplitSlashes(n: nat, rest: seq<byte>)
    ensures Split(Slashes(n) + rest, []) == Split(rest, [])
    decreases n
  {
    if n == 0 {
      assert Slashes(n) + rest == rest;
    } else {
      assert (Slashes(n) + rest)[1..] == Slashes(n - 1) + rest;
      SplitSlashes(n - 1, rest);
    }
  }

  lemma {:induction false} SplitSpelled(path: Path, runs: seq<nat>)
    requires Separated(path, runs) && forall c :: c in path ==> Component(c)
    ensures Split(Spelled(path, runs), []) == path
    decreases |path|
  {
    if path != [] {
      assert Component(path[0]);
      var tail := Spelled(path[1..], runs[1..]);
      var rest := Slashes(runs[0]) + tail;
      SplitPart(path[0], [], rest);
      assert [] + path[0] == path[0];
      SplitSpelled(path[1..], runs[1..]);
      if runs[0] > 0 {
        assert rest[1..] == Slashes(runs[0] - 1) + tail;
        SplitSlashes(runs[0] - 1, tail);
        assert Split(rest, path[0]) == [path[0]] + Split(tail, []);
      } else {
        assert path[1..] == [];
        assert rest == [];
      }
    }
  }

  lemma {:induction false} StripLeading(lead: seq<byte>, name: seq<byte>)
    requires Leading(lead)
    ensures Strip(lead + name) == Strip(name)
    decreases |lead|
  {
    if lead == [] {
      assert lead + name == name;
    } else if lead[0] == SLASH {
      assert (lead + name)[1..] == lead[1..] + name;
      StripLeading(lead[1..], name);
    } else {
      assert (lead + name)[2..] == lead[2..] + name;
      StripLeading(lead[2..], name);
    }
  }

  /**
   * A stored name names the path of its components, whatever run of `/` and `./` comes before them
   * and whatever runs of separators after each; without components it is the root.
   */
  lemma NormalizeSpelled(lead: seq<byte>, path: Path, runs: seq<nat>)
    requires Leading(lead) && Separated(path, runs)
    requires (forall c :: c in path ==> Component(c)) && (path != [] ==> path[0] != [DOT])
    ensures Normalize(lead + Spelled(path, runs)) == path && Normalize(lead + [DOT]) == []
  {
    var name := Spelled(path, runs);
    StripLeading(lead, name);
    StripLeading(lead, [DOT]);
    if path != [] {
      assert Component(path[0]);
      assert name[..|path[0]|] == path[0];
      assert name[0] == path[0][0];
      assert |path[0]| == 1 ==> path[0] == [name[0]];
      assert |path[0]| > 1 ==> name[1] == path[0][1];
      assert |path[0]| == 1 && |name| > 1 ==> name[1] == SLASH by {
        if |path[0]| == 1 && |name| > 1 {
          RunStarts(path, runs);
        }
      }
      SplitSpelled(path, runs);
    }
  }

  lemma RunStarts(path: Path, runs: seq<nat>)
    requires Separated(path, runs) && path != [] && |path[0]| == 1 && |Spelled(path, runs)| > 1
    ensures Spelled(path, runs)[1] == SLASH
  {
    assert |path| == 1 ==> Spelled(path[1..], runs[1..]) == [];
    assert runs[0] > 0 ==> Slashes(runs[0])[0] == SLASH;
  }

  /** A name is one component after another with single separators between them. */
  lemma {:induction false} JoinSpelled(path: Path)
    requires path != []
    ensures var runs := seq(|path|, k => if k == |path| - 1 then 0 else 1);
            Separated(path, runs) && Join(path) == Spelled(path, runs)
    decreases |path|
  {
    var runs := seq(|path|, k => if k == |path| - 1 then 0 else 1);
    if |path| == 1 {
      assert Spelled(path[1..], runs[1..]) == [];
      assert path[0] + (Slashes(0) + []) == path[0];
    } else {
      JoinSpelled(path[1..]);
      assert runs[1..] == seq(|path| - 1, k => if k == |path| - 2 then 0 else 1);
      assert Slashes(1) == [SLASH];
      assert path[0] + ([SLASH] + Join(path[1..])) == path[0] + [SLASH] + Join(path[1..]);
    }
  }

  /** A stored name names the path it was written for. */
  lemma NormalizeJoin(path: Path)
    requires path != [] && (forall c :: c in path ==> Component(c)) && path[0] != [DOT]
    ensures Normalize(Join(path)) == path
  {
    var runs := seq(|path|, k => if k == |path| - 1 then 0 else 1);
    JoinSpelled(path);
    NormalizeSpelled([], path, runs);
    assert [] + Join(path) == Join(path);
  }

  /** An entry as the tree sees it. */
  datatype Arrival = Arrival(path: Path, node: Node, group: Option<Key>, hasData: bool)

  function AttrsOf(h: Header): Attrs {
    Attrs(None, None, Some(DateTime(h.mtime, 0, None)), Some(h.mode % 4096), Some((h.uid, h.gid)), None)
  }

  function FileTypeOf(h: Header): FileType {
    if TypeOf(h.mode).Some? then TypeOf(h.mode).value else File
  }

  /** The node an entry describes; files and links take the entry's data, which must be there. */
  function NodeOf(s: seq<byte>, e: EntryInfo): (r: Option<Node>)
    ensures r.Some? ==> r.value.Checked()
  {
    var h := e.header;
    match FileTypeOf(h)
    case File =>
      if e.dataOffset + h.len <= |s| then Some(Node(FileNode(InMemory(Data(s, e))), AttrsOf(h))) else None
    case Symlink =>
      if e.dataOffset + h.len <= |s| then Some(Node(SymlinkNode(Data(s, e)), AttrsOf(h))) else None
    case Dir => Some(Node(DirNode, AttrsOf(h)))
    case CharDevice => Some(Node(SpecialNode(CharDevice, Some(h.rdev)), AttrsOf(h)))
    case BlockDevice => Some(Node(SpecialNode(BlockDevice, Some(h.rdev)), AttrsOf(h)))
    case Fifo => Some(Node(SpecialNode(Fifo, None), AttrsOf(h)))
    case Socket => Some(Node(SpecialNode(Socket, None), AttrsOf(h)))
  }

  /** What entry `e` of this node brings: regular files with more than one link belong to a group. */
  function ArrivalFrom(e: EntryInfo, node: Node): (r: Option<Arrival>)
    ensures r.Some? && node.Checked() ==> Arrives(r.value)
  {
    var path := Normalize(e.path);
    if path == [] && !node.IsDir() then None
    else if node.IsFile() && e.header.nlink >= 2 then
      Some(Arrival(path, node, Some(Key(e.header.dev.major, e.header.dev.minor, e.header.ino)), e.header.len > 0))
    else Some(Arrival(path, node, None, false))
  }

  function ArrivalOf(s: seq<byte>, e: EntryInfo): (r: Option<Arrival>)
    ensures r.Some? ==> Arrives(r.value)
  {
    if NodeOf(s, e) == None then None else ArrivalFrom(e, NodeOf(s, e).value)
  }

  predicate Arrives(a: Arrival) {
    a.node.Checked() && (a.path == [] ==> a.node.IsDir()) && (a.group.Some? ==> a.node.IsFile())
  }

  /** The arrivals of entries that all have one. */
  function Arrivals(s: seq<byte>, es: seq<EntryInfo>): (h: seq<Arrival>)
    requires forall k :: 0 <= k < |es| ==> ArrivalOf(s, es[k]).Some?
    ensures |h| == |es| && forall k :: 0 <= k < |h| ==> h[k] == ArrivalOf(s, es[k]).value
  {
    seq(|es|, k requires 0 <= k < |es| => ArrivalOf(s, es[k]).value)
  }

  /** The last arrival of this name. */
  function LastOf(h: seq<Arrival>, p: Path): (r: Option<Arrival>)
    ensures r.Some? ==> r.value in h && r.value.path == p
  {
    if h == [] then None
    else if h[|h| - 1].path == p then Some(h[|h| - 1])
    else LastOf(h[..|h| - 1], p)
  }

  /** The first arrival of this group. */
  function FirstIn(h: seq<Arrival>, key: Key): (r: Option<Arrival>)
    ensures r.Some? ==> r.value.group == Some(key)
  {
    if h == [] then None
    else if h[0].group == Some(key) then Some(h[0])
    else FirstIn(h[1..], key)
  }

  /** The last arrival of this group that brought data. */
  function LastData(h: seq<Arrival>, key: Key): (r: Option<Arrival>)
    ensures r.Some? ==> r.value.group == Some(key) && r.value.hasData
  {
    if h == [] then None
    else if h[|h| - 1].group == Some(key) && h[|h| - 1].hasData then Some(h[|h| - 1])
    else LastData(h[..|h| - 1], key)
  }

  /** The node every name of a group must hold: the last one with data, or the first if none had data. */
  function GroupNode(h: seq<Arrival>, key: Key): Option<Node> {
    if LastData(h, key).Some? then Some(LastData(h, key).value.node)
    else if FirstIn(h, key).Some? then Some(FirstIn(h, key).value.node)
    else None
  }

  /** The group the last arrival of `p` put it in. */
  function GroupOf(h: seq<Arrival>, p: Path): Option<Key> {
    if LastOf(h, p).Some? then LastOf(h, p).value.group else None
  }

  /** What `p` must hold: its group's node, or else what arrived there last. */
  function Wanted(h: seq<Arrival>, p: Path): Option<Node> {
    if GroupOf(h, p).Some? then GroupNode(h, GroupOf(h, p).value)
    else if LastOf(h, p).Some? then Some(LastOf(h, p).value.node)
    else None
  }

  /** Whether `p` is the root or leads to a name that arrived. */
  ghost predicate Leads(h: seq<Arrival>, p: Path) {
    p == [] || exists k :: 0 <= k < |h| && p <= h[k].path
  }

  /**
   * The tree the arrivals `h` mean. Every name that arrived holds what it must; every other name is
   * a plain directory on the way to one; and two names share a node exactly when one group has both.
   */
  ghost predicate Restored(t: Tree, h: seq<Arrival>) {
    && t.Ok()
    && (forall p :: LastOf(h, p).Some? ==> p in t.names && Some(t.At(p)) == Wanted(h, p))
    && (forall p :: p in t.names && LastOf(h, p) == None ==> t.At(p) == PLAIN_DIR && Leads(h, p))
    && (forall p, q :: p in t.names && q in t.names && p != q ==>
          (t.names[p] == t.names[q] <==> GroupOf(h, p).Some? && GroupOf(h, p) == GroupOf(h, q)))
  }

  lemma LastOfStep(h: seq<Arrival>, a: Arrival, p: Path)
    ensures LastOf(h + [a], p) == (if a.path == p then Some(a) else LastOf(h, p))
  {
    assert (h + [a])[..|h|] == h;
  }

  lemma GroupOfStep(h: seq<Arrival>, a: Arrival, p: Path)
    ensures GroupOf(h + [a], p) == if a.path == p then a.group else GroupOf(h, p)
  {
    LastOfStep(h, a, p);
  }

  lemma {:induction false} FirstInStep(h: seq<Arrival>, a: Arrival, key: Key)
    ensures FirstIn(h + [a], key) ==
            (if FirstIn(h, key).Some? then FirstIn(h, key) else if a.group == Some(key) then Some(a) else None)
  {
    if h == [] {
      assert (h + [a])[1..] == [];
    } else {
      assert (h + [a])[1..] == h[1..] + [a];
      FirstInStep(h[1..], a, key);
    }
  }

  lemma {:induction false} DataFirst(h: seq<Arrival>, key: Key)
    requires LastData(h, key).Some?
    ensures FirstIn(h, key).Some?
  {
    var n := |h| - 1;
    FirstInStep(h[..n], h[n], key);
    assert h[..n] + [h[n]] == h;
    if !(h[n].group == Some(key) && h[n].hasData) {
      DataFirst(h[..n], key);
    }
  }

  /** How one more arrival changes a group's node. */
  lemma GroupNodeStep(h: seq<Arrival>, a: Arrival, key: Key)
    ensures GroupNode(h + [a], key) ==
            (if a.group == Some(key) && (a.hasData || GroupNode(h, key) == None) then Some(a.node) else GroupNode(h, key))
  {
    assert (h + [a])[..|h|] == h;
    FirstInStep(h, a, key);
    if LastData(h, key).Some? {
      DataFirst(h, key);
    }
  }

  /** The groups are those of the arrivals, each with its node and the names it still has. */
  ghost predicate Tracks(groups: map<Key, Group>, owners: map<Path, Key>, h: seq<Arrival>) {
    && (forall p :: p in owners <==> GroupOf(h, p).Some?)
    && (forall p :: p in owners ==> GroupOf(h, p) == Some(owners[p]))
    && (forall k :: k in groups <==> GroupNode(h, k).Some?)
    && (forall k :: k in groups ==> GroupNode(h, k) == Some(groups[k].node))
  }

  /** Names outside the groups hold what arrived last, or are directories on the way. */
  ghost predicate Plain(t: Tree, h: seq<Arrival>) {
    && (forall p :: LastOf(h, p).Some? && GroupOf(h, p) == None ==>
          p in t.names && t.names[p] in t.nodes && t.At(p) == LastOf(h, p).value.node)
    && (forall p :: p in t.names && LastOf(h, p) == None ==>
          t.names[p] in t.nodes && t.At(p) == PLAIN_DIR && Leads(h, p))
  }

  ghost predicate Building(groups: map<Key, Group>, owners: map<Path, Key>, t: Tree, h: seq<Arrival>) {
    && t.Ok() && Inverse(groups, owners) && Held(t, groups, owners) && Apart(t, owners, {})
    && Tracks(groups, owners, h) && Plain(t, h)
  }

  lemma TracksStep(was: map<Key, Group>, owned: map<Path, Key>, groups: map<Key, Group>, owners: map<Path, Key>,
                   h: seq<Arrival>, a: Arrival)
    requires Tracks(was, owned, h)
    requires owners == if a.group.Some? then owned[a.path := a.group.value] else owned - {a.path}
    requires groups.Keys == was.Keys + (if a.group.Some? then {a.group.value} else {})
    requires forall k :: k in groups ==>
               groups[k].node == if a.group == Some(k) && (a.hasData || k !in was) then a.node else was[k].node
    ensures Tracks(groups, owners, h + [a])
  {
    hide GroupNode, GroupOf;
    forall p
      ensures GroupOf(h + [a], p) == if a.path == p then a.group else GroupOf(h, p)
    {
      GroupOfStep(h, a, p);
    }
    forall k
      ensures GroupNode(h + [a], k) ==
              if a.group == Some(k) && (a.hasData || GroupNode(h, k) == None) then Some(a.node) else GroupNode(h, k)
    {
      GroupNodeStep(h, a, k);
    }
  }

  lemma LeadsStep(h: seq<Arrival>, a: Arrival, p: Path)
    requires Leads(h, p) || p <= a.path
    ensures Leads(h + [a], p)
  {
    if p <= a.path {
      assert (h + [a])[|h|] == a;
    } else if p != [] {
      var k :| 0 <= k < |h| && p <= h[k].path;
      assert (h + [a])[k] == h[k];
    }
  }

  lemma PlainStep(t: Tree, u: Tree, owners: map<Path, Key>, h: seq<Arrival>, a: Arrival)
    requires Plain(t, h) && u.Ok() && a.path in u.names && Grown(t, u, a.path)
    requires a.group == None ==> u.At(a.path) == a.node
    requires forall p :: p in owners <==> GroupOf(h, p).Some?
    requires forall p :: p in t.names && p !in owners && p != a.path ==> Same(t, u, p)
    ensures Plain(u, h + [a])
  {
    hide Tree.Ok;
    var g := h + [a];
    forall p
      ensures LastOf(g, p) == if a.path == p then Some(a) else LastOf(h, p)
    {
      LastOfStep(h, a, p);
    }
    forall p | LastOf(g, p).Some? && GroupOf(g, p) == None
      ensures p in u.names && u.names[p] in u.nodes && u.At(p) == LastOf(g, p).value.node
    {
      InNodes(u, a.path);
      assert p != a.path ==> Same(t, u, p);
    }
    forall p | p in u.names && LastOf(g, p) == None
      ensures u.names[p] in u.nodes && u.At(p) == PLAIN_DIR && Leads(g, p)
    {
      if p in t.names {
        assert Same(t, u, p);
      }
      LeadsStep(h, a, p);
    }
  }

  lemma BuildingStart()
    ensures Building(map[], map[], EMPTY, [])
  {
  }

  /** What building keeps makes the tree the one the entries mean. */
  lemma BuildingRestored(groups: map<Key, Group>, owners: map<Path, Key>, t: Tree, h: seq<Arrival>)
    requires Building(groups, owners, t, h)
    ensures Restored(t, h)
  {
    hide LastOf, GroupNode, GroupOf;
    forall p | LastOf(h, p).Some?
      ensures p in t.names && Some(t.At(p)) == Wanted(h, p)
    {
      if GroupOf(h, p).Some? {
        assert p in owners;
      }
    }
    forall p, q | p in t.names && q in t.names && p != q
      ensures t.names[p] == t.names[q] <==> GroupOf(h, p).Some? && GroupOf(h, p) == GroupOf(h, q)
    {
      ApartAt(t, owners, {}, p, q);
    }
  }

  // ------------------------------------------------------------------
  // When an arrival cannot be placed
  // ------------------------------------------------------------------

  /** A name that arrived and holds something other than a directory. */
  predicate Blocks(h: seq<Arrival>, q: Path) {
    LastOf(h, q).Some? && Wanted(h, q).Some? && !Wanted(h, q).value.IsDir()
  }

  /**
   * Why an arrival has no place after the arrivals `h`: a `.` or `..` in its name, something other
   * than a directory on the way to it, or something below it when it is no directory itself.
   */
  ghost function PlaceFault(h: seq<Arrival>, a: Arrival): Option<Fault> {
    if Dotted(a.path) then Some(Fault.InvalidInput)
    else if exists q :: q < a.path && Blocks(h, q) then Some(NotADirectory)
    else if !a.node.IsDir() && exists k :: 0 <= k < |h| && a.path < h[k].path then Some(DirectoryNotEmpty)
    else None
  }

  lemma {:induction false} ArrivedLast(h: seq<Arrival>, k: nat)
    requires k < |h|
    ensures LastOf(h, h[k].path).Some?
    decreases |h|
  {
    if h[|h| - 1].path != h[k].path {
      ArrivedLast(h[..|h| - 1], k);
    }
  }

  lemma BlockedMeans(t: Tree, h: seq<Arrival>, p: Path)
    requires Restored(t, h)
    ensures Blocked(t, p) <==> exists q :: q < p && Blocks(h, q)
  {
    hide LastOf, Wanted;
    if Blocked(t, p) {
      var q :| q in t.names && q < p && !t.At(q).IsDir();
      assert Blocks(h, q);
    }
    if exists q :: q < p && Blocks(h, q) {
      var q :| q < p && Blocks(h, q);
      assert q in t.names && !t.At(q).IsDir();
    }
  }

  lemma BelowMeans(t: Tree, h: seq<Arrival>, p: Path)
    requires Restored(t, h)
    ensures HasBelow(t, p) <==> exists k :: 0 <= k < |h| && p < h[k].path
  {
    hide LastOf, Wanted;
    if HasBelow(t, p) {
      var q :| q in t.names && p < q;
      if LastOf(h, q).Some? {
        var k :| 0 <= k < |h| && h[k] == LastOf(h, q).value;
        assert p < h[k].path;
      } else {
        var k :| 0 <= k < |h| && q <= h[k].path;
        assert p < h[k].path;
      }
    }
    if exists k :: 0 <= k < |h| && p < h[k].path {
      var k :| 0 <= k < |h| && p < h[k].path;
      ArrivedLast(h, k);
      assert h[k].path in t.names;
    }
  }

  /** In the tree of the arrivals, that is why nothing can be put there. */
  lemma FaultMeans(t: Tree, h: seq<Arrival>, a: Arrival)
    requires Restored(t, h) && Arrives(a)
    ensures PutFault(t, a.path, a.node) == PlaceFault(h, a)
  {
    hide Tree.Ok, Dotted, Blocked, HasBelow, Blocks;
    BlockedMeans(t, h, a.path);
    BelowMeans(t, h, a.path);
  }

  /** Places one entry in the tree, or finds that it has no place there. */
  method Place(groups: Groups, t: Tree, a: Arrival, ghost h: seq<Arrival>) returns (r: Result<Tree, Fault>)
    requires Building(groups.groups, groups.owners, t, h) && Arrives(a)
    modifies groups
    ensures match PlaceFault(h, a)
            case None => r.Ok? && Building(groups.groups, groups.owners, r.value, h + [a])
            case Some(fault) => r == Err(fault)
  {
    hide Inverse, Held, Apart, Tracks, Plain, Grown, Tree.Ok, Put, PutFault, PlaceFault, Restored;
    ghost var was, owned := groups.groups, groups.owners;
    BuildingRestored(was, owned, t, h);
    FaultMeans(t, h, a);
    TracksOwners(was, owned, h);
    if a.group == None {
      var u :- groups.Set(t, a.path, a.node);
      r := Ok(u);
    } else {
      var u :- groups.Add(t, a.group.value, a.path, a.node, a.hasData);
      r := Ok(u);
    }
    TracksStep(was, owned, groups.groups, groups.owners, h, a);
    PlainStep(t, r.value, owned, h, a);
  }

  lemma TracksOwners(groups: map<Key, Group>, owners: map<Path, Key>, h: seq<Arrival>)
    requires Tracks(groups, owners, h)
    ensures forall p :: p in owners <==> GroupOf(h, p).Some?
  {
  }

  const CHUNK: nat := 65536

  /** Reads all the data of the open entry, in bounded chunks. */
  method ReadData(reader: Reader) returns (r: Result<seq<byte>, Error>)
    requires reader.Valid() && reader.open && reader.state == Entries
    requires reader.remaining == reader.header.len
    modifies reader, reader.source
    ensures reader.Valid() && reader.failed == (old(reader.failed) || r.Err?)
    ensures r.Ok? ==>
              && reader.state == Entries && reader.open && reader.Rest() == old(reader.Rest())
              && old(reader.Current().dataOffset + reader.Current().header.len) <= |reader.source.data|
              && r.value == Data(reader.source.data, old(reader.Current()))
    ensures r.Err? ==> old(reader.Rest()) == ([], Failed(r.error))
    ensures r.Ok? <==> DataFault(reader.source.data, old(reader.Current())) == None
  {
    hide Segment, After, StepCut, StepOwes, HeadCut, HeadOwes, CpioHeader.Checksum, DataPadding;
    ghost var s, e := reader.source.data, reader.Current();
    var data: seq<byte> := [];
    while |data| < reader.header.len
      invariant reader.Valid() && reader.open && reader.state == Entries && reader.Current() == e
      invariant reader.Rest() == old(reader.Rest()) && reader.failed == old(reader.failed)
      invariant reader.remaining == e.header.len - |data|
      invariant e.dataOffset + |data| == reader.source.pos && data == s[e.dataOffset..reader.source.pos]
      decreases e.header.len - |data|
    {
      var left := reader.header.len - |data|;
      var chunk :- reader.Read(if left < CHUNK then left else CHUNK);
      data := data + chunk;
    }
    r := Ok(data);
  }

  datatype TreeError =
    | Reading(error: Error)
    | Placing(name: seq<byte>, fault: Fault)

  /** Reads one entry's node; only files and links have their data read. */
  method ReadNode(reader: Reader) returns (r: Result<Node, Error>)
    requires reader.Valid() && reader.open && reader.state == Entries
    requires reader.remaining == reader.header.len
    modifies reader, reader.source
    ensures reader.Valid() && reader.failed == (old(reader.failed) || r.Err?)
    ensures r.Ok? ==>
              && reader.state == Entries && reader.open && reader.Rest() == old(reader.Rest())
              && NodeOf(reader.source.data, old(reader.Current())) == Some(r.value)
    ensures r.Err? ==> old(reader.Rest()) == ([], Failed(r.error))
    ensures r.Ok? <==> Loads(reader.source.data, old(reader.Current()))
  {
    hide DataFault, Segment, After;
    var h := reader.header;
    match FileTypeOf(h) {
      case File =>
        var data :- ReadData(reader);
        r := Ok(Node(FileNode(InMemory(data)), AttrsOf(h)));
      case Symlink =>
        var data :- ReadData(reader);
        r := Ok(Node(SymlinkNode(data), AttrsOf(h)));
      case Dir => r := Ok(Node(DirNode, AttrsOf(h)));
      case CharDevice => r := Ok(Node(SpecialNode(CharDevice, Some(h.rdev)), AttrsOf(h)));
      case BlockDevice => r := Ok(Node(SpecialNode(BlockDevice, Some(h.rdev)), AttrsOf(h)));
      case Fifo => r := Ok(Node(SpecialNode(Fifo, None), AttrsOf(h)));
      case Socket => r := Ok(Node(SpecialNode(Socket, None), AttrsOf(h)));
    }
  }

  /** The next entry with its node. */
  method NextNode(reader: Reader) returns (r: Result<Option<(EntryInfo, Node)>, Error>)
    requires reader.Valid() && reader.state == Entries
    modifies reader, reader.source
    ensures reader.Valid()
    ensures var (es, stop) := old(reader.Rest());
            match r
            case Err(error) =>
              stop == Failed(error) && (es == [] || (|es| == 1 && !Loads(reader.source.data, es[0])))
            case Ok(None) => es == [] && !stop.Failed?
            case Ok(Some((e, node))) =>
              && es != [] && e == es[0] && NodeOf(reader.source.data, e) == Some(node) && Loads(reader.source.data, e)
              && reader.state == Entries && reader.Rest() == (es[1..], stop)
  {
    hide Segment, After, NodeOf, Loads;
    var next :- reader.NextEntry();
    if next == None {
      return Ok(None);
    }
    var node :- ReadNode(reader);
    r := Ok(Some((next.value, node)));
  }

  /** Whether the data of an entry that has its data loaded is sound. */
  predicate Loads(s: seq<byte>, e: EntryInfo) {
    FileTypeOf(e.header) in {File, Symlink} ==> DataFault(s, e) == None
  }

  /** Whether every one of these entries brings something. */
  predicate AllArrive(s: seq<byte>, es: seq<EntryInfo>) {
    forall k :: 0 <= k < |es| ==> ArrivalOf(s, es[k]).Some?
  }

  /** Why an entry that comes after `done` cannot be placed. Only a directory can be the root. */
  ghost function EntryFault(s: seq<byte>, done: seq<EntryInfo>, e: EntryInfo): Option<Fault>
    requires AllArrive(s, done)
  {
    if ArrivalOf(s, e) == None then Some(Fault.InvalidInput)
    else PlaceFault(Arrivals(s, done), ArrivalOf(s, e).value)
  }

  /** Whether every one of these entries can be placed after those before it. */
  ghost predicate AllPlaced(s: seq<byte>, es: seq<EntryInfo>) {
    AllArrive(s, es) && forall k :: 0 <= k < |es| ==> EntryFault(s, es[..k], es[k]) == None
  }

  /** Whether entry `k`, its data loaded, is the first that cannot be placed, and for this reason. */
  ghost predicate StopsAt(s: seq<byte>, es: seq<EntryInfo>, k: nat, fault: Fault)
    requires k < |es|
  {
    AllPlaced(s, es[..k]) && Loads(s, es[k]) && EntryFault(s, es[..k], es[k]) == Some(fault)
  }

  /** Whether every entry can be placed, but perhaps a last one whose data cannot be loaded. */
  ghost predicate AllButLast(s: seq<byte>, es: seq<EntryInfo>) {
    AllPlaced(s, es) || (es != [] && AllPlaced(s, es[..|es| - 1]) && !Loads(s, es[|es| - 1]))
  }

  /**
   * What reading a segment into a tree must give: the tree its entries mean, the first entry that
   * cannot be placed, or, when there is none, the segment's own fault.
   */
  ghost predicate Outcome(s: seq<byte>, segment: (seq<EntryInfo>, Stop), r: Result<Tree, TreeError>) {
    var (es, stop) := segment;
    match r
    case Ok(tree) => !stop.Failed? && AllPlaced(s, es) && Restored(tree, Arrivals(s, es))
    case Err(Reading(error)) => stop == Failed(error) && AllButLast(s, es)
    case Err(Placing(name, fault)) => exists k :: 0 <= k < |es| && es[k].path == name && StopsAt(s, es, k, fault)
  }

  lemma PlacingOutcome(s: seq<byte>, segment: (seq<EntryInfo>, Stop), k: nat, fault: Fault)
    requires k < |segment.0| && StopsAt(s, segment.0, k, fault)
    ensures Outcome(s, segment, Err(Placing(segment.0[k].path, fault)))
  {
  }

  lemma ReadingOutcome(s: seq<byte>, segment: (seq<EntryInfo>, Stop), error: Error)
    requires segment.1 == Failed(error) && AllButLast(s, segment.0)
    ensures Outcome(s, segment, Err(Reading(error)))
  {
  }

  lemma TreeOutcome(s: seq<byte>, segment: (seq<EntryInfo>, Stop), tree: Tree)
    requires !segment.1.Failed? && AllPlaced(s, segment.0) && Restored(tree, Arrivals(s, segment.0))
    ensures Outcome(s, segment, Ok(tree))
  {
  }

  /** Entries placed before an entry that cannot be. */
  lemma PlacedBefore(s: seq<byte>, es: seq<EntryInfo>, n: nat, k: nat)
    requires k < n <= |es| && AllPlaced(s, es[..n])
    ensures AllArrive(s, es[..k]) && EntryFault(s, es[..k], es[k]) == None
  {
    assert es[..n][..k] == es[..k] && es[..n][k] == es[k];
    assert EntryFault(s, es[..n][..k], es[..n][k]) == None;
  }

  /** A segment has one outcome: the same error, or the tree its entries mean. */
  lemma OneOutcome(s: seq<byte>, segment: (seq<EntryInfo>, Stop), a: Result<Tree, TreeError>, b: Result<Tree, TreeError>)
    requires Outcome(s, segment, a) && Outcome(s, segment, b)
    ensures a.Ok? <==> b.Ok?
    ensures a.Err? ==> a == b
  {
    hide AllPlaced, Loads, EntryFault, Restored;
    var es := segment.0;
    if a.Err? && a.error.Placing? {
      PlacingOnly(s, segment, a, b);
    } else if b.Err? && b.error.Placing? {
      PlacingOnly(s, segment, b, a);
    }
  }

  lemma PlacingOnly(s: seq<byte>, segment: (seq<EntryInfo>, Stop), a: Result<Tree, TreeError>, b: Result<Tree, TreeError>)
    requires Outcome(s, segment, a) && Outcome(s, segment, b) && a.Err? && a.error.Placing?
    ensures a == b
  {
    hide AllPlaced, Loads, EntryFault, Restored;
    var es := segment.0;
    var k :| 0 <= k < |es| && es[k].path == a.error.name && StopsAt(s, es, k, a.error.fault);
    assert es[..|es|] == es;
    match b {
      case Ok(_) => PlacedBefore(s, es, |es|, k);
      case Err(Reading(_)) =>
        if AllPlaced(s, es) {
          PlacedBefore(s, es, |es|, k);
        } else if k < |es| - 1 {
          PlacedBefore(s, es, |es| - 1, k);
        }
      case Err(Placing(name, fault)) =>
        var j :| 0 <= j < |es| && es[j].path == name && StopsAt(s, es, j, fault);
        if j < k {
          PlacedBefore(s, es, k, j);
        } else if k < j {
          PlacedBefore(s, es, j, k);
        }
    }
  }

  lemma ArrivalsStep(s: seq<byte>, es: seq<EntryInfo>, e: EntryInfo)
    requires AllArrive(s, es) && ArrivalOf(s, e).Some?
    ensures AllArrive(s, es + [e]) && Arrivals(s, es + [e]) == Arrivals(s, es) + [ArrivalOf(s, e).value]
  {
    hide ArrivalOf;
  }

  lemma PlacedStep(s: seq<byte>, es: seq<EntryInfo>, e: EntryInfo)
    requires AllPlaced(s, es) && EntryFault(s, es, e) == None
    ensures AllPlaced(s, es + [e])
  {
    hide EntryFault;
    assert ArrivalOf(s, e).Some? by { NoFaultArrives(s, es, e); }
    ArrivalsStep(s, es, e);
    var all := es + [e];
    forall k | 0 <= k < |all|
      ensures EntryFault(s, all[..k], all[k]) == None
    {
      assert all[..k] == es[..k];
      assert k == |es| ==> es[..k] == es;
    }
  }

  lemma NoFaultArrives(s: seq<byte>, es: seq<EntryInfo>, e: EntryInfo)
    requires AllArrive(s, es) && EntryFault(s, es, e) == None
    ensures ArrivalOf(s, e).Some?
  {
  }

  /** Places entry `e`, which follows the entries `done`. */
  method PlaceEntry(groups: Groups, t: Tree, e: EntryInfo, node: Node, ghost s: seq<byte>, ghost done: seq<EntryInfo>)
    returns (r: Result<Tree, Fault>)
    requires AllArrive(s, done) && NodeOf(s, e) == Some(node)
    requires Building(groups.groups, groups.owners, t, Arrivals(s, done))
    modifies groups
    ensures match EntryFault(s, done, e)
            case None =>
              && r.Ok? && AllArrive(s, done + [e])
              && Building(groups.groups, groups.owners, r.value, Arrivals(s, done + [e]))
            case Some(fault) => r == Err(fault)
  {
    hide Building, Normalize, NodeOf, ArrivalFrom, PlaceFault;
    var a := ArrivalFrom(e, node);
    if a == None {
      return Err(Fault.InvalidInput);
    }
    ArrivalsStep(s, done, e);
    r := Place(groups, t, a.value, Arrivals(s, done));
  }

  /** Reads the next entry and places it; without one, the tree is whole. */
  method ReadNext(reader: Reader, groups: Groups, tree: Tree, ghost whole: (seq<EntryInfo>, Stop),
                  ghost done: seq<EntryInfo>)
    returns (r: Result<Option<Tree>, TreeError>, ghost more: seq<EntryInfo>)
    requires reader.Valid() && reader.state == Entries && Progress(whole, done, reader.Rest())
    requires AllPlaced(reader.source.data, done)
    requires Building(groups.groups, groups.owners, tree, Arrivals(reader.source.data, done))
    modifies reader, reader.source, groups
    ensures reader.Valid()
    ensures match r
            case Err(error) => Outcome(reader.source.data, whole, Err(error))
            case Ok(None) => Outcome(reader.source.data, whole, Ok(tree))
            case Ok(Some(next)) =>
              && reader.state == Entries && Progress(whole, more, reader.Rest())
              && |reader.Rest().0| < |old(reader.Rest().0)| && AllPlaced(reader.source.data, more)
              && Building(groups.groups, groups.owners, next, Arrivals(reader.source.data, more))
  {
    hide Segment, After, Building, Restored, NodeOf, ArrivalOf, Progress, AllPlaced, EntryFault, Loads, AllButLast,
         StopsAt, Outcome, Reader.Rest;
    more := done;
    ghost var s, rest := reader.source.data, reader.Rest();
    ProgressEnd(whole, done, rest);
    PlacedArrive(s, done);
    var read := NextNode(reader);
    if read.Err? {
      PlacedBut(s, whole, done, rest);
      ReadingOutcome(s, whole, read.error);
      return Err(Reading(read.error)), done;
    }
    if read.value == None {
      BuildingRestored(groups.groups, groups.owners, tree, Arrivals(s, done));
      TreeOutcome(s, whole, tree);
      return Ok(None), done;
    }
    var (e, node) := read.value.value;
    ProgressStep(whole, done, rest);
    var placed := PlaceEntry(groups, tree, e, node, s, done);
    if placed.Err? {
      PlacingOutcome(s, whole, |done|, placed.error);
      return Err(Placing(e.path, placed.error)), done;
    }
    PlacedStep(s, done, e);
    more := done + [e];
    r := Ok(Some(placed.value));
  }

  /**
   * Reads one segment into a tree. The tree is the one the segment's entries mean, however the
   * stream splits its answers; a faulty segment gives its fault and no tree.
   */
  method ReadTree(reader: Reader) returns (r: Result<Tree, TreeError>)
    requires reader.Valid() && reader.state == Entries && !reader.open && reader.Cursor() <= |reader.source.data|
    modifies reader, reader.source
    ensures reader.Valid()
    ensures Outcome(reader.source.data, old(Segment(reader.source.data, reader.Cursor(), reader.options)), r)
  {
    hide Segment, After, Building, EMPTY, Progress, AllPlaced, Outcome;
    ghost var s, whole := reader.source.data, reader.Rest();
    ghost var done: seq<EntryInfo> := [];
    var groups := new Groups();
    var tree := EMPTY;
    BuildingStart();
    NonePlaced(s);
    ProgressStart(whole);
    while true
      invariant reader.Valid() && reader.state == Entries && fresh(groups)
      invariant Progress(whole, done, reader.Rest()) && AllPlaced(s, done) && AllArrive(s, done)
      invariant Building(groups.groups, groups.owners, tree, Arrivals(s, done))
      decreases |reader.Rest().0|
    {
      var next;
      next, done := ReadNext(reader, groups, tree, whole, done);
      if next.Err? {
        return Err(next.error);
      }
      if next.value == None {
        return Ok(tree);
      }
      tree := next.value.value;
      PlacedArrive(s, done);
    }
  }

  lemma PlacedArrive(s: seq<byte>, es: seq<EntryInfo>)
    requires AllPlaced(s, es)
    ensures AllArrive(s, es)
  {
  }

  lemma NonePlaced(s: seq<byte>)
    ensures AllPlaced(s, []) && Arrivals(s, []) == []
  {
  }

  /** At a fault of the segment everything but a last entry that does not load is placed. */
  lemma PlacedBut(s: seq<byte>, whole: (seq<EntryInfo>, Stop), done: seq<EntryInfo>, rest: (seq<EntryInfo>, Stop))
    requires Progress(whole, done, rest) && AllPlaced(s, done)
    requires rest.0 == [] || (|rest.0| == 1 && !Loads(s, rest.0[0]))
    ensures AllButLast(s, whole.0)
  {
    hide AllPlaced, Loads;
    if rest.0 == [] {
      assert done + rest.0 == done;
    } else {
      assert (done + rest.0)[..|done|] == done;
    }
  }
}

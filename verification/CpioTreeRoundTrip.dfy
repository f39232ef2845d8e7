/**
 * Writing a tree and reading it back: the same names, the same nodes as far as an archive stores
 * them, and the same hard links.
 */
module CpioTreeRoundTrip {
  import opened Wrappers
  import opened Bytes
  import opened CpioHeader
  import opened CpioRaw
  import opened CpioBuild
  import opened Instants
  import opened Nodes
  import opened CpioRoundTrip
  import opened CpioTree
  import opened NameTree
  import G = CpioGroups
  import opened R = CpioReadTree
  import P = CpioParse
  import CpioReader

  // ------------------------------------------------------------------
  // The places of a tree by their components
  // ------------------------------------------------------------------

  /** A place with the components that lead to it. */
  datatype Spot = Spot(path: Path, place: Place)

  function Spots(cs: Path, place: Place): (l: seq<Spot>)
    ensures l != [] && l[0] == Spot(cs, place)
    decreases place
  {
    [Spot(cs, place)] + SpotsAll(cs, place.children)
  }

  function SpotsAll(cs: Path, children: seq<Child>): seq<Spot>
    decreases children
  {
    if children == [] then []
    else Spots(cs + [children[0].name], children[0].place) + SpotsAll(cs, children[1..])
  }

  /** A name a tree may hold. */
  predicate GoodName(name: seq<byte>) {
    Component(name) && name != [DOT] && name != [DOT, DOT]
  }

  predicate GoodNames(path: Path) {
    forall c :: c in path ==> GoodName(c)
  }

  /** What a tree guarantees of a place: only directories have children, and their names differ. */
  predicate Good(place: Place)
    decreases place
  {
    && place.node.Checked() && (place.children != [] ==> place.node.IsDir())
    && (forall c <- place.children :: GoodName(c.name) && Good(c.place))
    && DistinctNames(place.children)
  }

  predicate DistinctNames(children: seq<Child>) {
    forall i, j :: 0 <= i < j < |children| ==> children[i].name != children[j].name
  }

  predicate AllGood(children: seq<Child>) {
    DistinctNames(children) && forall c <- children :: GoodName(c.name) && Good(c.place)
  }

  /** Distinct paths below `cs`, closed under prefixes, with directories above others only. */
  ghost predicate Treelike(l: seq<Spot>, cs: Path) {
    && (forall i :: 0 <= i < |l| ==> cs < l[i].path && GoodNames(l[i].path[|cs|..]) && l[i].place.node.Checked())
    && (forall i, j :: 0 <= i < j < |l| ==> l[i].path != l[j].path)
    && (forall i, j :: 0 <= i < |l| && 0 <= j < |l| && l[i].path < l[j].path ==> l[i].place.node.IsDir())
    && (forall i, q :: 0 <= i < |l| && cs < q <= l[i].path ==> Has(l, q))
  }

  predicate Has(l: seq<Spot>, q: Path) {
    exists i :: 0 <= i < |l| && l[i].path == q
  }

  /** The first components below `cs` are names of these children. */
  predicate Under(l: seq<Spot>, cs: Path, children: seq<Child>) {
    forall i :: 0 <= i < |l| ==> |l[i].path| > |cs| && exists c <- children :: c.name == l[i].path[|cs|]
  }

  lemma {:induction false} SpotsTreelike(cs: Path, children: seq<Child>)
    requires AllGood(children)
    ensures Treelike(SpotsAll(cs, children), cs) && Under(SpotsAll(cs, children), cs, children)
    decreases children
  {
    if children != [] {
      var c, rest := children[0], children[1..];
      assert c in children && forall d <- rest :: d in children;
      var below := cs + [c.name];
      SpotsTreelike(below, c.place.children);
      SpotsTreelike(cs, rest);
      var a, b := Spots(below, c.place), SpotsAll(cs, rest);
      FirstTreelike(cs, c);
      BeginsBelow(Spot(below, c.place), SpotsAll(below, c.place.children), cs, c.name);
      BothTreelike(a, b, cs, c.name, rest);
      UnderBoth(a, b, cs, children);
    }
  }

  /** A child and what is below it. */
  lemma FirstTreelike(cs: Path, c: Child)
    requires GoodName(c.name) && c.place.node.Checked() && (c.place.children != [] ==> c.place.node.IsDir())
    requires Treelike(SpotsAll(cs + [c.name], c.place.children), cs + [c.name])
    ensures Treelike(Spots(cs + [c.name], c.place), cs)
  {
    hide Treelike, Has;
    var below := cs + [c.name];
    var top, inner := Spot(below, c.place), SpotsAll(below, c.place.children);
    PathsBelow(top, inner, cs, c.name);
    ClosedBelow(top, inner, cs, c.name);
    PathsOnly(inner, below);
    TreelikeIntro([top] + inner, cs);
  }

  /** What the paths of `l` are, apart from being closed under prefixes. */
  ghost predicate PathsGood(l: seq<Spot>, cs: Path) {
    && (forall i :: 0 <= i < |l| ==> cs < l[i].path && GoodNames(l[i].path[|cs|..]) && l[i].place.node.Checked())
    && (forall i, j :: 0 <= i < j < |l| ==> l[i].path != l[j].path)
    && (forall i, j :: 0 <= i < |l| && 0 <= j < |l| && l[i].path < l[j].path ==> l[i].place.node.IsDir())
  }

  lemma PathsOnly(l: seq<Spot>, cs: Path)
    requires Treelike(l, cs)
    ensures PathsGood(l, cs)
  {
  }

  lemma TreelikeIntro(l: seq<Spot>, cs: Path)
    requires PathsGood(l, cs) && forall i, q :: 0 <= i < |l| && cs < q <= l[i].path ==> Has(l, q)
    ensures Treelike(l, cs)
  {
  }

  lemma PathsBelow(top: Spot, inner: seq<Spot>, cs: Path, name: seq<byte>)
    requires top.path == cs + [name] && GoodName(name) && top.place.node.Checked()
    requires Treelike(inner, top.path) && (inner != [] ==> top.place.node.IsDir())
    ensures PathsGood([top] + inner, cs)
  {
    hide Has;
    var l := [top] + inner;
    forall i | 0 <= i < |inner|
      ensures cs < inner[i].path && GoodNames(inner[i].path[|cs|..])
    {
      var p := inner[i].path;
      assert p[|cs|] == name;
      assert p[|cs|..] == [name] + p[|cs| + 1..];
    }
    assert top.path[|cs|..] == [name];
  }

  lemma ClosedBelow(top: Spot, inner: seq<Spot>, cs: Path, name: seq<byte>)
    requires top.path == cs + [name] && Treelike(inner, top.path)
    ensures var l := [top] + inner; forall i, q :: 0 <= i < |l| && cs < q <= l[i].path ==> Has(l, q)
  {
    var l := [top] + inner;
    forall i, q | 0 <= i < |l| && cs < q <= l[i].path
      ensures Has(l, q)
    {
      if |q| == |top.path| {
        assert top.path <= l[i].path;
        assert q == l[i].path[..|q|] == top.path;
        assert l[0].path == q;
      } else {
        assert l[i] == inner[i - 1];
        assert top.path < q;
        assert Has(inner, q);
        var k :| 0 <= k < |inner| && inner[k].path == q;
        assert l[k + 1].path == q;
      }
    }
  }

  predicate Begins(l: seq<Spot>, cs: Path, name: seq<byte>) {
    forall i :: 0 <= i < |l| ==> |l[i].path| > |cs| && l[i].path[|cs|] == name
  }

  lemma BeginsBelow(top: Spot, inner: seq<Spot>, cs: Path, name: seq<byte>)
    requires top.path == cs + [name] && Treelike(inner, top.path)
    ensures Begins([top] + inner, cs, name)
  {
    hide Has;
    forall i | 0 <= i < |inner|
      ensures |inner[i].path| > |cs| && inner[i].path[|cs|] == name
    {
      assert inner[i].path[|cs|] == top.path[|cs|];
    }
  }

  /** Two lists whose paths part at the component after `cs`. */
  lemma BothTreelike(a: seq<Spot>, b: seq<Spot>, cs: Path, name: seq<byte>, rest: seq<Child>)
    requires Treelike(a, cs) && Treelike(b, cs) && Under(b, cs, rest)
    requires Begins(a, cs, name)
    requires forall c <- rest :: c.name != name
    ensures Treelike(a + b, cs)
  {
    var l := a + b;
    forall i, j | 0 <= i < |a| && |a| <= j < |l|
      ensures l[i].path[|cs|] == name && l[j].path[|cs|] != name
    {
      assert l[i] == a[i] && l[j] == b[j - |a|];
    }
    forall i, q | 0 <= i < |l| && cs < q <= l[i].path
      ensures Has(l, q)
    {
      if i < |a| {
        assert Has(a, q);
        var k :| 0 <= k < |a| && a[k].path == q;
        assert l[k].path == q;
      } else {
        assert l[i] == b[i - |a|];
        assert Has(b, q);
        var k :| 0 <= k < |b| && b[k].path == q;
        assert l[k + |a|].path == q;
      }
    }
  }

  lemma UnderBoth(a: seq<Spot>, b: seq<Spot>, cs: Path, children: seq<Child>)
    requires children != [] && Under(b, cs, children[1..])
    requires Begins(a, cs, children[0].name)
    ensures Under(a + b, cs, children)
  {
    forall i | 0 <= i < |a + b|
      ensures |(a + b)[i].path| > |cs| && exists c <- children :: c.name == (a + b)[i].path[|cs|]
    {
      if i < |a| {
        assert (a + b)[i] == a[i] && children[0] in children;
      } else {
        var c :| c in children[1..] && c.name == b[i - |a|].path[|cs|];
        assert c in children;
      }
    }
  }

  // ------------------------------------------------------------------
  // Stored names
  // ------------------------------------------------------------------

  lemma {:induction false} JoinSnoc(cs: Path, name: seq<byte>)
    requires forall c :: c in cs ==> Component(c)
    ensures Join(cs + [name]) == ChildPath(Join(cs), name) && (cs != [] ==> Join(cs) != [])
    decreases |cs|
  {
    if cs == [] {
      assert cs + [name] == [name];
    } else {
      assert Component(cs[0]);
      if |cs| == 1 {
        assert (cs + [name])[1..] == [name];
      } else {
        assert (cs + [name])[1..] == cs[1..] + [name];
        JoinSnoc(cs[1..], name);
      }
    }
  }

  /** A spot's stored name is the listed one. */
  predicate Matches(l: seq<Named>, spots: seq<Spot>) {
    |l| == |spots| && forall i :: 0 <= i < |l| ==> l[i].path == Join(spots[i].path) && l[i].place == spots[i].place
  }

  lemma {:induction false} ListedSpots(cs: Path, children: seq<Child>)
    requires AllGood(children) && GoodNames(cs)
    ensures Matches(PreorderAll(Join(cs), children), SpotsAll(cs, children))
    decreases children
  {
    hide Join, Node.Checked, Matches;
    if children == [] {
      NoneMatch();
    } else {
      var c := children[0];
      assert c in children && forall d <- children[1..] :: d in children;
      JoinSnoc(cs, c.name);
      ListedSpots(cs + [c.name], c.place.children);
      ListedSpots(cs, children[1..]);
      OneMatches(cs + [c.name], c.place);
      MatchesBoth([Named(Join(cs + [c.name]), c.place)], [Spot(cs + [c.name], c.place)],
                  PreorderAll(Join(cs + [c.name]), c.place.children), SpotsAll(cs + [c.name], c.place.children));
      MatchesBoth(Preorder(Join(cs + [c.name]), c.place), Spots(cs + [c.name], c.place),
                  PreorderAll(Join(cs), children[1..]), SpotsAll(cs, children[1..]));
    }
  }

  lemma NoneMatch()
    ensures Matches([], [])
  {
  }

  lemma OneMatches(path: Path, place: Place)
    ensures Matches([Named(Join(path), place)], [Spot(path, place)])
  {
  }

  lemma MatchesBoth(l: seq<Named>, spots: seq<Spot>, m: seq<Named>, more: seq<Spot>)
    requires Matches(l, spots) && Matches(m, more)
    ensures Matches(l + m, spots + more)
  {
  }

  /** The names of a tree, and the spots they stand for. */
  lemma ListingSpots(root: Place)
    requires Good(root)
    ensures Matches(Listing(root), SpotsAll([], root.children)) && Treelike(SpotsAll([], root.children), [])
    ensures NamesGiven(root)
  {
    ListedSpots([], root.children);
    SpotsTreelike([], root.children);
    GoodGiven(root);
  }

  lemma {:induction false} GoodGiven(place: Place)
    requires Good(place)
    ensures NamesGiven(place)
    decreases place
  {
    forall c | c in place.children
      ensures c.name != [] && NamesGiven(c.place)
    {
      GoodGiven(c.place);
    }
  }

  // ------------------------------------------------------------------
  // What comes back
  // ------------------------------------------------------------------

  /** All of a node's metadata, with the defaults of its type and a time the format stores. */
  function StoredAttrs(options: CpioOptions, node: Node): Attrs {
    Attrs(None, None, Some(DateTime(ClampedTime(options, node.attrs), 0, None)),
          Some(if node.attrs.permissions.Some? then node.attrs.permissions.value else DefaultMode(node.Type())),
          Some(if node.attrs.owner.Some? then node.attrs.owner.value else (0, 0)),
          None)
  }

  /** A node as far as an archive stores it, with this data. */
  function Loaded(options: CpioOptions, node: Node, data: seq<byte>): Node {
    Node(match node.kind
         case FileNode(_) => FileNode(InMemory(data))
         case SymlinkNode(_) => SymlinkNode(data)
         case other => other,
         StoredAttrs(options, node))
  }

  function Stored(options: CpioOptions, node: Node): Node {
    Loaded(options, node, node.Payload())
  }

  /** What name `i` of a listing must arrive as. */
  function ArrivalFor(options: CpioOptions, l: seq<Named>, i: nat, path: Path): Arrival
    requires i < |l|
  {
    Arrival(path, Loaded(options, l[i].place.node, PlanData(options, l, i)),
            if Grouped(l[i]) then Some(G.Key(0, 0, Ino(l, i))) else None,
            Grouped(l[i]) && PlanData(options, l, i) != [])
  }

  lemma {:induction false} ShownAt(s: seq<byte>, es: seq<P.EntryInfo>, format: Format, items: seq<Item>, k: nat)
    requires AllShown(s, es, format, items) && k < |items|
    ensures |es| == |items| && Shown(s, es[k], format, items[k])
    decreases |items|
  {
    hide Shown;
    SameCount(s, es, format, items);
    if k > 0 {
      ShownAt(s, es[1..], format, items[1..], k - 1);
    }
  }

  lemma {:induction false} SameCount(s: seq<byte>, es: seq<P.EntryInfo>, format: Format, items: seq<Item>)
    requires AllShown(s, es, format, items)
    ensures |es| == |items|
    decreases |items|
  {
    hide Shown;
    if items != [] {
      SameCount(s, es[1..], format, items[1..]);
    }
  }

  lemma ModeParts(t: FileType, attrs: Attrs)
    ensures TypeOf(Mode(t, attrs)) == Some(t)
    ensures Mode(t, attrs) % 4096 == if attrs.permissions.Some? then attrs.permissions.value else DefaultMode(t)
  {
    var perm: nat := if attrs.permissions.Some? then attrs.permissions.value else DefaultMode(t);
    assert (TypeCode(t) * 4096 + perm) % 4096 == perm;
  }

  /** The fields a name is planned with, as the reader's node and group need them. */
  lemma PlannedParts(options: CpioOptions, l: seq<Named>, i: nat)
    requires i < |l| && Planable(options, l, i) && l[i].place.node.Checked()
    ensures var f, node := PlanFields(options, l, i).value, l[i].place.node;
            && TypeOf(f.mode) == Some(node.Type())
            && Attrs(None, None, Some(DateTime(f.mtime, 0, None)), Some(f.mode % 4096), Some((f.uid, f.gid)), None)
               == StoredAttrs(options, node)
            && f.ino == Ino(l, i) && (f.nlink >= 2 && node.IsFile() <==> Grouped(l[i]))
            && (node.kind.SpecialNode? && node.kind.device.Some? ==> f.rdev == node.kind.device.value)
            && f.len == |PlanData(options, l, i)|
  {
    hide Ino, Encodes, Carries, PlanData, Mode, ClampedTime, DefaultMode, TypeOf;
    ModeParts(l[i].place.node.Type(), l[i].place.node.attrs);
  }

  /** A planned entry that is shown brings what its name must arrive as. */
  lemma Arriving(options: CpioOptions, l: seq<Named>, i: nat, s: seq<byte>, e: P.EntryInfo, path: Path)
    requires i < |l| && Planable(options, l, i) && l[i].place.node.Checked()
    requires Shown(s, e, options.format, PlanItem(options, l, i))
    requires Normalize(l[i].path) == path != []
    ensures ArrivalOf(s, e) == Some(ArrivalFor(options, l, i, path))
  {
    hide Ino, Encodes, Carries, PlanData, PlanFields, Normalize, TypeOf, StoredAttrs, Grouped;
    PlannedParts(options, l, i);
    var f, node := PlanFields(options, l, i).value, l[i].place.node;
    FinishedParts(options, l, i);
    assert R.NodeOf(s, e) == Some(Loaded(options, node, PlanData(options, l, i)));
  }

  lemma FinishedParts(options: CpioOptions, l: seq<Named>, i: nat)
    requires i < |l| && Planable(options, l, i)
    ensures var item, f := PlanItem(options, l, i), PlanFields(options, l, i).value;
            && item.path == l[i].path && item.data == PlanData(options, l, i)
            && item.fields.mode == f.mode && item.fields.mtime == f.mtime && item.fields.uid == f.uid
            && item.fields.gid == f.gid && item.fields.ino == f.ino && item.fields.nlink == f.nlink
            && item.fields.rdev == f.rdev && item.fields.len == f.len
  {
    hide PlanFields, Encodes, PlanData;
  }

  // ------------------------------------------------------------------
  // The arrivals of a whole tree
  // ------------------------------------------------------------------

  /** The arrivals of a listing, each under the path of its spot. */
  ghost predicate Brought(options: CpioOptions, l: seq<Named>, spots: seq<Spot>, h: seq<Arrival>) {
    && |h| == |l| == |spots| && Treelike(spots, []) && Linked(l)
    && (forall i :: 0 <= i < |l| ==> l[i].place == spots[i].place)
    && forall i :: 0 <= i < |l| ==> h[i] == ArrivalFor(options, l, i, spots[i].path)
  }

  lemma BroughtAt(options: CpioOptions, l: seq<Named>, spots: seq<Spot>, h: seq<Arrival>, i: nat)
    requires Brought(options, l, spots, h) && i < |l|
    ensures h[i] == ArrivalFor(options, l, i, spots[i].path) && l[i].place == spots[i].place
    ensures h[i].path == spots[i].path != [] && GoodNames(spots[i].path) && spots[i].place.node.Checked()
  {
    assert [] < spots[i].path && spots[i].path[0..] == spots[i].path;
  }

  /** Paths differ, so each name arrives once. */
  lemma ArrivesOnce(options: CpioOptions, l: seq<Named>, spots: seq<Spot>, h: seq<Arrival>, n: nat, p: Path)
    requires Brought(options, l, spots, h) && n <= |h|
    ensures LastOf(h[..n], p).Some? <==> exists i :: 0 <= i < n && spots[i].path == p
    ensures forall i :: 0 <= i < n && spots[i].path == p ==> LastOf(h[..n], p) == Some(h[i])
  {
    hide Treelike, ArrivalFor, LastOf;
    if LastOf(h[..n], p).Some? {
      var i :| 0 <= i < n && h[..n][i] == LastOf(h[..n], p).value;
      BroughtAt(options, l, spots, h, i);
      assert spots[i].path == p;
    }
    forall i | 0 <= i < n && spots[i].path == p
      ensures LastOf(h[..n], p) == Some(h[i])
    {
      BroughtAt(options, l, spots, h, i);
      ArrivedLast(h[..n], i);
      var j :| 0 <= j < n && h[..n][j] == LastOf(h[..n], p).value;
      BroughtAt(options, l, spots, h, j);
      PathsApart(spots, i, j);
    }
  }

  lemma PathsApart(spots: seq<Spot>, i: nat, j: nat)
    requires Treelike(spots, []) && i < |spots| && j < |spots| && spots[i].path == spots[j].path
    ensures i == j
  {
  }

  lemma Inner(spots: seq<Spot>, i: nat, j: nat)
    requires Treelike(spots, []) && i < |spots| && j < |spots| && spots[i].path < spots[j].path
    ensures spots[i].place.node.IsDir()
  {
  }

  /** Nothing keeps a name of a tree from its place. */
  lemma Placeable(options: CpioOptions, l: seq<Named>, spots: seq<Spot>, h: seq<Arrival>, n: nat)
    requires Brought(options, l, spots, h) && n < |h|
    ensures PlaceFault(h[..n], h[n]) == None
  {
    hide Brought, ArrivalFor, GroupNode, LastOf, Treelike;
    TreelikeOf(options, l, spots, h);
    BroughtAt(options, l, spots, h, n);
    LoadedKind(options, l, n, spots[n].path);
    NotDotted(spots[n].path);
    forall q | q < h[n].path
      ensures !Blocks(h[..n], q)
    {
      NoBlock(options, l, spots, h, n, q);
    }
    if !h[n].node.IsDir() {
      forall k | 0 <= k < n && h[n].path < h[..n][k].path
        ensures false
      {
        BroughtAt(options, l, spots, h, k);
        Inner(spots, n, k);
      }
    }
  }

  lemma TreelikeOf(options: CpioOptions, l: seq<Named>, spots: seq<Spot>, h: seq<Arrival>)
    requires Brought(options, l, spots, h)
    ensures Treelike(spots, []) && |spots| == |h| == |l| && Linked(l)
  {
  }

  lemma LoadedKind(options: CpioOptions, l: seq<Named>, i: nat, path: Path)
    requires i < |l|
    ensures var a := ArrivalFor(options, l, i, path);
            a.path == path && (a.node.IsDir() <==> l[i].place.node.IsDir()) && (a.node.IsDir() ==> a.group == None)
  {
  }

  lemma NotDotted(path: Path)
    requires GoodNames(path)
    ensures !Dotted(path)
  {
  }

  lemma NoBlock(options: CpioOptions, l: seq<Named>, spots: seq<Spot>, h: seq<Arrival>, n: nat, q: Path)
    requires Brought(options, l, spots, h) && n < |h| && q < spots[n].path
    ensures !Blocks(h[..n], q)
  {
    hide Brought, ArrivalFor, GroupNode, LastOf, Treelike;
    TreelikeOf(options, l, spots, h);
    ArrivesOnce(options, l, spots, h, n, q);
    if LastOf(h[..n], q).Some? {
      var i :| 0 <= i < n && spots[i].path == q;
      BroughtAt(options, l, spots, h, i);
      LoadedKind(options, l, i, q);
      Inner(spots, i, n);
    }
  }

  lemma {:induction false} LastDataIs(h: seq<Arrival>, key: G.Key)
    ensures LastData(h, key).Some? ==> LastData(h, key).value in h
    ensures LastData(h, key) == None ==> forall k :: 0 <= k < |h| && h[k].group == Some(key) ==> !h[k].hasData
  {
    if h != [] {
      var front := h[..|h| - 1];
      LastDataIs(front, key);
      forall k | 0 <= k < |h| - 1
        ensures h[k] == front[k]
      {
      }
    }
  }

  lemma {:induction false} FirstInIs(h: seq<Arrival>, key: G.Key)
    ensures FirstIn(h, key).Some? ==> FirstIn(h, key).value in h
    ensures FirstIn(h, key) == None ==> forall k :: 0 <= k < |h| ==> h[k].group != Some(key)
  {
    if h != [] {
      var rest := h[1..];
      FirstInIs(rest, key);
      forall k | 1 <= k < |h|
        ensures h[k] == rest[k - 1]
      {
      }
    }
  }

  /** Every name of a group arrives with the group's file, whole or without data; the one that carries it, whole. */
  lemma GroupArrival(options: CpioOptions, l: seq<Named>, spots: seq<Spot>, h: seq<Arrival>, i: nat, j: nat)
    requires Brought(options, l, spots, h) && i < |l| && j < |l| && Grouped(l[i])
    requires h[j].group == Some(G.Key(0, 0, Ino(l, i)))
    ensures Grouped(l[j]) && l[j].place.id == l[i].place.id && l[j].place.node == l[i].place.node
    ensures h[j].node == Loaded(options, l[i].place.node, PlanData(options, l, j))
    ensures h[j].hasData <==> PlanData(options, l, j) != []
    ensures Carries(options, l, j) ==> h[j].node == Stored(options, l[i].place.node)
    ensures PlanData(options, l, j) != [] ==> Carries(options, l, j)
  {
    hide Treelike, Ino, Carries;
    BroughtAt(options, l, spots, h, j);
    if i < j {
      InoShared(l, i, j);
    } else if j < i {
      InoShared(l, j, i);
    }
  }

  /** The node the names of a group must hold is their file, with all its data. */
  lemma GroupHolds(options: CpioOptions, l: seq<Named>, spots: seq<Spot>, h: seq<Arrival>, i: nat)
    requires Brought(options, l, spots, h) && i < |l| && Grouped(l[i])
    ensures GroupNode(h, G.Key(0, 0, Ino(l, i))) == Some(Stored(options, l[i].place.node))
  {
    hide Brought, Loaded, PlanData, Ino, Carries, LastData, FirstIn;
    var key := G.Key(0, 0, Ino(l, i));
    LastDataIs(h, key);
    FirstInIs(h, key);
    TreelikeOf(options, l, spots, h);
    if LastData(h, key).Some? {
      var j :| 0 <= j < |h| && h[j] == LastData(h, key).value;
      GroupArrival(options, l, spots, h, i, j);
    } else {
      BroughtAt(options, l, spots, h, i);
      var c := Carrier(options, l, i);
      CarrierGroup(options, l, i);
      CarrierArrives(options, l, spots, h, i, c);
      GroupArrival(options, l, spots, h, i, c);
      var j :| 0 <= j < |h| && h[j] == FirstIn(h, key).value;
      GroupArrival(options, l, spots, h, i, j);
      assert PlanData(options, l, j) == [] == PlanData(options, l, c);
    }
  }

  lemma CarrierGroup(options: CpioOptions, l: seq<Named>, i: nat)
    requires i < |l| && Grouped(l[i]) && Linked(l)
    ensures var c := Carrier(options, l, i);
            Carries(options, l, c) && Grouped(l[c]) && l[c].place.id == l[i].place.id
  {
    hide Names;
    if options.format != Odc {
      GroupCarrier(options, l, i);
    }
  }

  lemma CarrierArrives(options: CpioOptions, l: seq<Named>, spots: seq<Spot>, h: seq<Arrival>, i: nat, c: nat)
    requires Brought(options, l, spots, h) && i < |l| && c < |l|
    requires Grouped(l[i]) && Grouped(l[c]) && l[c].place.id == l[i].place.id
    ensures h[c].group == Some(G.Key(0, 0, Ino(l, i)))
  {
    hide Treelike, Ino;
    BroughtAt(options, l, spots, h, c);
    if i < c {
      InoShared(l, i, c);
    } else if c < i {
      InoShared(l, c, i);
    }
  }

  // ------------------------------------------------------------------
  // The round trip
  // ------------------------------------------------------------------

  /** Two places that name one regular file with several names. */
  predicate SameFile(p: Place, q: Place) {
    p.node.Type() == File && q.node.Type() == File && p.links > 1 && q.links > 1 && p.id == q.id
  }

  /**
   * A tree that holds what an archive stores of another: its names and no more, every node as it is
   * stored, and one node for two names exactly when they name one file. The root's metadata is not
   * stored.
   */
  ghost predicate Copied(options: CpioOptions, spots: seq<Spot>, t: Tree) {
    && t.Ok() && t.At([]) == PLAIN_DIR
    && (forall p :: p in t.names <==> p == [] || Has(spots, p))
    && (forall i :: 0 <= i < |spots| ==>
          spots[i].path in t.names && t.names[spots[i].path] in t.nodes
          && t.At(spots[i].path) == Stored(options, spots[i].place.node))
    && (forall i, j :: 0 <= i < j < |spots| ==>
          spots[i].path in t.names && spots[j].path in t.names
          && (t.names[spots[i].path] == t.names[spots[j].path] <==> SameFile(spots[i].place, spots[j].place)))
  }

  /** What a name of the listing must hold once all have arrived. */
  lemma WantedIs(options: CpioOptions, l: seq<Named>, spots: seq<Spot>, h: seq<Arrival>, i: nat)
    requires Brought(options, l, spots, h) && i < |h| == |l| == |spots|
    ensures LastOf(h, spots[i].path) == Some(h[i])
    ensures Wanted(h, spots[i].path) == Some(Stored(options, l[i].place.node))
    ensures R.GroupOf(h, spots[i].path) == if Grouped(l[i]) then Some(G.Key(0, 0, Ino(l, i))) else None
  {
    hide Brought, GroupNode, LastOf, Ino;
    assert h[..|h|] == h;
    ArrivesOnce(options, l, spots, h, |h|, spots[i].path);
    BroughtAt(options, l, spots, h, i);
    if Grouped(l[i]) {
      GroupHolds(options, l, spots, h, i);
    }
  }

  /** Only the names of the tree arrive, and the only other name leading to them is the root. */
  lemma NamesAre(options: CpioOptions, l: seq<Named>, spots: seq<Spot>, h: seq<Arrival>, p: Path)
    requires Brought(options, l, spots, h)
    ensures LastOf(h, p).Some? <==> Has(spots, p)
    ensures Leads(h, p) ==> p == [] || Has(spots, p)
  {
    hide Brought, LastOf, ArrivalFor;
    TreelikeOf(options, l, spots, h);
    assert h[..|h|] == h;
    ArrivesOnce(options, l, spots, h, |h|, p);
    if Leads(h, p) && p != [] {
      var k :| 0 <= k < |h| && p <= h[k].path;
      BroughtAt(options, l, spots, h, k);
      assert [] < p <= spots[k].path;
    }
  }

  lemma FilesShared(options: CpioOptions, l: seq<Named>, spots: seq<Spot>, h: seq<Arrival>, i: nat, j: nat)
    requires Brought(options, l, spots, h) && i < j < |h| == |l| == |spots|
    ensures R.GroupOf(h, spots[i].path).Some? && R.GroupOf(h, spots[i].path) == R.GroupOf(h, spots[j].path) <==>
            SameFile(spots[i].place, spots[j].place)
    ensures spots[i].path != spots[j].path
  {
    hide Brought, R.GroupOf, Ino, Wanted;
    WantedIs(options, l, spots, h, i);
    WantedIs(options, l, spots, h, j);
    BroughtAt(options, l, spots, h, i);
    BroughtAt(options, l, spots, h, j);
    TreelikeOf(options, l, spots, h);
    InoShared(l, i, j);
    if spots[i].path == spots[j].path {
      PathsApart(spots, i, j);
    }
  }

  lemma RestoredCopy(options: CpioOptions, l: seq<Named>, spots: seq<Spot>, h: seq<Arrival>, t: Tree)
    requires Brought(options, l, spots, h) && Restored(t, h)
    ensures Copied(options, spots, t)
  {
    hide Brought, LastOf, Wanted, R.GroupOf, Leads, Has, Stored, SameFile, Tree.Ok;
    TreelikeOf(options, l, spots, h);
    forall p
      ensures p in t.names <==> p == [] || Has(spots, p)
    {
      NamesAre(options, l, spots, h, p);
      RootIn(t);
    }
    NamesAre(options, l, spots, h, []);
    RootNone(spots);
    RootIn(t);
    forall i | 0 <= i < |spots|
      ensures spots[i].path in t.names && t.names[spots[i].path] in t.nodes
              && t.At(spots[i].path) == Stored(options, spots[i].place.node)
    {
      WantedIs(options, l, spots, h, i);
      BroughtAt(options, l, spots, h, i);
      G.InNodes(t, spots[i].path);
    }
    G.InNodes(t, []);
    forall i, j | 0 <= i < j < |spots|
      ensures spots[i].path in t.names && spots[j].path in t.names
              && (t.names[spots[i].path] == t.names[spots[j].path] <==> SameFile(spots[i].place, spots[j].place))
    {
      WantedIs(options, l, spots, h, i);
      WantedIs(options, l, spots, h, j);
      FilesShared(options, l, spots, h, i, j);
    }
  }

  lemma RootNone(spots: seq<Spot>)
    requires Treelike(spots, [])
    ensures !Has(spots, [])
  {
  }

  /** The entries of the archive bring the arrivals of the tree, and each has its place. */
  lemma EntriesArrive(options: CpioOptions, root: Place, archive: seq<byte>, es: seq<P.EntryInfo>)
    requires Good(root) && Linked(Listing(root))
    requires forall i :: 0 <= i < |Listing(root)| ==> Planable(options, Listing(root), i)
    requires AllShown(archive, es, options.format, PlanItems(options, Listing(root), |Listing(root)|))
    ensures AllPlaced(archive, es)
    ensures Brought(options, Listing(root), SpotsAll([], root.children), Arrivals(archive, es))
  {
    hide Planable, PlanItem, PlanItems, Shown, ArrivalOf, ArrivalFor, Treelike, Linked, Normalize, PlaceFault, Good, Listing;
    var l, spots := Listing(root), SpotsAll([], root.children);
    ListingSpots(root);
    SameCount(archive, es, options.format, PlanItems(options, l, |l|));
    forall i | 0 <= i < |es|
      ensures ArrivalOf(archive, es[i]) == Some(ArrivalFor(options, l, i, spots[i].path))
    {
      ShownAt(archive, es, options.format, PlanItems(options, l, |l|), i);
      SpotGood(spots, i);
      NormalizeJoin(spots[i].path);
      Arriving(options, l, i, archive, es[i], spots[i].path);
    }
    var h := Arrivals(archive, es);
    assert Brought(options, l, spots, h);
    forall k | 0 <= k < |es|
      ensures EntryFault(archive, es[..k], es[k]) == None
    {
      assert Arrivals(archive, es[..k]) == h[..k];
      Placeable(options, l, spots, h, k);
    }
  }

  lemma SpotGood(spots: seq<Spot>, i: nat)
    requires Treelike(spots, []) && i < |spots|
    ensures var p := spots[i].path;
            p != [] && (forall c :: c in p ==> Component(c)) && p[0] != [DOT] && spots[i].place.node.Checked()
  {
    var p := spots[i].path;
    assert p[0..] == p;
    assert GoodName(p[0]);
  }

  /** Whatever reading the archive of a tree gives is a copy of the tree. */
  lemma TreeComesBack(options: CpioOptions, root: Place, archive: seq<byte>, reading: P.Options, r: Result<Tree, TreeError>)
    requires Good(root) && Linked(Listing(root)) && options.format != Binary && reading.capacity >= PATH_MAX
    requires forall i :: 0 <= i < |Listing(root)| ==> Planable(options, Listing(root), i)
    requires archive == ArchiveBytes(options.format, PlanItems(options, Listing(root), |Listing(root)|))
    requires Outcome(archive, P.Segment(archive, 0, reading), r)
    ensures r.Ok? && Copied(options, SpotsAll([], root.children), r.value)
  {
    hide Planable, PlanItems, AllShown, P.Segment, EntryFault, Brought, Copied, Restored, ArchiveBytes, Linked, Good, Listing,
         Outcome, ArrivalOf;
    var l := Listing(root);
    TreeSegment(options, l, archive, reading);
    var segment := P.Segment(archive, 0, reading);
    EntriesArrive(options, root, archive, segment.0);
    PlacedOutcome(archive, segment, r);
    RestoredCopy(options, l, SpotsAll([], root.children), Arrivals(archive, segment.0), r.value);
  }

  /** The archive of a tree is one segment that stops at its trailer. */
  lemma TreeSegment(options: CpioOptions, l: seq<Named>, archive: seq<byte>, reading: P.Options)
    requires options.format != Binary && reading.capacity >= PATH_MAX
    requires forall i :: 0 <= i < |l| ==> Planable(options, l, i)
    requires archive == ArchiveBytes(options.format, PlanItems(options, l, |l|))
    ensures var segment := P.Segment(archive, 0, reading);
            !segment.1.Failed? && AllShown(archive, segment.0, options.format, PlanItems(options, l, |l|))
  {
    hide Planable, PlanItems, AllShown, P.Segments, P.Segment, ArchiveBytes, InfosOf;
    TreeReadsBack(options, l, archive, reading);
    P.SegmentsStep(archive, 0, reading);
    assert P.Segments(archive, 0, reading)[0] == P.Segment(archive, 0, reading);
  }

  /** A segment that does not fail and whose entries all have their place gives the tree they mean. */
  lemma PlacedOutcome(s: seq<byte>, segment: (seq<P.EntryInfo>, P.Stop), r: Result<Tree, TreeError>)
    requires Outcome(s, segment, r) && !segment.1.Failed? && AllPlaced(s, segment.0)
    ensures r.Ok? && Restored(r.value, Arrivals(s, segment.0))
  {
    hide AllPlaced, Restored, EntryFault, Loads;
    var es := segment.0;
    assert es[..|es|] == es;
    if r.Err? && r.error.Placing? {
      var k :| 0 <= k < |es| && es[k].path == r.error.name && StopsAt(s, es, k, r.error.fault);
      PlacedBefore(s, es, |es|, k);
    }
  }

  /** Two names of one node. */
  predicate OneNode(p: Place, q: Place) {
    p.id == q.id && p.node == q.node && p.links > 1 && q.links > 1
  }

  /** Whatever reading the archive of a tree gives keeps all its hard links exactly when each is a regular file's. */
  lemma LinksKept(options: CpioOptions, root: Place, archive: seq<byte>, reading: P.Options, r: Result<Tree, TreeError>)
    requires Good(root) && Linked(Listing(root)) && options.format != Binary && reading.capacity >= PATH_MAX
    requires forall i :: 0 <= i < |Listing(root)| ==> Planable(options, Listing(root), i)
    requires archive == ArchiveBytes(options.format, PlanItems(options, Listing(root), |Listing(root)|))
    requires Outcome(archive, P.Segment(archive, 0, reading), r)
    ensures var spots := SpotsAll([], root.children);
            && r.Ok? && (forall i :: 0 <= i < |spots| ==> spots[i].path in r.value.names)
            && ((forall i, j :: 0 <= i < j < |spots| && OneNode(spots[i].place, spots[j].place) ==>
                   r.value.names[spots[i].path] == r.value.names[spots[j].path])
                <==> (forall i, j :: 0 <= i < j < |spots| && OneNode(spots[i].place, spots[j].place) ==>
                        spots[i].place.node.Type() == File))
  {
    hide Planable, PlanItems, P.Segment, ArchiveBytes, Linked, Good, Listing, Outcome, Tree.Ok, Stored, Has;
    TreeComesBack(options, root, archive, reading, r);
  }

  /** A symbolic link with two names. */
  const LINK: Place := Place(1, Node(SymlinkNode([120]), NO_ATTRS), 2, [])

  const LINKED_ROOT: Place := Place(0, PLAIN_DIR, 1, [Child([97], LINK), Child([98], LINK)])

  /** The names of a hard link come back as two nodes when it is no regular file. */
  lemma LinksSplit(t: Tree)
    ensures var options := CpioOptions(Newc, None);
            var l := Listing(LINKED_ROOT);
            && Good(LINKED_ROOT) && Linked(l) && |l| == 2 && l[0].place == LINK == l[1].place
            && (forall i :: 0 <= i < |l| ==> Planable(options, l, i))
            && Ino(l, 0) != Ino(l, 1)
            && (Copied(options, SpotsAll([], LINKED_ROOT.children), t) ==>
                  [[97]] in t.names && [[98]] in t.names && t.names[[[97]]] != t.names[[[98]]])
  {
    hide Tree.Ok, Stored, Good, Linked, Planable, Ino, Listing, SpotsAll, Has;
    var options := CpioOptions(Newc, None);
    var l, spots := Listing(LINKED_ROOT), SpotsAll([], LINKED_ROOT.children);
    TwoNames();
    LinksGood(l);
    LinkPlanable(l, 0);
    LinkPlanable(l, 1);
    InoShared(l, 0, 1);
    if Copied(options, spots, t) {
      assert spots[0].path == [[97]] && spots[1].path == [[98]];
    }
  }

  lemma LinksGood(l: seq<Named>)
    requires l == [Named([97], LINK), Named([98], LINK)]
    ensures Good(LINKED_ROOT) && Linked(l)
  {
  }

  lemma LinkPlanable(l: seq<Named>, i: nat)
    requires l == [Named([97], LINK), Named([98], LINK)] && i < 2
    ensures Planable(CpioOptions(Newc, None), l, i)
  {
    assert Takes(l, i) && Takes(l, 0);
    assert Taken(l, 0) == 0 && Taken(l, 1) == 1;
  }

  lemma TwoNames()
    ensures Listing(LINKED_ROOT) == [Named([97], LINK), Named([98], LINK)]
    ensures SpotsAll([], LINKED_ROOT.children) == [Spot([[97]], LINK), Spot([[98]], LINK)]
  {
    var cs := LINKED_ROOT.children;
    assert cs[1..] == [Child([98], LINK)] && cs[1..][1..] == [];
    NoChildren([97]);
    NoChildren([98]);
    assert PreorderAll([], cs[1..]) == [Named([98], LINK)] + PreorderAll([], cs[1..][1..]);
    assert [] + [[97]] == [[97]] && [] + [[98]] == [[98]];
    assert SpotsAll([], cs[1..]) == [Spot([[98]], LINK)] + SpotsAll([], cs[1..][1..]);
  }

  lemma NoChildren(name: seq<byte>)
    ensures Preorder(name, LINK) == [Named(name, LINK)] && Spots([name], LINK) == [Spot([name], LINK)]
  {
    assert PreorderAll(name, LINK.children) == [] && SpotsAll([name], LINK.children) == [];
  }

  /** Writes a tree and reads it back. */
  method CopyTree(root: Place, options: CpioOptions, reading: P.Options) returns (copy: Option<Tree>)
    requires Good(root) && Linked(Listing(root)) && reading.capacity >= PATH_MAX
    ensures copy.Some? <==>
            options.format != Binary
            && forall i :: 0 <= i < |Listing(root)| ==> Planable(options, Listing(root), i)
    ensures copy.Some? ==> Copied(options, SpotsAll([], root.children), copy.value)
  {
    hide Planable, PlanItems, P.Segment, Copied, ArchiveBytes, Linked, Good, Listing, Outcome, Reported;
    GoodGiven(root);
    var written, _ := WriteTree(root, options);
    if written.Err? {
      return None;
    }
    var archive := written.value.0;
    var source := new CpioReader.Source(archive);
    var reader := new CpioReader.Reader(source, reading);
    var read := ReadTree(reader);
    TreeComesBack(options, root, archive, reading, read);
    copy := Some(read.value);
  }
}

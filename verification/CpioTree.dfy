/** Planning and writing a whole tree: traversal order, hard-link groups, inodes and extents. */
module CpioTree {
  import opened Wrappers
  import opened Bytes
  import opened CpioRaw
  import opened CpioHeader
  import opened E = CpioError
  import opened CpioBuild
  import opened Nodes
  import opened CpioRoundTrip
  import opened CpioWriter
  import P = CpioParse

  /** A place in the tree: its node's id and number of names, and its children in name order. */
  datatype Place = Place(id: nat, node: Node, links: nat, children: seq<Child>)
  datatype Child = Child(name: seq<byte>, place: Place)

  /** One name with the place it leads to. */
  datatype Named = Named(path: seq<byte>, place: Place)

  function ChildPath(path: seq<byte>, name: seq<byte>): seq<byte> {
    if path == [] then name else path + [47] + name
  }

  /** Every name from `path` down, each directory before its children. */
  function Preorder(path: seq<byte>, place: Place): (l: seq<Named>)
    ensures l != [] && l[0] == Named(path, place)
    decreases place
  {
    [Named(path, place)] + PreorderAll(path, place.children)
  }

  function PreorderAll(path: seq<byte>, children: seq<Child>): seq<Named>
    decreases children
  {
    if children == [] then []
    else Preorder(ChildPath(path, children[0].name), children[0].place) + PreorderAll(path, children[1..])
  }

  /** The names of a tree in the order they are written; the root is none. */
  function Listing(root: Place): seq<Named> {
    PreorderAll([], root.children)
  }

  predicate NamesGiven(place: Place)
    decreases place
  {
    forall c <- place.children :: c.name != [] && NamesGiven(c.place)
  }

  // ------------------------------------------------------------------
  // Groups of a listing
  // ------------------------------------------------------------------

  predicate IsFile(n: Named) {
    n.place.node.Type() == File
  }

  /** A file with more than one name. */
  predicate Grouped(n: Named): (b: bool)
    ensures b ==> IsFile(n)
  {
    IsFile(n) && n.place.links > 1
  }

  /** The positions before `i` of the names of group `id`. */
  function Names(l: seq<Named>, i: nat, id: nat): (s: seq<nat>)
    requires i <= |l|
    ensures s != [] ==> s[0] < i
  {
    if i == 0 then []
    else if Grouped(l[i - 1]) && l[i - 1].place.id == id then Names(l, i - 1, id) + [i - 1]
    else Names(l, i - 1, id)
  }

  /** They are exactly those names, in order. */
  lemma {:induction false} NamesExact(l: seq<Named>, i: nat, id: nat)
    requires i <= |l|
    ensures var s := Names(l, i, id);
            && (forall k :: 0 <= k < |s| ==> s[k] < i && Grouped(l[s[k]]) && l[s[k]].place.id == id)
            && (forall j :: 0 <= j < i && Grouped(l[j]) && l[j].place.id == id ==> j in s)
            && (forall a, b :: 0 <= a < b < |s| ==> s[a] < s[b])
  {
    hide Grouped;
    if i > 0 {
      NamesExact(l, i - 1, id);
    }
  }

  lemma {:induction false} NamesGrow(l: seq<Named>, i: nat, j: nat, id: nat)
    requires i <= j <= |l|
    ensures Names(l, i, id) <= Names(l, j, id)
    ensures Names(l, j, id) == Names(l, i, id) <==> forall k :: i <= k < j ==> !(Grouped(l[k]) && l[k].place.id == id)
    decreases j - i
  {
    hide Grouped;
    if i < j {
      NamesGrow(l, i, j - 1, id);
    }
  }

  /** What a tree guarantees: the names of a node share it, and its link count counts them. */
  ghost predicate Linked(l: seq<Named>) {
    && (forall i, j :: 0 <= i < |l| && 0 <= j < |l| && Grouped(l[i]) && l[i].place.id == l[j].place.id ==>
          l[j].place.node == l[i].place.node && l[j].place.links == l[i].place.links)
    && (forall i :: 0 <= i < |l| && Grouped(l[i]) ==> |Names(l, |l|, l[i].place.id)| == l[i].place.links)
  }

  /** Whether name `i` is the last of its group. */
  predicate IsLast(l: seq<Named>, i: nat)
    requires i < |l|
  {
    forall j :: i < j < |l| ==> !(Grouped(l[j]) && l[j].place.id == l[i].place.id)
  }

  /** Whether name `i` takes a new inode number: it is no group's name, or its group's first. */
  predicate Takes(l: seq<Named>, i: nat)
    requires i < |l|
  {
    Grouped(l[i]) ==> Names(l, i, l[i].place.id) == []
  }

  /** How many of the first `i` names take an inode number. */
  function Taken(l: seq<Named>, i: nat): nat
    requires i <= |l|
  {
    if i == 0 then 0 else Taken(l, i - 1) + if Takes(l, i - 1) then 1 else 0
  }

  /** The inode number of name `i`: its own, or its group's. */
  function Ino(l: seq<Named>, i: nat): nat
    requires i < |l|
  {
    if Takes(l, i) then 1 + Taken(l, i) else 1 + Taken(l, Names(l, i, l[i].place.id)[0])
  }

  lemma {:induction false} TakenGrows(l: seq<Named>, i: nat, j: nat)
    requires i < j <= |l| && Takes(l, i)
    ensures Taken(l, i) < Taken(l, j)
    decreases j - i
  {
    if i + 1 < j {
      TakenGrows(l, i, j - 1);
    }
  }

  /** The first name of the group of name `i`, or `i` itself. */
  function First(l: seq<Named>, i: nat): (f: nat)
    requires i < |l|
    ensures f <= i && Takes(l, f) && Ino(l, i) == 1 + Taken(l, f)
    ensures f != i ==> Grouped(l[i]) && Grouped(l[f]) && l[f].place.id == l[i].place.id
  {
    if Takes(l, i) then i
    else
      var id := l[i].place.id;
      var f := Names(l, i, id)[0];
      NamesExact(l, i, id);
      NamesExact(l, f, id);
      NamesGrow(l, f, i, id);
      assert forall k :: k in Names(l, i, id) ==> f <= k;
      f
  }

  /** Two names share an inode number exactly when they name the same hard-linked file. */
  lemma InoShared(l: seq<Named>, i: nat, j: nat)
    requires i < j < |l|
    ensures Ino(l, i) == Ino(l, j) <==> Grouped(l[i]) && Grouped(l[j]) && l[i].place.id == l[j].place.id
  {
    var f, g := First(l, i), First(l, j);
    if Grouped(l[i]) && Grouped(l[j]) && l[i].place.id == l[j].place.id {
      var id := l[i].place.id;
      NamesGrow(l, i, j, id);
      NamesGrow(l, i + 1, j, id);
    } else if f < g {
      TakenGrows(l, f, g);
    } else if g < f {
      TakenGrows(l, g, f);
    }
  }

  // ------------------------------------------------------------------
  // What is planned
  // ------------------------------------------------------------------

  /** Whether name `i` carries its file's data. */
  predicate Carries(options: CpioOptions, l: seq<Named>, i: nat)
    requires i < |l|
  {
    Grouped(l[i]) && options.format != Odc ==> IsLast(l, i)
  }

  /** The planned fields of name `i`. */
  function PlanFields(options: CpioOptions, l: seq<Named>, i: nat): (r: Result<Fields, Error>)
    requires i < |l|
    ensures r.Ok? ==> r.value.check == 0 && TypeOf(r.value.mode).Some? && r.value.len == |PlanData(options, l, i)|
  {
    var n := l[i].place;
    match NodeFields(options, n.node)
    case Err(error) => Err(error)
    case Ok(f) =>
      Ok(f.(ino := Ino(l, i),
            nlink := if Grouped(l[i]) then n.links else f.nlink,
            len := if Carries(options, l, i) then f.len else 0))
  }

  function PlanData(options: CpioOptions, l: seq<Named>, i: nat): seq<byte>
    requires i < |l|
  {
    if Carries(options, l, i) then l[i].place.node.Payload() else []
  }

  predicate Planable(options: CpioOptions, l: seq<Named>, i: nat)
    requires i < |l|
  {
    PlanFields(options, l, i).Ok? && Encodes(options.format, l[i].path, PlanFields(options, l, i).value)
  }

  function PlanItem(options: CpioOptions, l: seq<Named>, i: nat): Item
    requires i < |l| && Planable(options, l, i)
  {
    Finished(options.format, l[i].path, PlanFields(options, l, i).value, PlanData(options, l, i))
  }

  /** The entries of the first `n` names. */
  function PlanItems(options: CpioOptions, l: seq<Named>, n: nat): (items: seq<Item>)
    requires n <= |l| && forall i :: 0 <= i < n ==> Planable(options, l, i)
    ensures |items| == n && forall i :: 0 <= i < n ==> items[i] == PlanItem(options, l, i)
  {
    seq(n, i requires 0 <= i < n => PlanItem(options, l, i))
  }

  lemma PlanItemWritable(options: CpioOptions, l: seq<Named>, i: nat)
    requires i < |l| && Planable(options, l, i)
    ensures Writable(options.format, PlanItem(options, l, i))
  {
    hide PlanData, Encodes, Writable, TypeOf;
    FinishedWritable(options.format, l[i].path, PlanFields(options, l, i).value, PlanData(options, l, i));
  }

  lemma PlanItemsWritable(options: CpioOptions, l: seq<Named>, n: nat)
    requires n <= |l| && forall i :: 0 <= i < n ==> Planable(options, l, i)
    ensures AllWritable(options.format, PlanItems(options, l, n))
  {
    hide Planable, PlanItem, Writable;
    var items := PlanItems(options, l, n);
    forall i | 0 <= i < n
      ensures Writable(options.format, items[i])
    {
      assert Planable(options, l, i);
      PlanItemWritable(options, l, i);
    }
  }

  // ------------------------------------------------------------------
  // Planning and writing
  // ------------------------------------------------------------------

  /** A name with its final fields and what will be written after its header. */
  datatype Planned = Planned(path: seq<byte>, fields: Fields, payload: Payload)

  /** The name whose data the extent of file `i` reports. */
  function Carrier(options: CpioOptions, l: seq<Named>, i: nat): (c: nat)
    requires i < |l| && IsFile(l[i])
    ensures c < |l|
  {
    if Carries(options, l, i) then i
    else
      NamesExact(l, |l|, l[i].place.id);
      assert i in Names(l, |l|, l[i].place.id);
      var names := Names(l, |l|, l[i].place.id);
      names[|names| - 1]
  }

  /** Whether the first `n` names settle the extent of file `j`. */
  predicate Settled(options: CpioOptions, l: seq<Named>, j: nat, n: nat)
    requires j < n <= |l| && IsFile(l[j])
  {
    Carrier(options, l, j) < n
  }

  /** Whether `e` is the extent of file `j`, known after `n` names: where the name that carries its data has it. */
  predicate ReportsFile(options: CpioOptions, l: seq<Named>, n: nat, e: Extent, j: nat)
    requires n <= |l| && forall i :: 0 <= i < n ==> Planable(options, l, i)
  {
    && j < n && IsFile(l[j]) && Settled(options, l, j, n)
    && e == Extent(l[j].path, DataStart(options.format, PlanItems(options, l, n), Carrier(options, l, j), 0),
                   |l[j].place.node.Payload()|)
  }

  /**
   * What the report says after `n` names: extent `k` is that of file `owner[k]`, every settled
   * file has one, and it lies at the data of the name that carries it.
   */
  ghost predicate Reported(options: CpioOptions, l: seq<Named>, n: nat, extents: seq<Extent>, owner: seq<nat>)
    requires n <= |l| && forall i :: 0 <= i < n ==> Planable(options, l, i)
  {
    && |owner| == |extents|
    && (forall k :: 0 <= k < |owner| ==> ReportsFile(options, l, n, extents[k], owner[k]))
    && (forall j :: 0 <= j < n && IsFile(l[j]) && Settled(options, l, j, n) ==> j in owner)
    && (forall a, b :: 0 <= a < b < |owner| ==> owner[a] != owner[b])
  }

  /** The files whose extent is known once name `i` is placed. */
  function Settles(options: CpioOptions, l: seq<Named>, i: nat): (s: seq<nat>)
    requires i < |l|
    ensures forall k :: 0 <= k < |s| ==> s[k] <= i
  {
    if !IsFile(l[i]) || !Carries(options, l, i) then []
    else if Grouped(l[i]) && options.format != Odc then
      NamesExact(l, i + 1, l[i].place.id);
      Names(l, i + 1, l[i].place.id)
    else [i]
  }

  lemma SettlesExact(options: CpioOptions, l: seq<Named>, i: nat, j: nat)
    requires j <= i < |l| && IsFile(l[j])
    requires Linked(l)
    ensures Carrier(options, l, j) == i <==> j in Settles(options, l, i)
  {
    hide Linked, Names;
    if Grouped(l[j]) && options.format != Odc {
      GroupCarrier(options, l, j);
      if i == Carrier(options, l, j) {
        LastSettles(options, l, i, j);
      } else if j in Settles(options, l, i) {
        SettlesOwn(options, l, i, j);
      }
    } else if i != j && j in Settles(options, l, i) {
      SettlesOwn(options, l, i, j);
    }
  }

  /** The carrier of a grouped file is the last name of its group. */
  lemma GroupCarrier(options: CpioOptions, l: seq<Named>, j: nat)
    requires j < |l| && IsFile(l[j]) && Grouped(l[j]) && options.format != Odc
    ensures var c := Carrier(options, l, j);
            Grouped(l[c]) && l[c].place.id == l[j].place.id && IsLast(l, c)
            && forall i :: 0 <= i < |l| && Grouped(l[i]) && l[i].place.id == l[j].place.id && IsLast(l, i) ==> i == c
  {
    hide Names;
    var names := Names(l, |l|, l[j].place.id);
    NamesExact(l, |l|, l[j].place.id);
    assert j in names;
    var last := names[|names| - 1];
    assert last in names && IsLast(l, last) && (IsLast(l, j) ==> j == last);
  }

  /** The last name of a group settles every name of it. */
  lemma LastSettles(options: CpioOptions, l: seq<Named>, i: nat, j: nat)
    requires j <= i < |l| && Linked(l) && Grouped(l[i]) && Grouped(l[j]) && l[i].place.id == l[j].place.id
    requires options.format != Odc && IsLast(l, i) && IsFile(l[j])
    ensures j in Settles(options, l, i)
  {
    hide Names;
    NamesExact(l, i + 1, l[i].place.id);
  }

  /** What name `i` settles besides itself are other names of its own group, of which it is the last. */
  lemma SettlesOwn(options: CpioOptions, l: seq<Named>, i: nat, j: nat)
    requires i < |l| && j in Settles(options, l, i)
    ensures j == i || (Grouped(l[j]) && Grouped(l[i]) && options.format != Odc && l[i].place.id == l[j].place.id)
    ensures Grouped(l[i]) && options.format != Odc ==> IsLast(l, i)
  {
    NamesExact(l, i + 1, l[i].place.id);
  }

  lemma {:induction false} PlanItemsPrefix(options: CpioOptions, l: seq<Named>, m: nat, n: nat)
    requires m <= n <= |l| && forall i :: 0 <= i < n ==> Planable(options, l, i)
    ensures PlanItems(options, l, m) == PlanItems(options, l, n)[..m]
  {
    hide Planable, PlanItem;
  }

  /** What was reported stands when another name is placed. */
  lemma ReportKept(options: CpioOptions, l: seq<Named>, i: nat, e: Extent, j: nat)
    requires i < |l| && (forall k :: 0 <= k <= i ==> Planable(options, l, k)) && ReportsFile(options, l, i, e, j)
    ensures ReportsFile(options, l, i + 1, e, j) && Carrier(options, l, j) < i
  {
    hide Planable, PlanItems, PlanItem, Carrier, DataStart;
    StartKept(options, l, i, Carrier(options, l, j));
  }

  /** The extent of a file that name `i` settles. */
  lemma ReportNew(options: CpioOptions, l: seq<Named>, i: nat, j: nat)
    requires i < |l| && Linked(l) && forall k :: 0 <= k <= i ==> Planable(options, l, k)
    requires j in Settles(options, l, i)
    ensures j <= i && IsFile(l[j]) && Carrier(options, l, j) == i
    ensures ReportsFile(options, l, i + 1,
                        Extent(l[j].path, DataStart(options.format, PlanItems(options, l, i + 1), i, 0),
                               |l[i].place.node.Payload()|), j)
  {
    hide Planable, PlanItems, PlanItem, Carrier, Settles, DataStart;
    SettlesFiles(options, l, i);
    SettlesExact(options, l, i, j);
  }

  /** Placing name `i` reports the files it settles and leaves the others' extents standing. */
  lemma ReportedStep(options: CpioOptions, l: seq<Named>, i: nat, extents: seq<Extent>, owner: seq<nat>, more: seq<Extent>)
    requires i < |l| && Linked(l) && forall k :: 0 <= k <= i ==> Planable(options, l, k)
    requires Reported(options, l, i, extents, owner)
    requires var settles := Settles(options, l, i);
             && |more| == |settles|
             && forall k :: 0 <= k < |more| ==>
                  more[k] == Extent(l[settles[k]].path,
                                    DataStart(options.format, PlanItems(options, l, i + 1), i, 0),
                                    |l[i].place.node.Payload()|)
    ensures Reported(options, l, i + 1, extents + more, owner + Settles(options, l, i))
  {
    hide Planable, PlanItems, PlanItem, Carrier, Settles, DataStart, ReportsFile;
    var settles := Settles(options, l, i);
    var all := owner + settles;
    SettlesFiles(options, l, i);
    forall k | 0 <= k < |all|
      ensures ReportsFile(options, l, i + 1, (extents + more)[k], all[k])
      ensures all[k] <= i && IsFile(l[all[k]]) && (k < |owner| <==> Carrier(options, l, all[k]) < i)
    {
      if k < |owner| {
        ReportsInside(options, l, i, extents[k], owner[k]);
        ReportKept(options, l, i, extents[k], owner[k]);
      } else {
        assert settles[k - |owner|] in settles;
        ReportNew(options, l, i, settles[k - |owner|]);
      }
    }
    forall j | 0 <= j < i + 1 && IsFile(l[j]) && Settled(options, l, j, i + 1)
      ensures j in all
    {
      SettlesExact(options, l, i, j);
      assert j < i || j in settles;
    }
    forall a, b | 0 <= a < b < |all|
      ensures all[a] != all[b]
    {
      if a < |owner| <= b {
        assert Carrier(options, l, all[a]) < i;
      }
    }
  }

  lemma ReportsInside(options: CpioOptions, l: seq<Named>, n: nat, e: Extent, j: nat)
    requires n <= |l| && (forall k :: 0 <= k < n ==> Planable(options, l, k)) && ReportsFile(options, l, n, e, j)
    ensures j < n && IsFile(l[j])
  {
  }

  lemma SettlesFiles(options: CpioOptions, l: seq<Named>, i: nat)
    requires i < |l| && Linked(l)
    ensures forall j :: j in Settles(options, l, i) ==>
              j <= i && IsFile(l[j]) && l[j].place.node == l[i].place.node
    ensures var s := Settles(options, l, i); forall a, b :: 0 <= a < b < |s| ==> s[a] != s[b]
    ensures forall j :: 0 <= j <= i && IsFile(l[j]) ==> Carrier(options, l, j) >= j
  {
    NamesExact(l, i + 1, l[i].place.id);
    forall j | 0 <= j <= i && IsFile(l[j])
      ensures Carrier(options, l, j) >= j
    {
      CarrierLater(options, l, j);
    }
  }

  lemma CarrierLater(options: CpioOptions, l: seq<Named>, j: nat)
    requires j < |l| && IsFile(l[j])
    ensures Carrier(options, l, j) >= j
  {
    hide Names;
    if Grouped(l[j]) {
      NamesExact(l, |l|, l[j].place.id);
      assert j in Names(l, |l|, l[j].place.id);
    }
  }

  lemma StartKept(options: CpioOptions, l: seq<Named>, i: nat, c: nat)
    requires c < i < |l| && forall k :: 0 <= k <= i ==> Planable(options, l, k)
    ensures DataStart(options.format, PlanItems(options, l, i), c, 0)
         == DataStart(options.format, PlanItems(options, l, i + 1), c, 0)
  {
    hide Planable, PlanItem;
    PlanItemsPrefix(options, l, i, i + 1);
    assert PlanItems(options, l, i)[..c] == PlanItems(options, l, i + 1)[..c];
  }

  function PlannedOf(options: CpioOptions, l: seq<Named>, i: nat): Planned
    requires i < |l| && Planable(options, l, i)
  {
    Planned(l[i].path, PlanFields(options, l, i).value,
            if Carries(options, l, i) then PayloadOf(l[i].place.node) else NoData)
  }

  /** A hard-link group while planning: its inode number, and its names while its data is still to come. */
  datatype Group = Group(ino: nat, pending: seq<nat>)

  /** What is kept of group `id` after `n` names. */
  predicate GroupSeen(options: CpioOptions, l: seq<Named>, n: nat, links: map<nat, Group>, id: nat)
    requires n <= |l|
  {
    var names := Names(l, n, id);
    if names == [] then id !in links
    else id in links && links[id] == GroupOf(options, l, names, |Names(l, |l|, id)|)
  }

  ghost predicate GroupsSeen(options: CpioOptions, l: seq<Named>, n: nat, links: map<nat, Group>)
    requires n <= |l|
  {
    forall id: nat :: GroupSeen(options, l, n, links, id)
  }

  /** The first `n` names that lose this part of their metadata. */
  function Losing(l: seq<Named>, n: nat, loss: Loss): set<nat>
    requires n <= |l|
  {
    set i: nat | i < n && Loses(l[i].place.node.attrs, loss)
  }

  /** The first `n` names that ask for a time outside what the format stores. */
  function Clamping(options: CpioOptions, l: seq<Named>, n: nat): set<nat>
    requires n <= |l|
  {
    set i: nat | i < n && OutOfRange(options, l[i].place.node.attrs)
  }

  /** What is counted after `n` names. */
  predicate Counted(options: CpioOptions, l: seq<Named>, n: nat, lost: Lost, clamped: nat)
    requires n <= |l|
  {
    (forall k :: 0 <= k < 4 ==> lost[k] == |Losing(l, n, LOSSES[k])|) && clamped == |Clamping(options, l, n)|
  }

  /** The warnings say just what the names lose and how many lose it. */
  ghost predicate Warned(options: CpioOptions, l: seq<Named>, warnings: seq<Warning>) {
    && (forall loss, n :: Dropped(loss, n) in warnings <==> n == |Losing(l, |l|, loss)| > 0)
    && (forall n :: Clamped(n) in warnings <==> n == |Clamping(options, l, |l|)| > 0)
  }

  lemma CountedStep(options: CpioOptions, l: seq<Named>, i: nat, was: Lost, lost: Lost, clamped: nat)
    requires i < |l| && Counted(options, l, i, was, clamped)
    requires forall k :: 0 <= k < 4 ==> lost[k] == was[k] + if Loses(l[i].place.node.attrs, LOSSES[k]) then 1 else 0
    ensures Counted(options, l, i + 1, lost, clamped + if OutOfRange(options, l[i].place.node.attrs) then 1 else 0)
  {
    hide Loses, OutOfRange, Losing, Clamping;
    forall k | 0 <= k < 4
      ensures lost[k] == |Losing(l, i + 1, LOSSES[k])|
    {
      LosingStep(l, i, LOSSES[k]);
    }
    ClampingStep(options, l, i);
  }

  lemma LosingStep(l: seq<Named>, i: nat, loss: Loss)
    requires i < |l|
    ensures |Losing(l, i + 1, loss)| == |Losing(l, i, loss)| + if Loses(l[i].place.node.attrs, loss) then 1 else 0
  {
    hide Loses, Losing;
    LosingNext(l, i, loss);
  }

  lemma LosingNext(l: seq<Named>, i: nat, loss: Loss)
    requires i < |l|
    ensures i !in Losing(l, i, loss)
    ensures Losing(l, i + 1, loss)
         == if Loses(l[i].place.node.attrs, loss) then Losing(l, i, loss) + {i} else Losing(l, i, loss)
  {
    hide Loses;
  }

  lemma ClampingStep(options: CpioOptions, l: seq<Named>, i: nat)
    requires i < |l|
    ensures |Clamping(options, l, i + 1)|
         == |Clamping(options, l, i)| + if OutOfRange(options, l[i].place.node.attrs) then 1 else 0
  {
    hide OutOfRange, Clamping;
    ClampingNext(options, l, i);
  }

  lemma ClampingNext(options: CpioOptions, l: seq<Named>, i: nat)
    requires i < |l|
    ensures i !in Clamping(options, l, i)
    ensures Clamping(options, l, i + 1)
         == if OutOfRange(options, l[i].place.node.attrs) then Clamping(options, l, i) + {i} else Clamping(options, l, i)
  {
    hide OutOfRange;
  }

  lemma Warns(options: CpioOptions, l: seq<Named>, lost: Lost, clamped: nat, warnings: seq<Warning>)
    requires Counted(options, l, |l|, lost, clamped)
    requires forall n :: Dropped(CreatedTime, n) in warnings <==> n == lost[0] > 0
    requires forall n :: Dropped(AccessedTime, n) in warnings <==> n == lost[1] > 0
    requires forall n :: Dropped(Fraction, n) in warnings <==> n == lost[2] > 0
    requires forall n :: Dropped(Flags, n) in warnings <==> n == lost[3] > 0
    requires forall n :: Clamped(n) in warnings <==> n == clamped > 0
    ensures Warned(options, l, warnings)
  {
    forall loss, n
      ensures Dropped(loss, n) in warnings <==> n == |Losing(l, |l|, loss)| > 0
    {
      var k := match loss case CreatedTime => 0 case AccessedTime => 1 case Fraction => 2 case Flags => 3;
      assert LOSSES[k] == loss;
    }
  }

  /** The plan after `n` names. */
  ghost predicate Planning(options: CpioOptions, l: seq<Named>, n: nat, planner: Planner, out: seq<Planned>,
                           links: map<nat, Group>, owner: seq<nat>)
    reads planner
    requires n <= |l|
  {
    && planner.options == options && planner.nextIno == 1 + Taken(l, n)
    && (forall i :: 0 <= i < n ==> Planable(options, l, i))
    && planner.offset == |ItemsBytes(options.format, PlanItems(options, l, n))|
    && |out| == n && (forall i :: 0 <= i < n ==> out[i] == PlannedOf(options, l, i))
    && GroupsSeen(options, l, n, links)
    && Reported(options, l, n, planner.extents, owner)
    && Counted(options, l, n, planner.lost, planner.clamped)
  }

  /** The group of name `i`, after it is counted in. */
  function GroupAfter(options: CpioOptions, l: seq<Named>, i: nat, links: map<nat, Group>): Group
    requires i < |l|
  {
    var id := l[i].place.id;
    var names := if options.format == Odc then [] else (if id in links then links[id].pending else []) + [i];
    Group(if id in links then links[id].ino else 1 + Taken(l, i), if |names| == l[i].place.links then [] else names)
  }

  /** The group `names` make: its first name's number, and the names until all are there. */
  function GroupOf(options: CpioOptions, l: seq<Named>, names: seq<nat>, all: nat): Group
    requires names != [] && names[0] <= |l|
  {
    Group(1 + Taken(l, names[0]), if options.format == Odc || |names| == all then [] else names)
  }

  /** Name `i` joins its group, whose names so far are those the plan keeps. */
  lemma GroupStep(options: CpioOptions, l: seq<Named>, i: nat, links: map<nat, Group>)
    requires i < |l| && Linked(l) && Grouped(l[i]) && GroupSeen(options, l, i, links, l[i].place.id)
    ensures var id := l[i].place.id;
            && Names(l, i + 1, id) == Names(l, i, id) + [i]
            && |Names(l, |l|, id)| == l[i].place.links > |Names(l, i, id)|
            && Ino(l, i) == GroupAfter(options, l, i, links).ino
            && (Takes(l, i) <==> id !in links)
            && (options.format != Odc ==>
                  && Names(l, i + 1, id) == (if id in links then links[id].pending else []) + [i]
                  && (IsLast(l, i) <==> |Names(l, i + 1, id)| == l[i].place.links))
  {
    hide Grouped, Taken;
    var id := l[i].place.id;
    NamesGrow(l, i, |l|, id);
    NamesGrow(l, i + 1, |l|, id);
    var before, names := Names(l, i, id), Names(l, i + 1, id);
    assert names == before + [i];
    assert Names(l, |l|, id) == names <==> IsLast(l, i);
    assert |Names(l, |l|, id)| == l[i].place.links;
    assert |before| < |names| <= |Names(l, |l|, id)|;
  }

  lemma GroupGrows(options: CpioOptions, l: seq<Named>, i: nat, links: map<nat, Group>)
    requires i < |l| && Linked(l) && Grouped(l[i]) && GroupSeen(options, l, i, links, l[i].place.id)
    ensures var id := l[i].place.id;
            && Names(l, i + 1, id) != []
            && GroupAfter(options, l, i, links) == GroupOf(options, l, Names(l, i + 1, id), |Names(l, |l|, id)|)
  {
    GroupStep(options, l, i, links);
    hide Names, Linked, Grouped, Taken;
  }

  lemma GroupIn(options: CpioOptions, l: seq<Named>, n: nat, links: map<nat, Group>, id: nat)
    requires n <= |l| && Names(l, n, id) != []
    requires id in links && links[id] == GroupOf(options, l, Names(l, n, id), |Names(l, |l|, id)|)
    ensures GroupSeen(options, l, n, links, id)
  {
    hide Names;
  }

  lemma GroupKept(options: CpioOptions, l: seq<Named>, i: nat, links: map<nat, Group>,
                  after: map<nat, Group>, id: nat)
    requires i < |l| && GroupSeen(options, l, i, links, id)
    requires !(Grouped(l[i]) && l[i].place.id == id)
    requires (id in after <==> id in links) && (id in links ==> after[id] == links[id])
    ensures GroupSeen(options, l, i + 1, after, id)
  {
    hide Grouped;
    assert Names(l, i + 1, id) == Names(l, i, id);
  }

  lemma GroupsStep(options: CpioOptions, l: seq<Named>, i: nat, links: map<nat, Group>)
    requires i < |l| && Linked(l) && GroupsSeen(options, l, i, links)
    ensures var after := if Grouped(l[i]) then links[l[i].place.id := GroupAfter(options, l, i, links)] else links;
            GroupsSeen(options, l, i + 1, after)
  {
    hide Grouped, GroupSeen, GroupAfter;
    var after := if Grouped(l[i]) then links[l[i].place.id := GroupAfter(options, l, i, links)] else links;
    var next := i + 1;
    forall id: nat
      ensures GroupSeen(options, l, next, after, id)
    {
      assert GroupSeen(options, l, i, links, id);
      if Grouped(l[i]) && l[i].place.id == id {
        GroupGrows(options, l, i, links);
        GroupIn(options, l, next, after, id);
      } else {
        GroupKept(options, l, i, links, after, id);
      }
    }
  }

  /** Numbers name `i`, counts it into its group and decides whose data it carries. */
  method GroupName(planner: Planner, n: Named, i: nat, links: map<nat, Group>, ghost l: seq<Named>)
    returns (r: Result<(Fields, Payload, seq<nat>), Error>, after: map<nat, Group>)
    requires i < |l| && Linked(l) && n == l[i] && planner.nextIno == 1 + Taken(l, i)
    requires GroupsSeen(planner.options, l, i, links)
    modifies planner`nextIno
    ensures r.Err? <==> PlanFields(planner.options, l, i).Err?
    ensures r.Ok? ==>
              && Ok(r.value.0) == PlanFields(planner.options, l, i)
              && r.value.1 == (if Carries(planner.options, l, i) then PayloadOf(n.place.node) else NoData)
              && r.value.2 == Settles(planner.options, l, i)
              && GroupsSeen(planner.options, l, i + 1, after) && planner.nextIno == 1 + Taken(l, i + 1)
  {
    hide NodeFields, GroupsSeen, IsLast, TypeOf, Grouped;
    var options := planner.options;
    after := links;
    var fields :- NodeFields(options, n.place.node);
    GroupsStep(options, l, i, links);
    if Grouped(n) {
      var ino, names, carries;
      ino, names, carries, after := JoinGroup(planner, n, i, links, l);
      fields := fields.(ino := ino, nlink := n.place.links, len := if carries then fields.len else 0);
      r := Ok((fields, if carries then PayloadOf(n.place.node) else NoData, names));
    } else {
      var ino := planner.TakeIno();
      r := Ok((fields.(ino := ino), PayloadOf(n.place.node), if IsFile(n) then [i] else []));
    }
  }

  /** Counts name `i` into its group: the group's number, the names it settles, and whether it carries the data. */
  method JoinGroup(planner: Planner, n: Named, i: nat, links: map<nat, Group>, ghost l: seq<Named>)
    returns (ino: nat, settles: seq<nat>, carries: bool, after: map<nat, Group>)
    requires i < |l| && Linked(l) && n == l[i] && Grouped(n) && planner.nextIno == 1 + Taken(l, i)
    requires GroupsSeen(planner.options, l, i, links)
    modifies planner`nextIno
    ensures ino == Ino(l, i) && carries == Carries(planner.options, l, i)
    ensures settles == Settles(planner.options, l, i)
    ensures after == links[n.place.id := GroupAfter(planner.options, l, i, links)]
    ensures planner.nextIno == 1 + Taken(l, i + 1)
  {
    hide GroupSeen, IsLast, Grouped, Names;
    var id := n.place.id;
    assert GroupSeen(planner.options, l, i, links, id);
    GroupStep(planner.options, l, i, links);
    settles := [];
    if id in links {
      ino := links[id].ino;
      settles := links[id].pending;
    } else {
      ino := planner.TakeIno();
    }
    var repeat := planner.options.format == Odc;
    settles := if repeat then [] else settles + [i];
    var last := |settles| == n.place.links;
    after := links[id := Group(ino, if last then [] else settles)];
    carries := repeat || last;
    settles := if repeat then [i] else if last then settles else [];
  }

  /** Plans name `|out|` of the listing: groups it, places it and reports the extents it settles. */
  method PlanName(planner: Planner, n: Named, out: seq<Planned>, links: map<nat, Group>,
                  ghost l: seq<Named>, ghost owner: seq<nat>)
    returns (r: Result<seq<Planned>, Error>, after: map<nat, Group>, ghost owned: seq<nat>)
    requires |out| < |l| && Linked(l) && n == l[|out|]
    requires Planning(planner.options, l, |out|, planner, out, links, owner)
    modifies planner
    ensures r.Ok? <==> Planable(planner.options, l, |out|)
    ensures r.Ok? ==> |r.value| == |out| + 1 && Planning(planner.options, l, |out| + 1, planner, r.value, after, owned)
  {
    hide Encodes, HeadBytes, ItemBytes, PlanFields, GroupsSeen, Settles, ItemsBytes, DataStart, Reported, PlanItem, Carries,
         PlanItems, Linked, Counted;
    var i := |out|;
    ghost var lost, clamped := planner.lost, planner.clamped;
    owned := owner;
    var grouped;
    grouped, after := GroupName(planner, n, i, links, l);
    var g :- grouped;
    var fields, payload, names := g.0, g.1, g.2;
    var start :- planner.PlaceEntry(n.path, fields, n.place.node.attrs);
    LosesExactly(planner.options, n.place.node.attrs);
    CountedStep(planner.options, l, i, lost, planner.lost, clamped);
    assert Planable(planner.options, l, i);
    PlacedAt(planner.options, l, i);
    r := Ok(out + [Planned(n.path, fields, payload)]);
    ghost var before := planner.extents;
    SettledLen(planner.options, l, i);
    ghost var more := PushExtents(planner, r.value, names, start, fields.len);
    ReportedStep(planner.options, l, i, before, owner, more);
    owned := owner + names;
  }

  /** Reports one extent for each of `names`. */
  method PushExtents(planner: Planner, out: seq<Planned>, names: seq<nat>, start: nat, len: nat)
    returns (ghost more: seq<Extent>)
    requires forall k :: 0 <= k < |names| ==> names[k] < |out|
    modifies planner`extents
    ensures planner.extents == old(planner.extents) + more && |more| == |names|
    ensures forall k :: 0 <= k < |names| ==> more[k] == Extent(out[names[k]].path, start, len)
  {
    more := [];
    for k := 0 to |names|
      invariant planner.extents == old(planner.extents) + more && |more| == k
      invariant forall j :: 0 <= j < k ==> more[j] == Extent(out[names[j]].path, start, len)
    {
      planner.PushExtent(out[names[k]].path, start, len);
      more := more + [Extent(out[names[k]].path, start, len)];
    }
  }

  lemma SettledLen(options: CpioOptions, l: seq<Named>, i: nat)
    requires i < |l| && Planable(options, l, i)
    ensures Settles(options, l, i) != [] ==> PlanFields(options, l, i).value.len == |l[i].place.node.Payload()|
  {
    hide Encodes, TypeOf;
  }

  /** A planned entry and its bytes agree on where the data starts and where the entry ends. */
  lemma PlacedAt(options: CpioOptions, l: seq<Named>, i: nat)
    requires i < |l| && (forall k :: 0 <= k <= i ==> Planable(options, l, k)) && PlanFields(options, l, i).Ok?
    ensures var f := PlanFields(options, l, i).value;
            var at := |ItemsBytes(options.format, PlanItems(options, l, i))| + |HeadBytes(options.format, l[i].path, f)|;
            && DataStart(options.format, PlanItems(options, l, i + 1), i, 0) == at
            && |ItemsBytes(options.format, PlanItems(options, l, i + 1))| == at + f.len + DataPadding(options.format, f.len)
  {
    hide Encodes, HeadBytes, ItemBytes, PlanData, ItemsBytes, PlanFields;
    assert Planable(options, l, i);
    var items := PlanItems(options, l, i);
    FinishedSize(options.format, l[i].path, PlanFields(options, l, i).value, PlanData(options, l, i));
    ItemsBytesSnoc(options.format, items, PlanItem(options, l, i));
    assert PlanItems(options, l, i + 1) == items + [PlanItem(options, l, i)];
    assert PlanItems(options, l, i + 1)[..i] == items;
  }

  // ------------------------------------------------------------------
  // The traversal
  // ------------------------------------------------------------------

  /** What a stack of places still lists, its top first. */
  function StackList(pending: seq<Named>): seq<Named> {
    if pending == [] then []
    else
      var top := pending[|pending| - 1];
      Preorder(top.path, top.place) + StackList(pending[..|pending| - 1])
  }

  predicate AllGiven(pending: seq<Named>) {
    forall i :: 0 <= i < |pending| ==> pending[i].path != [] && NamesGiven(pending[i].place)
  }

  /** Pushes the children of `n` so that the first is on top. */
  method PushChildren(n: Named, rest: seq<Named>) returns (pending: seq<Named>)
    requires NamesGiven(n.place) && AllGiven(rest)
    ensures AllGiven(pending)
    ensures StackList(pending) == PreorderAll(n.path, n.place.children) + StackList(rest)
  {
    hide StackList, PreorderAll, Preorder, NamesGiven;
    var children := n.place.children;
    pending := rest;
    PreorderNone(n.path, children);
    for k := |children| downto 0
      invariant AllGiven(pending)
      invariant StackList(pending) == PreorderAll(n.path, children[k..]) + StackList(rest)
    {
      var child := Named(ChildPath(n.path, children[k].name), children[k].place);
      ChildGiven(n.place, k);
      PushedList(pending, child);
      PreorderNext(n.path, children, k, StackList(rest));
      pending := pending + [child];
    }
    assert children[0..] == children;
  }

  lemma PreorderNone(path: seq<byte>, children: seq<Child>)
    ensures PreorderAll(path, children[|children|..]) == []
  {
  }

  lemma ChildGiven(place: Place, k: nat)
    requires NamesGiven(place) && k < |place.children|
    ensures place.children[k].name != [] && NamesGiven(place.children[k].place)
  {
    assert place.children[k] in place.children;
  }

  lemma PushedList(pending: seq<Named>, top: Named)
    ensures StackList(pending + [top]) == Preorder(top.path, top.place) + StackList(pending)
  {
    hide Preorder;
    assert (pending + [top])[..|pending|] == pending;
  }

  lemma PreorderNext(path: seq<byte>, children: seq<Child>, k: nat, rest: seq<Named>)
    requires k < |children|
    ensures PreorderAll(path, children[k..]) + rest
         == Preorder(ChildPath(path, children[k].name), children[k].place) + (PreorderAll(path, children[k + 1..]) + rest)
  {
    hide Preorder;
    assert children[k..][1..] == children[k + 1..];
  }

  /**
   * Plans every name of the tree, and the report: it fails exactly when some name cannot be
   * planned or the format cannot be written.
   */
  method PlanTree(root: Place, options: CpioOptions)
    returns (r: Result<(seq<Planned>, Report), Error>, ghost owner: seq<nat>)
    requires NamesGiven(root) && Linked(Listing(root))
    ensures r.Ok? <==>
              options.format != Binary
              && forall i :: 0 <= i < |Listing(root)| ==> Planable(options, Listing(root), i)
    ensures r.Ok? ==>
              var l := Listing(root);
              var (out, report) := r.value;
              && |out| == |l| && (forall i :: 0 <= i < |l| ==> out[i] == PlannedOf(options, l, i))
              && report.size == |ArchiveBytes(options.format, PlanItems(options, l, |l|))|
              && Reported(options, l, |l|, report.extents, owner) && Warned(options, l, report.warnings)
  {
    hide Planable, Reported, Planning, GroupSeen, ItemsBytes, TrailerBytes, PlannedOf, Linked, PlanItems, Warned;
    ghost var l := Listing(root);
    var planner := new Planner(options);
    var out: seq<Planned> := [];
    var links: map<nat, Group> := map[];
    var pending := [Named([], root)];
    owner := [];
    PlanningStart(options, l, planner);
    assert StackList(pending) == Preorder([], root);
    while pending != []
      invariant fresh(planner) && planner.options == options && |out| <= |l|
      invariant Planning(options, l, |out|, planner, out, links, owner)
      invariant Ahead(root, |out|, pending)
      decreases |StackList(pending)|
    {
      var n := pending[|pending| - 1];
      var rest := pending[..|pending| - 1];
      AheadTop(root, |out|, pending);
      if n.path != [] {
        var planned;
        planned, links, owner := PlanName(planner, n, out, links, l, owner);
        out :- planned;
      }
      pending := PushChildren(n, rest);
    }
    PlanningEnd(options, l, planner, out, links, owner);
    r := FinishPlan(planner, out, links, l, owner);
  }

  lemma PlanningEnd(options: CpioOptions, l: seq<Named>, planner: Planner, out: seq<Planned>, links: map<nat, Group>,
                    owner: seq<nat>)
    requires Planning(options, l, |l|, planner, out, links, owner)
    ensures forall i :: 0 <= i < |l| ==> Planable(options, l, i)
    ensures |out| == |l| && forall i :: 0 <= i < |l| ==> out[i] == PlannedOf(options, l, i)
    ensures Reported(options, l, |l|, planner.extents, owner)
  {
  }

  /** Ends a plan with the trailer. */
  method FinishPlan(planner: Planner, out: seq<Planned>, ghost links: map<nat, Group>, ghost l: seq<Named>,
                    ghost owner: seq<nat>)
    returns (r: Result<(seq<Planned>, Report), Error>)
    requires Planning(planner.options, l, |l|, planner, out, links, owner)
    modifies planner
    ensures r.Ok? <==> planner.options.format != Binary
    ensures r.Ok? ==>
              && r.value.0 == out
              && r.value.1.size == |ArchiveBytes(planner.options.format, PlanItems(planner.options, l, |l|))|
              && r.value.1.extents == old(planner.extents) && Warned(planner.options, l, r.value.1.warnings)
  {
    hide Planable, Reported, GroupsSeen, ItemsBytes, TrailerBytes, PlannedOf, Counted, Warned;
    var _ :- planner.PlaceTrailer();
    var report := planner.Finish();
    Warns(planner.options, l, planner.lost, planner.clamped, report.warnings);
    r := Ok((out, report));
  }

  /** After `n` names the stack lists exactly the others; at first it holds the root, which is no name. */
  predicate Ahead(root: Place, n: nat, pending: seq<Named>) {
    var l := Listing(root);
    && n <= |l|
    && ((pending == [Named([], root)] && n == 0)
        || (AllGiven(pending) && l[n..] == StackList(pending)))
  }

  lemma AheadTop(root: Place, n: nat, pending: seq<Named>)
    requires NamesGiven(root) && Ahead(root, n, pending) && pending != []
    ensures var l, top, rest := Listing(root), pending[|pending| - 1], pending[..|pending| - 1];
            var below := PreorderAll(top.path, top.place.children) + StackList(rest);
            && StackList(pending) == [top] + below && NamesGiven(top.place) && AllGiven(rest)
            && if top.path == [] then l[n..] == below
               else n < |l| && l[n] == top && l[n + 1..] == below
  {
    hide NamesGiven, PreorderAll, StackList;
    var l, top, rest := Listing(root), pending[|pending| - 1], pending[..|pending| - 1];
    StackTop(pending);
    var below := PreorderAll(top.path, top.place.children) + StackList(rest);
    if top.path == [] {
      RootAhead(root, n, pending);
    } else {
      assert l[n..] == [top] + below;
      RestOf(l, n, top, below);
    }
  }

  lemma StackTop(pending: seq<Named>)
    requires pending != []
    ensures var top, rest := pending[|pending| - 1], pending[..|pending| - 1];
            StackList(pending) == [top] + (PreorderAll(top.path, top.place.children) + StackList(rest))
  {
    var top, rest := pending[|pending| - 1], pending[..|pending| - 1];
    assert Preorder(top.path, top.place) == [top] + PreorderAll(top.path, top.place.children);
    assert ([top] + PreorderAll(top.path, top.place.children)) + StackList(rest)
        == [top] + (PreorderAll(top.path, top.place.children) + StackList(rest));
  }

  lemma RootAhead(root: Place, n: nat, pending: seq<Named>)
    requires Ahead(root, n, pending) && pending != [] && pending[|pending| - 1].path == []
    ensures n == 0 && pending == [Named([], root)]
    ensures Listing(root)[0..] == PreorderAll([], root.children) + StackList(pending[..|pending| - 1])
  {
    assert !AllGiven(pending);
    assert StackList(pending[..0]) == [];
  }

  lemma RestOf(l: seq<Named>, n: nat, top: Named, below: seq<Named>)
    requires n <= |l| && l[n..] == [top] + below
    ensures n < |l| && l[n] == top && l[n + 1..] == below
  {
    assert l[n..][0] == l[n];
    assert l[n + 1..] == l[n..][1..];
  }

  lemma PlanningStart(options: CpioOptions, l: seq<Named>, planner: Planner)
    requires planner.options == options && planner.nextIno == 1 && planner.offset == 0 && planner.extents == []
    requires planner.lost == [0, 0, 0, 0] && planner.clamped == 0
    ensures Planning(options, l, 0, planner, [], map[], [])
  {
  }

  /**
   * Writes a tree: plans it, then puts out every entry and the trailer. The report, made
   * before a byte is written, is the size and the extents of what is written.
   */
  method WriteTree(root: Place, options: CpioOptions)
    returns (r: Result<(seq<byte>, Report), Error>, ghost owner: seq<nat>)
    requires NamesGiven(root) && Linked(Listing(root))
    ensures r.Ok? <==>
              options.format != Binary
              && forall i :: 0 <= i < |Listing(root)| ==> Planable(options, Listing(root), i)
    ensures r.Ok? ==>
              var l := Listing(root);
              var (archive, report) := r.value;
              && archive == ArchiveBytes(options.format, PlanItems(options, l, |l|))
              && report.size == |archive|
              && Reported(options, l, |l|, report.extents, owner) && Warned(options, l, report.warnings)
  {
    hide Planable, Reported, Linked, ItemsBytes, PlannedOf, PlanItems, AllWritable, NamesGiven, Listing, HeadBytes,
         Warned;
    ghost var l := Listing(root);
    var planned;
    planned, owner := PlanTree(root, options);
    var plan :- planned;
    var entries, report := plan.0, plan.1;
    var writer := new Writer(options);
    EmitAll(writer, entries, l);
    TrailerEncodes(options.format);
    writer.PutHead(TRAILER_NAME, TRAILER_FIELDS);
    r := Ok((writer.out, report));
  }

  /** Writes every planned entry. */
  method EmitAll(writer: Writer, entries: seq<Planned>, ghost l: seq<Named>)
    requires writer.log == [] && writer.out == [] && writer.bytes == 0
    requires |entries| == |l| && forall i :: 0 <= i < |l| ==> Planable(writer.options, l, i)
    requires forall i :: 0 <= i < |l| ==> entries[i] == PlannedOf(writer.options, l, i)
    modifies writer
    ensures writer.out == ItemsBytes(writer.options.format, PlanItems(writer.options, l, |l|))
  {
    hide Planable, ItemsBytes, ItemBytes, HeadBytes, Writable, PlannedOf, PlanItem, AllWritable;
    ghost var items := PlanItems(writer.options, l, |l|);
    PlanItemsWritable(writer.options, l, |l|);
    NoneWritable(writer.options.format);
    ItemsNone(writer.options.format);
    for k := 0 to |entries|
      invariant AllWritable(writer.options.format, writer.log) && writer.log == items[..k]
      invariant writer.out == writer.Complete() && writer.bytes == |writer.out|
    {
      var e := entries[k];
      EntryReady(writer.options, l, k);
      writer.EmitNext(e.path, e.fields, e.payload);
      TakeNext(items, k);
    }
    assert items[..|entries|] == items;
  }

  lemma NoneWritable(format: Format)
    ensures AllWritable(format, [])
  {
  }

  lemma ItemsNone(format: Format)
    ensures ItemsBytes(format, []) == []
  {
  }

  lemma EntryReady(options: CpioOptions, l: seq<Named>, k: nat)
    requires k < |l| && Planable(options, l, k)
    ensures var e := PlannedOf(options, l, k);
            && Encodes(options.format, e.path, e.fields) && e.fields.check == 0 && TypeOf(e.fields.mode).Some?
            && |e.payload.Bytes()| == e.fields.len
            && PlanItem(options, l, k) == Finished(options.format, e.path, e.fields, e.payload.Bytes())
  {
    hide Encodes;
  }

  /** In the written archive every file's extent holds exactly that file's data, aligned in newc and crc. */
  lemma TreeReportTruth(options: CpioOptions, l: seq<Named>, archive: seq<byte>, extents: seq<Extent>, owner: seq<nat>, k: nat)
    requires Linked(l) && forall i :: 0 <= i < |l| ==> Planable(options, l, i)
    requires archive == ArchiveBytes(options.format, PlanItems(options, l, |l|))
    requires Reported(options, l, |l|, extents, owner) && k < |extents|
    ensures owner[k] < |l| && extents[k].path == l[owner[k]].path
    ensures Holds(archive, extents[k].offset, l[owner[k]].place.node.Payload())
    ensures options.format == Newc || options.format == Crc ==> extents[k].offset % 4 == 0
  {
    hide Planable, ItemsBytes, Linked, Carries, PlanItem, Writable;
    var items := PlanItems(options, l, |l|);
    var c := Carrier(options, l, owner[k]);
    CarrierData(options, l, owner[k]);
    assert items[c] == PlanItem(options, l, c);
    assert archive[..|ItemsBytes(options.format, items)|] == ItemsBytes(options.format, items);
    DataHolds(archive, 0, options.format, items, c);
    PlanItemsWritable(options, l, |l|);
    if options.format == Newc || options.format == Crc {
      DataAligned(0, options.format, items, c);
    }
  }

  lemma CarrierData(options: CpioOptions, l: seq<Named>, i: nat)
    requires i < |l| && IsFile(l[i]) && Linked(l) && Planable(options, l, Carrier(options, l, i))
    ensures PlanItem(options, l, Carrier(options, l, i)).data == l[i].place.node.Payload()
  {
    hide Encodes, NodeFields;
    NamesExact(l, |l|, l[i].place.id);
  }

  /** Every file of the tree has exactly one extent. */
  lemma EveryFileReported(options: CpioOptions, l: seq<Named>, extents: seq<Extent>, owner: seq<nat>, i: nat)
    requires forall j :: 0 <= j < |l| ==> Planable(options, l, j)
    requires Reported(options, l, |l|, extents, owner) && i < |l| && IsFile(l[i])
    ensures exists k :: 0 <= k < |owner| && owner[k] == i && forall m :: 0 <= m < |owner| && owner[m] == i ==> m == k
  {
    hide Planable, PlanItem, Carrier;
    assert Settled(options, l, i, |l|);
    var k :| 0 <= k < |owner| && owner[k] == i;
  }

  lemma LinkedPair(l: seq<Named>, i: nat, j: nat)
    requires i < |l| && j < |l| && Linked(l) && Grouped(l[i]) && l[j].place.id == l[i].place.id
    ensures Grouped(l[j])
  {
  }

  /**
   * The names of one group: in newc and crc only the last of them carries the data, and it is
   * where every one of them is reported; in odc every name carries its own.
   */
  lemma OneCarrier(options: CpioOptions, l: seq<Named>, i: nat, j: nat)
    requires i < |l| && j < |l| && Linked(l) && Grouped(l[i]) && l[j].place.id == l[i].place.id
    ensures IsFile(l[j])
    ensures options.format == Odc ==> Carries(options, l, j) && Carrier(options, l, j) == j
    ensures options.format != Odc ==>
              && Carrier(options, l, j) == Carrier(options, l, i) && IsLast(l, Carrier(options, l, i))
              && (Carries(options, l, j) <==> j == Carrier(options, l, i))
  {
    hide Names, Linked;
    var names := Names(l, |l|, l[i].place.id);
    NamesExact(l, |l|, l[i].place.id);
    LinkedPair(l, i, j);
    assert i in names && j in names;
    var last := names[|names| - 1];
    forall k | last < k < |l|
      ensures !(Grouped(l[k]) && l[k].place.id == l[i].place.id)
    {
      assert Grouped(l[k]) && l[k].place.id == l[i].place.id ==> k in names;
    }
  }

  /** A written tree reads back: one segment, holding the planned entries with their data, and the trailer. */
  lemma TreeReadsBack(options: CpioOptions, l: seq<Named>, archive: seq<byte>, reading: P.Options)
    requires options.format != Binary && forall i :: 0 <= i < |l| ==> Planable(options, l, i)
    requires archive == ArchiveBytes(options.format, PlanItems(options, l, |l|))
    requires reading.capacity >= PATH_MAX
    ensures var infos := InfosOf(options.format, PlanItems(options, l, |l|), 0);
            && P.Segments(archive, 0, reading) == [(infos, P.AtTrailer(|archive|))]
            && AllShown(archive, infos, options.format, PlanItems(options, l, |l|))
  {
    hide Planable, PlanItem, Writable, AllWritable, ArchiveBytes, InfosOf, AllShown, P.Segments;
    PlanItemsWritable(options, l, |l|);
    ArchiveReadsBack(options.format, PlanItems(options, l, |l|), reading);
  }
}

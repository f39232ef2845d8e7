/** Reading an archive into a tree: later entries replace earlier ones, and hard-link groups are put together again. */
module CpioGroups {
  import opened Wrappers
  import opened NameTree
  import opened Nodes

  /** The key of a hard-link group: device and inode. */
  datatype Key = Key(major: nat, minor: nat, ino: nat)

  /** The names that still hold a group's node, and the node. */
  datatype Group = Group(names: seq<Path>, node: Node)

  predicate Distinct(names: seq<Path>) {
    forall i, j :: 0 <= i < j < |names| ==> names[i] != names[j]
  }

  function Without(names: seq<Path>, p: Path): (r: seq<Path>)
    ensures forall q :: q in r <==> q in names && q != p
    ensures Distinct(names) ==> Distinct(r)
    ensures |r| <= |names|
  {
    if names == [] then []
    else
      var r := Without(names[1..], p);
      assert forall q :: q in names <==> q == names[0] || q in names[1..];
      if names[0] == p then r
      else
        assert Distinct(names) ==> Distinct(names[1..]) && names[0] !in names[1..];
        [names[0]] + r
  }

  /** `owners` is the inverse of the groups' name lists, and no list names a path twice. */
  ghost predicate Inverse(groups: map<Key, Group>, owners: map<Path, Key>) {
    && (forall p :: p in owners ==> owners[p] in groups && p in groups[owners[p]].names)
    && (forall k, p :: k in groups && p in groups[k].names ==> p in owners && owners[p] == k)
    && (forall k :: k in groups ==> Distinct(groups[k].names) && groups[k].node.IsFile())
  }

  predicate Together(owners: map<Path, Key>, p: Path, q: Path) {
    p in owners && q in owners && owners[p] == owners[q]
  }

  /** Names share a node exactly when one group owns both; the names in `but` are not judged. */
  ghost predicate Apart(t: Tree, owners: map<Path, Key>, but: set<Path>) {
    forall p, q :: p in t.names && q in t.names && p != q && p !in but && q !in but ==>
      (t.names[p] == t.names[q] <==> Together(owners, p, q))
  }

  /** Every owned name holds its group's node. */
  ghost predicate Held(t: Tree, groups: map<Key, Group>, owners: map<Path, Key>) {
    forall p :: p in owners ==>
      p in t.names && t.names[p] in t.nodes && owners[p] in groups && t.At(p) == groups[owners[p]].node
  }

  /** The groups without `path` in the list of group `key`. */
  function Removed(groups: map<Key, Group>, key: Key, path: Path): map<Key, Group>
    requires key in groups
  {
    groups[key := groups[key].(names := Without(groups[key].names, path))]
  }

  lemma RemovedInverse(groups: map<Key, Group>, owners: map<Path, Key>, path: Path)
    requires Inverse(groups, owners) && path in owners
    ensures Inverse(Removed(groups, owners[path], path), owners - {path})
  {
    hide Distinct, Without;
    var g, o := Removed(groups, owners[path], path), owners - {path};
    assert g.Keys == groups.Keys;
    forall p | p in o
      ensures o[p] in g && p in g[o[p]].names
    {
      assert p in owners && p != path;
    }
    forall k, p | k in g && p in g[k].names
      ensures p in o && o[p] == k
    {
      assert p in groups[k].names;
    }
  }

  lemma RemovedHeld(groups: map<Key, Group>, owners: map<Path, Key>, t: Tree, path: Path)
    requires Held(t, groups, owners) && path in owners && owners[path] in groups
    ensures Held(t, Removed(groups, owners[path], path), owners - {path})
  {
    hide Without;
  }

  class Groups {
    var groups: map<Key, Group>
    var owners: map<Path, Key>

    constructor ()
      ensures groups == map[] && owners == map[]
    {
      groups, owners := map[], map[];
    }

    ghost predicate Valid(t: Tree)
      reads this
    {
      t.Ok() && Inverse(groups, owners) && Held(t, groups, owners) && Apart(t, owners, {})
    }

    /** Makes `path` a name of no group, which leaves it as it is in the tree. */
    method Release(path: Path, ghost t: Tree)
      requires Valid(t)
      modifies this
      ensures Inverse(groups, owners) && Held(t, groups, owners) && Apart(t, owners, {path})
      ensures owners == old(owners) - {path} && groups.Keys == old(groups).Keys
      ensures forall k :: k in groups ==> groups[k].node == old(groups)[k].node
    {
      hide Inverse, Held, Apart;
      ReleasedApart(t, owners, path);
      if path in owners {
        OwnedGroup(groups, owners, path);
        RemovedInverse(groups, owners, path);
        RemovedHeld(groups, owners, t, path);
        var key := owners[path];
        owners := owners - {path};
        if key in groups {
          groups := Removed(groups, key, path);
        }
      } else {
        assert owners - {path} == owners;
      }
    }

    /** Puts an entry outside every group at `path`. */
    method Set(t: Tree, path: Path, node: Node) returns (r: Result<Tree, Fault>)
      requires Valid(t)
      modifies this
      ensures FailsJust(t, path, node, r)
      ensures r.Ok? ==>
                && Valid(r.value) && owners == old(owners) - {path} && groups.Keys == old(groups).Keys
                && (forall k :: k in groups ==> groups[k].node == old(groups)[k].node)
                && Settled(t, r.value, path, node)
    {
      hide Inverse, Held, Apart, Put, Settled, PutFault;
      PutExactly(t, path, node);
      if path in owners {
        HeldFile(t, groups, owners, path);
      }
      Release(path, t);
      r := Put(t, path, node);
      if r.Ok? {
        assert path !in old(owners) ==> owners == old(owners);
        PutSettles(groups, owners, t, r.value, path, node);
      }
    }

    /**
     * Makes `path` a name of the group `key`. With data, or when the group is new, all its names go
     * over to `node`; without, `path` joins the names there are. It fails just when no file fits there.
     */
    method Add(t: Tree, key: Key, path: Path, node: Node, hasData: bool) returns (r: Result<Tree, Fault>)
      requires Valid(t) && node.IsFile()
      modifies this
      ensures FailsJust(t, path, node, r)
      ensures r.Ok? ==>
                && Valid(r.value)
                && owners == old(owners)[path := key] && groups.Keys == old(groups).Keys + {key}
                && groups[key].node == (if key in old(groups) && !hasData then old(groups)[key].node else node)
                && (forall k :: k in groups && k != key ==> groups[k].node == old(groups)[k].node)
                && path in r.value.names && Grown(t, r.value, path)
                && (forall p :: p in t.names && p !in old(owners) && p != path ==> Same(t, r.value, p))
    {
      hide Inverse, Held, Apart, Grown, PutFault, Same, Tree.Ok, Node.Checked;
      FileFault(t, path, node);
      PutBack(owners, path, key);
      Release(path, t);
      var names := if key in groups then groups[key].names else [];
      var shared := if key in groups && !hasData then groups[key].node else node;
      GroupNodes(groups, owners);
      if names != [] && !hasData {
        r := JoinNames(t, key, path);
      } else {
        r := TakeOver(t, key, path, shared);
      }
    }

    /** Makes `path` a new name of a group's node. */
    method JoinNames(t: Tree, key: Key, path: Path) returns (r: Result<Tree, Fault>)
      requires t.Ok() && Inverse(groups, owners) && Held(t, groups, owners) && Apart(t, owners, {path})
      requires path !in owners && key in groups && groups[key].names != []
      modifies this
      ensures FailsJust(t, path, NO_FILE, r)
      ensures r.Ok? ==>
                && Valid(r.value) && path in r.value.names && Grown(t, r.value, path)
                && owners == old(owners)[path := key]
                && groups == old(groups)[key := Group(old(groups)[key].names + [path], old(groups)[key].node)]
                && (forall p :: p in t.names && p != path ==> Same(t, r.value, p))
    {
      hide Inverse, Held, Apart, PutLink, Grown, PutFault;
      var group := groups[key];
      FirstName(t, groups, owners, key, path);
      PutLinkExactly(t, group.names[0], path, NO_FILE);
      var u :- PutLink(t, group.names[0], path);
      Joined(groups, owners, t, u, key, path);
      groups := groups[key := Group(group.names + [path], group.node)];
      owners := owners[path := key];
      r := Ok(u);
    }

    /** Puts a group's node at `path` and links every name of the group to it. */
    method TakeOver(t: Tree, key: Key, path: Path, shared: Node) returns (r: Result<Tree, Fault>)
      requires t.Ok() && Inverse(groups, owners) && Held(t, groups, owners) && Apart(t, owners, {path})
      requires path !in owners && shared.IsFile()
      modifies this
      ensures FailsJust(t, path, NO_FILE, r)
      ensures r.Ok? ==>
                && Valid(r.value) && path in r.value.names && Grown(t, r.value, path)
                && owners == old(owners)[path := key]
                && groups ==
                     old(groups)[key := Group((if key in old(groups) then old(groups)[key].names else []) + [path], shared)]
                && (forall p :: p in t.names && p !in old(owners) && p != path ==> Same(t, r.value, p))
    {
      hide Inverse, Held, Apart, PutLink, Put, Spread, Grown, PutFault;
      PutExactly(t, path, shared);
      FileFault(t, path, shared);
      var names := if key in groups then groups[key].names else [];
      ghost var was := groups;
      groups := groups[key := Group(names, shared)];
      var u :- Put(t, path, shared);
      SpreadStart(was, owners, t, u, key, path, shared);
      for j := 0 to |names|
        modifies {}
        invariant u.Ok() && Spread(u, t, groups, owners, key, path, j)
      {
        Relinks(u, t, groups, owners, key, path, j);
        var next := PutLink(u, path, names[j]).value;
        SpreadStep(u, next, t, groups, owners, key, path, j);
        u := next;
      }
      SpreadEnd(u, t, groups, owners, key, path);
      groups := groups[key := Group(names + [path], shared)];
      owners := owners[path := key];
      r := Ok(u);
    }
  }

  lemma PutBack(owners: map<Path, Key>, path: Path, key: Key)
    ensures (owners - {path})[path := key] == owners[path := key]
  {
  }

  /** Placing `node` at `path` fails exactly when nothing of its kind can be put there, and for that reason. */
  ghost predicate FailsJust(t: Tree, path: Path, node: Node, r: Result<Tree, Fault>)
    requires t.Ok()
  {
    match PutFault(t, path, node)
    case None => r.Ok?
    case Some(fault) => r == Err(fault)
  }

  /** Every file is refused alike. */
  lemma FileFault(t: Tree, path: Path, node: Node)
    requires t.Ok() && node.IsFile()
    ensures PutFault(t, path, node) == PutFault(t, path, NO_FILE)
  {
  }

  lemma FirstName(t: Tree, groups: map<Key, Group>, owners: map<Path, Key>, key: Key, path: Path)
    requires Inverse(groups, owners) && Held(t, groups, owners) && path !in owners
    requires key in groups && groups[key].names != []
    ensures var first := groups[key].names[0];
            first in t.names && t.names[first] in t.nodes && t.At(first).IsFile() && first != path
  {
    NameAt(groups, owners, key, groups[key].names[0]);
    OwnerAt(t, groups, owners, groups[key].names[0]);
  }

  lemma HeldFile(t: Tree, groups: map<Key, Group>, owners: map<Path, Key>, path: Path)
    requires Inverse(groups, owners) && Held(t, groups, owners) && path in owners
    ensures path in t.names && t.names[path] in t.nodes && t.At(path).IsFile()
  {
  }

  /** `u` is `t` with `node` at `path`, and the directories on the way. */
  ghost predicate Settled(t: Tree, u: Tree, path: Path, node: Node) {
    && path in u.names && u.names[path] in u.nodes && u.At(path) == node && Grown(t, u, path)
    && (forall p :: p in t.names && p != path ==> Same(t, u, p))
  }

  lemma PutSettles(groups: map<Key, Group>, owners: map<Path, Key>, t: Tree, u: Tree, path: Path, node: Node)
    requires t.Ok() && Inverse(groups, owners) && Held(t, groups, owners) && Apart(t, owners, {path}) && path !in owners
    requires path in t.names && t.At(path).IsDir() ==> Apart(t, owners, {})
    requires Put(t, path, node) == Ok(u)
    ensures u.Ok() && Held(u, groups, owners) && Apart(u, owners, {}) && Settled(t, u, path, node)
  {
    hide Put, Inverse, Apart, Held, Moved, Tree.Ok, Grown;
    PutMoves(t, path, node);
    forall p | p in owners
      ensures p in t.names
    {
      OwnerAt(t, groups, owners, p);
    }
    if path in t.names {
      InNodes(t, path);
    }
    if path in t.names && t.At(path).IsDir() && node.IsDir() {
      InPlace(groups, owners, t, u, path, node);
    } else {
      MovedSettles(groups, owners, t, u, path, node);
      forall p, q | p in u.names && q in u.names && p != q
        ensures u.names[p] == u.names[q] <==> Together(owners, p, q)
      {
        PutShare(t, u, owners, [], path, p, q);
      }
      ApartIntro(u, owners);
    }
  }

  lemma MovedSettles(groups: map<Key, Group>, owners: map<Path, Key>, t: Tree, u: Tree, path: Path, node: Node)
    requires t.Ok() && Inverse(groups, owners) && Held(t, groups, owners) && path !in owners
    requires path in u.names && Moved(t, u, path, u.names[path]) && u.At(path) == node
    ensures u.Ok() && Held(u, groups, owners) && Settled(t, u, path, node)
  {
    hide Inverse, Held, Moved, Tree.Ok, Grown;
    MovedOk(t, u, path, u.names[path]);
    MovedGrown(t, u, path, u.names[path]);
    InNodes(u, path);
    forall p | p in t.names && p != path
      ensures Same(t, u, p)
    {
      SameMoved(t, u, path, u.names[path], p);
    }
    forall p | p in owners
      ensures p in u.names && u.names[p] in u.nodes && owners[p] in groups && u.At(p) == groups[owners[p]].node
    {
      OwnerAt(t, groups, owners, p);
      assert Same(t, u, p);
    }
    HeldIntro(u, groups, owners);
  }

  /** A directory over a directory keeps the node number, which no other name shares. */
  lemma InPlace(groups: map<Key, Group>, owners: map<Path, Key>, t: Tree, u: Tree, path: Path, node: Node)
    requires t.Ok() && u.Ok() && Held(t, groups, owners) && Apart(t, owners, {}) && path !in owners && path in t.names
    requires u.names == t.names && u.nodes == t.nodes[t.names[path] := node]
    ensures Held(u, groups, owners) && Apart(u, owners, {}) && Settled(t, u, path, node)
  {
    forall p | p in t.names && p != path
      ensures Same(t, u, p)
    {
      ApartAt(t, owners, {}, p, path);
    }
    forall p | p in owners
      ensures p in u.names && u.names[p] in u.nodes && owners[p] in groups && u.At(p) == groups[owners[p]].node
    {
      assert Same(t, u, p);
    }
  }

  lemma OwnedGroup(groups: map<Key, Group>, owners: map<Path, Key>, path: Path)
    requires Inverse(groups, owners) && path in owners
    ensures owners[path] in groups
  {
  }

  lemma ReleasedApart(t: Tree, owners: map<Path, Key>, path: Path)
    requires Apart(t, owners, {})
    ensures Apart(t, owners - {path}, {path})
  {
  }

  lemma GroupNodes(groups: map<Key, Group>, owners: map<Path, Key>)
    requires Inverse(groups, owners)
    ensures forall k :: k in groups ==> groups[k].node.IsFile()
  {
  }

  lemma JoinInverse(groups: map<Key, Group>, owners: map<Path, Key>, key: Key, path: Path)
    requires Inverse(groups, owners) && key in groups && path !in owners
    ensures Inverse(groups[key := Group(groups[key].names + [path], groups[key].node)], owners[path := key])
  {
    var names := groups[key].names;
    assert path !in names;
    assert Distinct(names + [path]);
  }

  lemma ApartAt(t: Tree, owners: map<Path, Key>, but: set<Path>, p: Path, q: Path)
    requires Apart(t, owners, but) && p in t.names && q in t.names && p != q && p !in but && q !in but
    ensures t.names[p] == t.names[q] <==> Together(owners, p, q)
  {
  }

  lemma OwnerAt(t: Tree, groups: map<Key, Group>, owners: map<Path, Key>, p: Path)
    requires Inverse(groups, owners) && Held(t, groups, owners) && p in owners
    ensures p in t.names && t.names[p] in t.nodes && owners[p] in groups && p in groups[owners[p]].names
    ensures t.At(p) == groups[owners[p]].node
  {
  }

  lemma NameAt(groups: map<Key, Group>, owners: map<Path, Key>, key: Key, p: Path)
    requires Inverse(groups, owners) && key in groups && p in groups[key].names
    ensures p in owners && owners[p] == key
  {
  }

  /** A new name of a group's node keeps everything in place. */
  lemma Joined(groups: map<Key, Group>, owners: map<Path, Key>, t: Tree, u: Tree, key: Key, path: Path)
    requires Inverse(groups, owners) && Held(t, groups, owners) && Apart(t, owners, {path}) && t.Ok()
    requires path !in owners && key in groups && groups[key].names != []
    requires PutLink(t, groups[key].names[0], path) == Ok(u)
    ensures var g := groups[key := Group(groups[key].names + [path], groups[key].node)];
            var o := owners[path := key];
            u.Ok() && Inverse(g, o) && Held(u, g, o) && Apart(u, o, {}) && path in u.names
    ensures Grown(t, u, path) && forall p :: p in t.names && p != path ==> Same(t, u, p)
  {
    hide PutLink, Inverse, Apart, Held, Moved, Tree.Ok, Together, Grown;
    var first := groups[key].names[0];
    NameAt(groups, owners, key, first);
    OwnerAt(t, groups, owners, first);
    PutLinkMoves(t, first, path);
    MovedOk(t, u, path, t.names[first]);
    JoinInverse(groups, owners, key, path);
    var g := groups[key := Group(groups[key].names + [path], groups[key].node)];
    var o := owners[path := key];
    JoinedHeld(groups, owners, t, u, key, path);
    MovedGrown(t, u, path, t.names[first]);
    forall p | p in owners
      ensures p in t.names
    {
      OwnerAt(t, groups, owners, p);
    }
    forall p, q | p in u.names && q in u.names && p != q
      ensures u.names[p] == u.names[q] <==> Together(o, p, q)
    {
      if q == path {
        MovedShare(t, u, owners, path, first, q, p);
        assert Together(o, p, q) <==> Together(o, q, p) by { TogetherSymmetric(o, p, q); }
      } else {
        MovedShare(t, u, owners, path, first, p, q);
      }
    }
    ApartIntro(u, o);
  }

  lemma JoinedHeld(groups: map<Key, Group>, owners: map<Path, Key>, t: Tree, u: Tree, key: Key, path: Path)
    requires Inverse(groups, owners) && Held(t, groups, owners) && t.Ok() && path !in owners
    requires key in groups && groups[key].names != [] && groups[key].names[0] in t.names
    requires Moved(t, u, path, t.names[groups[key].names[0]])
    ensures u.Ok() && Held(u, groups[key := Group(groups[key].names + [path], groups[key].node)], owners[path := key])
    ensures forall p :: p in t.names && p != path ==> Same(t, u, p)
  {
    hide Inverse, Held, Moved, Tree.Ok;
    var first := groups[key].names[0];
    var id := t.names[first];
    var g := groups[key := Group(groups[key].names + [path], groups[key].node)];
    var o := owners[path := key];
    MovedOk(t, u, path, id);
    NameAt(groups, owners, key, first);
    OwnerAt(t, groups, owners, first);
    InNodes(u, path);
    forall p | p in t.names && p != path
      ensures Same(t, u, p)
    {
      SameMoved(t, u, path, id, p);
    }
    MovedOld(t, u, path, id, first);
    forall p | p in o
      ensures p in u.names && u.names[p] in u.nodes && o[p] in g && u.At(p) == g[o[p]].node
    {
      if p != path {
        OwnerAt(t, groups, owners, p);
        assert Same(t, u, p);
      }
    }
    HeldIntro(u, g, o);
  }

  lemma MovedGrown(t: Tree, u: Tree, p: Path, id: nat)
    requires Moved(t, u, p, id)
    ensures Grown(t, u, p)
  {
  }

  lemma GrownStep(t: Tree, u: Tree, next: Tree, path: Path, name: Path, id: nat)
    requires Grown(t, u, path) && u.Ok() && name in t.names && name in u.names && Moved(u, next, name, id)
    ensures Grown(t, next, path)
  {
    forall q | q in next.names && q !in t.names && q != path
      ensures q <= path && next.names[q] in next.nodes && next.At(q) == PLAIN_DIR
    {
      assert q in u.names;
      MovedOld(u, next, name, id, q);
    }
  }

  lemma SameMoved(t: Tree, u: Tree, path: Path, id: nat, p: Path)
    requires t.Ok() && Moved(t, u, path, id) && p in t.names && p != path
    ensures Same(t, u, p)
  {
  }

  /** Whether `p` holds in `u` what it held in `t`. */
  predicate Same(t: Tree, u: Tree, p: Path) {
    && p in t.names && t.names[p] in t.nodes && p in u.names && u.names[p] in u.nodes
    && u.At(p) == t.At(p)
  }

  lemma TogetherSymmetric(o: map<Path, Key>, p: Path, q: Path)
    ensures Together(o, p, q) <==> Together(o, q, p)
  {
  }

  lemma InNodes(t: Tree, p: Path)
    requires t.Ok() && p in t.names
    ensures t.names[p] in t.nodes
  {
  }

  lemma HeldIntro(t: Tree, groups: map<Key, Group>, owners: map<Path, Key>)
    requires forall p :: p in owners ==>
               p in t.names && t.names[p] in t.nodes && owners[p] in groups && t.At(p) == groups[owners[p]].node
    ensures Held(t, groups, owners)
  {
  }

  lemma ApartIntro(t: Tree, owners: map<Path, Key>)
    requires forall p, q :: p in t.names && q in t.names && p != q ==>
               (t.names[p] == t.names[q] <==> Together(owners, p, q))
    ensures Apart(t, owners, {})
  {
  }

  lemma MovedShare(t: Tree, u: Tree, owners: map<Path, Key>, path: Path, first: Path, p: Path, q: Path)
    requires t.Ok() && Apart(t, owners, {path}) && path !in owners
    requires first in t.names && first != path && first in owners && Moved(t, u, path, t.names[first])
    requires forall p :: p in owners ==> p in t.names
    requires p in u.names && q in u.names && p != q && q != path
    ensures u.names[p] == u.names[q] <==> Together(owners[path := owners[first]], p, q)
  {
    hide Apart, Moved, Tree.Ok;
    var id := t.names[first];
    MovedOk(t, u, path, id);
    MovedOld(t, u, path, id, first);
    if q !in t.names {
      MovedNew(t, u, path, id, q, p);
    } else {
      MovedOld(t, u, path, id, q);
      if p == path {
        if q != first {
          ApartAt(t, owners, {path}, first, q);
        }
      } else if p !in t.names {
        MovedNew(t, u, path, id, p, q);
      } else {
        MovedOld(t, u, path, id, p);
        ApartAt(t, owners, {path}, p, q);
      }
    }
  }

  /** Whether `p` already has the new node of the group: `path`, or one of the first `j` names. */
  predicate Taken(names: seq<Path>, path: Path, j: nat, p: Path)
    requires j <= |names|
  {
    p == path || p in names[..j]
  }

  /** Whether `p` and `q` share a node while the group's names take over, the first `j` done. */
  predicate Sharing(names: seq<Path>, owners: map<Path, Key>, path: Path, j: nat, p: Path, q: Path)
    requires j <= |names|
  {
    if Taken(names, path, j, p) then Taken(names, path, j, q)
    else !Taken(names, path, j, q) && Together(owners, p, q)
  }

  ghost predicate SharingAll(u: Tree, names: seq<Path>, owners: map<Path, Key>, path: Path, j: nat)
    requires j <= |names|
  {
    forall p, q :: p in u.names && q in u.names && p != q ==>
      (u.names[p] == u.names[q] <==> Sharing(names, owners, path, j, p, q))
  }

  /** The owned names of other groups, and the free names, hold what they held. */
  ghost predicate Others(u: Tree, t: Tree, groups: map<Key, Group>, owners: map<Path, Key>, key: Key, path: Path)
    requires u.Ok() && t.Ok()
  {
    && (forall p :: p in owners ==>
          p in u.names && owners[p] in groups && u.At(p).IsFile()
          && (owners[p] != key ==> u.At(p) == groups[owners[p]].node))
    && (forall p :: p in t.names && p !in owners && p != path ==> Same(t, u, p))
  }

  /** The tree while a group's names take over the node put at `path`, the first `j` done. */
  ghost predicate Spread(u: Tree, t: Tree, groups: map<Key, Group>, owners: map<Path, Key>, key: Key, path: Path, j: nat)
    requires u.Ok()
  {
    && Inverse(groups, owners) && path !in owners && key in groups && j <= |groups[key].names|
    && path in u.names && u.At(path) == groups[key].node && t.Ok()
    && Others(u, t, groups, owners, key, path)
    && Grown(t, u, path) && (forall p :: p in owners ==> p in t.names)
    && SharingAll(u, groups[key].names, owners, path, j)
  }

  lemma SpreadStart(was: map<Key, Group>, owners: map<Path, Key>, t: Tree, u: Tree, key: Key, path: Path, node: Node)
    requires t.Ok() && Inverse(was, owners) && Held(t, was, owners) && Apart(t, owners, {path}) && path !in owners
    requires node.IsFile() && Put(t, path, node) == Ok(u)
    ensures var names := if key in was then was[key].names else [];
            u.Ok() && Spread(u, t, was[key := Group(names, node)], owners, key, path, 0)
  {
    hide Put, Inverse, Apart, Held, Moved, Tree.Ok, Sharing, SharingAll, Others, Tree.At, Grown;
    PutMoves(t, path, node);
    MovedGrown(t, u, path, u.names[path]);
    MovedOk(t, u, path, u.names[path]);
    var names := if key in was then was[key].names else [];
    RenodedInverse(was, owners, key, node);
    OthersStart(was, owners, t, u, key, path, node);
    forall p | p in owners
      ensures p in t.names
    {
      OwnerAt(t, was, owners, p);
    }
    forall p, q | p in u.names && q in u.names && p != q
      ensures u.names[p] == u.names[q] <==> Sharing(names, owners, path, 0, p, q)
    {
      PutShare(t, u, owners, names, path, p, q);
    }
    SharingIntro(u, names, owners, path, 0);
  }

  lemma OthersStart(was: map<Key, Group>, owners: map<Path, Key>, t: Tree, u: Tree, key: Key, path: Path, node: Node)
    requires t.Ok() && Inverse(was, owners) && Held(t, was, owners) && path !in owners
    requires path in u.names && Moved(t, u, path, u.names[path])
    ensures var names := if key in was then was[key].names else [];
            u.Ok() && Others(u, t, was[key := Group(names, node)], owners, key, path)
  {
    hide Inverse, Held, Moved, Tree.Ok;
    MovedOk(t, u, path, u.names[path]);
    var names := if key in was then was[key].names else [];
    var g := was[key := Group(names, node)];
    forall p | p in owners
      ensures p in u.names && owners[p] in g && u.names[p] in u.nodes && u.At(p).IsFile()
              && (owners[p] != key ==> u.At(p) == g[owners[p]].node)
    {
      OwnerAt(t, was, owners, p);
      HeldFile(t, was, owners, p);
      MovedOld(t, u, path, u.names[path], p);
      InNodes(u, p);
    }
    forall p | p in t.names && p !in owners && p != path
      ensures Same(t, u, p)
    {
      SameMoved(t, u, path, u.names[path], p);
    }
  }

  lemma PutShare(t: Tree, u: Tree, owners: map<Path, Key>, names: seq<Path>, path: Path, p: Path, q: Path)
    requires t.Ok() && Apart(t, owners, {path}) && path !in owners && path in u.names && Moved(t, u, path, u.names[path])
    requires forall q :: q in u.names && q != path ==> u.names[q] != u.names[path]
    requires forall p :: p in owners ==> p in t.names
    requires p in u.names && q in u.names && p != q
    ensures u.names[p] == u.names[q] <==> Sharing(names, owners, path, 0, p, q)
  {
    hide Apart, Moved, Tree.Ok;
    if p != path && q != path {
      if p !in t.names {
        MovedNew(t, u, path, u.names[path], p, q);
      } else if q !in t.names {
        MovedNew(t, u, path, u.names[path], q, p);
      } else {
        MovedOld(t, u, path, u.names[path], p);
        MovedOld(t, u, path, u.names[path], q);
        ApartAt(t, owners, {path}, p, q);
      }
    }
  }

  lemma RenodedInverse(groups: map<Key, Group>, owners: map<Path, Key>, key: Key, node: Node)
    requires Inverse(groups, owners) && node.IsFile()
    ensures Inverse(groups[key := Group(if key in groups then groups[key].names else [], node)], owners)
  {
    hide Distinct;
    assert Distinct([]) by { NoneDistinct(); }
  }

  lemma NoneDistinct()
    ensures Distinct([])
  {
  }

  lemma SharingAt(u: Tree, names: seq<Path>, owners: map<Path, Key>, path: Path, j: nat, p: Path, q: Path)
    requires j <= |names| && SharingAll(u, names, owners, path, j)
    requires p in u.names && q in u.names && p != q
    ensures u.names[p] == u.names[q] <==> Sharing(names, owners, path, j, p, q)
  {
  }

  lemma TakenStep(groups: map<Key, Group>, owners: map<Path, Key>, key: Key, path: Path, j: nat)
    requires Inverse(groups, owners) && key in groups && j < |groups[key].names| && path !in owners
    ensures var names := groups[key].names;
            && names[j] != path && names[j] in owners && owners[names[j]] == key
            && !Taken(names, path, j, names[j])
            && forall p :: Taken(names, path, j + 1, p) <==> Taken(names, path, j, p) || p == names[j]
  {
    var names := groups[key].names;
    assert names[j] in names;
    assert Distinct(names);
    assert names[..j + 1] == names[..j] + [names[j]];
  }

  lemma OthersAt(u: Tree, t: Tree, groups: map<Key, Group>, owners: map<Path, Key>, key: Key, path: Path, p: Path)
    requires u.Ok() && t.Ok() && Others(u, t, groups, owners, key, path)
    ensures p in owners ==>
              p in u.names && u.names[p] in u.nodes && owners[p] in groups && u.At(p).IsFile()
              && (owners[p] != key ==> u.At(p) == groups[owners[p]].node)
    ensures p in t.names && p !in owners && p != path ==> Same(t, u, p)
  {
  }

  lemma SpreadStep(u: Tree, next: Tree, t: Tree, groups: map<Key, Group>, owners: map<Path, Key>, key: Key, path: Path, j: nat)
    requires u.Ok() && Spread(u, t, groups, owners, key, path, j) && j < |groups[key].names|
    requires PutLink(u, path, groups[key].names[j]) == Ok(next)
    ensures next.Ok() && Spread(next, t, groups, owners, key, path, j + 1)
  {
    hide PutLink, Inverse, Moved, Tree.Ok, Sharing, SharingAll, Others, Grown;
    var names := groups[key].names;
    var name := names[j];
    TakenStep(groups, owners, key, path, j);
    PutLinkMoves(u, path, name);
    MovedOk(u, next, name, u.names[path]);
    MovedOld(u, next, name, u.names[path], path);
    OthersAt(u, t, groups, owners, key, path, name);
    GrownStep(t, u, next, path, name, u.names[path]);
    InNodes(u, path);
    NodeAtKey(groups, owners, key);
    OthersStep(u, next, t, groups, owners, key, path, name);
    forall p, q | p in next.names && q in next.names && p != q
      ensures next.names[p] == next.names[q] <==> Sharing(names, owners, path, j + 1, p, q)
    {
      SpreadShare(u, next, t, groups, owners, key, path, j, p, q);
    }
    SharingIntro(next, names, owners, path, j + 1);
  }

  lemma SharingIntro(u: Tree, names: seq<Path>, owners: map<Path, Key>, path: Path, j: nat)
    requires j <= |names|
    requires forall p, q :: p in u.names && q in u.names && p != q ==>
               (u.names[p] == u.names[q] <==> Sharing(names, owners, path, j, p, q))
    ensures SharingAll(u, names, owners, path, j)
  {
  }

  lemma NodeAtKey(groups: map<Key, Group>, owners: map<Path, Key>, key: Key)
    requires Inverse(groups, owners) && key in groups
    ensures groups[key].node.IsFile()
  {
  }

  /** Linking a group's own name to the node put at `path` never fails. */
  lemma Relinks(u: Tree, t: Tree, groups: map<Key, Group>, owners: map<Path, Key>, key: Key, path: Path, j: nat)
    requires u.Ok() && Spread(u, t, groups, owners, key, path, j) && j < |groups[key].names|
    ensures PutLink(u, path, groups[key].names[j]).Ok?
  {
    hide PutLink, Inverse, Tree.Ok, SharingAll, Others, Grown;
    var name := groups[key].names[j];
    TakenStep(groups, owners, key, path, j);
    NodeAtKey(groups, owners, key);
    OthersAt(u, t, groups, owners, key, path, name);
    InNodes(u, path);
    NotBlocked(u, name);
    PutLinkExactly(u, path, name, NO_FILE);
  }

  lemma OthersStep(u: Tree, next: Tree, t: Tree, groups: map<Key, Group>, owners: map<Path, Key>, key: Key,
                   path: Path, name: Path)
    requires u.Ok() && t.Ok() && Others(u, t, groups, owners, key, path) && path in u.names
    requires name in owners && owners[name] == key && Moved(u, next, name, u.names[path])
    requires path != name && u.names[path] in u.nodes && u.At(path).IsFile()
    ensures next.Ok() && Others(next, t, groups, owners, key, path)
  {
    hide Moved, Tree.Ok;
    MovedOk(u, next, name, u.names[path]);
    forall p | p in owners
      ensures p in next.names && next.names[p] in next.nodes && owners[p] in groups && next.At(p).IsFile()
              && (owners[p] != key ==> next.At(p) == groups[owners[p]].node)
    {
      OthersAt(u, t, groups, owners, key, path, p);
      MovedOld(u, next, name, u.names[path], if p != name then p else path);
      InNodes(next, p);
    }
    forall p | p in t.names && p !in owners && p != path
      ensures Same(t, next, p)
    {
      OthersAt(u, t, groups, owners, key, path, p);
      SameMoved(u, next, name, u.names[path], p);
    }
  }

  lemma SpreadShare(u: Tree, next: Tree, t: Tree, groups: map<Key, Group>, owners: map<Path, Key>, key: Key, path: Path,
                    j: nat, p: Path, q: Path)
    requires u.Ok() && Spread(u, t, groups, owners, key, path, j) && j < |groups[key].names|
    requires Moved(u, next, groups[key].names[j], u.names[path])
    requires p in next.names && q in next.names && p != q
    ensures next.names[p] == next.names[q] <==> Sharing(groups[key].names, owners, path, j + 1, p, q)
  {
    hide Inverse, Moved, Tree.Ok, SharingAll, Others, Taken, Grown;
    var names := groups[key].names;
    var name, id := names[j], u.names[path];
    TakenStep(groups, owners, key, path, j);
    assert Taken(names, path, j, path) by { TakenPath(names, path, j); }
    OthersAt(u, t, groups, owners, key, path, name);
    MovedOk(u, next, name, id);
    MovedOld(u, next, name, id, path);
    FreshFree(u, t, groups, owners, key, path, j, p);
    FreshFree(u, t, groups, owners, key, path, j, q);
    if p !in u.names {
      MovedNew(u, next, name, id, p, q);
    } else if q !in u.names {
      MovedNew(u, next, name, id, q, p);
    } else {
      if p != name {
        MovedOld(u, next, name, id, p);
      }
      if q != name {
        MovedOld(u, next, name, id, q);
      }
      var a, b := if p == name then path else p, if q == name then path else q;
      if a != b {
        SharingAt(u, names, owners, path, j, a, b);
      }
    }
  }

  lemma TakenPath(names: seq<Path>, path: Path, j: nat)
    requires j <= |names|
    ensures Taken(names, path, j, path)
  {
  }

  /** A name the tree does not have is in no group. */
  lemma FreshFree(u: Tree, t: Tree, groups: map<Key, Group>, owners: map<Path, Key>, key: Key, path: Path, j: nat, p: Path)
    requires u.Ok() && Spread(u, t, groups, owners, key, path, j)
    ensures p !in u.names ==> p !in owners && !Taken(groups[key].names, path, j, p)
  {
    hide Tree.Ok, SharingAll;
  }

  lemma SpreadEnd(u: Tree, t: Tree, groups: map<Key, Group>, owners: map<Path, Key>, key: Key, path: Path)
    requires u.Ok() && key in groups && Spread(u, t, groups, owners, key, path, |groups[key].names|)
    ensures var g := groups[key := Group(groups[key].names + [path], groups[key].node)];
            var o := owners[path := key];
            Inverse(g, o) && Held(u, g, o) && Apart(u, o, {}) && path in u.names
    ensures Grown(t, u, path) && forall p :: p in t.names && p !in owners && p != path ==> Same(t, u, p)
  {
    hide Inverse, Tree.Ok, SharingAll, Others, Taken, Grown;
    var names := groups[key].names;
    var n := |names|;
    var g := groups[key := Group(names + [path], groups[key].node)];
    var o := owners[path := key];
    JoinInverse(groups, owners, key, path);
    forall p
      ensures p in names <==> p in owners && owners[p] == key
      ensures Taken(names, path, n, p) <==> p in o && o[p] == key
    {
      TakenAll(groups, owners, key, path, p);
    }
    forall p | p in t.names && p !in owners && p != path
      ensures Same(t, u, p)
    {
      OthersAt(u, t, groups, owners, key, path, p);
    }
    InNodes(u, path);
    forall p | p in o
      ensures p in u.names && u.names[p] in u.nodes && o[p] in g && u.At(p) == g[o[p]].node
    {
      if p != path {
        OthersAt(u, t, groups, owners, key, path, p);
        if o[p] == key {
          SharingAt(u, names, owners, path, n, path, p);
        }
      }
    }
    HeldIntro(u, g, o);
    forall p, q | p in u.names && q in u.names && p != q
      ensures u.names[p] == u.names[q] <==> Together(o, p, q)
    {
      SharingAt(u, names, owners, path, n, p, q);
    }
    ApartIntro(u, o);
  }

  lemma TakenAll(groups: map<Key, Group>, owners: map<Path, Key>, key: Key, path: Path, p: Path)
    requires Inverse(groups, owners) && key in groups && path !in owners
    ensures var names := groups[key].names;
            && (p in names <==> p in owners && owners[p] == key)
            && (Taken(names, path, |names|, p) <==> p == path || (p in owners && owners[p] == key))
  {
    var names := groups[key].names;
    assert names[..|names|] == names;
  }
}

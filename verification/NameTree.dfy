/** A tree of files and directories with hard links: names mapped to node numbers. */
module NameTree {
  import opened Wrappers
  import opened Bytes
  import opened Nodes

  type Path = seq<seq<byte>>

  datatype Fault = NotFound | NotADirectory | IsADirectory | AlreadyExists | DirectoryNotEmpty | InvalidInput

  function Parent(p: Path): Path
    requires p != []
  {
    p[..|p| - 1]
  }

  /** Whether a component is `.` or `..`. */
  predicate Dotted(p: Path) {
    [46] in p || [46, 46] in p
  }

  /** Such a component is one dot or two. */
  lemma DottedExactly(p: Path)
    ensures Dotted(p) <==>
            exists i :: 0 <= i < |p| && 1 <= |p[i]| <= 2 && forall j :: 0 <= j < |p[i]| ==> p[i][j] == '.' as int
  {
    forall i | 0 <= i < |p| && 1 <= |p[i]| <= 2 && forall j :: 0 <= j < |p[i]| ==> p[i][j] == '.' as int
      ensures p[i] in {[46], [46, 46]}
    {
      assert p[i] == if |p[i]| == 1 then [46] else [46, 46];
    }
    if [46] in p {
      var i :| 0 <= i < |p| && p[i] == [46];
    }
    if [46, 46] in p {
      var i :| 0 <= i < |p| && p[i] == [46, 46];
    }
  }

  /** Numbers are never used twice, so a name and a node are tied for good. */
  datatype Tree = Tree(names: map<Path, nat>, nodes: map<nat, Node>, next: nat) {

    /** The root and every parent are directories, every name has a node, and none has a `.` or `..` in it. */
    ghost predicate Ok() {
      && [] in names && names[[]] in nodes && nodes[names[[]]].IsDir()
      && (forall p :: p in names ==> !Dotted(p))
      && (forall i :: i in nodes ==> i < next)
      && (forall p :: p in names ==> names[p] in nodes)
      && (forall p :: p in names && p != [] ==> Parent(p) in names && At(Parent(p)).IsDir())
    }

    function At(p: Path): Node
      requires p in names && names[p] in nodes
    {
      nodes[names[p]]
    }

    /** Gives `p` a node of its own. */
    function Fresh(p: Path, node: Node): Tree {
      Tree(names[p := next], nodes[next := node], next + 1)
    }

    /** Makes `p` and its parents directories where they are missing. */
    function MakeDirs(p: Path): Result<Tree, Fault>
      requires Ok()
    {
      if p in names then (if At(p).IsDir() then Result.Ok(this) else Err(NotADirectory))
      else
        var t :- MakeDirs(Parent(p));
        Result.Ok(t.Fresh(p, PLAIN_DIR))
    }

    /** Whether `later` holds every name and node of this tree as it is, new names having new nodes of their own. */
    ghost predicate Keeps(later: Tree) {
      && next <= later.next
      && (forall q :: q in names ==> q in later.names && later.names[q] == names[q])
      && (forall i :: i in nodes ==> i in later.nodes && later.nodes[i] == nodes[i])
      && (forall q, o :: q in later.names && q !in names && o in later.names && o != q ==> later.names[q] != later.names[o])
      && (forall q :: q in later.names && q !in names ==> later.names[q] >= next)
    }

    /** Adds `node` at a free name, its parents with it. */
    function Insert(p: Path, node: Node): Result<Tree, Fault>
      requires Ok()
    {
      if !node.Checked() || p == [] || Dotted(p) then Err(InvalidInput)
      else
        var t :- MakeDirs(Parent(p));
        if p in t.names then Err(AlreadyExists) else Result.Ok(t.Fresh(p, node))
    }

    /** Why a name the tree does not have cannot be found. */
    function Lost(p: Path): Fault
      requires Ok()
    {
      if Dotted(p) then InvalidInput
      else if exists q <- names.Keys :: q < p && !At(q).IsDir() then NotADirectory
      else NotFound
    }

    /** Gives the node at `existing` the second name `p`. */
    function Link(existing: Path, p: Path): Result<Tree, Fault>
      requires Ok()
    {
      if existing !in names then Err(Lost(existing))
      else if At(existing).IsDir() then Err(IsADirectory)
      else if p == [] || Dotted(p) then Err(InvalidInput)
      else
        var t :- MakeDirs(Parent(p));
        if p in t.names then Err(AlreadyExists)
        else Result.Ok(t.(names := t.names[p := names[existing]]))
    }

    /** Removes the name `p`, with everything below it. */
    function Remove(p: Path): Result<Tree, Fault>
      requires Ok()
    {
      if p == [] then Err(InvalidInput)
      else if p !in names then Err(Lost(p))
      else Result.Ok(this.(names := map q | q in names && !(p <= q) :: names[q]))
    }

    ghost predicate Childless(p: Path) {
      forall q :: q in names && q != [] ==> Parent(q) != p
    }

    predicate HasChildren(p: Path)
      ensures HasChildren(p) <==> !Childless(p)
    {
      exists q <- names.Keys :: q != [] && Parent(q) == p
    }

    /** A directory given for a directory keeps its number; anything else at `p` gets a new one. */
    function Replace(p: Path, node: Node): Result<Tree, Fault>
      requires Ok()
    {
      if !node.Checked() then Err(InvalidInput)
      else if p !in names then Err(Lost(p))
      else if At(p).IsDir() && node.IsDir() then Result.Ok(this.(nodes := nodes[names[p] := node]))
      else if HasChildren(p) then Err(DirectoryNotEmpty)
      else if p == [] then Err(InvalidInput)
      else Result.Ok(Fresh(p, node))
    }
  }

  lemma FreshOk(u: Tree, p: Path, node: Node)
    requires u.Ok() && p != [] && !Dotted(p)
    requires p !in u.names ==> Parent(p) in u.names && u.At(Parent(p)).IsDir()
    requires p in u.names ==> u.Childless(p)
    ensures u.Fresh(p, node).Ok()
  {
    var f := u.Fresh(p, node);
    assert f.names.Keys == u.names.Keys + {p};
    forall q | q in f.names && q != []
      ensures Parent(q) in f.names && f.At(Parent(q)).IsDir()
    {
      if q in u.names {
        assert Parent(q) in u.names && u.At(Parent(q)).IsDir();
        assert Parent(q) != p;
      }
    }
  }

  /** Every number in use is below the next. */
  lemma Below(t: Tree)
    requires t.Ok()
    ensures (forall i :: i in t.nodes ==> i < t.next) && (forall q :: q in t.names ==> t.names[q] < t.next)
  {
  }

  /** A new name under a directory of a later tree keeps what the earlier one held. */
  lemma FreshKeeps(was: Tree, t: Tree, p: Path, node: Node)
    requires was.Ok() && t.Ok() && was.Keeps(t) && p !in t.names && p !in was.names
    requires p != [] && !Dotted(p) && Parent(p) in t.names && t.At(Parent(p)).IsDir()
    ensures t.Fresh(p, node).Ok() && was.Keeps(t.Fresh(p, node))
  {
    hide Tree.Ok;
    FreshOk(t, p, node);
    Below(t);
    assert t.Fresh(p, node).names.Keys == t.names.Keys + {p};
  }

  /** Making directories keeps every name and node, and adds only missing prefixes. */
  lemma {:induction false} MakeDirsKeeps(was: Tree, p: Path)
    requires was.Ok() && !Dotted(p) && was.MakeDirs(p).Ok?
    ensures var t := was.MakeDirs(p).value;
            && t.Ok() && was.Keeps(t) && p in t.names && t.At(p).IsDir()
            && forall q :: q in t.names && q !in was.names ==> q <= p && t.At(q) == PLAIN_DIR
    decreases |p|
  {
    hide Tree.Keeps;
    if p in was.names {
      KeepsItself(was);
    } else {
      MakeDirsKeeps(was, Parent(p));
      var t := was.MakeDirs(Parent(p)).value;
      assert p !in t.names;
      FreshKeeps(was, t, p, PLAIN_DIR);
      FreshDirs(was, t, p);
    }
  }

  lemma KeepsItself(t: Tree)
    ensures t.Keeps(t)
  {
  }

  lemma FreshDirs(was: Tree, t: Tree, p: Path)
    requires t.Ok() && p != [] && forall q :: q in t.names && q !in was.names ==> q <= Parent(p) && t.At(q) == PLAIN_DIR
    ensures var f := t.Fresh(p, PLAIN_DIR);
            forall q :: q in f.names && q !in was.names ==> q <= p && f.At(q) == PLAIN_DIR
  {
    var f := t.Fresh(p, PLAIN_DIR);
    forall q | q in f.names && q !in was.names
      ensures q <= p && f.At(q) == PLAIN_DIR
    {
      if q != p {
        assert q in t.names && q <= Parent(p) <= p;
      }
    }
  }

  const EMPTY: Tree := Tree(map[[] := 0], map[0 := PLAIN_DIR], 1)

  /** A name that `later` has and `t` does not is `p`, or a plain directory on the way to it. */
  ghost predicate Grown(t: Tree, later: Tree, p: Path) {
    forall q :: q in later.names && q !in t.names && q != p ==>
      q <= p && later.names[q] in later.nodes && later.At(q) == PLAIN_DIR
  }

  /**
   * `later` is `t` with `p` now naming node `id`: every other name and node is as it was, and
   * names made on the way have nodes of their own.
   */
  ghost predicate Moved(t: Tree, later: Tree, p: Path, id: nat) {
    && later.Ok() && p in later.names && later.names[p] == id && t.next <= later.next
    && (forall q :: q in t.names && q != p ==> q in later.names && later.names[q] == t.names[q])
    && (forall i :: i in t.nodes ==> i in later.nodes && later.nodes[i] == t.nodes[i])
    && (forall q, o :: q in later.names && q !in t.names && q != p && o in later.names && o != q ==>
          later.names[o] != later.names[q])
    && Grown(t, later, p) && (p in t.names ==> later.names.Keys == t.names.Keys)
  }

  lemma MovedOk(t: Tree, u: Tree, p: Path, id: nat)
    requires Moved(t, u, p, id)
    ensures u.Ok() && p in u.names && u.names[p] == id
  {
  }

  lemma MovedOld(t: Tree, u: Tree, p: Path, id: nat, q: Path)
    requires t.Ok() && Moved(t, u, p, id) && q in t.names && q != p
    ensures q in u.names && u.names[q] == t.names[q] && u.At(q) == t.At(q)
  {
  }

  lemma MovedNew(t: Tree, u: Tree, p: Path, id: nat, q: Path, o: Path)
    requires Moved(t, u, p, id) && q in u.names && q !in t.names && q != p && o in u.names && o != q
    ensures u.names[q] != u.names[o]
  {
  }

  // ------------------------------------------------------------------
  // When nothing can be put at a name
  // ------------------------------------------------------------------

  /** A proper prefix of `p` is a name of something other than a directory. */
  ghost predicate Blocked(t: Tree, p: Path)
    requires t.Ok()
  {
    exists q :: q in t.names && q < p && !t.At(q).IsDir()
  }

  ghost predicate HasBelow(t: Tree, p: Path) {
    exists q :: q in t.names && p < q
  }

  /**
   * Why `node` cannot be put at `p`: a node no tree takes, a `.` or `..` in the name, a parent that
   * is no directory, or a directory with something below it, or the root, that would become
   * something else.
   */
  ghost function PutFault(t: Tree, p: Path, node: Node): Option<Fault>
    requires t.Ok()
  {
    if !node.Checked() || Dotted(p) then Some(InvalidInput)
    else if Blocked(t, p) then Some(NotADirectory)
    else if !node.IsDir() && HasBelow(t, p) then Some(DirectoryNotEmpty)
    else if !node.IsDir() && p == [] then Some(InvalidInput)
    else None
  }

  /** Every proper prefix of a name is a directory. */
  lemma {:induction false} Ancestors(t: Tree, p: Path, q: Path)
    requires t.Ok() && p in t.names && q < p
    ensures q in t.names && t.At(q).IsDir()
    decreases |p|
  {
    if q != Parent(p) {
      assert q < Parent(p);
      Ancestors(t, Parent(p), q);
    }
  }

  /** `p` or a prefix of it is a name of something other than a directory. */
  ghost predicate Barred(t: Tree, p: Path)
    requires t.Ok()
  {
    exists q :: q in t.names && q <= p && !t.At(q).IsDir()
  }

  lemma BarredParent(t: Tree, p: Path)
    requires t.Ok() && p != []
    ensures Blocked(t, p) <==> Barred(t, Parent(p))
    ensures p !in t.names ==> (Barred(t, p) <==> Barred(t, Parent(p)))
  {
    if Blocked(t, p) {
      var q :| q in t.names && q < p && !t.At(q).IsDir();
      assert q <= Parent(p);
    }
    if Barred(t, Parent(p)) {
      var q :| q in t.names && q <= Parent(p) && !t.At(q).IsDir();
      assert q < p;
    }
    if p !in t.names && Barred(t, p) {
      var q :| q in t.names && q <= p && !t.At(q).IsDir();
      assert q != p && q <= Parent(p);
    }
  }

  /** Making directories fails exactly when something else is in the way. */
  lemma {:induction false} MakeDirsExactly(t: Tree, p: Path)
    requires t.Ok()
    ensures if Barred(t, p) then t.MakeDirs(p) == Err(NotADirectory) else t.MakeDirs(p).Ok?
    decreases |p|
  {
    if p in t.names {
      forall q | q in t.names && q <= p && q != p
        ensures t.At(q).IsDir()
      {
        Ancestors(t, p, q);
      }
    } else {
      MakeDirsExactly(t, Parent(p));
      BarredParent(t, p);
    }
  }

  lemma ChildBelow(t: Tree, p: Path)
    requires t.Ok()
    ensures t.HasChildren(p) <==> HasBelow(t, p)
  {
    if HasBelow(t, p) {
      var q :| q in t.names && p < q;
      var child := q[..|p| + 1];
      assert child <= q && Parent(child) == p;
      if child != q {
        Ancestors(t, q, child);
      }
    }
    if t.HasChildren(p) {
      var q :| q in t.names && q != [] && Parent(q) == p;
      assert p < q;
    }
  }

  lemma NotBlocked(t: Tree, p: Path)
    requires t.Ok() && p in t.names
    ensures !Dotted(p) && !Blocked(t, p) && (!t.At(p).IsDir() ==> !HasBelow(t, p) && p != [])
  {
    forall q | q in t.names && q < p
      ensures t.At(q).IsDir()
    {
      Ancestors(t, p, q);
    }
    forall q | q in t.names && p < q
      ensures t.At(p).IsDir()
    {
      Ancestors(t, q, p);
    }
  }

  /** Putting a node at a name fails for exactly those reasons. */
  lemma PutExactly(t: Tree, p: Path, node: Node)
    requires t.Ok()
    ensures match PutFault(t, p, node)
            case None => Put(t, p, node).Ok?
            case Some(fault) => Put(t, p, node) == Err(fault)
  {
    hide Tree.Ok, Dotted;
    if p in t.names {
      NotBlocked(t, p);
      ChildBelow(t, p);
    } else {
      RootIn(t);
      if !Dotted(p) {
        MakeDirsExactly(t, Parent(p));
        BarredParent(t, p);
        FreeBelow(t, p);
        if t.MakeDirs(Parent(p)).Ok? {
          DottedParent(p);
          MakeDirsKeeps(t, Parent(p));
          FreeStays(t, t.MakeDirs(Parent(p)).value, p);
        }
      }
    }
  }

  lemma DottedParent(p: Path)
    requires p != [] && !Dotted(p)
    ensures !Dotted(Parent(p))
  {
  }

  lemma RootIn(t: Tree)
    requires t.Ok()
    ensures [] in t.names
  {
  }

  /** Nothing is below a name the tree does not have. */
  lemma FreeBelow(t: Tree, p: Path)
    requires t.Ok() && p !in t.names
    ensures !HasBelow(t, p)
  {
    forall q | q in t.names && p < q
      ensures false
    {
      Ancestors(t, q, p);
    }
  }

  lemma FreeStays(t: Tree, d: Tree, p: Path)
    requires p != [] && p !in t.names
    requires forall q :: q in d.names && q !in t.names ==> q <= Parent(p)
    ensures p !in d.names
  {
  }

  /** Linking a file to a name fails for exactly the reasons putting a file there does. */
  lemma PutLinkExactly(t: Tree, existing: Path, p: Path, node: Node)
    requires t.Ok() && existing in t.names && !t.At(existing).IsDir() && existing != p && node.IsFile()
    ensures match PutFault(t, p, node)
            case None => PutLink(t, existing, p).Ok?
            case Some(fault) => PutLink(t, existing, p) == Err(fault)
  {
    hide Tree.Ok, Dotted;
    PutExactly(t, p, NO_FILE);
    if p in t.names && t.Replace(p, NO_FILE).Ok? {
      Cleared(t, p);
      var r := t.Replace(p, NO_FILE).value.Remove(p).value;
      NotBlocked(t, p);
      RootIn(t);
      Parented(t, p);
      LinkFree(r, existing, p);
    } else if p !in t.names {
      PutExactly(t, p, NO_FILE);
      LinkLikeInsert(t, existing, p);
    }
  }

  lemma Parented(t: Tree, p: Path)
    requires t.Ok() && p in t.names && p != []
    ensures Parent(p) in t.names && t.names[Parent(p)] in t.nodes && t.At(Parent(p)).IsDir() && Parent(p) != p
  {
  }

  lemma LinkFree(r: Tree, existing: Path, p: Path)
    requires r.Ok() && existing in r.names && !r.At(existing).IsDir() && p !in r.names && p != [] && !Dotted(p)
    requires Parent(p) in r.names && r.At(Parent(p)).IsDir()
    ensures r.Link(existing, p).Ok?
  {
  }

  lemma LinkLikeInsert(t: Tree, existing: Path, p: Path)
    requires t.Ok() && existing in t.names && !t.At(existing).IsDir()
    ensures t.Link(existing, p).Ok? <==> t.Insert(p, NO_FILE).Ok?
    ensures t.Link(existing, p).Err? ==> t.Insert(p, NO_FILE).Err? && t.Link(existing, p).error == t.Insert(p, NO_FILE).error
  {
  }

  /** Adds `node` at `p`, replacing what is there. */
  function Put(t: Tree, p: Path, node: Node): Result<Tree, Fault>
    requires t.Ok()
  {
    if p in t.names then t.Replace(p, node) else t.Insert(p, node)
  }

  lemma FreshMoves(t: Tree, u: Tree, p: Path, node: Node)
    requires t.Ok() && u.Ok() && t.Keeps(u) && p != [] && !Dotted(p)
    requires p !in u.names ==> Parent(p) in u.names && u.At(Parent(p)).IsDir()
    requires p in u.names ==> u == t && u.Childless(p)
    requires p !in u.names ==> p !in t.names
    requires Grown(t, u, p)
    ensures Moved(t, u.Fresh(p, node), p, u.next) && u.Fresh(p, node).At(p) == node
    ensures forall q :: q in u.names && q != p ==> u.Fresh(p, node).names[q] != u.next
  {
    hide Tree.Ok, Grown, Tree.Keeps, Dotted;
    FreshOk(u, p, node);
    Below(u);
    FreshGrown(t, u, p, node);
    FreshNew(t, u, p, node);
    FreshOld(t, u, p, node);
  }

  lemma FreshOld(t: Tree, u: Tree, p: Path, node: Node)
    requires t.Keeps(u) && (forall i :: i in u.nodes ==> i < u.next)
    ensures var f := u.Fresh(p, node);
            && f.names.Keys == u.names.Keys + {p} && t.next <= f.next
            && (forall q :: q in t.names && q != p ==> q in f.names && f.names[q] == t.names[q])
            && forall i :: i in t.nodes ==> i in f.nodes && f.nodes[i] == t.nodes[i]
  {
    var f := u.Fresh(p, node);
    assert f.names.Keys == u.names.Keys + {p};
  }

  /** Names made on the way keep nodes of their own. */
  lemma FreshNew(t: Tree, u: Tree, p: Path, node: Node)
    requires t.Keeps(u) && forall q :: q in u.names ==> u.names[q] < u.next
    ensures var f := u.Fresh(p, node);
            forall q, o :: q in f.names && q !in t.names && q != p && o in f.names && o != q ==> f.names[o] != f.names[q]
  {
    var f := u.Fresh(p, node);
    forall q, o | q in f.names && q !in t.names && q != p && o in f.names && o != q
      ensures f.names[o] != f.names[q]
    {
      assert o != p ==> u.names[q] != u.names[o];
    }
  }

  lemma FreshGrown(t: Tree, u: Tree, p: Path, node: Node)
    requires Grown(t, u, p) && forall q :: q in u.names ==> u.names[q] < u.next
    ensures Grown(t, u.Fresh(p, node), p)
  {
  }

  /** A node at `p` that no other name has, all else as it was. */
  ghost predicate PutAt(t: Tree, u: Tree, p: Path, node: Node) {
    && p != [] && p in u.names && Moved(t, u, p, u.names[p]) && u.names[p] in u.nodes && u.At(p) == node
    && forall q :: q in u.names && q != p ==> u.names[q] != u.names[p]
  }

  lemma InsertMoves(t: Tree, p: Path, node: Node)
    requires t.Ok() && p !in t.names && t.Insert(p, node).Ok?
    ensures PutAt(t, t.Insert(p, node).value, p, node)
  {
    hide Moved, Grown, Tree.Keeps, Tree.Ok, Dotted, Tree.MakeDirs;
    var d := t.MakeDirs(Parent(p)).value;
    DottedParent(p);
    MakeDirsKeeps(t, Parent(p));
    GrownDirs(t, d, Parent(p), p);
    FreshMoves(t, d, p, node);
  }

  lemma ReplaceMoves(t: Tree, p: Path, node: Node)
    requires t.Ok() && p in t.names && t.Replace(p, node).Ok? && !(t.At(p).IsDir() && node.IsDir())
    ensures PutAt(t, t.Replace(p, node).value, p, node)
  {
    hide Moved, Grown, Tree.Keeps, Dotted;
    KeepsItself(t);
    GrownItself(t, p);
    FreshMoves(t, t, p, node);
  }

  /** A directory over a directory. */
  lemma ReplacedOk(t: Tree, p: Path, node: Node)
    requires t.Ok() && p in t.names && t.At(p).IsDir() && node.IsDir()
    ensures t.(nodes := t.nodes[t.names[p] := node]).Ok()
  {
  }

  /** What putting a node at a name does: a directory over a directory in place, anything else a node of its own. */
  lemma PutMoves(t: Tree, p: Path, node: Node)
    requires t.Ok() && Put(t, p, node).Ok?
    ensures var u := Put(t, p, node).value;
            if p in t.names && t.At(p).IsDir() && node.IsDir()
            then u.Ok() && u.names == t.names && u.nodes == t.nodes[t.names[p] := node]
            else PutAt(t, u, p, node)
  {
    hide PutAt, Tree.Insert;
    if p !in t.names {
      InsertMoves(t, p, node);
    } else if t.At(p).IsDir() && node.IsDir() {
      ReplacedOk(t, p, node);
    } else {
      ReplaceMoves(t, p, node);
    }
  }

  lemma GrownItself(t: Tree, p: Path)
    ensures Grown(t, t, p)
  {
  }

  /** A missing name is refused for a `.` or `..`, for a file on the way to it, or as not there, whatever is asked of it. */
  lemma LostExactly(t: Tree, p: Path, name: Path, node: Node)
    requires t.Ok() && p !in t.names && node.Checked()
    ensures var fault := if Dotted(p) then InvalidInput else if Blocked(t, p) then NotADirectory else NotFound;
            t.Remove(p) == Err(fault) && t.Replace(p, node) == Err(fault) && t.Link(p, name) == Err(fault)
  {
    RootIn(t);
    if Blocked(t, p) {
      var q :| q in t.names && q < p && !t.At(q).IsDir();
      assert q in t.names.Keys;
    }
  }

  /** Removing takes away the name and all below it, and nothing else; only the root cannot be removed. */
  lemma RemovedExactly(t: Tree, p: Path)
    requires t.Ok() && p in t.names
    ensures match t.Remove(p)
            case Err(fault) => p == [] && fault == InvalidInput
            case Ok(r) =>
              && p != [] && r.Ok() && r.nodes == t.nodes && r.next == t.next
              && (forall q :: q in r.names <==> q in t.names && !(p <= q))
              && forall q :: q in r.names ==> r.names[q] == t.names[q]
  {
    if p != [] {
      var r := t.Remove(p).value;
      forall q | q in r.names && q != []
        ensures Parent(q) in r.names && r.At(Parent(q)).IsDir()
      {
        assert p <= Parent(q) ==> p <= q;
      }
    }
  }

  /** Removing a name without anything below it takes away that name alone. */
  lemma RemovesOne(t: Tree, f: Tree, p: Path)
    requires f.Ok() && p != [] && p in t.names && f.names.Keys == t.names.Keys
    requires forall q :: q in t.names && q != p ==> f.names[q] == t.names[q] && !(p <= q)
    ensures f.Remove(p).Ok? && f.Remove(p).value == f.(names := t.names - {p})
  {
    assert f.Remove(p).value.names.Keys == t.names.Keys - {p};
  }

  /** Replacing `p` by a file and removing it takes away exactly that name. */
  lemma Cleared(t: Tree, p: Path)
    requires t.Ok() && t.Replace(p, NO_FILE).Ok?
    ensures t.Replace(p, NO_FILE).value.Ok()
    ensures var r := t.Replace(p, NO_FILE).value.Remove(p);
            && r.Ok? && r.value.Ok() && r.value.names == t.names - {p} && t.next <= r.value.next
            && forall i :: i in t.nodes ==> i in r.value.nodes && r.value.nodes[i] == t.nodes[i]
  {
    hide Tree.Remove, Tree.Ok;
    var f := t.Replace(p, NO_FILE).value;
    PutMoves(t, p, NO_FILE);
    forall q | q in t.names && q != p
      ensures !(p <= q)
    {
      if p <= q {
        NoneBelow(t, p, q);
      }
    }
    MovedOk(t, f, p, f.names[p]);
    RemovesOne(t, f, p);
    RemovedOk(t, f, p);
  }

  lemma RemovedOk(t: Tree, f: Tree, p: Path)
    requires t.Ok() && f.Ok() && p != [] && p in t.names && t.Childless(p) && f.names.Keys == t.names.Keys
    requires forall q :: q in t.names && q != p ==> f.names[q] == t.names[q]
    ensures f.(names := t.names - {p}).Ok()
  {
    hide Dotted;
    var r := f.(names := t.names - {p});
    forall q | q in r.names
      ensures r.names[q] == f.names[q] && !Dotted(q)
    {
    }
    forall q | q in r.names && q != []
      ensures Parent(q) in r.names && r.At(Parent(q)).IsDir()
    {
      Parented(f, q);
    }
  }

  /** A name without children has nothing below it. */
  lemma {:induction false} NoneBelow(t: Tree, p: Path, q: Path)
    requires t.Ok() && t.Childless(p) && q in t.names && p <= q
    ensures p == q
    decreases |q|
  {
    if p != q {
      assert p <= Parent(q);
      NoneBelow(t, p, Parent(q));
    }
  }

  /** Makes `p` another name of the node at `existing`, replacing what is there. */
  function PutLink(t: Tree, existing: Path, p: Path): Result<Tree, Fault>
    requires t.Ok()
  {
    if p in t.names then
      var replaced :- t.Replace(p, NO_FILE);
      Cleared(t, p);
      var removed :- replaced.Remove(p);
      removed.Link(existing, p)
    else t.Link(existing, p)
  }

  lemma LinkMoves(t: Tree, existing: Path, p: Path)
    requires t.Ok() && existing != p && p !in t.names && t.Link(existing, p).Ok?
    ensures existing in t.names && p != [] && Moved(t, t.Link(existing, p).value, p, t.names[existing])
    ensures Parent(p) in t.names ==> t.Link(existing, p).value.names.Keys == t.names.Keys + {p}
  {
    hide Tree.MakeDirs, Tree.Keeps, Tree.Ok, Moved, Grown;
    MakeDirsKeeps(t, Parent(p));
    var d := t.MakeDirs(Parent(p)).value;
    var id := t.names[existing];
    KeptName(t, d, existing);
    GrownDirs(t, d, Parent(p), p);
    NamedOk(d, p, id);
    NamedMoves(t, d, p, id);
    DirsThere(t, Parent(p));
    assert d.names[p := id].Keys == d.names.Keys + {p};
  }

  lemma KeptName(t: Tree, d: Tree, q: Path)
    requires t.Ok() && t.Keeps(d) && q in t.names
    ensures t.names[q] in t.nodes && t.names[q] in d.nodes
  {
  }

  /** Directories made on the way to the parent of `p` are on the way to `p`. */
  lemma GrownDirs(t: Tree, d: Tree, parent: Path, p: Path)
    requires t.Keeps(d) && p != [] && parent == Parent(p) && d.Ok()
    requires forall q :: q in d.names && q !in t.names ==> q <= parent && d.At(q) == PLAIN_DIR
    ensures Grown(t, d, p)
  {
  }

  lemma DirsThere(t: Tree, p: Path)
    requires t.Ok() && t.MakeDirs(p).Ok?
    ensures p in t.names ==> t.MakeDirs(p).value == t
  {
  }

  lemma NamedMoves(t: Tree, d: Tree, p: Path, id: nat)
    requires t.Ok() && t.Keeps(d) && Grown(t, d, p) && p !in d.names && p !in t.names
    requires id in t.nodes && d.(names := d.names[p := id]).Ok()
    ensures Moved(t, d.(names := d.names[p := id]), p, id)
  {
    hide Tree.Ok;
    var u := d.(names := d.names[p := id]);
    assert u.names.Keys == d.names.Keys + {p};
    Below(t);
  }

  /** One more name, under a directory, of a node that is there. */
  lemma NamedOk(d: Tree, p: Path, id: nat)
    requires d.Ok() && p != [] && !Dotted(p) && p !in d.names && id in d.nodes
    requires Parent(p) in d.names && d.At(Parent(p)).IsDir()
    ensures d.(names := d.names[p := id]).Ok()
  {
    var u := d.(names := d.names[p := id]);
    assert u.names.Keys == d.names.Keys + {p};
    forall q | q in u.names && q != []
      ensures Parent(q) in u.names && u.At(Parent(q)).IsDir()
    {
      if q != p {
        assert q in d.names && Parent(q) in d.names;
      }
    }
  }

  /** A name taken away and given again has moved. */
  lemma ClearedMoves(t: Tree, r: Tree, u: Tree, p: Path, id: nat)
    requires t.Ok() && r.Ok() && p in t.names && r.names == t.names - {p} && t.next <= r.next
    requires forall i :: i in t.nodes ==> i in r.nodes && r.nodes[i] == t.nodes[i]
    requires Moved(r, u, p, id) && u.names.Keys == r.names.Keys + {p}
    ensures Moved(t, u, p, id)
  {
    hide Tree.Ok;
  }

  /** What linking does: `p` names the node at `existing`. */
  lemma PutLinkMoves(t: Tree, existing: Path, p: Path)
    requires t.Ok() && existing != p && PutLink(t, existing, p).Ok?
    ensures existing in t.names && p != [] && Moved(t, PutLink(t, existing, p).value, p, t.names[existing])
  {
    hide Moved, Tree.Ok, Tree.Link, Tree.Replace, Tree.Remove;
    if p in t.names {
      Cleared(t, p);
      var r := t.Replace(p, NO_FILE).value.Remove(p).value;
      LinkMoves(r, existing, p);
      Parented(t, p);
      ClearedMoves(t, r, r.Link(existing, p).value, p, r.names[existing]);
    } else {
      LinkMoves(t, existing, p);
    }
  }
}

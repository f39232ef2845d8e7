/** Walking an APFS B-tree with an explicit stack, against its recursive flattening. */
module ApfsWalk {
  import opened Wrappers
  import opened Bytes

  datatype Entry = Entry(key: seq<byte>, value: seq<byte>)

  /** A node as parsed under the root's tree information; `None` entries do not parse. */
  datatype Node = Node(level: nat, leaf: bool, entries: Option<seq<Entry>>)

  /** Where a node is read from. */
  datatype Ref = Ref(block: nat, flags: nat)

  /** What the root's tree information and the volume say about child links. */
  datatype Links = Links(physical: bool, hashed: bool, rootOid: nat, virtualMap: Option<map<nat, Ref>>)

  /** The nodes that can be read; everything else fails. */
  type Image = map<Ref, Node>

  datatype WalkError = Unreadable | BadEntries | BadLink | AddressOverflow | Unmapped | Revisited | BadLevel

  /** The node reference an entry's value holds. */
  function ChildRef(links: Links, e: Entry): Result<Ref, WalkError> {
    if |e.value| < 8 then Err(BadLink)
    else
      var stored := LeValue(e.value[..8]);
      var oid := if !links.physical && links.hashed then links.rootOid + stored else stored;
      if oid >= U64 then Err(AddressOverflow)
      else if !links.physical && links.virtualMap.Some? then
        if oid in links.virtualMap.value then Ok(links.virtualMap.value[oid]) else Err(Unmapped)
      else Ok(Ref(oid, 0))
  }

  /**
   * A value of fewer than eight bytes is no link; otherwise its first eight are a little-endian number.
   * Physical trees link by block, virtual ones through the object map when there is one, and hashed ones
   * store how far the child's number lies beyond the root's.
   */
  lemma LinkStored(links: Links, key: seq<byte>, stored: nat, rest: seq<byte>, short: seq<byte>)
    requires stored < U64 && |short| <= 7
    ensures ChildRef(links, Entry(key, short)) == Err(BadLink)
    ensures var r := ChildRef(links, Entry(key, LeBytes(stored, 8) + rest));
            && (links.physical ==> r == Ok(Ref(stored, 0)))
            && (!links.physical && links.hashed && links.rootOid + stored > 0xFFFF_FFFF_FFFF_FFFF ==> r == Err(AddressOverflow))
            && (!links.physical && !links.hashed ==> r == Mapped(links.virtualMap, stored))
            && (!links.physical && links.hashed && links.rootOid + stored <= 0xFFFF_FFFF_FFFF_FFFF ==>
                  r == Mapped(links.virtualMap, links.rootOid + stored))
  {
    hide LeBytes, LeValue;
    assert (LeBytes(stored, 8) + rest)[..8] == LeBytes(stored, 8);
    Quad();
    LeBytesValue(stored, 8);
  }

  /** Where an object of this number is: where the map says, or in the block of that number without one. */
  function Mapped(objects: Option<map<nat, Ref>>, oid: nat): Result<Ref, WalkError> {
    match objects
    case None => Ok(Ref(oid, 0))
    case Some(m) => if oid in m then Ok(m[oid]) else Err(Unmapped)
  }

  lemma Quad()
    ensures Pow(256, 8) == U64
  {
    assert Pow(256, 4) == U32;
    assert Pow(256, 8) == 256 * (256 * (256 * (256 * Pow(256, 4))));
  }

  /** The child an entry of a node on `level` leads to: readable, and one level down. */
  function Child(img: Image, links: Links, level: nat, e: Entry): (r: Option<(nat, Node)>)
    ensures r.Some? ==> r.value.1.level + 1 == level
  {
    match ChildRef(links, e)
    case Err(_) => None
    case Ok(at) => if at in img && img[at].level + 1 == level then Some((at.block, img[at])) else None
  }

  // ------------------------------------------------------------------
  // The recursive flattening
  // ------------------------------------------------------------------

  /** The leaf entries below a node from left to right, and the blocks they were reached through. */
  datatype Flat = Flat(leaves: seq<Entry>, blocks: multiset<nat>)

  function Join(a: Option<Flat>, b: Option<Flat>): Option<Flat> {
    if a.Some? && b.Some? then Some(Flat(a.value.leaves + b.value.leaves, a.value.blocks + b.value.blocks)) else None
  }

  function Through(block: nat, f: Option<Flat>): Option<Flat> {
    if f.Some? then Some(Flat(f.value.leaves, f.value.blocks + multiset{block})) else None
  }

  const NOTHING: Option<Flat> := Some(Flat([], multiset{}))

  function Flatten(img: Image, links: Links, node: Node): Option<Flat>
    decreases node.level, 1, 0
  {
    if node.entries == None then None
    else if node.leaf then Some(Flat(node.entries.value, multiset{}))
    else FlattenAll(img, links, node.level, node.entries.value)
  }

  function FlattenAll(img: Image, links: Links, level: nat, es: seq<Entry>): Option<Flat>
    decreases level, 0, |es|
  {
    if es == [] then NOTHING
    else
      match Child(img, links, level, es[|es| - 1])
      case None => None
      case Some((block, child)) =>
        Join(FlattenAll(img, links, level, es[..|es| - 1]), Through(block, Flatten(img, links, child)))
  }

  /** Blocks reached once each, and none of them in `seen`. */
  ghost predicate Fresh(blocks: multiset<nat>, seen: set<nat>) {
    forall b :: b in blocks ==> blocks[b] == 1 && b !in seen
  }

  /** The leaves, if every block is reached once. */
  ghost function Verdict(f: Option<Flat>, seen: set<nat>): Option<seq<Entry>> {
    if f.Some? && Fresh(f.value.blocks, seen) then Some(f.value.leaves) else None
  }

  /**
   * What a walk from `root` must give: the left-to-right leaf entries, provided the nodes reachable
   * from it form a tree of readable nodes whose levels drop by one along every link.
   */
  ghost function Meaning(img: Image, links: Links, root: Ref): Option<seq<Entry>> {
    if root in img then Verdict(Flatten(img, links, img[root]), {root.block}) else None
  }

  // ------------------------------------------------------------------
  // The stack
  // ------------------------------------------------------------------

  /** What the nodes on a stack still bring, the top first. */
  function FlattenStack(img: Image, links: Links, stack: seq<Node>): Option<Flat> {
    if stack == [] then NOTHING
    else Join(Flatten(img, links, stack[|stack| - 1]), FlattenStack(img, links, stack[..|stack| - 1]))
  }

  /** What is still to come: the first entries of the node in hand, then the stack. */
  function Pending(img: Image, links: Links, level: nat, es: seq<Entry>, stack: seq<Node>): Option<Flat> {
    Join(FlattenAll(img, links, level, es), FlattenStack(img, links, stack))
  }

  /** `leaves` put before what is still to come. */
  ghost function After(leaves: seq<Entry>, rest: Option<seq<Entry>>): Option<seq<Entry>> {
    if rest.Some? then Some(leaves + rest.value) else None
  }

  lemma JoinAssociates(a: Option<Flat>, b: Option<Flat>, c: Option<Flat>)
    ensures Join(Join(a, b), c) == Join(a, Join(b, c))
  {
    if a.Some? && b.Some? && c.Some? {
      assert (a.value.leaves + b.value.leaves) + c.value.leaves == a.value.leaves + (b.value.leaves + c.value.leaves);
      assert (a.value.blocks + b.value.blocks) + c.value.blocks == a.value.blocks + (b.value.blocks + c.value.blocks);
    }
  }

  lemma StackTop(img: Image, links: Links, stack: seq<Node>, node: Node)
    ensures FlattenStack(img, links, stack + [node]) == Join(Flatten(img, links, node), FlattenStack(img, links, stack))
  {
    assert (stack + [node])[..|stack|] == stack;
  }

  /** A leaf taken off the stack gives its entries. */
  lemma LeafTaken(img: Image, links: Links, stack: seq<Node>, node: Node, seen: set<nat>, leaves: seq<Entry>)
    requires node.leaf && node.entries.Some?
    ensures After(leaves, Verdict(FlattenStack(img, links, stack + [node]), seen)) ==
            After(leaves + node.entries.value, Verdict(FlattenStack(img, links, stack), seen))
  {
    hide FlattenAll, FlattenStack, Verdict, After, Join;
    StackTop(img, links, stack, node);
    LeavesFirst(node.entries.value, FlattenStack(img, links, stack), seen, leaves);
  }

  lemma LeavesFirst(es: seq<Entry>, rest: Option<Flat>, seen: set<nat>, leaves: seq<Entry>)
    ensures After(leaves, Verdict(Join(Some(Flat(es, multiset{})), rest), seen)) == After(leaves + es, Verdict(rest, seen))
  {
    hide Fresh;
    if rest.Some? {
      assert multiset{} + rest.value.blocks == rest.value.blocks;
      assert leaves + (es + rest.value.leaves) == leaves + es + rest.value.leaves;
    }
  }

  /** The last of the pending entries, its child put on the stack. */
  lemma ChildPushed(img: Image, links: Links, level: nat, es: seq<Entry>, stack: seq<Node>, e: Entry)
    ensures Child(img, links, level, e) == None ==> Pending(img, links, level, es + [e], stack) == None
    ensures Child(img, links, level, e).Some? ==>
              var (block, child) := Child(img, links, level, e).value;
              Pending(img, links, level, es + [e], stack) == Through(block, Pending(img, links, level, es, stack + [child]))
  {
    assert (es + [e])[..|es|] == es;
    if Child(img, links, level, e).Some? {
      var (block, child) := Child(img, links, level, e).value;
      StackTop(img, links, stack, child);
      var front, under, rest := FlattenAll(img, links, level, es), Flatten(img, links, child), FlattenStack(img, links, stack);
      JoinAssociates(front, under, rest);
      if front.Some? && under.Some? && rest.Some? {
        assert front.value.blocks + (under.value.blocks + multiset{block}) + rest.value.blocks ==
               front.value.blocks + under.value.blocks + rest.value.blocks + multiset{block};
      }
    }
  }

  /** A block reached through counts as seen from then on; one seen before spoils everything. */
  lemma ThroughSeen(f: Option<Flat>, block: nat, seen: set<nat>)
    ensures Verdict(Through(block, f), seen) == if block in seen then None else Verdict(f, seen + {block})
  {
    if f.Some? {
      var more := f.value.blocks + multiset{block};
      assert block in more;
      forall b
        ensures more[b] == f.value.blocks[b] + if b == block then 1 else 0
      {
      }
      if block !in seen && Fresh(more, seen) {
        assert Fresh(f.value.blocks, seen + {block});
      }
    }
  }

  /** Walks the tree at `root`: exactly the leaf entries it means, or an error when it is no tree. */
  method WalkTree(img: Image, links: Links, root: Ref) returns (r: Result<seq<Entry>, WalkError>)
    ensures match r
            case Ok(leaves) => Meaning(img, links, root) == Some(leaves)
            case Err(_) => Meaning(img, links, root) == None
  {
    hide Flatten, FlattenAll, FlattenStack, Pending, Verdict, Child, ChildRef;
    if root !in img {
      return Err(Unreadable);
    }
    var leaves: seq<Entry> := [];
    var visited := {root.block};
    var stack := [img[root]];
    ghost var whole := Meaning(img, links, root);
    ghost var blocks := set at | at in img :: at.block;
    Started(img, links, root);
    while stack != []
      invariant visited <= blocks
      invariant whole == After(leaves, Verdict(FlattenStack(img, links, stack), visited))
      decreases blocks - visited, |stack|
    {
      var node := stack[|stack| - 1];
      ghost var seen := visited;
      assert stack == stack[..|stack| - 1] + [node];
      stack := stack[..|stack| - 1];
      ghost var below := stack;
      if node.entries == None {
        NodeTaken(img, links, stack, node);
        NoVerdict(visited);
        return Err(BadEntries);
      }
      var entries := node.entries.value;
      if node.leaf {
        LeafTaken(img, links, stack, node, visited, leaves);
        leaves := leaves + entries;
        continue;
      }
      NodeTaken(img, links, stack, node);
      var j := |entries|;
      assert entries[..j] == entries;
      while j > 0
        invariant j <= |entries| && seen <= visited <= blocks && (j < |entries| ==> seen != visited)
        invariant j == |entries| ==> stack == below && visited == seen
        invariant whole == After(leaves, Verdict(Pending(img, links, node.level, entries[..j], stack), visited))
      {
        var e := entries[j - 1];
        assert entries[..j] == entries[..j - 1] + [e];
        ChildPushed(img, links, node.level, entries[..j - 1], stack, e);
        ChildOf(img, links, node.level, e);
        NoVerdict(visited);
        j := j - 1;
        var at :- ChildRef(links, e);
        if at.block in visited {
          ghost var child := Child(img, links, node.level, e);
          if child.Some? {
            ThroughSeen(Pending(img, links, node.level, entries[..j], stack + [child.value.1]), at.block, visited);
          }
          return Err(Revisited);
        }
        if at !in img {
          return Err(Unreadable);
        }
        var child := img[at];
        if node.level == 0 || node.level - 1 != child.level {
          return Err(BadLevel);
        }
        ThroughSeen(Pending(img, links, node.level, entries[..j], stack + [child]), at.block, visited);
        assert at.block in blocks;
        visited := visited + {at.block};
        stack := stack + [child];
      }
      AllTaken(img, links, node.level, stack, entries[..j]);
    }
    EmptyStack(img, links, visited, leaves);
    r := Ok(leaves);
  }

  lemma Started(img: Image, links: Links, root: Ref)
    requires root in img
    ensures Meaning(img, links, root) == After([], Verdict(FlattenStack(img, links, [img[root]]), {root.block}))
  {
    var f := Flatten(img, links, img[root]);
    assert [img[root]][..0] == [];
    if f.Some? {
      assert f.value.leaves + [] == f.value.leaves && f.value.blocks + multiset{} == f.value.blocks;
      assert [] + f.value.leaves == f.value.leaves;
    }
  }

  lemma NoVerdict(seen: set<nat>)
    ensures Verdict(None, seen) == None
  {
  }

  lemma EmptyStack(img: Image, links: Links, seen: set<nat>, leaves: seq<Entry>)
    ensures After(leaves, Verdict(FlattenStack(img, links, []), seen)) == Some(leaves)
  {
    assert leaves + [] == leaves;
  }

  /** A node taken off the stack brings what its entries bring. */
  lemma NodeTaken(img: Image, links: Links, stack: seq<Node>, node: Node)
    ensures node.entries == None ==> FlattenStack(img, links, stack + [node]) == None
    ensures node.entries.Some? && !node.leaf ==>
              FlattenStack(img, links, stack + [node]) == Pending(img, links, node.level, node.entries.value, stack)
  {
    StackTop(img, links, stack, node);
  }

  lemma AllTaken(img: Image, links: Links, level: nat, stack: seq<Node>, es: seq<Entry>)
    requires es == []
    ensures Pending(img, links, level, es, stack) == FlattenStack(img, links, stack)
  {
    var f := FlattenStack(img, links, stack);
    if f.Some? {
      assert [] + f.value.leaves == f.value.leaves && multiset{} + f.value.blocks == f.value.blocks;
    }
  }

  lemma ChildOf(img: Image, links: Links, level: nat, e: Entry)
    ensures match ChildRef(links, e)
            case Err(_) => Child(img, links, level, e) == None
            case Ok(at) =>
              Child(img, links, level, e) == if at in img && img[at].level + 1 == level then Some((at.block, img[at])) else None
  {
  }
}

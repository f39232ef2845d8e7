/** Walking a cluster chain: any FAT content, resumed from any position, with loops found. */
module FatChain {
  import opened Wrappers
  import opened Bytes
  import opened FatEntry
  import opened ChainGuard

  /** A FAT with entries for the clusters up to `max`. */
  datatype Fat = Fat(kind: FatKind, bytes: seq<byte>, max: nat) {
    ghost predicate Ok() {
      forall c :: 0 <= c <= max ==> Fits(kind, |bytes|, c)
    }

    /** The cluster after `c`, or how the chain stops there. */
    function Link(c: nat): Result<Option<nat>, ChainError>
      requires c <= max && Ok()
    {
      kind.Next(Stored(kind, bytes, c), max)
    }
  }

  predicate Data(f: Fat, c: nat) {
    FIRST_DATA_CLUSTER <= c <= f.max
  }

  /** The cluster at index `m` of the chain at `first`, if it is that long. */
  function At(f: Fat, first: nat, m: nat): (c: Option<nat>)
    requires f.Ok() && Data(f, first)
    ensures c.Some? ==> Data(f, c.value)
  {
    if m == 0 then Some(first)
    else
      match At(f, first, m - 1)
      case None => None
      case Some(c) =>
        match f.Link(c)
        case Ok(next) => next
        case Err(_) => None
  }

  /** The chain as a walk; past its end it is at -1. */
  ghost function Chain(f: Fat, first: nat): Walk
    requires f.Ok() && Data(f, first)
  {
    (m: nat) => if At(f, first, m).Some? then At(f, first, m).value else -1
  }

  /** The chain ends, or breaks, after index `m`. */
  predicate StopsAt(f: Fat, first: nat, m: nat)
    requires f.Ok() && Data(f, first)
  {
    At(f, first, m).Some? && At(f, first, m + 1) == None
  }

  ghost predicate Cyclic(f: Fat, first: nat)
    requires f.Ok() && Data(f, first)
  {
    forall m: nat :: At(f, first, m).Some?
  }

  // ------------------------------------------------------------------
  // Every chain stops or loops
  // ------------------------------------------------------------------

  lemma {:induction false} StopBefore(f: Fat, first: nat, m: nat)
    requires f.Ok() && Data(f, first) && At(f, first, m) == None
    ensures exists k: nat :: k < m && StopsAt(f, first, k)
  {
    if At(f, first, m - 1) == None {
      StopBefore(f, first, m - 1);
    } else {
      assert StopsAt(f, first, m - 1);
    }
  }

  lemma {:induction false} Earlier(f: Fat, first: nat, k: nat, m: nat)
    requires f.Ok() && Data(f, first) && k <= m && At(f, first, m).Some?
    ensures At(f, first, k).Some?
    decreases m
  {
    if k < m {
      Earlier(f, first, k, m - 1);
    }
  }

  /** Two indexes at one cluster go on alike. */
  lemma {:induction false} Alike(f: Fat, first: nat, i: nat, j: nat, d: nat)
    requires f.Ok() && Data(f, first) && At(f, first, i) == At(f, first, j)
    ensures At(f, first, i + d) == At(f, first, j + d)
    decreases d
  {
    hide Fat.Link, Fat.Ok;
    if d > 0 {
      Alike(f, first, i, j, d - 1);
    }
  }

  /** A chain that stops has no cluster twice. */
  lemma StopsApart(f: Fat, first: nat, m: nat)
    requires f.Ok() && Data(f, first) && StopsAt(f, first, m)
    ensures forall i, j :: 0 <= i < j <= m ==> Chain(f, first)(i) != Chain(f, first)(j)
  {
    hide At, Fat.Ok;
    forall i: nat, j: nat | i < j <= m
      ensures Chain(f, first)(i) != Chain(f, first)(j)
    {
      Earlier(f, first, i, m);
      Earlier(f, first, j, m);
      if At(f, first, i) == At(f, first, j) {
        Alike(f, first, i, j, m + 1 - j);
        Earlier(f, first, i + (m + 1 - j), m);
        assert false;
      }
    }
  }

  /** Numbers below a bound, all different, are no more than the bound. */
  lemma {:induction false} Pigeonhole(s: seq<int>, bound: nat)
    requires forall i :: 0 <= i < |s| ==> 0 <= s[i] < bound
    requires forall i, j :: 0 <= i < j < |s| ==> s[i] != s[j]
    ensures |s| <= bound
    decreases bound
  {
    if s == [] {
    } else if bound - 1 in s {
      assert s[0] < bound;
      var k :| 0 <= k < |s| && s[k] == bound - 1;
      var rest := s[..k] + s[k + 1..];
      assert forall i :: 0 <= i < |rest| ==> rest[i] == s[if i < k then i else i + 1];
      Pigeonhole(rest, bound - 1);
    } else {
      assert s[0] < bound;
      Pigeonhole(s, bound - 1);
    }
  }

  ghost predicate RepeatsBy(w: Walk, len: nat) {
    exists i: nat, j: nat :: i < j <= len && w(i) == w(j)
  }

  lemma {:induction false} FirstRepeat(w: Walk, len: nat) returns (i: nat, j: nat)
    requires RepeatsBy(w, len)
    ensures i < j <= len && w(i) == w(j)
    ensures forall a, b :: 0 <= a < b < j ==> w(a) != w(b)
    decreases len
  {
    if len > 0 && RepeatsBy(w, len - 1) {
      i, j := FirstRepeat(w, len - 1);
    } else {
      i, j :| i < j <= len && w(i) == w(j);
    }
  }

  lemma ManyRepeat(f: Fat, first: nat)
    requires f.Ok() && Data(f, first) && At(f, first, f.max).Some?
    ensures RepeatsBy(Chain(f, first), f.max)
  {
    var w := Chain(f, first);
    if !RepeatsBy(w, f.max) {
      forall i: nat | i <= f.max
        ensures 0 <= w(i) < f.max + 1 && w(i) != 0
      {
        Earlier(f, first, i, f.max);
      }
      var s := seq(f.max + 1, i requires 0 <= i => w(i) - 1);
      Pigeonhole(s, f.max);
      assert false;
    }
  }

  /** From where it comes back to a cluster on, a chain repeats and goes on. */
  lemma Periodic(f: Fat, first: nat, i: nat, j: nat, a: nat)
    requires f.Ok() && Data(f, first) && i < j && At(f, first, j).Some? && At(f, first, i) == At(f, first, j)
    ensures i <= a ==> At(f, first, a + (j - i)) == At(f, first, a)
    ensures At(f, first, a).Some?
  {
    hide At, Fat.Ok;
    if i <= a {
      Alike(f, first, i, j, a - i);
    }
    forall b: nat | i <= b
      ensures At(f, first, b + (j - i)) == At(f, first, b)
    {
      Alike(f, first, i, j, b - i);
    }
    GoesOn(f, first, i, j - i, a);
  }

  /** A chain that comes back to a cluster is a tail and a loop, and never stops. */
  lemma LoopShape(f: Fat, first: nat, i: nat, j: nat)
    requires f.Ok() && Data(f, first) && i < j && At(f, first, j).Some? && At(f, first, i) == At(f, first, j)
    requires forall a, b :: 0 <= a < b < j ==> Chain(f, first)(a) != Chain(f, first)(b)
    ensures Cyclic(f, first) && Rho(Chain(f, first), i, j - i)
  {
    hide At, Fat.Ok, Rho, Chain;
    forall m: nat
      ensures At(f, first, m).Some?
    {
      Periodic(f, first, i, j, m);
    }
    forall a: nat | i <= a
      ensures Chain(f, first)(a + (j - i)) == Chain(f, first)(a)
    {
      Periodic(f, first, i, j, a);
      ChainSame(f, first, a, a + (j - i));
    }
    RhoIntro(Chain(f, first), i, j - i);
  }

  lemma ChainSame(f: Fat, first: nat, a: nat, b: nat)
    requires f.Ok() && Data(f, first) && At(f, first, a) == At(f, first, b)
    ensures Chain(f, first)(a) == Chain(f, first)(b)
  {
  }

  lemma RhoIntro(w: Walk, t: nat, n: nat)
    requires n > 0 && (forall i, j :: 0 <= i < j < t + n ==> w(i) != w(j))
    requires forall i: nat :: t <= i ==> w(i + n) == w(i)
    ensures Rho(w, t, n)
  {
    forall i, j | t <= i && j == i + n
      ensures w(j) == w(i)
    {
      assert w(i + n) == w(i);
    }
  }

  /** A chain stops within `max` clusters or is a tail and a loop of no more clusters than that. */
  lemma ChainShape(f: Fat, first: nat) returns (t: nat, n: nat)
    requires f.Ok() && Data(f, first)
    ensures Cyclic(f, first) ==> Rho(Chain(f, first), t, n) && t + n <= f.max
    ensures !Cyclic(f, first) ==> exists m: nat :: m < f.max && StopsAt(f, first, m)
  {
    hide At, Fat.Ok, Rho;
    t, n := 0, 1;
    if At(f, first, f.max) == None {
      StopBefore(f, first, f.max);
    } else {
      ManyRepeat(f, first);
      var i, j := FirstRepeat(Chain(f, first), f.max);
      t, n := i, j - i;
      Earlier(f, first, i, f.max);
      Earlier(f, first, j, f.max);
      LoopShape(f, first, i, j);
    }
  }

  lemma {:induction false} GoesOn(f: Fat, first: nat, t: nat, n: nat, m: nat)
    requires f.Ok() && Data(f, first) && n > 0 && At(f, first, t + n).Some?
    requires forall a: nat :: t <= a ==> At(f, first, a + n) == At(f, first, a)
    ensures At(f, first, m).Some?
    decreases m
  {
    if m <= t + n {
      Earlier(f, first, m, t + n);
    } else {
      GoesOn(f, first, t, n, m - n);
      assert At(f, first, m - n + n) == At(f, first, m - n);
    }
  }

  // ------------------------------------------------------------------
  // The walk
  // ------------------------------------------------------------------

  /** A known position of a chain, with the guard of the walk that reached it; cluster 0 is none. */
  datatype ChainPos = ChainPos(index: nat, cluster: nat, guard: Saved)

  datatype WalkError = NoCluster | Broken(error: ChainError) | Looped

  /** A position a walk of the chain at `first` reached: no move up to it came back to a mark. */
  ghost predicate Reached(f: Fat, first: nat, pos: ChainPos)
    requires f.Ok() && Data(f, first)
  {
    && At(f, first, pos.index) == Some(pos.cluster)
    && pos.guard == GuardAt(Chain(f, first), pos.index)
    && forall m :: 0 <= m <= pos.index ==> !Meets(Chain(f, first), m)
  }

  lemma StartReached(f: Fat, first: nat)
    requires f.Ok() && Data(f, first)
    ensures Reached(f, first, ChainPos(0, first, Saved(first, 1, 0)))
  {
    assert Block(0) == 0;
  }

  lemma GuardValid(w: Walk, m: nat)
    ensures GuardAt(w, m).steps < GuardAt(w, m).power <= U32_MAX
  {
  }

  /** What a walk towards index `want` may answer. */
  ghost predicate Answer(f: Fat, first: nat, want: nat, r: Result<ChainPos, WalkError>)
    requires f.Ok() && Data(f, first)
  {
    match r
    case Ok(pos) =>
      && Reached(f, first, pos) && pos.index <= want
      && (pos.index < want ==> f.Link(pos.cluster) == Ok(None))
    case Err(NoCluster) => false
    case Err(Broken(error)) =>
      exists m: nat :: m < want && At(f, first, m).Some? && f.Link(At(f, first, m).value) == Err(error)
    case Err(Looped) =>
      exists m: nat :: m <= want && At(f, first, m).Some? && Meets(Chain(f, first), m)
  }

  /** Walks the chain at `first` to index `want`, from `from` when that position helps. */
  method WalkTo(f: Fat, first: nat, from: ChainPos, want: nat) returns (r: Result<ChainPos, WalkError>)
    requires f.Ok() && (from.cluster != 0 ==> Data(f, first) && Reached(f, first, from))
    ensures if from.cluster == 0 && !Data(f, first) then r == Err(NoCluster) else Answer(f, first, want, r)
    ensures r.Ok? && from.cluster != 0 && from.index <= want ==> from.index <= r.value.index
  {
    hide Reached, Fat.Ok, GuardAt, Meets, Answer, At, Chain;
    var at := from;
    if !(from.cluster != 0 && from.index <= want) {
      if from.cluster == 0 && !Data(f, first) {
        return Err(NoCluster);
      }
      at := ChainPos(0, first, Saved(first, 1, 0));
      StartReached(f, first);
    }
    ReachedAt(f, first, at);
    var guard := new ChainGuard.Copy(at.guard);
    while at.index < want
      invariant fresh(guard) && guard.Valid() && guard.Save() == at.guard
      invariant Reached(f, first, at) && at.index <= want
      invariant from.cluster != 0 && from.index <= want ==> from.index <= at.index
      decreases want - at.index
    {
      ReachedAt(f, first, at);
      var link := f.Link(at.cluster);
      match link {
        case Err(error) =>
          BrokenAnswers(f, first, want, at, error);
          return Err(Broken(error));
        case Ok(None) => break;
        case Ok(Some(next)) =>
          NextAt(f, first, at, next);
          assert guard.Follows(Chain(f, first), at.index);
          var ok := guard.Step(next);
          if !ok {
            LoopAnswers(f, first, want, at.index + 1);
            return Err(Looped);
          }
          assert guard.Follows(Chain(f, first), at.index + 1);
          ReachedStep(f, first, at, ChainPos(at.index + 1, next, guard.Save()));
          at := ChainPos(at.index + 1, next, guard.Save());
      }
    }
    ReachedAt(f, first, at);
    EndAnswers(f, first, want, at);
    r := Ok(at);
  }

  lemma NextAt(f: Fat, first: nat, at: ChainPos, next: nat)
    requires f.Ok() && Data(f, first) && At(f, first, at.index) == Some(at.cluster)
    requires Data(f, at.cluster) && f.Link(at.cluster) == Ok(Some(next))
    ensures At(f, first, at.index + 1) == Some(next) && Chain(f, first)(at.index + 1) == next
  {
  }

  lemma BrokenAnswers(f: Fat, first: nat, want: nat, at: ChainPos, error: ChainError)
    requires f.Ok() && Data(f, first) && At(f, first, at.index) == Some(at.cluster) && at.index < want
    requires Data(f, at.cluster) && f.Link(at.cluster) == Err(error)
    ensures Answer(f, first, want, Err(Broken(error)))
  {
  }

  lemma LoopAnswers(f: Fat, first: nat, want: nat, m: nat)
    requires f.Ok() && Data(f, first) && m <= want && At(f, first, m).Some? && Meets(Chain(f, first), m)
    ensures Answer(f, first, want, Err(Looped))
  {
  }

  lemma EndAnswers(f: Fat, first: nat, want: nat, at: ChainPos)
    requires f.Ok() && Data(f, first) && Reached(f, first, at) && at.index <= want && Data(f, at.cluster)
    requires at.index < want ==> f.Link(at.cluster) == Ok(None)
    ensures Answer(f, first, want, Ok(at))
  {
  }

  lemma ReachedAt(f: Fat, first: nat, pos: ChainPos)
    requires f.Ok() && Data(f, first) && Reached(f, first, pos)
    ensures At(f, first, pos.index) == Some(pos.cluster) && Data(f, pos.cluster)
    ensures pos.guard == GuardAt(Chain(f, first), pos.index) && pos.guard.steps < pos.guard.power <= U32_MAX
  {
    GuardValid(Chain(f, first), pos.index);
  }

  lemma ReachedStep(f: Fat, first: nat, pos: ChainPos, next: ChainPos)
    requires f.Ok() && Data(f, first) && Reached(f, first, pos) && next.index == pos.index + 1
    requires At(f, first, next.index) == Some(next.cluster) && next.guard == GuardAt(Chain(f, first), next.index)
    requires !Meets(Chain(f, first), next.index)
    ensures Reached(f, first, next)
  {
    hide At, Fat.Ok, GuardAt, Meets;
  }

  // ------------------------------------------------------------------
  // Chains as they are stored
  // ------------------------------------------------------------------

  predicate Distinct(cs: seq<nat>) {
    forall i, j :: 0 <= i < j < |cs| ==> cs[i] != cs[j]
  }

  /** The value of a cluster's entry, the reserved nibble aside. */
  function Held(f: Fat, c: nat): nat
    requires f.Ok() && c <= f.max
  {
    Stored(f.kind, f.bytes, c) % f.kind.Span()
  }

  /** What the entry of cluster `i` of a chain that ends with `last` holds. */
  function Entry(cs: seq<nat>, last: nat, i: nat): nat {
    if i + 1 < |cs| then cs[i + 1] else last
  }

  /** The entry of each of these clusters holds the next one, and that of the last holds `last`. */
  predicate Linked(f: Fat, cs: seq<nat>, last: nat)
    requires f.Ok()
  {
    && cs != [] && Distinct(cs) && (forall i :: 0 <= i < |cs| ==> Data(f, cs[i]))
    && forall i :: 0 <= i < |cs| ==> Held(f, cs[i]) == Entry(cs, last, i)
  }

  /** A volume of no more clusters than its kind has. */
  predicate Sized(f: Fat) {
    match f.kind
    case Fat12 => f.max <= 0xFF5
    case Fat16 => f.max <= 0xFFF5
    case Fat32 => f.max <= 0x0FFF_FFF6
  }

  lemma LinkOf(f: Fat, c: nat)
    requires f.Ok() && c <= f.max
    ensures var v := Held(f, c);
            EntryValue(f.kind, v)
            && f.Link(c) == if EndMark(f.kind, v) then Ok(None) else if BadMark(f.kind, v) then Err(Bad)
                            else if 2 <= v <= f.max then Ok(Some(v)) else Err(OutOfBounds(v))
  {
    var stored := Stored(f.kind, f.bytes, c);
    var high := stored / 0x1000_0000;
    NextExactly(f.kind, Held(f, c), if f.kind == Fat32 then high else 0, f.max);
  }

  /** Index `m` of a stored chain is its cluster `m`. */
  lemma {:induction false} StoredAt(f: Fat, cs: seq<nat>, last: nat, m: nat)
    requires f.Ok() && Sized(f) && Linked(f, cs, last) && m < |cs|
    ensures At(f, cs[0], m) == Some(cs[m])
  {
    hide Fat.Ok, Fat.Link, Held;
    if m > 0 {
      StoredAt(f, cs, last, m - 1);
      LinkOf(f, cs[m - 1]);
    }
  }

  /** What a walk over a stored chain must answer: its cluster at the index, or what its last entry says. */
  predicate StoredAnswer(f: Fat, cs: seq<nat>, last: nat, want: nat, r: Result<ChainPos, WalkError>)
    requires cs != []
  {
    if want < |cs| then r.Ok? && r.value.index == want && r.value.cluster == cs[want]
    else if EndMark(f.kind, last) then r.Ok? && r.value.index == |cs| - 1 && r.value.cluster == cs[|cs| - 1]
    else if BadMark(f.kind, last) then r == Err(Broken(Bad))
    else r == Err(Broken(OutOfBounds(last)))
  }

  /**
   * However a chain of distinct clusters is walked, it gives its clusters in order, ends at the last for
   * every mark that ends a chain, and breaks there for the bad mark and for a number of no data cluster.
   */
  lemma StoredWalk(f: Fat, cs: seq<nat>, last: nat, want: nat, r: Result<ChainPos, WalkError>)
    requires f.Ok() && Sized(f) && Linked(f, cs, last) && !(2 <= last <= f.max)
    requires Data(f, cs[0]) && Answer(f, cs[0], want, r)
    ensures StoredAnswer(f, cs, last, want, r)
  {
    hide Fat.Ok, Fat.Link, Held, At, GuardAt, Meets, Distinct;
    var first, n := cs[0], |cs| - 1;
    StoredAt(f, cs, last, n);
    LinkOf(f, cs[n]);
    EndStops(f, first, n);
    match r {
      case Ok(pos) =>
        StoredIndex(f, cs, last, pos.index);
        if pos.index < n {
          LinkOf(f, pos.cluster);
        }
      case Err(Broken(error)) =>
        var m: nat :| m < want && At(f, first, m).Some? && f.Link(At(f, first, m).value) == Err(error);
        StoredIndex(f, cs, last, m);
        if m < n {
          LinkOf(f, cs[m]);
        }
      case Err(Looped) =>
        var m: nat :| m <= want && At(f, first, m).Some? && Meets(Chain(f, first), m);
        StoredIndex(f, cs, last, m);
        StopsApart(f, first, n);
        NeverMeets(Chain(f, first), n);
    }
  }

  lemma StoredIndex(f: Fat, cs: seq<nat>, last: nat, m: nat)
    requires f.Ok() && Sized(f) && Linked(f, cs, last) && At(f, cs[0], m).Some? && At(f, cs[0], |cs|) == None
    ensures m < |cs| && At(f, cs[0], m) == Some(cs[m]) && (m + 1 < |cs| ==> Data(f, cs[m + 1]) && Held(f, cs[m]) == cs[m + 1])
  {
    hide At, Held;
    if m >= |cs| {
      Earlier(f, cs[0], |cs|, m);
    }
    StoredAt(f, cs, last, m);
  }

  /** Clusters of a FAT of this many bytes, each named once. */
  predicate Storable(kind: FatKind, len: nat, cs: seq<nat>, max: nat) {
    && cs != [] && Distinct(cs) && Sized(Fat(kind, [], max))
    && (forall i :: 0 <= i < |cs| ==> 2 <= cs[i] <= max) && forall c :: 0 <= c <= max ==> Fits(kind, len, c)
  }

  /** Stores a chain: each cluster's entry names the next, and the last holds `last`. */
  method StoreChain(kind: FatKind, cs: seq<nat>, last: nat, fat: array<byte>, max: nat)
    requires Storable(kind, fat.Length, cs, max) && EntryValue(kind, last)
    modifies fat
    ensures Fat(kind, fat[..], max).Ok() && Linked(Fat(kind, fat[..], max), cs, last)
    ensures forall c :: 0 <= c <= max && c !in cs ==> Stored(kind, fat[..], c) == old(Stored(kind, fat[..], c))
  {
    hide Fits, Stored, EntryValue, Sized, FatKind.Span;
    ghost var was := fat[..];
    for i := 0 to |cs|
      invariant Partly(kind, was, fat[..], cs, last, max, i)
    {
      EntryFits(kind, fat.Length, cs, last, max, i);
      ghost var before := fat[..];
      Encode(kind, cs[i], if i + 1 < |cs| then cs[i + 1] else last, fat);
      PartlyStep(kind, was, before, fat[..], cs, last, max, i);
    }
    PartlyEnd(kind, was, fat[..], cs, last, max);
  }

  /** The entries of the first `i` clusters are stored, and those of no cluster of the chain are as they were. */
  predicate Partly(kind: FatKind, was: seq<byte>, now: seq<byte>, cs: seq<nat>, last: nat, max: nat, i: nat)
    requires i <= |cs| && Storable(kind, |was|, cs, max)
  {
    && |now| == |was|
    && (forall c :: 0 <= c <= max && c !in cs ==> Stored(kind, now, c) == Stored(kind, was, c))
    && forall j :: 0 <= j < i ==> Stored(kind, now, cs[j]) % kind.Span() == Entry(cs, last, j)
  }

  lemma EntryFits(kind: FatKind, len: nat, cs: seq<nat>, last: nat, max: nat, i: nat)
    requires Storable(kind, len, cs, max) && EntryValue(kind, last) && i < |cs|
    ensures Fits(kind, len, cs[i]) && Entry(cs, last, i) < U32 && Entry(cs, last, i) % kind.Span() == Entry(cs, last, i)
  {
    hide Fits;
  }

  lemma PartlyStep(kind: FatKind, was: seq<byte>, before: seq<byte>, now: seq<byte>, cs: seq<nat>, last: nat, max: nat,
                   i: nat)
    requires Storable(kind, |was|, cs, max) && EntryValue(kind, last) && i < |cs|
    requires Partly(kind, was, before, cs, last, max, i) && Updated(kind, before, now, cs[i], Entry(cs, last, i))
    ensures Partly(kind, was, now, cs, last, max, i + 1)
  {
    hide Fits, Stored, EntryValue, Sized, FatKind.Span, Outside, Reserved;
    EntryFits(kind, |was|, cs, last, max, i);
    forall j | 0 <= j < i
      ensures Stored(kind, now, cs[j]) == Stored(kind, before, cs[j])
    {
      assert cs[j] != cs[i];
    }
  }

  lemma PartlyEnd(kind: FatKind, was: seq<byte>, now: seq<byte>, cs: seq<nat>, last: nat, max: nat)
    requires Storable(kind, |was|, cs, max) && Partly(kind, was, now, cs, last, max, |cs|)
    ensures Fat(kind, now, max).Ok() && Linked(Fat(kind, now, max), cs, last)
  {
    hide Fits, Stored, Sized, FatKind.Span;
  }

  /** Stores a chain and walks it. */
  method StoreAndWalk(kind: FatKind, cs: seq<nat>, last: nat, fat: array<byte>, max: nat, want: nat)
    returns (r: Result<ChainPos, WalkError>)
    requires Storable(kind, fat.Length, cs, max) && EntryValue(kind, last) && !(2 <= last <= max)
    modifies fat
    ensures StoredAnswer(Fat(kind, [], max), cs, last, want, r)
  {
    hide Fat.Ok, Linked, EntryValue, Fits, Sized;
    StoreChain(kind, cs, last, fat, max);
    var f := Fat(kind, fat[..], max);
    LinkedStart(f, cs, last);
    r := WalkTo(f, cs[0], ChainPos(0, 0, Saved(0, 1, 0)), want);
    SizedAlike(f, Fat(kind, [], max));
    StoredWalk(f, cs, last, want, r);
  }

  lemma LinkedStart(f: Fat, cs: seq<nat>, last: nat)
    requires f.Ok() && Linked(f, cs, last)
    ensures cs != [] && Data(f, cs[0])
  {
  }

  lemma SizedAlike(f: Fat, g: Fat)
    requires f.kind == g.kind && f.max == g.max
    ensures Sized(f) <==> Sized(g)
  {
  }

  /** A walk that may go on for three times the clusters of the volume finds a loop exactly when there is one. */
  lemma LoopsFound(f: Fat, first: nat, want: nat, r: Result<ChainPos, WalkError>)
    requires f.Ok() && Data(f, first) && Answer(f, first, want, r)
    requires f.max <= f.kind.MaxClusters() + 1 && want >= 3 * f.max
    ensures r == Err(Looped) <==> Cyclic(f, first)
  {
    hide At, Fat.Ok, Rho, Meets, GuardAt;
    var t, n := ChainShape(f, first);
    if Cyclic(f, first) {
      LoopMet(f, first, t, n);
      match r {
        case Ok(pos) =>
          assert At(f, first, pos.index + 1).Some?;
          ReachedAt(f, first, pos);
          EndStops(f, first, pos.index);
        case Err(Broken(error)) =>
          var m: nat :| m < want && At(f, first, m).Some? && f.Link(At(f, first, m).value) == Err(error);
          assert At(f, first, m + 1).Some?;
          EndStops(f, first, m);
        case Err(Looped) =>
      }
    } else if r == Err(Looped) {
      var m: nat :| m <= want && At(f, first, m).Some? && Meets(Chain(f, first), m);
      var k: nat :| k < f.max && StopsAt(f, first, k);
      if k < m {
        Earlier(f, first, k + 1, m);
      }
      StopsApart(f, first, k);
      NeverMeets(Chain(f, first), k);
    }
  }

  lemma LoopMet(f: Fat, first: nat, t: nat, n: nat)
    requires f.Ok() && Data(f, first) && Rho(Chain(f, first), t, n) && t + n <= f.max < 0x4000_0000
    ensures Found(t, n) < 3 * f.max && Meets(Chain(f, first), Found(t, n))
  {
    hide At, Fat.Ok, Meets, Found;
    var k := FoundAt(t, n);
    FirstMeet(Chain(f, first), t, n);
  }

  lemma EndStops(f: Fat, first: nat, m: nat)
    requires f.Ok() && Data(f, first) && At(f, first, m).Some?
    ensures At(f, first, m + 1).Some? <==> f.Link(At(f, first, m).value).Ok? && f.Link(At(f, first, m).value).value.Some?
  {
  }

  /** No index a walk reaches is past three times the clusters of the volume, so it fits 32 bits. */
  lemma IndexSmall(f: Fat, first: nat, pos: ChainPos)
    requires f.Ok() && Data(f, first) && Reached(f, first, pos) && f.max <= f.kind.MaxClusters() + 1
    ensures pos.index < 3 * f.max < U32
  {
    hide At, Fat.Ok, Rho, Meets, GuardAt;
    var t, n := ChainShape(f, first);
    if Cyclic(f, first) {
      LoopMet(f, first, t, n);
    } else {
      var k: nat :| k < f.max && StopsAt(f, first, k);
      if k < pos.index {
        Earlier(f, first, k + 1, pos.index);
      }
    }
  }
}

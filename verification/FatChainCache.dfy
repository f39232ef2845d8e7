/** Remembered positions of cluster chains, and walking a file with them. */
module FatChainCache {
  import opened Wrappers
  import opened FatChain
  import opened ChainGuard

  datatype Position = Position(node: nat, first: nat, at: ChainPos, bucket: nat)

  /** No known position. */
  const NONE: ChainPos := ChainPos(0, 0, Saved(0, 1, 0))

  predicate Known(at: ChainPos) {
    at.cluster != 0
  }

  predicate Keyed(p: Position, node: nat, first: nat, bucket: nat) {
    p.node == node && p.first == first && p.bucket == bucket
  }

  /** What one remembered position must be: a place a walk of its chain reached. */
  ghost predicate Sound(f: Fat, p: Position)
    requires f.Ok()
  {
    Known(p.at) && Data(f, p.first) && Reached(f, p.first, p.at)
  }

  ghost predicate AllSound(f: Fat, entries: seq<Position>)
    requires f.Ok()
  {
    forall k :: 0 <= k < |entries| ==> Sound(f, entries[k])
  }

  /** A position that may start a walk of `first`: none, or one a walk of it reached. */
  ghost predicate Usable(f: Fat, first: nat, at: ChainPos)
    requires f.Ok()
  {
    Known(at) ==> Data(f, first) && Reached(f, first, at)
  }

  class ChainCache {
    const limit: nat
    var next: nat
    var entries: seq<Position>

    constructor (limit: nat)
      ensures Valid() && this.limit == limit && entries == []
    {
      this.limit := limit;
      next, entries := 0, [];
    }

    /** No more positions than the limit, and one for each bucket of a chain. */
    ghost predicate Valid()
      reads this
    {
      && |entries| <= limit && (limit > 0 ==> next < limit)
      && (forall k :: 0 <= k < |entries| ==> Known(entries[k].at))
      && forall j, k :: 0 <= j < k < |entries| ==> !Keyed(entries[j], entries[k].node, entries[k].first, entries[k].bucket)
    }

    method Clear()
      modifies this
      ensures Valid() && entries == []
    {
      next, entries := 0, [];
    }

    /** The furthest position at or before `want`: the hint, or a remembered one of this chain. */
    method Best(node: nat, first: nat, hint: ChainPos, want: nat) returns (best: ChainPos)
      requires Valid()
      ensures Known(best) ==>
                && best.index <= want
                && (best == hint || exists k :: 0 <= k < |entries| && best == entries[k].at
                                                && entries[k].node == node && entries[k].first == first)
      ensures forall k :: 0 <= k < |entries| && entries[k].node == node && entries[k].first == first
                          && entries[k].at.index <= want ==>
                Known(best) && entries[k].at.index <= best.index
      ensures Known(hint) && hint.index <= want ==> Known(best) && hint.index <= best.index
    {
      best := if Known(hint) && hint.index <= want then hint else NONE;
      for j := 0 to |entries|
        invariant Known(best) ==>
                    && best.index <= want
                    && (best == hint || exists k :: 0 <= k < j && best == entries[k].at
                                                    && entries[k].node == node && entries[k].first == first)
        invariant forall k :: 0 <= k < j && entries[k].node == node && entries[k].first == first
                              && entries[k].at.index <= want ==>
                    Known(best) && entries[k].at.index <= best.index
        invariant Known(hint) && hint.index <= want ==> Known(best) && hint.index <= best.index
      {
        var e := entries[j];
        if e.node == node && e.first == first && e.at.index <= want && (!Known(best) || e.at.index > best.index) {
          best := e.at;
        }
      }
    }

    /**
     * What remembering `p` leaves: the earlier of two positions of one bucket; `p` at the end when
     * there is room; and otherwise `p` in place of the one whose turn it is.
     */
    ghost predicate Remembered(was: seq<Position>, turn: nat, p: Position)
      reads this
    {
      if exists k :: 0 <= k < |was| && Keyed(was[k], p.node, p.first, p.bucket) then
        next == turn
        && exists k :: 0 <= k < |was| && Keyed(was[k], p.node, p.first, p.bucket)
                       && entries == if p.at.index < was[k].at.index then was[k := p] else was
      else if |was| < limit then entries == was + [p] && next == turn
      else turn < |was| == limit && entries == was[turn := p] && next == (turn + 1) % limit
    }

    /** Remembers a position: the earliest of its bucket, replacing the longest kept when there is no room. */
    method Insert(node: nat, first: nat, at: ChainPos, stride: nat)
      requires Valid() && stride > 0
      modifies this
      ensures Valid()
      ensures limit == 0 || !Known(at) ==> entries == old(entries)
      ensures limit != 0 && Known(at) ==> Remembered(old(entries), old(next), Position(node, first, at, at.index / stride))
      ensures forall k :: 0 <= k < |entries| ==>
                || (k < |old(entries)| && entries[k] == old(entries)[k])
                || entries[k] == Position(node, first, at, at.index / stride)
    {
      if limit == 0 || !Known(at) {
        return;
      }
      var bucket := at.index / stride;
      for k := 0 to |entries|
        invariant entries == old(entries) && next == old(next)
        invariant forall j :: 0 <= j < k ==> !Keyed(entries[j], node, first, bucket)
      {
        if Keyed(entries[k], node, first, bucket) {
          if at.index < entries[k].at.index {
            entries := entries[k := entries[k].(at := at)];
          }
          return;
        }
      }
      var entry := Position(node, first, at, bucket);
      if |entries| < limit {
        entries := entries + [entry];
      } else {
        entries := entries[next := entry];
        next := (next + 1) % limit;
      }
    }
  }

  /** The start of a chain. */
  function Start(first: nat): ChainPos {
    ChainPos(0, first, Saved(first, 1, 0))
  }

  /**
   * Walks a file's chain to index `want` by way of the remembered positions, remembering more on
   * the way. The answer is one a walk from the chain's start may give.
   */
  method WalkFile(f: Fat, cache: ChainCache, node: nat, first: nat, hint: ChainPos, want: nat, clusters: nat)
    returns (r: Result<ChainPos, WalkError>)
    requires f.Ok() && cache.Valid() && AllSound(f, cache.entries) && Usable(f, first, hint)
    modifies cache
    ensures cache.Valid() && AllSound(f, cache.entries)
    ensures if Data(f, first) then Answer(f, first, want, r) else r == Err(NoCluster)
  {
    hide Fat.Ok, Reached, Answer, ChainCache.Valid, ChainCache.Remembered;
    if cache.limit == 0 {
      r := WalkTo(f, first, hint, want);
      return;
    }
    if Known(hint) && hint.index == want {
      ReachedAnswers(f, first, want, hint);
      return Ok(hint);
    }
    var stride := (clusters + cache.limit - 1) / cache.limit;
    if stride == 0 {
      stride := 1;
    }
    if Known(hint) && hint.index <= want && want - hint.index <= stride {
      r := WalkTo(f, first, hint, want);
      if r.Ok? && r.value.index % stride == 0 {
        AnswerReached(f, first, want, r);
        cache.Insert(node, first, r.value, stride);
      }
      return;
    }
    var at := cache.Best(node, first, hint, want);
    if !Known(at) {
      if !Data(f, first) {
        return Err(NoCluster);
      }
      at := Start(first);
      StartReached(f, first);
    }
    cache.Insert(node, first, at, stride);
    while at.index < want
      invariant cache.Valid() && AllSound(f, cache.entries) && at.index <= want
      invariant Data(f, first) && Reached(f, first, at) && Known(at)
      decreases want - at.index
    {
      var target := (at.index / stride + 1) * stride;
      NextStop(at.index, stride);
      if target > want {
        target := want;
      }
      var walked := WalkTo(f, first, at, target);
      if walked.Err? {
        AnswerWidens(f, first, target, want, walked);
        return walked;
      }
      var reached := walked.value;
      AnswerReached(f, first, target, walked);
      cache.Insert(node, first, reached, stride);
      if reached.index == at.index {
        AnswerWidens(f, first, target, want, walked);
        return walked;
      }
      at := reached;
    }
    ReachedAnswers(f, first, want, at);
    r := Ok(at);
  }

  lemma NextStop(index: nat, stride: nat)
    requires stride > 0
    ensures index < (index / stride + 1) * stride
  {
  }

  lemma ReachedAnswers(f: Fat, first: nat, want: nat, at: ChainPos)
    requires f.Ok() && Data(f, first) && Reached(f, first, at) && at.index == want
    ensures Answer(f, first, want, Ok(at))
  {
  }

  lemma AnswerReached(f: Fat, first: nat, want: nat, r: Result<ChainPos, WalkError>)
    requires f.Ok() && Data(f, first) && Answer(f, first, want, r) && r.Ok?
    ensures Reached(f, first, r.value) && r.value.index <= want && Known(r.value)
    ensures r.value.index < want ==> f.Link(r.value.cluster) == Ok(None)
  {
  }

  /** An answer that stops short of its goal answers any further one too. */
  lemma AnswerWidens(f: Fat, first: nat, target: nat, want: nat, r: Result<ChainPos, WalkError>)
    requires f.Ok() && Data(f, first) && target <= want && Answer(f, first, target, r)
    requires r.Ok? ==> r.value.index < target
    ensures Answer(f, first, want, r)
  {
  }
}

/** The block cache in front of a device: least recently used first out, with a clock that wraps. */
module FatCache {
  import opened Wrappers
  import opened Bytes

  const U64_MAX: nat := U64 - 1

  /** One cached block; a `used` of 0 marks a free slot. */
  datatype Block = Block(index: nat, data: seq<byte>, used: nat)

  predicate Live(b: Block) {
    b.used != 0
  }

  /** Whether slot `s` is live and holds block `i`. */
  predicate HoldsBlock(entries: seq<Block>, s: nat, i: nat)
    requires s < |entries|
  {
    Live(entries[s]) && entries[s].index == i
  }

  ghost predicate Cached(entries: seq<Block>, i: nat) {
    exists s :: 0 <= s < |entries| && HoldsBlock(entries, s, i)
  }

  /** No two live slots hold the same block. */
  ghost predicate Distinct(entries: seq<Block>) {
    forall s, t :: 0 <= s < t < |entries| && Live(entries[s]) && Live(entries[t]) ==> entries[s].index != entries[t].index
  }

  /** Every live slot holds what the device holds. */
  ghost predicate Agrees(entries: seq<Block>, device: seq<seq<byte>>) {
    forall s :: 0 <= s < |entries| && Live(entries[s]) ==>
      entries[s].index < |device| && entries[s].data == device[entries[s].index]
  }

  /** The same blocks in the same slots, whatever their clock values. */
  ghost predicate SameBlocks(was: seq<Block>, later: seq<Block>) {
    && |later| == |was|
    && forall s :: 0 <= s < |was| ==>
         later[s] == was[s].(used := later[s].used) && (Live(later[s]) <==> Live(was[s]))
  }

  /**
   * The clock values tell when each slot was last touched, in ticks since the clock last started,
   * at `start`: from 0, or from 1 after it wrapped (`lap`), when all slots not touched since are at 1.
   */
  ghost predicate Timed(entries: seq<Block>, touched: seq<nat>, clock: nat, now: nat, start: nat, lap: nat) {
    && |touched| == |entries| && start <= now && lap <= 1 && clock == now - start + lap
    && (forall s :: 0 <= s < |entries| && Live(entries[s]) ==>
          touched[s] <= now && entries[s].used == if touched[s] > start then touched[s] - start + lap else lap)
  }

  /**
   * Slot `v` may be evicted: none was touched longer ago, as far as the clock tells. A block touched
   * since the clock wrapped only goes when all of them were, and then it is the least recently touched.
   */
  ghost predicate Oldest(entries: seq<Block>, touched: seq<nat>, start: nat, v: nat)
    requires |touched| == |entries|
  {
    v < |entries| && (touched[v] > start ==> forall t :: 0 <= t < |entries| && Live(entries[t]) ==> touched[v] <= touched[t])
  }

  /** Block `index` went to slot `s`, every other slot keeping its block. */
  ghost predicate Stored(was: seq<Block>, later: seq<Block>, s: nat, index: nat, bytes: seq<byte>) {
    && s < |later| && (|later| == |was| || (s == |was| && |later| == |was| + 1))
    && HoldsBlock(later, s, index) && later[s].data == bytes
    && forall t :: 0 <= t < |was| && t != s ==> later[t] == was[t].(used := later[t].used) && (Live(later[t]) <==> Live(was[t]))
  }

  lemma SameCached(was: seq<Block>, later: seq<Block>, i: nat)
    requires SameBlocks(was, later)
    ensures Cached(later, i) <==> Cached(was, i)
    ensures forall s :: 0 <= s < |was| ==> (HoldsBlock(was, s, i) <==> HoldsBlock(later, s, i))
  {
    forall s | 0 <= s < |was|
      ensures HoldsBlock(was, s, i) <==> HoldsBlock(later, s, i)
    {
      assert later[s] == was[s].(used := later[s].used);
    }
  }

  lemma OldestSame(was: seq<Block>, later: seq<Block>, touched: seq<nat>, start: nat, v: nat)
    requires SameBlocks(was, later) && |touched| == |was|
    ensures Oldest(later, touched, start, v) <==> Oldest(was, touched, start, v)
  {
  }

  /** A block put in its own slot, or anywhere when it was not cached, is still in one slot only. */
  lemma PutDistinct(entries: seq<Block>, s: nat, b: Block)
    requires Distinct(entries) && s <= |entries|
    requires if s < |entries| then HoldsBlock(entries, s, b.index) || !Cached(entries, b.index) else !Cached(entries, b.index)
    ensures Distinct(if s < |entries| then entries[s := b] else entries + [b])
  {
    var later := if s < |entries| then entries[s := b] else entries + [b];
    forall t | 0 <= t < |entries| && t != s && Live(entries[t])
      ensures entries[t].index != b.index
    {
      if entries[t].index == b.index {
        assert HoldsBlock(entries, t, b.index);
      }
    }
  }

  /** A block put in a slot whose others only had their clock values changed. */
  lemma PutStored(was: seq<Block>, mid: seq<Block>, s: nat, b: Block)
    requires SameBlocks(was, mid) && s <= |mid| && Live(b)
    ensures Stored(was, if s < |mid| then mid[s := b] else mid + [b], s, b.index, b.data)
    ensures forall t :: 0 <= t < |was| ==> (Live(mid[t]) <==> Live(was[t]))
    ensures |mid| == |was| && forall t, i :: 0 <= t < |was| ==> (HoldsBlock(mid, t, i) <==> HoldsBlock(was, t, i))
  {
  }

  /** A block put in a slot at the latest clock value. */
  lemma PutTimed(entries: seq<Block>, touched: seq<nat>, clock: nat, now: nat, start: nat, lap: nat, s: nat, b: Block)
    requires Timed(entries, touched, clock, now, start, lap) && s <= |entries| && b.used == clock
    ensures |touched| == |entries|
    ensures Timed(if s < |entries| then entries[s := b] else entries + [b],
                  if s < |entries| then touched[s := now] else touched + [now], clock, now, start, lap)
  {
  }

  class Blocks {
    const limit: nat
    var clock: nat
    var entries: seq<Block>

    /** When each slot was last touched, the ticks so far, and when the clock last started. */
    ghost var touched: seq<nat>
    ghost var now: nat
    ghost var start: nat
    ghost var lap: nat

    constructor (limit: nat)
      ensures Valid() && this.limit == limit && entries == []
    {
      this.limit := limit;
      clock, entries := 0, [];
      touched, now, start, lap := [], 0, 0, 0;
    }

    ghost predicate Valid()
      reads this
    {
      && |entries| <= limit && clock <= U64_MAX && Distinct(entries)
      && Timed(entries, touched, clock, now, start, lap)
    }

    /** The next clock value; at the end of its range every live slot starts again from 1. */
    method Tick() returns (used: nat)
      requires Valid()
      modifies this`clock, this`entries, this`now, this`start, this`lap
      ensures Valid() && SameBlocks(old(entries), entries) && used == clock && now == old(now) + 1
      ensures start == if old(clock) == U64_MAX then old(now) else old(start)
      ensures used == now - start + lap && start < now
    {
      if clock == U64_MAX {
        ghost var was := entries;
        var k := 0;
        while k < |entries|
          modifies this`entries
          invariant k <= |entries| == |was|
          invariant forall s :: 0 <= s < |was| ==>
                      entries[s] == if s < k && Live(was[s]) then was[s].(used := 1) else was[s]
        {
          if Live(entries[k]) {
            entries := entries[k := entries[k].(used := 1)];
          }
          k := k + 1;
        }
        clock := 1;
        start, lap := now, 1;
      }
      clock := clock + 1;
      now := now + 1;
      used := clock;
    }

    /** The slot that holds a block. */
    method Find(index: nat) returns (slot: Option<nat>)
      ensures slot.Some? ==> slot.value < |entries| && HoldsBlock(entries, slot.value, index)
      ensures slot == None ==> !Cached(entries, index)
    {
      for k := 0 to |entries|
        invariant forall s :: 0 <= s < k ==> !HoldsBlock(entries, s, index)
      {
        if HoldsBlock(entries, k, index) {
          return Some(k);
        }
      }
      slot := None;
    }

    /** The first free slot. */
    method FindFree() returns (slot: Option<nat>)
      ensures slot.Some? ==> slot.value < |entries| && !Live(entries[slot.value])
      ensures slot == None ==> forall s :: 0 <= s < |entries| ==> Live(entries[s])
    {
      for k := 0 to |entries|
        invariant forall s :: 0 <= s < k ==> Live(entries[s])
      {
        if !Live(entries[k]) {
          return Some(k);
        }
      }
      slot := None;
    }

    /** The first slot with the smallest clock value. */
    method FindOldest() returns (slot: nat)
      requires Valid() && entries != [] && forall s :: 0 <= s < |entries| ==> Live(entries[s])
      ensures Oldest(entries, touched, start, slot)
    {
      slot := 0;
      for k := 1 to |entries|
        invariant slot < |entries| && forall s :: 0 <= s < k ==> entries[slot].used <= entries[s].used
      {
        if entries[k].used < entries[slot].used {
          slot := k;
        }
      }
    }

    /** A block, if it is cached; that touches it. */
    method Get(index: nat) returns (r: Option<seq<byte>>)
      requires Valid()
      modifies this
      ensures Valid() && SameBlocks(old(entries), entries)
      ensures r.Some? <==> limit != 0 && Cached(old(entries), index)
      ensures r.Some? ==>
                exists s :: 0 <= s < |entries| && HoldsBlock(entries, s, index) && r.value == entries[s].data
                            && touched == old(touched)[s := now]
      ensures r == None ==> touched == old(touched)
    {
      if limit == 0 {
        return None;
      }
      var used := Tick();
      SameCached(old(entries), entries, index);
      var slot := Find(index);
      if slot == None {
        return None;
      }
      var s := slot.value;
      entries := entries[s := entries[s].(used := used)];
      touched := touched[s := now];
      r := Some(entries[s].data);
    }

    /** The slot for a block: its own, else a free one, else, when there is no room for more, the oldest. */
    method Choose(index: nat) returns (slot: Option<nat>)
      requires Valid() && limit != 0
      ensures slot == None ==> !Cached(entries, index) && |entries| < limit
      ensures slot.Some? ==>
                && slot.value < |entries|
                && (Cached(entries, index) ==> HoldsBlock(entries, slot.value, index))
                && (!Cached(entries, index) && Live(entries[slot.value]) ==>
                      |entries| == limit && (forall s :: 0 <= s < limit ==> Live(entries[s]))
                      && Oldest(entries, touched, start, slot.value))
    {
      slot := Find(index);
      if slot == None {
        slot := FindFree();
        if slot == None && |entries| == limit {
          var oldest := FindOldest();
          slot := Some(oldest);
        }
      }
    }

    /** Caches a block in the slot chosen for it. Only a full cache without a free slot loses a block, its oldest. */
    method Insert(index: nat, bytes: seq<byte>) returns (ghost slot: nat)
      requires Valid()
      modifies this
      ensures Valid() && (limit == 0 ==> entries == old(entries))
      ensures limit != 0 ==> Stored(old(entries), entries, slot, index, bytes)
      ensures limit != 0 && slot < |old(entries)| ==>
                && touched == old(touched)[slot := now]
                && (Cached(old(entries), index) ==> HoldsBlock(old(entries), slot, index))
                && (!Cached(old(entries), index) && Live(old(entries)[slot]) ==>
                      |old(entries)| == limit && (forall s :: 0 <= s < limit ==> Live(old(entries)[s]))
                      && Oldest(old(entries), old(touched), start, slot))
      ensures limit != 0 && slot == |old(entries)| ==>
                touched == old(touched) + [now] && !Cached(old(entries), index) && slot < limit
    {
      hide Cached, Distinct, Oldest, Stored, Timed, HoldsBlock, SameBlocks;
      slot := 0;
      if limit == 0 {
        return;
      }
      var used := Tick();
      SameCached(old(entries), entries, index);
      var found := Choose(index);
      ghost var at := if found.Some? then found.value else |entries|;
      PutStored(old(entries), entries, at, Block(index, bytes, used));
      PutTimed(entries, touched, clock, now, start, lap, at, Block(index, bytes, used));
      match found {
        case Some(s) =>
          slot := s;
          OldestSame(old(entries), entries, touched, start, s);
          PutDistinct(entries, s, Block(index, bytes, used));
          entries := entries[s := Block(index, bytes, used)];
          touched := touched[s := now];
        case None =>
          slot := |entries|;
          PutDistinct(entries, slot, Block(index, bytes, used));
          entries := entries + [Block(index, bytes, used)];
          touched := touched + [now];
      }
    }

    /** Frees the slots of the blocks in a range. */
    method Invalidate(first: nat, count: nat)
      requires Valid()
      modifies this`entries
      ensures Valid() && |entries| == |old(entries)|
      ensures forall s :: 0 <= s < |entries| ==>
                entries[s] == if first <= old(entries)[s].index < first + count then old(entries)[s].(used := 0)
                              else old(entries)[s]
    {
      ghost var was := entries;
      var k := 0;
      while k < |entries|
        invariant k <= |entries| == |was|
        invariant forall s :: 0 <= s < |was| ==>
                    entries[s] == if s < k && first <= was[s].index < first + count then was[s].(used := 0) else was[s]
      {
        if first <= entries[k].index < first + count {
          entries := entries[k := entries[k].(used := 0)];
        }
        k := k + 1;
      }
    }

    /** Frees every slot and starts the clock again. */
    method Clear()
      requires Valid()
      modifies this`entries, this`clock, this`start, this`lap
      ensures Valid() && |entries| == |old(entries)| && clock == 0
      ensures forall s :: 0 <= s < |entries| ==> !Live(entries[s])
    {
      var k := 0;
      while k < |entries|
        modifies this`entries
        invariant k <= |entries| == |old(entries)|
        invariant forall s :: 0 <= s < k ==> !Live(entries[s])
      {
        entries := entries[k := entries[k].(used := 0)];
        k := k + 1;
      }
      clock := 0;
      start, lap := now, 0;
    }
  }

  /**
   * A device with its metadata blocks cached. Whether the device fails, and what a failed write
   * leaves of its range, are parameters.
   */
  class MetadataDevice {
    var disk: seq<seq<byte>>
    const blocks: Blocks

    constructor (disk: seq<seq<byte>>, limit: nat)
      ensures Valid() && this.disk == disk && blocks.limit == limit && fresh(blocks)
    {
      this.disk := disk;
      blocks := new Blocks(limit);
    }

    /** Every cached block is what the device holds. */
    ghost predicate Valid()
      reads this, blocks
    {
      blocks.Valid() && Agrees(blocks.entries, disk)
    }

    /** Whether a read is answered without asking the device. */
    ghost predicate Answered(first: nat, count: nat)
      reads blocks
    {
      blocks.limit != 0 && count == 1 && Cached(blocks.entries, first)
    }

    /** Reads blocks; what is answered is what the device holds, and a cached block needs no device. */
    method Read(first: nat, count: nat, fails: bool) returns (r: Option<seq<seq<byte>>>)
      requires Valid()
      modifies blocks
      ensures Valid()
      ensures r.Some? ==> first + count <= |disk| && r.value == disk[first..first + count]
      ensures r.Some? <==> old(Answered(first, count)) || (!fails && first + count <= |disk|)
    {
      hide Blocks.Valid;
      ghost var was := blocks.entries;
      if blocks.limit != 0 && count == 1 {
        var cached := blocks.Get(first);
        SameAgrees(was, blocks.entries, disk);
        if cached.Some? {
          return Some([cached.value]);
        }
      }
      if fails || first + count > |disk| {
        return None;
      }
      if blocks.limit != 0 && count == 1 {
        was := blocks.entries;
        ghost var slot := blocks.Insert(first, disk[first]);
        StoredAgrees(was, blocks.entries, disk, slot, first);
      }
      r := Some(disk[first..first + count]);
    }

    /**
     * Writes blocks, dropping them from the cache before the device sees them. A write past the end
     * is refused and leaves the device alone; one that fails later leaves anything in its range.
     */
    method Write(first: nat, data: seq<seq<byte>>, torn: Option<seq<seq<byte>>>) returns (ok: bool)
      requires Valid() && (torn.Some? ==> |torn.value| == |data|)
      modifies this`disk, blocks
      ensures Valid()
      ensures ok <==> torn == None && first + |data| <= |old(disk)|
      ensures disk ==
              if first + |data| > |old(disk)| then old(disk)
              else old(disk)[..first] + (if ok then data else torn.value) + old(disk)[first + |data|..]
    {
      hide Blocks.Valid;
      ghost var was := blocks.entries;
      if blocks.limit != 0 {
        blocks.Invalidate(first, |data|);
      }
      if first + |data| > |disk| {
        ok := false;
      } else {
        ok := torn == None;
        disk := disk[..first] + (if ok then data else torn.value) + disk[first + |data|..];
      }
      if blocks.limit != 0 {
        FreedAgrees(was, blocks.entries, old(disk), disk, first, |data|);
      } else {
        assert blocks.entries == [] by { NoSlots(); }
      }
    }

    lemma NoSlots()
      requires blocks.Valid() && blocks.limit == 0
      ensures blocks.entries == []
    {
    }
  }

  lemma SameAgrees(was: seq<Block>, later: seq<Block>, disk: seq<seq<byte>>)
    requires SameBlocks(was, later) && Agrees(was, disk)
    ensures Agrees(later, disk)
  {
    forall s | 0 <= s < |later| && Live(later[s])
      ensures later[s].index < |disk| && later[s].data == disk[later[s].index]
    {
      assert later[s] == was[s].(used := later[s].used);
    }
  }

  lemma StoredAgrees(was: seq<Block>, later: seq<Block>, disk: seq<seq<byte>>, slot: nat, index: nat)
    requires Agrees(was, disk) && index < |disk| && Stored(was, later, slot, index, disk[index])
    ensures Agrees(later, disk)
  {
    forall s | 0 <= s < |later| && Live(later[s])
      ensures later[s].index < |disk| && later[s].data == disk[later[s].index]
    {
      if s != slot {
        assert later[s] == was[s].(used := later[s].used);
      }
    }
  }

  /** With the blocks of a range freed, the device may change there. */
  lemma FreedAgrees(was: seq<Block>, later: seq<Block>, disk: seq<seq<byte>>, written: seq<seq<byte>>, first: nat, count: nat)
    requires Agrees(was, disk) && |later| == |was| && |written| == |disk|
    requires forall s :: 0 <= s < |was| ==>
               later[s] == if first <= was[s].index < first + count then was[s].(used := 0) else was[s]
    requires forall i :: 0 <= i < |disk| && !(first <= i < first + count) ==> written[i] == disk[i]
    ensures Agrees(later, written)
  {
  }
}

/** Reading file extents: block by block, against the byte each position maps to. */
module ApfsExtents {
  import opened Wrappers
  import opened Bytes

  /** A run of a file; physical block 0 is a hole. */
  datatype Extent = Extent(id: nat, logical: nat, length: nat, physical: nat, crypto: nat) {
    function End(): nat {
      logical + length
    }

    predicate Covers(pos: nat) {
      logical <= pos < End()
    }
  }

  /** Decrypts a block under a tweak. */
  type Cipher = (seq<byte>, nat) -> seq<byte>

  /** The container: its blocks as far as the device holds them, and the volume key once unlocked. */
  datatype Container = Container(blockSize: nat, blockCount: nat, disk: seq<seq<byte>>, key: Option<Cipher>) {
    ghost predicate Ok() {
      && blockSize >= 512
      && (forall i :: 0 <= i < |disk| ==> |disk[i]| == blockSize)
      && (key.Some? ==> forall b, t: nat :: |key.value(b, t)| == |b|)
    }
  }

  datatype ReadError = AddressOverflow | Encrypted | Outside | Device

  /** Why an extent cannot be read, before anything is. */
  function ExtentFault(c: Container, e: Extent, scoped: bool): Option<ReadError>
    requires c.blockSize > 0
  {
    var blocks := CeilDiv(e.length, c.blockSize);
    if e.End() >= U64 then Some(AddressOverflow)
    else if e.crypto != 0 && (!scoped || c.key == None) then Some(Encrypted)
    else if e.crypto != 0 && (e.crypto + blocks) * (c.blockSize / 512) >= U64 then Some(AddressOverflow)
    else if e.physical != 0 && e.physical + blocks > c.blockCount then Some(Outside)
    else None
  }

  /** The blocks that `length` bytes need. */
  predicate BlocksOf(length: nat, blockSize: nat, blocks: nat) {
    length <= blocks * blockSize && (blocks == 0 || (blocks - 1) * blockSize < length)
  }

  /**
   * The fault of an extent is the first of these: its end, or the end of its tweaks in 512-byte sectors,
   * is no 64-bit number, the key is not there for it, or its bytes end after the container's.
   */
  lemma FaultExactly(c: Container, e: Extent, scoped: bool, blocks: nat)
    requires c.blockSize > 0 && BlocksOf(e.length, c.blockSize, blocks)
    ensures ExtentFault(c, e, scoped) ==
            if e.logical + e.length > 0xFFFF_FFFF_FFFF_FFFF then Some(AddressOverflow)
            else if e.crypto > 0 && !(scoped && c.key.Some?) then Some(Encrypted)
            else if e.crypto > 0 && (e.crypto + blocks) * (c.blockSize / 512) > 0xFFFF_FFFF_FFFF_FFFF then Some(AddressOverflow)
            else if e.physical > 0 && e.physical * c.blockSize + e.length > c.blockCount * c.blockSize then Some(Outside)
            else None
  {
    BlocksAre(e.length, c.blockSize, blocks);
    InsideBytes(e.physical, blocks, c.blockCount, e.length, c.blockSize);
  }

  lemma BlocksAre(length: nat, blockSize: nat, blocks: nat)
    requires blockSize > 0 && BlocksOf(length, blockSize, blocks)
    ensures CeilDiv(length, blockSize) == blocks
  {
    Unique(length + blockSize - 1, blockSize, blocks, length + blockSize - 1 - blocks * blockSize);
  }

  /** Blocks end inside the container exactly when their bytes do. */
  lemma InsideBytes(physical: nat, blocks: nat, count: nat, length: nat, blockSize: nat)
    requires blockSize > 0 && BlocksOf(length, blockSize, blocks)
    ensures physical + blocks <= count <==> physical * blockSize + length <= count * blockSize
  {
    if physical + blocks <= count {
      MulMono(physical + blocks, count, blockSize);
    } else if blocks > 0 {
      MulMono(count, physical + (blocks - 1), blockSize);
    } else {
      MulMono(count + 1, physical, blockSize);
    }
  }

  /** The first fault of a list of extents. */
  function Preflight(c: Container, es: seq<Extent>, scoped: bool): (r: Option<ReadError>)
    requires c.blockSize > 0
    ensures r == None <==> forall k :: 0 <= k < |es| ==> ExtentFault(c, es[k], scoped) == None
    ensures r.Some? ==> exists k :: 0 <= k < |es| && r == ExtentFault(c, es[k], scoped)
  {
    if es == [] then None
    else if ExtentFault(c, es[0], scoped).Some? then ExtentFault(c, es[0], scoped)
    else
      var r := Preflight(c, es[1..], scoped);
      assert forall k :: 1 <= k < |es| ==> es[k] == es[1..][k - 1];
      r
  }

  // ------------------------------------------------------------------
  // The byte at a position
  // ------------------------------------------------------------------

  /** The plain contents of the block at `relative` bytes into an extent. */
  function PlainBlock(c: Container, e: Extent, relative: nat): (b: seq<byte>)
    requires c.Ok() && e.physical + relative / c.blockSize < |c.disk| && (e.crypto != 0 ==> c.key.Some?)
    ensures |b| == c.blockSize
  {
    var n := relative / c.blockSize;
    var raw := c.disk[e.physical + n];
    if e.crypto != 0 then c.key.value(raw, (e.crypto + n) * (c.blockSize / 512)) else raw
  }

  /** Whether the device holds the block a position of an extent maps to. */
  predicate Backed(c: Container, e: Extent, pos: nat)
    requires c.blockSize > 0
  {
    e.Covers(pos) && e.physical + (pos - e.logical) / c.blockSize < |c.disk| && (e.crypto != 0 ==> c.key.Some?)
  }

  /** Whether the device holds every block that this part of an extent maps to. */
  ghost predicate ExtentServed(c: Container, e: Extent, offset: nat, stop: nat)
    requires c.blockSize > 0
  {
    forall pos: nat :: offset <= pos < stop && Shows(e, pos) ==> Backed(c, e, pos)
  }

  /** Whether the device holds every block that the range maps to. */
  ghost predicate Served(c: Container, es: seq<Extent>, offset: nat, n: nat)
    requires c.blockSize > 0
  {
    forall k :: 0 <= k < |es| ==> ExtentServed(c, es[k], offset, offset + n)
  }

  function ExtentByte(c: Container, e: Extent, pos: nat): byte
    requires c.Ok() && Backed(c, e, pos)
  {
    PlainBlock(c, e, pos - e.logical)[(pos - e.logical) % c.blockSize]
  }

  predicate Shows(e: Extent, pos: nat) {
    e.physical != 0 && e.Covers(pos)
  }

  /** The byte at a position: what the last listed extent with data there maps to, or zero. */
  function ByteAt(c: Container, es: seq<Extent>, pos: nat): byte
    requires c.Ok()
  {
    if es == [] then 0
    else
      var e := es[|es| - 1];
      if Shows(e, pos) then (if Backed(c, e, pos) then ExtentByte(c, e, pos) else 0)
      else ByteAt(c, es[..|es| - 1], pos)
  }

  /**
   * Whether `b` is the byte an extent holds at a position: of the block as many blocks on as the
   * position is into the extent, deciphered as the 512-byte sectors of that many blocks on when the
   * extent is encrypted.
   */
  ghost predicate Mapped(c: Container, e: Extent, pos: nat, b: byte)
    requires c.Ok() && e.logical <= pos
  {
    var n, at := (pos - e.logical) / c.blockSize, (pos - e.logical) % c.blockSize;
    && e.physical + n < |c.disk|
    && if e.crypto == 0 then b == c.disk[e.physical + n][at]
       else c.key.Some? && b == c.key.value(c.disk[e.physical + n], (e.crypto + n) * (c.blockSize / 512))[at]
  }

  predicate NoneAt(es: seq<Extent>, pos: nat) {
    forall k :: 0 <= k < |es| ==> !Shows(es[k], pos)
  }

  predicate LastAt(es: seq<Extent>, k: nat, pos: nat) {
    k < |es| && Shows(es[k], pos) && NoneAt(es[k + 1..], pos)
  }

  /** Whether `b` is what a list of extents gives at a position: what the last one with data there holds, or zero. */
  ghost predicate Given(c: Container, es: seq<Extent>, pos: nat, b: byte)
    requires c.Ok()
  {
    (b == 0 && NoneAt(es, pos)) || exists k: nat :: LastAt(es, k, pos) && Mapped(c, es[k], pos, b)
  }

  /** The byte at a position is that, as far as the device holds the block. */
  lemma {:induction false} ByteGiven(c: Container, es: seq<Extent>, pos: nat)
    requires c.Ok() && forall k :: 0 <= k < |es| && Shows(es[k], pos) ==> Backed(c, es[k], pos)
    ensures Given(c, es, pos, ByteAt(c, es, pos))
    decreases |es|
  {
    hide Container.Ok, Mapped, NoneAt;
    NoExtents(pos);
    if es != [] {
      var n := |es| - 1;
      assert es == es[..n] + [es[n]];
      if Shows(es[n], pos) {
        assert es[n + 1..] == [];
        assert LastAt(es, n, pos);
        ExtentMapped(c, es[n], pos);
      } else {
        ByteGiven(c, es[..n], pos);
        if !NoneAt(es[..n], pos) || ByteAt(c, es, pos) != 0 {
          var k: nat :| LastAt(es[..n], k, pos) && Mapped(c, es[..n][k], pos, ByteAt(c, es, pos));
          assert es[k + 1..] == es[..n][k + 1..] + [es[n]];
          NoneMore(es[..n][k + 1..], es[n], pos);
          assert LastAt(es, k, pos);
        } else {
          NoneMore(es[..n], es[n], pos);
        }
      }
    }
  }

  lemma NoExtents(pos: nat)
    ensures NoneAt([], pos)
  {
  }

  lemma NoneMore(es: seq<Extent>, e: Extent, pos: nat)
    requires NoneAt(es, pos) && !Shows(e, pos)
    ensures NoneAt(es + [e], pos)
  {
  }

  lemma ExtentMapped(c: Container, e: Extent, pos: nat)
    requires c.Ok() && Backed(c, e, pos)
    ensures Mapped(c, e, pos, ExtentByte(c, e, pos))
  {
  }

  /** The bytes of a range. */
  function Range(c: Container, es: seq<Extent>, from: nat, n: nat): (s: seq<byte>)
    requires c.Ok()
    ensures |s| == n
  {
    seq<byte>(n, i requires 0 <= i < n => ByteAt(c, es, from + i))
  }

  /** Reads of adjacent ranges compose to one read. */
  lemma RangesCompose(c: Container, es: seq<Extent>, from: nat, a: nat, b: nat)
    requires c.Ok()
    ensures Range(c, es, from, a + b) == Range(c, es, from, a) + Range(c, es, from + a, b)
  {
    var whole, parts := Range(c, es, from, a + b), Range(c, es, from, a) + Range(c, es, from + a, b);
    forall i | 0 <= i < a + b
      ensures whole[i] == parts[i]
    {
      if i >= a {
        assert from + i == from + a + (i - a);
      }
    }
  }

  lemma BlockByte(c: Container, e: Extent, n: nat, start: nat, i: nat)
    requires c.Ok() && e.physical > 0 && start == n * c.blockSize && start + c.blockSize <= e.length && i < c.blockSize
    requires e.physical + n < |c.disk| && (e.crypto != 0 ==> c.key.Some?)
    ensures ByteAt(c, [e], e.logical + start + i) ==
            if e.crypto == 0 then c.disk[e.physical + n][i]
            else c.key.value(c.disk[e.physical + n], (e.crypto + n) * (c.blockSize / 512))[i]
  {
    Unique(start + i, c.blockSize, n, i);
    var pos := e.logical + start + i;
    assert pos - e.logical == start + i;
    assert Shows(e, pos) && Backed(c, e, pos);
    assert ByteAt(c, [e], pos) == ExtentByte(c, e, pos);
  }

  /** Block `n` of an extent reads as that many blocks on from its first on the device, deciphered from there. */
  lemma BlockReads(c: Container, e: Extent, n: nat)
    requires c.Ok() && e.physical > 0 && n * c.blockSize + c.blockSize <= e.length && e.physical + n < |c.disk|
    requires e.crypto != 0 ==> c.key.Some?
    ensures Range(c, [e], e.logical + n * c.blockSize, c.blockSize) ==
            if e.crypto == 0 then c.disk[e.physical + n]
            else c.key.value(c.disk[e.physical + n], (e.crypto + n) * (c.blockSize / 512))
  {
    hide ByteAt;
    var start := n * c.blockSize;
    var got := Range(c, [e], e.logical + start, c.blockSize);
    var block := if e.crypto == 0 then c.disk[e.physical + n]
                 else c.key.value(c.disk[e.physical + n], (e.crypto + n) * (c.blockSize / 512));
    forall i | 0 <= i < c.blockSize
      ensures got[i] == block[i]
    {
      BlockByte(c, e, n, start, i);
    }
  }

  /** The first blocks of an extent, and the rest of it that many blocks on. */
  function FirstBlocks(e: Extent, blockSize: nat, cut: nat): Extent {
    e.(length := cut * blockSize)
  }

  function OtherBlocks(e: Extent, blockSize: nat, cut: nat): Extent
    requires cut * blockSize <= e.length
  {
    Extent(e.id, e.logical + cut * blockSize, e.length - cut * blockSize, e.physical + cut,
           if e.crypto == 0 then 0 else e.crypto + cut)
  }

  /** An extent cut in two at a block reads as before, wherever in a list it stands. */
  lemma {:induction false} CutReads(c: Container, front: seq<Extent>, e: Extent, back: seq<Extent>, cut: nat, pos: nat)
    requires c.Ok() && e.physical > 0 && cut * c.blockSize <= e.length
    ensures ByteAt(c, front + [FirstBlocks(e, c.blockSize, cut), OtherBlocks(e, c.blockSize, cut)] + back, pos)
         == ByteAt(c, front + [e] + back, pos)
    decreases |back|
  {
    hide Container.Ok, ExtentByte, Backed;
    var a, b := FirstBlocks(e, c.blockSize, cut), OtherBlocks(e, c.blockSize, cut);
    if back == [] {
      assert front + [a, b] + back == front + [a] + [b] && front + [e] + back == front + [e];
      assert (front + [a] + [b])[..|front| + 1] == front + [a];
      assert (front + [a])[..|front|] == front && (front + [e])[..|front|] == front;
      CutByte(c, e, cut, pos);
    } else {
      var n := |back| - 1;
      CutReads(c, front, e, back[..n], cut, pos);
      assert (front + [a, b] + back)[..|front| + 2 + n] == front + [a, b] + back[..n];
      assert (front + [e] + back)[..|front| + 1 + n] == front + [e] + back[..n];
    }
  }

  /** Both have the same byte there, or neither has its block. */
  predicate SameByte(c: Container, a: Extent, e: Extent, pos: nat)
    requires c.Ok()
  {
    (Backed(c, a, pos) <==> Backed(c, e, pos)) && (Backed(c, a, pos) ==> ExtentByte(c, a, pos) == ExtentByte(c, e, pos))
  }

  /** Each part holds what the whole did there. */
  lemma CutByte(c: Container, e: Extent, cut: nat, pos: nat)
    requires c.Ok() && e.physical > 0 && cut * c.blockSize <= e.length
    ensures var a, b := FirstBlocks(e, c.blockSize, cut), OtherBlocks(e, c.blockSize, cut);
            && (Shows(e, pos) <==> Shows(a, pos) || Shows(b, pos)) && !(Shows(a, pos) && Shows(b, pos))
            && (Shows(a, pos) ==> SameByte(c, a, e, pos)) && (Shows(b, pos) ==> SameByte(c, b, e, pos))
  {
    hide Backed, ExtentByte, Container.Ok;
    var a, b := FirstBlocks(e, c.blockSize, cut), OtherBlocks(e, c.blockSize, cut);
    if Shows(a, pos) {
      FirstSame(c, a, e, pos);
    }
    if Shows(b, pos) {
      OtherSame(c, b, e, cut, pos);
    }
  }

  lemma FirstSame(c: Container, a: Extent, e: Extent, pos: nat)
    requires c.Ok() && (a.logical, a.physical, a.crypto) == (e.logical, e.physical, e.crypto)
    requires a.Covers(pos) && e.Covers(pos)
    ensures SameByte(c, a, e, pos)
  {
    hide Container.Ok;
  }

  lemma OtherSame(c: Container, b: Extent, e: Extent, cut: nat, pos: nat)
    requires c.Ok() && b.Covers(pos) && e.Covers(pos) && b.logical == e.logical + cut * c.blockSize
    requires b.physical == e.physical + cut && b.crypto == if e.crypto == 0 then 0 else e.crypto + cut
    ensures SameByte(c, b, e, pos)
  {
    hide Container.Ok;
    BlockSize(c);
    var r := pos - b.logical;
    Unique(r + cut * c.blockSize, c.blockSize, r / c.blockSize + cut, r % c.blockSize);
    assert pos - e.logical == r + cut * c.blockSize;
  }

  /** When all extents with data at a position are one, the byte is the one it maps to. */
  lemma {:induction false} OnlyOne(c: Container, es: seq<Extent>, e: Extent, pos: nat)
    requires c.Ok() && forall x :: x in es && Shows(x, pos) ==> x == e
    ensures ByteAt(c, es, pos) ==
            if e in es && Shows(e, pos) && Backed(c, e, pos) then ExtentByte(c, e, pos) else 0
    ensures e in es && Shows(e, pos) && Backed(c, e, pos) ==> Mapped(c, e, pos, ByteAt(c, es, pos))
    decreases |es|
  {
    hide Mapped;
    if e in es && Shows(e, pos) && Backed(c, e, pos) {
      ExtentMapped(c, e, pos);
    }
    if es != [] {
      var front, last := es[..|es| - 1], es[|es| - 1];
      assert es == front + [last];
      if !Shows(last, pos) {
        OnlyOne(c, front, e, pos);
      } else {
        assert last in es;
      }
    }
  }

  // ------------------------------------------------------------------
  // Reading
  // ------------------------------------------------------------------

  /** How many bytes a read of `len` bytes at `offset` gives. */
  function Want(size: nat, offset: nat, len: nat): (n: nat)
    ensures n <= len && (n > 0 ==> offset + n <= size) && (n == len || offset + n >= size)
  {
    if offset >= size then 0 else if offset + len < size then len else size - offset
  }

  /** What is in the buffer while extent `k` is copied up to `pos`. */
  ghost predicate Filled(c: Container, es: seq<Extent>, k: nat, pos: nat, offset: nat, want: nat, buf: seq<byte>)
    requires c.Ok() && k < |es| && want <= |buf|
  {
    forall i :: 0 <= i < want ==>
      buf[i] == ByteAt(c, if offset + i < pos then es[..k + 1] else es[..k], offset + i)
  }

  /** A stretch of one block copied extends what is filled. */
  lemma CopyFills(c: Container, es: seq<Extent>, k: nat, pos: nat, n: nat, offset: nat, want: nat,
                  was: seq<byte>, now: seq<byte>)
    requires c.Ok() && k < |es| && want <= |was| == |now| && offset <= pos && pos + n <= offset + want && n > 0
    requires es[k].physical != 0 && es[k].logical <= pos && pos + n <= es[k].End()
    requires (pos - es[k].logical) % c.blockSize + n <= c.blockSize
    requires Backed(c, es[k], pos)
    requires Filled(c, es, k, pos, offset, want, was)
    requires var within := (pos - es[k].logical) % c.blockSize;
             var block := PlainBlock(c, es[k], pos - es[k].logical);
             forall i :: 0 <= i < |was| ==>
               now[i] == if pos - offset <= i < pos - offset + n then block[within + (i - (pos - offset))] else was[i]
    ensures Filled(c, es, k, pos + n, offset, want, now)
  {
    hide PlainBlock, Container.Ok;
    var e := es[k];
    assert es[..k + 1][..k] == es[..k];
    forall i | 0 <= i < want
      ensures now[i] == ByteAt(c, if offset + i < pos + n then es[..k + 1] else es[..k], offset + i)
    {
      if pos <= offset + i < pos + n {
        SameBlock(c, e, pos, offset + i);
      }
    }
  }

  /** Positions of one block share it. */
  lemma SameBlock(c: Container, e: Extent, pos: nat, at: nat)
    requires c.Ok() && e.logical <= pos <= at < e.End() && (pos - e.logical) % c.blockSize + (at - pos) < c.blockSize
    requires Backed(c, e, pos)
    ensures Backed(c, e, at)
    ensures ExtentByte(c, e, at) == PlainBlock(c, e, pos - e.logical)[(pos - e.logical) % c.blockSize + (at - pos)]
  {
    var b, r, d := c.blockSize, pos - e.logical, at - pos;
    SameQuotient(r, d, b);
  }

  lemma SameQuotient(r: nat, d: nat, b: nat)
    requires b > 0 && r % b + d < b
    ensures (r + d) / b == r / b && (r + d) % b == r % b + d
  {
    var q, m := r / b, r % b + d;
    assert r + d == q * b + m;
    Unique(r + d, b, q, m);
  }

  lemma Unique(x: nat, b: nat, q: nat, m: nat)
    requires b > 0 && m < b && x == q * b + m
    ensures x / b == q && x % b == m
  {
    var k := x / b - q;
    assert k * b == m - x % b;
    assert (-k) * b == -(k * b);
    if k >= 1 {
      MulAtLeast(k, b);
    } else if k <= -1 {
      MulAtLeast(-k, b);
    }
  }

  lemma MulAtLeast(k: nat, b: nat)
    requires k >= 1
    ensures k * b >= b
  {
  }

  /** Every position of an extent that passed has its block inside the container. */
  lemma InContainer(c: Container, e: Extent, scoped: bool, pos: nat)
    requires c.blockSize > 0 && ExtentFault(c, e, scoped) == None && Shows(e, pos)
    ensures e.physical + (pos - e.logical) / c.blockSize < c.blockCount && (e.crypto != 0 ==> c.key.Some?)
  {
    var b, r := c.blockSize, pos - e.logical;
    var q := CeilDiv(e.length, b);
    assert q * b > e.length + b - 1 - b;
    assert r / b * b <= r;
    if r / b >= q {
      MulMono(q, r / b, b);
    }
  }

  /**
   * Reads into `buf` from `offset`. Every byte given is the one its position maps to; a fault found
   * before reading leaves the buffer as it was. After that it fails exactly when the device lacks a
   * block of the range, and then it holds less than the container should.
   */
  method ReadExtents(c: Container, es: seq<Extent>, size: nat, offset: nat, buf: array<byte>, scoped: bool)
    returns (r: Result<nat, ReadError>)
    requires c.Ok() && size < U64
    modifies buf
    ensures Want(size, offset, buf.Length) == 0 ==> r == Ok(0) && buf[..] == old(buf[..])
    ensures Want(size, offset, buf.Length) > 0 && Preflight(c, es, scoped).Some? ==>
              r == Err(Preflight(c, es, scoped).value) && buf[..] == old(buf[..])
    ensures Want(size, offset, buf.Length) > 0 && Preflight(c, es, scoped) == None ==>
              match r
              case Ok(n) =>
                n == Want(size, offset, buf.Length) && Served(c, es, offset, n)
                && (forall i :: 0 <= i < n ==> Given(c, es, offset + i, buf[i]))
                && buf[..n] == Range(c, es, offset, n) && buf[n..] == old(buf[n..])
              case Err(error) =>
                error == Device && !Served(c, es, offset, Want(size, offset, buf.Length)) && |c.disk| < c.blockCount
  {
    hide PlainBlock, Container.Ok, ByteAt, ExtentFault, Backed, Served, Given;
    if offset >= size || buf.Length == 0 {
      return Ok(0);
    }
    BlockSize(c);
    var fault := CheckExtents(c, es, scoped);
    if fault.Some? {
      return Err(fault.value);
    }
    var want := Want(size, offset, buf.Length);
    forall i | 0 <= i < want {
      buf[i] := 0;
    }
    ghost var tail := old(buf[want..]);
    NothingShown(c);
    NoneServed(c, offset, want);
    for k := 0 to |es|
      invariant Served(c, es[..k], offset, want)
      invariant forall i :: 0 <= i < want ==> buf[i] == ByteAt(c, es[..k], offset + i)
      invariant buf[want..] == tail
    {
      assert ExtentFault(c, es[k], scoped) == None;
      var e := es[k];
      ServedStep(c, es, k, offset, want);
      if e.physical == 0 {
        HoleAdds(c, es, k);
        continue;
      }
      var ok := ReadExtent(c, es, k, offset, want, buf, scoped);
      if !ok {
        return Err(Device);
      }
    }
    assert es[..|es|] == es;
    RangeGiven(c, es, offset, want);
    assert buf[..want] == Range(c, es, offset, want);
    r := Ok(want);
  }

  lemma RangeGiven(c: Container, es: seq<Extent>, offset: nat, n: nat)
    requires c.Ok() && Served(c, es, offset, n)
    ensures forall i :: 0 <= i < n ==> Given(c, es, offset + i, Range(c, es, offset, n)[i])
  {
    hide Given, ByteAt, Container.Ok, Backed, Shows;
    BlockSize(c);
    forall i | 0 <= i < n
      ensures Given(c, es, offset + i, Range(c, es, offset, n)[i])
    {
      assert forall k :: 0 <= k < |es| ==> ExtentServed(c, es[k], offset, offset + n);
      ByteGiven(c, es, offset + i);
    }
  }

  lemma BlockSize(c: Container)
    requires c.Ok()
    ensures c.blockSize >= 512
  {
  }

  lemma NothingShown(c: Container)
    requires c.Ok()
    ensures forall pos: nat :: ByteAt(c, [], pos) == 0
  {
  }

  lemma HoleAdds(c: Container, es: seq<Extent>, k: nat)
    requires c.Ok() && k < |es| && es[k].physical == 0
    ensures forall pos :: ByteAt(c, es[..k + 1], pos) == ByteAt(c, es[..k], pos)
  {
    assert es[..k + 1][..k] == es[..k];
  }

  lemma NoneServed(c: Container, offset: nat, n: nat)
    requires c.blockSize > 0
    ensures Served(c, [], offset, n)
  {
  }

  lemma ServedStep(c: Container, es: seq<Extent>, k: nat, offset: nat, n: nat)
    requires c.blockSize > 0 && k < |es| && Served(c, es[..k], offset, n)
    ensures Served(c, es[..k + 1], offset, n) <==> ExtentServed(c, es[k], offset, offset + n)
    ensures Served(c, es, offset, n) ==> ExtentServed(c, es[k], offset, offset + n)
  {
    hide ExtentServed;
    assert es[..k + 1] == es[..k] + [es[k]];
  }

  /** A stretch of one block that the device holds is served. */
  lemma StretchServed(c: Container, e: Extent, offset: nat, pos: nat, n: nat)
    requires c.Ok() && Backed(c, e, pos) && ExtentServed(c, e, offset, pos)
    requires (pos - e.logical) % c.blockSize + n <= c.blockSize
    ensures ExtentServed(c, e, offset, pos + n)
  {
    hide Container.Ok, Backed;
    BlockSize(c);
    forall at: nat | offset <= at < pos + n && Shows(e, at)
      ensures Backed(c, e, at)
    {
      if at >= pos {
        assert e.Covers(pos) by { BackedCovers(c, e, pos); }
        SameBlock(c, e, pos, at);
      }
    }
  }

  lemma BackedCovers(c: Container, e: Extent, pos: nat)
    requires c.blockSize > 0 && Backed(c, e, pos)
    ensures e.Covers(pos)
  {
  }

  /** Checks every extent before anything is read. */
  method CheckExtents(c: Container, es: seq<Extent>, scoped: bool) returns (fault: Option<ReadError>)
    requires c.blockSize > 0
    ensures fault == Preflight(c, es, scoped)
  {
    hide ExtentFault;
    for k := 0 to |es|
      invariant Preflight(c, es, scoped) == Preflight(c, es[k..], scoped)
    {
      assert es[k..][1..] == es[k + 1..];
      var f := ExtentFault(c, es[k], scoped);
      if f.Some? {
        return f;
      }
    }
    fault := None;
  }

  /** Copies one extent's part of the range, a stretch of a block at a time. */
  method ReadExtent(c: Container, es: seq<Extent>, k: nat, offset: nat, want: nat, buf: array<byte>, scoped: bool)
    returns (ok: bool)
    requires c.Ok() && k < |es| && want <= buf.Length && es[k].physical != 0 && c.blockSize > 0
    requires ExtentFault(c, es[k], scoped) == None
    requires forall i :: 0 <= i < want ==> buf[i] == ByteAt(c, es[..k], offset + i)
    modifies buf
    ensures buf[want..] == old(buf[want..])
    ensures ok ==> forall i :: 0 <= i < want ==> buf[i] == ByteAt(c, es[..k + 1], offset + i)
    ensures ok <==> ExtentServed(c, es[k], offset, offset + want)
    ensures !ok ==> |c.disk| < c.blockCount
  {
    hide PlainBlock, Container.Ok, ByteAt, ExtentFault, Filled, ExtentServed;
    var e := es[k];
    var pos := if e.logical > offset then e.logical else offset;
    var stop := if e.End() < offset + want then e.End() else offset + want;
    FillStart(c, es, k, pos, offset, want, buf[..]);
    StartServed(c, e, offset, pos);
    while pos < stop
      invariant e.logical <= pos && offset <= pos
      invariant ExtentServed(c, e, offset, pos)
      invariant Filled(c, es, k, pos, offset, want, buf[..]) && buf[want..] == old(buf[want..])
    {
      var relative := pos - e.logical;
      InContainer(c, e, scoped, pos);
      if e.physical + relative / c.blockSize >= |c.disk| {
        NotServed(c, e, offset, offset + want, pos);
        return false;
      }
      var block := PlainBlock(c, e, relative);
      var within := relative % c.blockSize;
      var n := if c.blockSize - within < stop - pos then c.blockSize - within else stop - pos;
      var out := pos - offset;
      ghost var was := buf[..];
      forall i | 0 <= i < n {
        buf[out + i] := block[within + i];
      }
      CopyFills(c, es, k, pos, n, offset, want, was, buf[..]);
      StretchServed(c, e, offset, pos, n);
      pos := pos + n;
    }
    FillEnd(c, es, k, pos, offset, want, buf[..]);
    EndServed(c, e, offset, pos, offset + want);
    ok := true;
  }

  lemma StartServed(c: Container, e: Extent, offset: nat, pos: nat)
    requires c.blockSize > 0 && pos == if e.logical > offset then e.logical else offset
    ensures ExtentServed(c, e, offset, pos)
  {
  }

  lemma EndServed(c: Container, e: Extent, offset: nat, pos: nat, stop: nat)
    requires c.blockSize > 0 && ExtentServed(c, e, offset, pos) && pos >= if e.End() < stop then e.End() else stop
    ensures ExtentServed(c, e, offset, stop)
  {
  }

  lemma NotServed(c: Container, e: Extent, offset: nat, stop: nat, pos: nat)
    requires c.blockSize > 0 && offset <= pos < stop && Shows(e, pos)
    requires e.physical + (pos - e.logical) / c.blockSize >= |c.disk|
    ensures !ExtentServed(c, e, offset, stop)
  {
  }

  lemma FillStart(c: Container, es: seq<Extent>, k: nat, pos: nat, offset: nat, want: nat, buf: seq<byte>)
    requires c.Ok() && k < |es| && want <= |buf| && pos == if es[k].logical > offset then es[k].logical else offset
    requires forall i :: 0 <= i < want ==> buf[i] == ByteAt(c, es[..k], offset + i)
    ensures Filled(c, es, k, pos, offset, want, buf)
  {
    assert es[..k + 1][..k] == es[..k];
  }

  lemma FillEnd(c: Container, es: seq<Extent>, k: nat, pos: nat, offset: nat, want: nat, buf: seq<byte>)
    requires c.Ok() && k < |es| && want <= |buf| && pos >= if es[k].End() < offset + want then es[k].End() else offset + want
    requires Filled(c, es, k, pos, offset, want, buf)
    ensures forall i :: 0 <= i < want ==> buf[i] == ByteAt(c, es[..k + 1], offset + i)
  {
    assert es[..k + 1][..k] == es[..k];
  }
}

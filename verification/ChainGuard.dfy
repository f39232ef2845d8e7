/** Cycle detection along a chain of clusters: Brent's algorithm with saturating counters. */
module ChainGuard {
  import opened Bytes

  const U32_MAX: nat := U32 - 1

  /** The clusters of a walk, move by move; move 0 is the first cluster. */
  type Walk = nat -> int

  function Min(a: nat, b: nat): nat {
    if a < b then a else b
  }

  /** The length of block `k`: a power of two, as far as 32 bits hold it. */
  function Power(k: nat): (p: nat)
    ensures 0 < p <= U32_MAX
  {
    if k == 0 then 1 else Min(2 * Power(k - 1), U32_MAX)
  }

  /** The move at which block `k` starts, where the mark is set. */
  function Mark(k: nat): (m: nat)
    ensures k <= m
  {
    if k == 0 then 0 else Mark(k - 1) + Power(k - 1)
  }

  /** The block that move `m` is in. */
  function Block(m: nat): (k: nat)
    ensures Mark(k) <= m < Mark(k + 1)
  {
    if m == 0 then 0
    else
      var k := Block(m - 1);
      if m == Mark(k + 1) then k + 1 else k
  }

  /** The guard of a walk after `m` moves. */
  ghost function GuardAt(w: Walk, m: nat): Saved {
    var k := Block(m);
    Saved(w(Mark(k)), Power(k), m - Mark(k))
  }

  /** The guard of a position in a chain, kept to resume from it. */
  datatype Saved = Saved(mark: int, power: nat, steps: nat)

  class ChainGuard {
    var mark: int
    var power: nat
    var steps: nat

    constructor (first: int)
      ensures Valid() && Save() == Saved(first, 1, 0)
      ensures forall w: Walk :: w(0) == first ==> Follows(w, 0)
    {
      mark, power, steps := first, 1, 0;
    }

    /** A copy of the guard of an earlier position. */
    constructor Copy(guard: Saved)
      requires guard.steps < guard.power <= U32_MAX
      ensures Valid() && Save() == guard
    {
      mark, power, steps := guard.mark, guard.power, guard.steps;
    }

    function Save(): Saved
      reads this
    {
      Saved(mark, power, steps)
    }

    /** The counters never leave 32 bits. */
    predicate Valid()
      reads this
    {
      steps < power <= U32_MAX
    }

    /** The guard has seen the moves of `w` up to `m`. */
    ghost predicate Follows(w: Walk, m: nat)
      reads this
    {
      Save() == GuardAt(w, m)
    }

    /** Records a move. False when the walk is back at the cluster of the mark. */
    method Step(cluster: int) returns (ok: bool)
      requires Valid()
      modifies this
      ensures Valid()
      ensures ok <==> cluster != old(mark)
      ensures forall w: Walk, m: nat :: old(Follows(w, m)) && w(m + 1) == cluster ==>
                (ok <==> !Meets(w, m + 1)) && (ok ==> Follows(w, m + 1))
    {
      if cluster == mark {
        return false;
      }
      steps := steps + 1;
      if steps == power {
        mark := cluster;
        power := Min(2 * power, U32_MAX);
        steps := 0;
      }
      return true;
    }
  }

  /** Whether move `m` comes back to the mark set before it. */
  ghost predicate Meets(w: Walk, m: nat) {
    m > 0 && w(m) == w(Mark(Block(m - 1)))
  }

  // ------------------------------------------------------------------
  // Where a loop is found
  // ------------------------------------------------------------------

  /** A walk that passes `t` clusters and then goes round a loop of `n`. */
  ghost predicate Rho(w: Walk, t: nat, n: nat) {
    && n > 0
    && (forall i, j :: 0 <= i < j < t + n ==> w(i) != w(j))
    && (forall i, j :: t <= i && j == i + n ==> w(j) == w(i))
  }

  /** Two moves of such a walk are at the same cluster exactly when a multiple of the loop apart, in the loop. */
  lemma {:induction false} SameCluster(w: Walk, t: nat, n: nat, i: nat, j: nat)
    requires Rho(w, t, n) && i < j <= i + n
    ensures w(i) == w(j) <==> t <= i && j == i + n
    decreases j
  {
    if j >= t + n {
      assert w(j) == w(j - n);
      if i >= t + n {
        assert w(i) == w(i - n);
        SameCluster(w, t, n, i - n, j - n);
      } else if j - n < i {
        if i < t {
        } else {
          assert j - n != i;
        }
      }
    }
  }

  lemma {:induction false} LongLoop(w: Walk, t: nat, n: nat, i: nat, j: nat)
    requires Rho(w, t, n) && i < j && w(i) == w(j)
    ensures t <= i && i + n <= j
    decreases j
  {
    if j <= i + n {
      SameCluster(w, t, n, i, j);
    } else {
      assert j >= t + n;
      assert w(j) == w(j - n);
      LongLoop(w, t, n, i, j - n);
    }
  }

  /** The first block that starts in the loop and is as long as it. */
  function Catch(t: nat, n: nat, from: nat): (k: nat)
    requires n <= U32_MAX
    ensures from <= k && Mark(k) >= t && Power(k) >= n
    decreases t + 32 - from
  {
    if Mark(from) >= t && Power(from) >= n then from
    else
      PowerAt(from);
      Catch(t, n, from + 1)
  }

  lemma {:induction false} CatchLeast(t: nat, n: nat, from: nat, j: nat)
    requires n <= U32_MAX && from <= j < Catch(t, n, from)
    ensures Mark(j) < t || Power(j) < n
    decreases j - from
  {
    hide Mark, Power;
    if from < j {
      CatchLeast(t, n, from + 1, j);
    }
  }

  /** Up to block 31 the powers are exact; from block 32 on they are saturated. */
  lemma {:induction false} PowerAt(k: nat)
    ensures k <= 31 ==> Power(k) == Pow(2, k) && Mark(k) == Pow(2, k) - 1
    ensures k >= 32 ==> Power(k) == U32_MAX
    decreases k
  {
    hide Pow, Power, Mark;
    Pow2(k);
    PowerStep(k);
    if k > 0 {
      PowerAt(k - 1);
      if k <= 31 {
        PowGrows(k, 31);
      }
      if k == 32 {
        Pow31();
      }
    }
  }

  lemma PowerStep(k: nat)
    ensures if k == 0 then Power(k) == 1 && Mark(k) == 0
            else Power(k) == Min(2 * Power(k - 1), U32_MAX) && Mark(k) == Mark(k - 1) + Power(k - 1)
  {
  }

  lemma {:induction false} PowGrows(k: nat, j: nat)
    requires k <= j <= 31
    ensures Pow(2, k) <= Pow(2, j) && Pow(2, 31) == 0x8000_0000
    decreases j - k
  {
    Pow31();
    if k < j {
      PowGrows(k, j - 1);
    }
  }

  lemma Pow2(k: nat)
    ensures Pow(2, 0) == 1 && (k > 0 ==> Pow(2, k) == 2 * Pow(2, k - 1))
  {
  }

  lemma Pow31()
    ensures Pow(2, 31) == 0x8000_0000
  {
    assert Pow(2, 8) == 256;
    assert Pow(2, 16) == 65536;
    assert Pow(2, 24) == 0x100_0000;
  }

  /** The move at which a loop is found. */
  function Found(t: nat, n: nat): nat
    requires n <= U32_MAX
  {
    Mark(Catch(t, n, 0)) + n
  }

  lemma {:induction false} MarkGrows(j: nat, k: nat)
    requires j <= k
    ensures Mark(j) <= Mark(k) && (j < k ==> Mark(j + 1) <= Mark(k))
    decreases k - j
  {
    if j < k {
      MarkGrows(j + 1, k);
    }
  }

  lemma MarkStep(k: nat)
    ensures Mark(k + 1) == Mark(k) + Power(k)
  {
  }

  lemma BlockIs(k: nat, m: nat)
    requires Mark(k) <= m < Mark(k + 1)
    ensures Block(m) == k
  {
    if Block(m) < k {
      MarkGrows(Block(m), k);
    } else if k < Block(m) {
      MarkGrows(k, Block(m));
    }
  }

  /** A loop is found at exactly that move, and at none before it. */
  lemma FirstMeet(w: Walk, t: nat, n: nat)
    requires Rho(w, t, n) && n <= U32_MAX
    ensures Meets(w, Found(t, n))
    ensures forall m :: 0 <= m < Found(t, n) ==> !Meets(w, m)
  {
    hide Mark, Power, Catch;
    var k := Catch(t, n, 0);
    var d := Found(t, n);
    assert Mark(k + 1) == Mark(k) + Power(k) by { MarkStep(k); }
    BlockIs(k, d - 1);
    SameCluster(w, t, n, Mark(k), d);
    forall m | 0 <= m < d
      ensures !Meets(w, m)
    {
      if m > 0 && Meets(w, m) {
        var b := Block(m - 1);
        LongLoop(w, t, n, Mark(b), m);
        MarkStep(b);
        if b < k {
          CatchLeast(t, n, 0, b);
        } else {
          MarkGrows(k, b);
        }
      }
    }
  }

  /** A walk that never repeats is never stopped. */
  lemma NeverMeets(w: Walk, len: nat)
    requires forall i, j :: 0 <= i < j <= len ==> w(i) != w(j)
    ensures forall m :: 0 <= m <= len ==> !Meets(w, m)
  {
  }

  /** A loop too long for the counters is never found. */
  lemma NeverFound(w: Walk, t: nat, n: nat, m: nat)
    requires Rho(w, t, n) && n > U32_MAX
    ensures !Meets(w, m)
  {
    if Meets(w, m) {
      LongLoop(w, t, n, Mark(Block(m - 1)), m);
    }
  }

  /** With fewer than 2^31 clusters the move is `2^k - 1 + n`, `k` least with `2^k - 1 >= t` and `2^k >= n`. */
  lemma FoundAt(t: nat, n: nat) returns (k: nat)
    requires 0 < n && t + n < 0x8000_0000
    ensures Found(t, n) == Pow(2, k) - 1 + n && Pow(2, k) - 1 >= t && Pow(2, k) >= n
    ensures forall j: nat :: j < k ==> Pow(2, j) - 1 < t || Pow(2, j) < n
    ensures Found(t, n) < 2 * (if t < n then n else t) + n
  {
    hide Mark, Power, Catch, Pow;
    k := Catch(t, n, 0);
    Pow31();
    PowerAt(31);
    if k > 31 {
      CatchLeast(t, n, 0, 31);
    }
    PowerAt(k);
    forall j: nat | j < k
      ensures Pow(2, j) - 1 < t || Pow(2, j) < n
    {
      CatchLeast(t, n, 0, j);
      PowerAt(j);
    }
    Pow2(k);
  }

  /**
   * A loop is found within twice its length after the walk enters it exactly when some power of two
   * that is no less than the loop comes after the tail and not after the first whole turn.
   */
  lemma SoonExactly(t: nat, n: nat)
    requires 0 < n && t + n < 0x8000_0000
    ensures Found(t, n) <= t + 2 * n <==>
            exists j: nat :: j <= 31 && Pow(2, j) >= n && t < Pow(2, j) <= t + n + 1
  {
    hide Mark, Power, Catch, Pow;
    var k := FoundAt(t, n);
    var c := Catch(t, n, 0);
    Pow31();
    PowerAt(31);
    if c > 31 {
      CatchLeast(t, n, 0, 31);
    }
    PowerAt(c);
    assert Found(t, n) <= t + 2 * n <==> Pow(2, c) <= t + n + 1;
    forall j: nat | j <= 31 && Pow(2, j) >= n && t < Pow(2, j) <= t + n + 1
      ensures Pow(2, c) <= t + n + 1
    {
      PowerAt(j);
      if j < c {
        CatchLeast(t, n, 0, j);
      }
      PowGrows(c, j);
    }
  }

  /** A tail of 1024 clusters, and a loop of one. */
  ghost const LATE: Walk := (m: nat) => if m < 1024 then m else 1024

  /** Twice the length of the loop is not always enough: this loop is found 1024 moves after it was entered. */
  lemma LateFinding()
    ensures Rho(LATE, 1024, 1) && Found(1024, 1) == 2048
    ensures Meets(LATE, 2048) && forall m :: 0 <= m < 2048 ==> !Meets(LATE, m)
  {
    var k := FoundAt(1024, 1);
    assert Pow(2, 10) == 1024;
    if k <= 10 {
      PowGrows(k, 10);
    } else if k > 11 {
      assert Pow(2, 11) == 2048;
    }
    FirstMeet(LATE, 1024, 1);
  }
}

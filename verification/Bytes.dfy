/** Bytes and machine widths: fixed-width records, little-endian numbers, and division that rounds up. */
module Bytes {
  type byte = b: int | 0 <= b < 256
  type u32 = n: int | 0 <= n < 0x1_0000_0000
  type u64 = n: int | 0 <= n < 0x1_0000_0000_0000_0000

  const U16: nat := 0x1_0000
  const U32: nat := 0x1_0000_0000
  const U64: nat := 0x1_0000_0000_0000_0000

  /** Division that rounds up. */
  function CeilDiv(a: nat, b: nat): nat
    requires b > 0
  {
    (a + b - 1) / b
  }

  lemma MulMono(a: nat, b: nat, d: nat)
    requires a <= b
    ensures a * d <= b * d
  {
  }

  function Pow(base: nat, exp: nat): (p: nat)
    ensures base > 0 ==> p > 0
  {
    if exp == 0 then 1 else base * Pow(base, exp - 1)
  }

  function Zeros(n: nat): (z: seq<byte>)
    ensures |z| == n && forall i :: 0 <= i < n ==> z[i] == 0
  {
    seq(n, _ => 0)
  }

  /** Whether `part` lies in `s` at `at`. */
  predicate Holds(s: seq<byte>, at: nat, part: seq<byte>) {
    at + |part| <= |s| && s[at..at + |part|] == part
  }

  lemma HoldsSplit(s: seq<byte>, at: nat, a: seq<byte>, b: seq<byte>)
    requires Holds(s, at, a + b)
    ensures Holds(s, at, a) && Holds(s, at + |a|, b)
  {
    assert s[at..at + |a + b|][..|a|] == s[at..at + |a|];
    assert s[at..at + |a + b|][|a|..] == s[at + |a|..at + |a| + |b|];
  }

  /** The low `n` bytes of `v`, least significant first. */
  function LeBytes(v: nat, n: nat): (s: seq<byte>)
    ensures |s| == n
  {
    if n == 0 then [] else [v % 256] + LeBytes(v / 256, n - 1)
  }

  function LeValue(s: seq<byte>): nat {
    if s == [] then 0 else s[0] + 256 * LeValue(s[1..])
  }

  lemma {:induction false} LeBytesValue(v: nat, n: nat)
    requires v < Pow(256, n)
    ensures LeValue(LeBytes(v, n)) == v
  {
    if n > 0 {
      assert v / 256 < Pow(256, n - 1);
      LeBytesValue(v / 256, n - 1);
      assert LeBytes(v, n)[1..] == LeBytes(v / 256, n - 1);
    }
  }

  lemma LeNext(low: byte, v: nat, n: nat)
    requires v < Pow(256, n)
    ensures LeBytes(low + 256 * v, n + 1) == [low] + LeBytes(v, n) && low + 256 * v < Pow(256, n + 1)
  {
    assert (low + 256 * v) % 256 == low && (low + 256 * v) / 256 == v;
  }

  /** Any bytes are those of a number that fits them. */
  lemma {:induction false} LeValueBytes(s: seq<byte>)
    ensures LeValue(s) < Pow(256, |s|) && LeBytes(LeValue(s), |s|) == s
  {
    if s != [] {
      hide LeBytes, Pow;
      LeValueBytes(s[1..]);
      LeNext(s[0], LeValue(s[1..]), |s| - 1);
      assert s == [s[0]] + s[1..];
    } else {
      assert Pow(256, 0) == 1 && LeBytes(0, 0) == [];
    }
  }

  /** One element more of a sequence. */
  lemma TakeNext<T>(s: seq<T>, k: nat)
    requires k < |s|
    ensures s[..k + 1] == s[..k] + [s[k]]
  {
  }
}

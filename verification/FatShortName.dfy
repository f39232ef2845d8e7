/** 8.3 short names generated from long ones, with numeric and hashed tails. */
module FatShortName {
  import opened Wrappers
  import opened Bytes

  /** A character, by its code point. */
  type Char = nat

  /** How characters are stored as single bytes, as far as they are. */
  type CodePage = Char -> Option<byte>

  const SPACE: byte := 32
  const DOT: byte := 46
  const TILDE: byte := 126
  const UNDERSCORE: byte := 95

  predicate Digit(c: nat) { 48 <= c <= 57 }
  predicate Upper(c: nat) { 65 <= c <= 90 }
  predicate Lower(c: nat) { 97 <= c <= 122 }

  /** The punctuation of short names. */
  predicate Symbol(c: nat) {
    c in {36, 37, 39, 45, 95, 64, 126, 96, 33, 40, 41, 123, 125, 94, 35, 38}
  }

  /** A byte a short name may hold besides its padding. */
  predicate Allowed(b: byte) {
    Upper(b) || Digit(b) || Symbol(b) || b >= 0x80
  }

  /** The byte of one character; 0 drops it. */
  function ProcessChar(c: Char, encode: CodePage): (b: byte)
    ensures b == 0 || Allowed(b)
    ensures b == 0 <==> c == SPACE || c == DOT
  {
    if c >= 0x80 then
      (match encode(c)
       case Some(b) => if b >= 0x80 then b else UNDERSCORE
       case None => UNDERSCORE)
    else if Upper(c) || Digit(c) then c
    else if Lower(c) then c - 32
    else if Symbol(c) then c
    else if c == SPACE || c == DOT then 0
    else UNDERSCORE
  }

  // ------------------------------------------------------------------
  // The hash
  // ------------------------------------------------------------------

  function HashStep(h: nat, b: nat): (r: nat)
    ensures r < 0x1_0000
  {
    (h * 37 + b) % 0x1_0000
  }

  /** The 16-bit hash of a name's bytes from a starting value. */
  function HashOf(bytes: seq<byte>, seed: nat): (h: nat)
    requires seed < 0x1_0000
    ensures h < 0x1_0000
  {
    if bytes == [] then seed else HashStep(HashOf(bytes[..|bytes| - 1], seed), bytes[|bytes| - 1])
  }

  lemma Wrapped(x: nat, b: nat)
    ensures (x % 0x1_0000 + b) % 0x1_0000 == (x + b) % 0x1_0000
  {
    assert x == 0x1_0000 * (x / 0x1_0000) + x % 0x1_0000;
  }

  /** One byte more: the wrapping product and sum are the step of the hash. */
  lemma HashNext(bytes: seq<byte>, k: nat, seed: nat)
    requires k < |bytes| && seed < 0x1_0000
    ensures HashOf(bytes[..k + 1], seed) == (HashOf(bytes[..k], seed) * 37 % 0x1_0000 + bytes[k]) % 0x1_0000
  {
    assert bytes[..k + 1][..k] == bytes[..k];
    Wrapped(HashOf(bytes[..k], seed) * 37, bytes[k]);
  }

  /** The 16-bit hash of a name from a starting value. */
  method Hash(bytes: seq<byte>, seed: nat) returns (h: nat)
    requires seed < 256
    ensures h == HashOf(bytes, seed)
  {
    h := seed;
    for k := 0 to |bytes|
      invariant h == HashOf(bytes[..k], seed)
    {
      hide HashOf;
      HashNext(bytes, k, seed);
      h := (h * 37 % 0x1_0000 + bytes[k]) % 0x1_0000;
    }
    assert bytes[..|bytes|] == bytes;
  }

  /** 37 has an inverse modulo 2^16, so a step can be undone. */
  lemma StepInjective(h: nat, k: nat, b: nat)
    requires h < 0x1_0000 && k < 0x1_0000 && HashStep(h, b) == HashStep(k, b)
    ensures h == k
  {
    var p, q := (h * 37 + b) / 0x1_0000, (k * 37 + b) / 0x1_0000;
    assert 37 * (h - k) == 0x1_0000 * (p - q);
    assert 7085 * (37 * (h - k)) == 0x1_0000 * (4 * (h - k)) + (h - k);
  }

  /** Each step is a bijection modulo 2^16, so different seeds give different hashes. */
  lemma {:induction false} HashInjective(bytes: seq<byte>, s: nat, t: nat)
    requires s < 0x1_0000 && t < 0x1_0000 && HashOf(bytes, s) == HashOf(bytes, t)
    ensures s == t
  {
    if bytes != [] {
      var n := |bytes| - 1;
      StepInjective(HashOf(bytes[..n], s), HashOf(bytes[..n], t), bytes[n]);
      HashInjective(bytes[..n], s, t);
    }
  }

  // ------------------------------------------------------------------
  // What is generated
  // ------------------------------------------------------------------

  /** The position of the last dot. */
  function LastDot(name: seq<Char>): (p: Option<nat>)
    ensures p.Some? ==> p.value < |name| && name[p.value] == DOT
  {
    if name == [] then None
    else if name[|name| - 1] == DOT then Some(|name| - 1)
    else LastDot(name[..|name| - 1])
  }

  predicate AllDots(part: seq<Char>) {
    forall i :: 0 <= i < |part| ==> part[i] == DOT || part[i] == SPACE
  }

  /** Base and extension; an extension behind nothing but dots and spaces is the base. */
  function Parts(name: seq<Char>): (seq<Char>, seq<Char>) {
    var p := LastDot(name);
    var (base, ext) := if p.Some? && p.value > 0 then (name[..p.value], name[p.value + 1..]) else (name, []);
    if AllDots(base) && ext != [] then (ext, []) else (base, ext)
  }

  /** The bytes of the characters that are kept. */
  function Kept(part: seq<Char>, encode: CodePage): (b: seq<byte>)
    ensures forall i :: 0 <= i < |b| ==> Allowed(b[i])
  {
    if part == [] then []
    else
      var front, b := Kept(part[..|part| - 1], encode), ProcessChar(part[|part| - 1], encode);
      if b == 0 then front else front + [b]
  }

  function First(s: seq<byte>, n: nat): seq<byte> {
    if |s| <= n then s else s[..n]
  }

  function Hex(n: nat): byte
    requires n < 16
  {
    if n < 10 then 48 + n else 55 + n
  }

  /** Bits `12 - 4 * i` to `15 - 4 * i` of a 16-bit number. */
  function Nibble(h: nat, i: nat): nat
    requires i < 4
  {
    match i
    case 0 => h / 0x1000 % 16
    case 1 => h / 0x100 % 16
    case 2 => h / 0x10 % 16
    case 3 => h % 16
  }

  function HexDigits(h: nat): seq<byte> {
    [Hex(Nibble(h, 0)), Hex(Nibble(h, 1)), Hex(Nibble(h, 2)), Hex(Nibble(h, 3))]
  }

  /** The numeric tail: `~1` to `~4`, then four hashed digits and `~1` to `~9`. */
  function Tail(bytes: seq<byte>, suffix: nat): (t: seq<byte>)
    requires 0 < suffix < 256
    ensures |t| == if suffix <= 4 then 2 else 6
  {
    if suffix <= 4 then [TILDE, 48 + suffix]
    else HexDigits(HashOf(bytes, (suffix - 5) / 9)) + [TILDE, 49 + (suffix - 5) % 9]
  }

  function Base(part: seq<Char>, bytes: seq<byte>, suffix: nat, encode: CodePage): (b: seq<byte>)
    requires suffix < 256
    ensures |b| <= 8
  {
    var kept := Kept(part, encode);
    if suffix == 0 then First(kept, 8)
    else
      var tail := Tail(bytes, suffix);
      First(First(kept, 6), 8 - |tail|) + tail
  }

  function Spaces(n: nat): (s: seq<byte>)
    ensures |s| == n && forall i :: 0 <= i < n ==> s[i] == SPACE
  {
    seq(n, _ => SPACE)
  }

  function Padded(s: seq<byte>, n: nat): (p: seq<byte>)
    requires |s| <= n
    ensures |p| == n
  {
    s + Spaces(n - |s|)
  }

  /** The short name with this base and extension, or `None` when nothing of them can be stored. */
  function Assembled(base: seq<Char>, ext: seq<Char>, bytes: seq<byte>, suffix: nat, encode: CodePage): Option<seq<byte>>
    requires suffix < 256
  {
    var b, e := Base(base, bytes, suffix, encode), First(Kept(ext, encode), 3);
    if b == [] && e == [] then None else Some(Padded(b, 8) + Padded(e, 3))
  }

  /** The short name of a long one, if anything of it can be stored. */
  function Generated(name: seq<Char>, bytes: seq<byte>, suffix: nat, encode: CodePage): Option<seq<byte>>
    requires suffix < 256
  {
    Assembled(Parts(name).0, Parts(name).1, bytes, suffix, encode)
  }

  // ------------------------------------------------------------------
  // Generating
  // ------------------------------------------------------------------

  /** Writes the kept characters of a part into `out` from `at`, at most `limit` of them. */
  method Fill(out: array<byte>, at: nat, limit: nat, part: seq<Char>, encode: CodePage) returns (len: nat)
    requires at + limit <= out.Length
    modifies out
    ensures len <= limit && out[at..at + len] == First(Kept(part, encode), limit)
    ensures out[..at] == old(out[..at]) && out[at + len..] == old(out[at + len..])
  {
    hide Kept, ProcessChar, First;
    len := 0;
    var k := 0;
    ghost var kept := [];
    KeptNothing(part, encode);
    while k < |part| && len < limit
      invariant k <= |part| && |kept| == len <= limit && kept == Kept(part[..k], encode)
      invariant forall i :: 0 <= i < len ==> out[at + i] == kept[i]
      invariant forall i :: 0 <= i < out.Length && !(at <= i < at + len) ==> out[i] == old(out[i])
    {
      KeptStep(part, k, encode);
      var b := ProcessChar(part[k], encode);
      if b != 0 {
        out[at + len] := b;
        len := len + 1;
        kept := kept + [b];
      }
      k := k + 1;
    }
    KeptFirst(part, k, limit, encode);
    assert out[at..at + len] == kept;
  }

  /** What filling stops with, at the end of the part or of the room. */
  lemma KeptFirst(part: seq<Char>, k: nat, limit: nat, encode: CodePage)
    requires k <= |part| && |Kept(part[..k], encode)| <= limit
    requires k == |part| || |Kept(part[..k], encode)| == limit
    ensures Kept(part[..k], encode) == First(Kept(part, encode), limit)
  {
    hide Kept;
    if k == |part| {
      assert part[..k] == part;
    } else {
      KeptGrows(part, k, encode);
    }
  }

  lemma KeptNothing(part: seq<Char>, encode: CodePage)
    ensures Kept(part[..0], encode) == []
  {
  }

  lemma KeptStep(part: seq<Char>, k: nat, encode: CodePage)
    requires k < |part|
    ensures Kept(part[..k + 1], encode) ==
            if ProcessChar(part[k], encode) == 0 then Kept(part[..k], encode)
            else Kept(part[..k], encode) + [ProcessChar(part[k], encode)]
  {
    hide ProcessChar;
    assert part[..k + 1][..k] == part[..k];
  }

  lemma {:induction false} KeptGrows(part: seq<Char>, k: nat, encode: CodePage)
    requires k <= |part|
    ensures Kept(part[..k], encode) <= Kept(part, encode)
    decreases |part| - k
  {
    if k < |part| {
      assert part[..k + 1][..k] == part[..k];
      KeptGrows(part, k + 1, encode);
    } else {
      assert part[..k] == part;
    }
  }

  method MakeTail(bytes: seq<byte>, suffix: nat) returns (tail: seq<byte>)
    requires 0 < suffix < 256
    ensures tail == Tail(bytes, suffix)
  {
    if suffix <= 4 {
      return [TILDE, 48 + suffix];
    }
    var round := suffix - 5;
    var h := Hash(bytes, round / 9);
    tail := [];
    for i := 0 to 4
      invariant tail == HexDigits(h)[..i]
    {
      tail := tail + [Hex(Nibble(h, i))];
    }
    tail := tail + [TILDE, 49 + round % 9];
  }

  /** Fills the base, the tail and the extension of a short name. */
  method Generate(name: seq<Char>, bytes: seq<byte>, suffix: nat, encode: CodePage) returns (r: Option<seq<byte>>)
    requires suffix < 256
    ensures r == Generated(name, bytes, suffix, encode)
  {
    hide Kept, Base, Parts;
    var (base, ext) := Parts(name);
    var out := new byte[11](_ => SPACE);
    var baseLen := PutBase(out, base, bytes, suffix, encode);
    ghost var front, back := out[..8], out[8..];
    var extLen := Fill(out, 8, 3, ext, encode);
    assert out[8 + extLen..] == back[extLen..] == Spaces(3 - extLen);
    assert out[8..] == out[8..8 + extLen] + out[8 + extLen..];
    assert out[..8] == front;
    assert out[..] == front + out[8..];
    r := if baseLen == 0 && extLen == 0 then None else Some(out[..]);
  }

  /** Writes the base with its tail into a blank name. */
  method PutBase(out: array<byte>, part: seq<Char>, bytes: seq<byte>, suffix: nat, encode: CodePage) returns (baseLen: nat)
    requires suffix < 256 && out.Length == 11 && out[..] == Spaces(11)
    modifies out
    ensures baseLen == |Base(part, bytes, suffix, encode)| && out[..8] == Padded(Base(part, bytes, suffix, encode), 8)
    ensures out[8..] == Spaces(3)
  {
    hide Kept, Tail;
    baseLen := Fill(out, 0, if suffix > 0 then 6 else 8, part, encode);
    assert out[baseLen..] == Spaces(11)[baseLen..];
    assert forall i :: baseLen <= i < 11 ==> out[i] == out[baseLen..][i - baseLen];
    if suffix > 0 {
      var tail := MakeTail(bytes, suffix);
      baseLen := PutTail(out, baseLen, tail);
    }
    assert out[..baseLen] == Base(part, bytes, suffix, encode);
    assert out[..8] == out[..baseLen] + Spaces(8 - baseLen);
    assert out[8..] == Spaces(3);
  }

  /** Puts the tail behind the base, cutting the base to make room for it. */
  method PutTail(out: array<byte>, len: nat, tail: seq<byte>) returns (newLen: nat)
    requires out.Length == 11 && len <= 8 && |tail| <= 8
    modifies out
    ensures newLen <= 8 && out[..newLen] == First(old(out[..len]), 8 - |tail|) + tail
    ensures forall i :: newLen <= i < 8 ==> out[i] == SPACE
    ensures forall i :: 8 <= i < 11 ==> out[i] == old(out[i])
  {
    var kept := if len < 8 - |tail| then len else 8 - |tail|;
    forall i | 0 <= i < |tail| {
      out[kept + i] := tail[i];
    }
    forall i | kept + |tail| <= i < 8 {
      out[i] := SPACE;
    }
    newLen := kept + |tail|;
    assert out[..newLen] == old(out[..kept]) + tail;
  }

  // ------------------------------------------------------------------
  // Where base and extension come from
  // ------------------------------------------------------------------

  /** The last dot of a name, which is not its first character. */
  predicate DotAt(name: seq<Char>, p: nat) {
    0 < p < |name| && name[p] == 46 && forall i :: p < i < |name| ==> name[i] != 46
  }

  lemma {:induction false} LastDotIs(name: seq<Char>)
    ensures match LastDot(name)
            case None => forall i :: 0 <= i < |name| ==> name[i] != 46
            case Some(p) => p < |name| && name[p] == 46 && forall i :: p < i < |name| ==> name[i] != 46
  {
    if name != [] {
      LastDotIs(name[..|name| - 1]);
      assert forall i :: 0 <= i < |name| - 1 ==> name[i] == name[..|name| - 1][i];
    }
  }

  /** A name without a dot, or with none but a leading one, is all base. */
  lemma NoExtension(name: seq<Char>, bytes: seq<byte>, suffix: nat, encode: CodePage)
    requires suffix < 256 && forall i :: 1 <= i < |name| ==> name[i] != 46
    ensures Generated(name, bytes, suffix, encode) == Assembled(name, [], bytes, suffix, encode)
  {
    LastDotIs(name);
  }

  /** With more than dots and spaces before its last dot, a name is what is before it and what is after. */
  lemma SplitAtDot(name: seq<Char>, p: nat, bytes: seq<byte>, suffix: nat, encode: CodePage)
    requires suffix < 256 && DotAt(name, p) && exists i :: 0 <= i < p && name[i] !in {32, 46}
    ensures Generated(name, bytes, suffix, encode) == Assembled(name[..p], name[p + 1..], bytes, suffix, encode)
  {
    LastDotIs(name);
    var i :| 0 <= i < p && name[i] !in {32, 46};
    assert name[..p][i] == name[i];
  }

  /** With nothing but dots and spaces before its last dot, a name is what is after, and nothing if that is nothing. */
  lemma DotsBefore(name: seq<Char>, p: nat, bytes: seq<byte>, suffix: nat, encode: CodePage)
    requires suffix < 256 && DotAt(name, p) && forall i :: 0 <= i < p ==> name[i] in {32, 46}
    ensures p + 1 < |name| ==>
              Generated(name, bytes, suffix, encode) == Assembled(name[p + 1..], [], bytes, suffix, encode)
    ensures p + 1 == |name| ==>
              Generated(name, bytes, suffix, encode) == if suffix == 0 then None else Assembled([], [], bytes, suffix, encode)
  {
    hide Kept;
    LastDotIs(name);
    assert AllDots(name[..p]);
    if p + 1 == |name| {
      KeptNone(name[..p], encode);
      KeptNone([], encode);
    }
  }

  /** A character from one to another. */
  predicate From(c: Char, first: char, last: char) {
    first as int <= c <= last as int
  }

  /** The punctuation of short names, written out. */
  predicate Punctuation(c: Char) {
    c < 128 && c as char in {'$', '%', '\'', '-', '_', '@', '~', '`', '!', '(', ')', '{', '}', '^', '#', '&'}
  }

  /** A character a short name holds without the help of a code page. */
  predicate Plain(c: Char) {
    From(c, '0', '9') || From(c, 'A', 'Z') || From(c, 'a', 'z') || Punctuation(c)
  }

  /** What a short name shows for it: the character itself, letters in upper case. */
  function Shown(c: Char): byte
    requires Plain(c)
  {
    if From(c, 'a', 'z') then c - 'a' as int + 'A' as int else c
  }

  /**
   * Letters, digits and punctuation are shown, spaces and dots dropped, and every other ASCII character
   * becomes an underscore, as does one that the code page has no high byte for.
   */
  lemma Processed(c: Char, encode: CodePage)
    ensures ProcessChar(c, encode) ==
            if Plain(c) then Shown(c)
            else if c == ' ' as int || c == '.' as int then 0
            else if c >= 128 && encode(c).Some? && encode(c).value >= 128 then encode(c).value
            else '_' as int
    ensures Plain(c) ==> Shown(c) != 0 && c != '.' as int && c != ' ' as int
  {
  }

  predicate AllPlain(part: seq<Char>) {
    forall i :: 0 <= i < |part| ==> Plain(part[i])
  }

  function ShownAs(part: seq<Char>): (s: seq<byte>)
    requires AllPlain(part)
    ensures |s| == |part|
  {
    seq(|part|, i requires 0 <= i < |part| => Shown(part[i]))
  }

  lemma {:induction false} KeptPlain(part: seq<Char>, encode: CodePage)
    requires AllPlain(part)
    ensures Kept(part, encode) == ShownAs(part)
  {
    hide ProcessChar, Shown, Plain;
    if part != [] {
      var n := |part| - 1;
      KeptPlain(part[..n], encode);
      Processed(part[n], encode);
      assert ShownAs(part) == ShownAs(part[..n]) + [Shown(part[n])];
    }
  }

  /** A name of base and extension that needs no shortening: both in upper case, each padded with spaces. */
  lemma ClassicName(base: seq<Char>, ext: seq<Char>, bytes: seq<byte>, encode: CodePage)
    requires AllPlain(base) && AllPlain(ext) && 1 <= |base| <= 8 && 1 <= |ext| <= 3
    ensures Generated(base + ['.' as int] + ext, bytes, 0, encode) ==
            Some((ShownAs(base) + Blanks(8 - |base|)) + (ShownAs(ext) + Blanks(3 - |ext|)))
    ensures Generated(base, bytes, 0, encode) == Some((ShownAs(base) + Blanks(8 - |base|)) + Blanks(3))
  {
    hide Kept, Plain, Shown, ProcessChar, Parts, Generated;
    NoneDotted(base, encode);
    NoneDotted(ext, encode);
    DottedName(base, ext, bytes, 0, encode);
    NoExtension(base, bytes, 0, encode);
    KeptPlain(base, encode);
    KeptPlain(ext, encode);
    KeptPlain([], encode);
    BlanksAre(8 - |base|);
    BlanksAre(3 - |ext|);
    BlanksAre(3);
    assert [] + Blanks(3) == Blanks(3);
  }

  /** With a small suffix the base is cut to six and a tilde and the digit follow it. */
  lemma NumberedName(base: seq<Char>, ext: seq<Char>, bytes: seq<byte>, suffix: nat, encode: CodePage)
    requires AllPlain(base) && AllPlain(ext) && 1 <= |base| && 1 <= |ext| && 1 <= suffix <= 4
    ensures var b, e := First(ShownAs(base), 6), First(ShownAs(ext), 3);
            Generated(base + ['.' as int] + ext, bytes, suffix, encode) ==
            Some((b + ['~' as int, '0' as int + suffix] + Blanks(6 - |b|)) + (e + Blanks(3 - |e|)))
  {
    hide Kept, Plain, Shown, ProcessChar, Parts, Generated;
    NoneDotted(base, encode);
    NoneDotted(ext, encode);
    DottedName(base, ext, bytes, suffix, encode);
    KeptPlain(base, encode);
    KeptPlain(ext, encode);
    BlanksAre(6 - |First(ShownAs(base), 6)|);
    BlanksAre(3 - |First(ShownAs(ext), 3)|);
  }

  lemma BlanksAre(n: nat)
    ensures Spaces(n) == Blanks(n)
  {
  }

  function Blanks(n: nat): (s: seq<byte>)
    ensures |s| == n
  {
    seq(n, _ => 32)
  }

  lemma NoneDotted(part: seq<Char>, encode: CodePage)
    requires AllPlain(part)
    ensures forall i :: 0 <= i < |part| ==> part[i] !in {32, 46}
  {
    hide Plain, Shown, ProcessChar;
    forall i | 0 <= i < |part|
      ensures part[i] !in {32, 46}
    {
      Processed(part[i], encode);
    }
  }

  lemma DottedName(base: seq<Char>, ext: seq<Char>, bytes: seq<byte>, suffix: nat, encode: CodePage)
    requires suffix < 256 && base != [] && forall i :: 0 <= i < |base| ==> base[i] !in {32, 46}
    requires forall i :: 0 <= i < |ext| ==> ext[i] !in {32, 46}
    ensures Generated(base + ['.' as int] + ext, bytes, suffix, encode) == Assembled(base, ext, bytes, suffix, encode)
  {
    hide Parts, Generated, Assembled;
    var name := base + ['.' as int] + ext;
    assert name[0] == base[0];
    SplitAtDot(name, |base|, bytes, suffix, encode);
    assert name[..|base|] == base && name[|base| + 1..] == ext;
  }

  const HEX_DIGITS := "0123456789ABCDEF"

  /** The hashed tail shows the hash in base 16, most significant digit first. */
  lemma HexShown(h: nat)
    requires h < 0x1_0000
    ensures HexDigits(h) == [HEX_DIGITS[h / 4096] as int, HEX_DIGITS[h / 256 % 16] as int,
                             HEX_DIGITS[h / 16 % 16] as int, HEX_DIGITS[h % 16] as int]
  {
    hide Hex;
    assert h / 4096 % 16 == h / 4096;
    HexDigit(h / 4096);
    HexDigit(h / 256 % 16);
    HexDigit(h / 16 % 16);
    HexDigit(h % 16);
  }

  lemma HexDigit(n: nat)
    requires n < 16
    ensures Hex(n) == HEX_DIGITS[n] as int
  {
  }

  // ------------------------------------------------------------------
  // What every generated name is
  // ------------------------------------------------------------------

  predicate AllAllowed(s: seq<byte>) {
    forall i :: 0 <= i < |s| ==> Allowed(s[i])
  }

  /** A stored name: allowed bytes, padding only at the end of base and extension, and a base that is not empty. */
  ghost predicate Shaped(out: seq<byte>) {
    exists base, ext :: 0 < |base| <= 8 && |ext| <= 3 && AllAllowed(base) && AllAllowed(ext)
                        && out == Padded(base, 8) + Padded(ext, 3)
  }

  /** Only dots and spaces leave nothing. */
  lemma {:induction false} KeptNone(part: seq<Char>, encode: CodePage)
    ensures Kept(part, encode) == [] <==> AllDots(part)
  {
    if part != [] {
      KeptNone(part[..|part| - 1], encode);
    }
  }

  lemma TailAllowed(bytes: seq<byte>, suffix: nat)
    requires 0 < suffix < 256
    ensures AllAllowed(Tail(bytes, suffix))
  {
    hide HashOf;
    forall n: nat | n < 16
      ensures Allowed(Hex(n))
    {
    }
  }

  /** Every generated name is so shaped, and starts with a byte that is not a space. */
  lemma GeneratedShape(name: seq<Char>, bytes: seq<byte>, suffix: nat, encode: CodePage)
    requires suffix < 256 && Generated(name, bytes, suffix, encode).Some?
    ensures var out := Generated(name, bytes, suffix, encode).value;
            |out| == 11 && out[0] != SPACE && Shaped(out)
  {
    hide Kept, Tail, Allowed;
    var (base, ext) := Parts(name);
    KeptNone(base, encode);
    KeptNone(ext, encode);
    if suffix > 0 {
      TailAllowed(bytes, suffix);
    }
    var b, e := Base(base, bytes, suffix, encode), First(Kept(ext, encode), 3);
    assert AllAllowed(b) && AllAllowed(e);
    assert b != [] && Allowed(b[0]);
    NoSpace(b[0]);
  }

  lemma NoSpace(b: byte)
    requires Allowed(b)
    ensures b != SPACE
  {
  }

  /** The tails of suffixes 5 to 255 are all different. */
  lemma TailsDiffer(bytes: seq<byte>, s: nat, t: nat)
    requires 5 <= s < 256 && 5 <= t < 256 && Tail(bytes, s) == Tail(bytes, t)
    ensures s == t
  {
    hide HashOf, HexDigits;
    var a, b := Tail(bytes, s), Tail(bytes, t);
    var h, k := HashOf(bytes, (s - 5) / 9), HashOf(bytes, (t - 5) / 9);
    assert a[5] == 49 + (s - 5) % 9 && b[5] == 49 + (t - 5) % 9;
    assert a[..4] == HexDigits(h) && b[..4] == HexDigits(k);
    DigitsInjective(h, k);
    HashInjective(bytes, (s - 5) / 9, (t - 5) / 9);
  }

  lemma DigitsInjective(h: nat, k: nat)
    requires h < 0x1_0000 && k < 0x1_0000 && HexDigits(h) == HexDigits(k)
    ensures h == k
  {
    var a, b := HexDigits(h), HexDigits(k);
    assert a[0] == b[0] && a[1] == b[1] && a[2] == b[2] && a[3] == b[3];
    FromNibbles(h);
    FromNibbles(k);
  }

  lemma FromNibbles(h: nat)
    requires h < 0x1_0000
    ensures h == 0x1000 * Nibble(h, 0) + 0x100 * Nibble(h, 1) + 0x10 * Nibble(h, 2) + Nibble(h, 3)
  {
    assert h / 0x100 == h / 0x10 / 16 && h / 0x1000 == h / 0x100 / 16;
  }

  /** Hashed names never repeat: suffixes 5 to 255 give pairwise different names. */
  lemma HashedNamesDiffer(name: seq<Char>, bytes: seq<byte>, s: nat, t: nat, encode: CodePage)
    requires 5 <= s < 256 && 5 <= t < 256 && s != t
    ensures Generated(name, bytes, s, encode).Some? && Generated(name, bytes, s, encode) != Generated(name, bytes, t, encode)
  {
    hide Kept, Tail, Parts;
    var front := First(First(Kept(Parts(name).0, encode), 6), 2);
    var n := |front|;
    var a, b := Generated(name, bytes, s, encode).value, Generated(name, bytes, t, encode).value;
    assert a[n..n + 6] == Tail(bytes, s) && b[n..n + 6] == Tail(bytes, t);
    if a == b {
      TailsDiffer(bytes, s, t);
    }
  }
}

/** The on-disk cpio headers: fixed-width hexadecimal, octal and binary fields. */
module CpioRaw {
  import opened Wrappers
  import opened Bytes

  // ASCII of "070701", "070702" and "070707".
  const NEWC_MAGIC: seq<byte> := [48, 55, 48, 55, 48, 49]
  const NEWC_CRC_MAGIC: seq<byte> := [48, 55, 48, 55, 48, 50]
  const ODC_MAGIC: seq<byte> := [48, 55, 48, 55, 48, 55]
  // Octal 070707.
  const BINARY_MAGIC: nat := 29127

  const NEWC_HEADER_LEN: nat := 110
  const ODC_HEADER_LEN: nat := 76
  const BINARY_HEADER_LEN: nat := 26

  // ASCII of "TRAILER!!!".
  const TRAILER_NAME: seq<byte> := [84, 82, 65, 73, 76, 69, 82, 33, 33, 33]
  const PATH_MAX: nat := 4096

  /** The two radices cpio headers use. */
  type Radix = r: nat | r == 8 || r == 16 witness 8

  // ------------------------------------------------------------------
  // Digits
  // ------------------------------------------------------------------

  /** The upper-case digit `d`. */
  function DigitByte(d: nat): byte
    requires d < 16
  {
    if d < 10 then 48 + d else 55 + d
  }

  /** The value of a digit byte in `radix`, either case. */
  function ToDigit(b: byte, radix: Radix): Option<nat> {
    var d := if 48 <= b < 58 then b - 48
             else if 65 <= b < 71 then b - 55
             else if 97 <= b < 103 then b - 87
             else 16;
    if d < radix && d < 16 then Some(d) else None
  }

  /** The low `n` digits of `v`, most significant first. */
  function Digits(v: nat, radix: Radix, n: nat): (s: seq<byte>)
    ensures |s| == n
  {
    if n == 0 then [] else Digits(v / radix, radix, n - 1) + [DigitByte(v % radix)]
  }

  function ParseDigits(s: seq<byte>, radix: Radix): Option<nat> {
    if s == [] then Some(0)
    else
      var high := ParseDigits(s[..|s| - 1], radix);
      var low := ToDigit(s[|s| - 1], radix);
      if high.None? || low.None? then None else Some(high.value * radix + low.value)
  }

  /** A field wide enough for its number reads back as that number. */
  lemma {:induction false} DigitsRoundTrip(v: nat, radix: Radix, n: nat)
    requires v < Pow(radix, n)
    ensures ParseDigits(Digits(v, radix, n), radix) == Some(v)
  {
    hide ToDigit, DigitByte, Pow;
    if n == 0 {
      NoDigits(v, radix);
    } else {
      hide Digits, ParseDigits;
      PlaceFits(v, radix, n);
      var high := v / radix;
      DigitsRoundTrip(high, radix, n - 1);
      DigitsRead(v, radix, n, high);
    }
  }

  /** When all digits but the last read as the high part, all of them read as the number. */
  lemma DigitsRead(v: nat, radix: Radix, n: nat, high: nat)
    requires n > 0 && high == v / radix && ParseDigits(Digits(high, radix, n - 1), radix) == Some(high)
    ensures ParseDigits(Digits(v, radix, n), radix) == Some(v)
  {
    hide Digits, ParseDigits, ToDigit, DigitByte;
    var low := v % radix;
    DigitsLast(v, radix, n);
    DigitReads(low, radix);
    ParseLast(Digits(v, radix, n), radix);
  }

  lemma NoDigits(v: nat, radix: Radix)
    requires v < Pow(radix, 0)
    ensures ParseDigits(Digits(v, radix, 0), radix) == Some(v)
  {
  }

  lemma ParseLast(s: seq<byte>, radix: Radix)
    requires s != []
    ensures var high, low := ParseDigits(s[..|s| - 1], radix), ToDigit(s[|s| - 1], radix);
            high.Some? && low.Some? ==> ParseDigits(s, radix) == Some(high.value * radix + low.value)
  {
    hide ToDigit;
  }

  lemma DigitsLast(v: nat, radix: Radix, n: nat)
    requires n > 0
    ensures var s := Digits(v, radix, n);
            s[..n - 1] == Digits(v / radix, radix, n - 1) && s[n - 1] == DigitByte(v % radix)
    ensures (v / radix) * radix + v % radix == v
  {
  }

  lemma DigitReads(d: nat, radix: Radix)
    requires d < radix
    ensures ToDigit(DigitByte(d), radix) == Some(d)
  {
  }

  lemma {:induction false} ParseDigitsBound(s: seq<byte>, radix: Radix)
    requires ParseDigits(s, radix).Some?
    ensures ParseDigits(s, radix).value < Pow(radix, |s|)
  {
    if s != [] {
      ParseDigitsBound(s[..|s| - 1], radix);
      var high := ParseDigits(s[..|s| - 1], radix).value;
      var low := ToDigit(s[|s| - 1], radix).value;
      PlaceBound(high, low, radix, Pow(radix, |s| - 1));
    }
  }

  lemma {:induction false} ParseDigitsPrefix(s: seq<byte>, radix: Radix, i: nat)
    requires i < |s|
    ensures ParseDigits(s[..i + 1], radix) ==
            (var high := ParseDigits(s[..i], radix);
             var low := ToDigit(s[i], radix);
             if high.None? || low.None? then None else Some(high.value * radix + low.value))
  {
    assert s[..i + 1][..i] == s[..i];
  }

  lemma {:induction false} ParseDigitsNone(s: seq<byte>, radix: Radix, i: nat)
    requires i <= |s| && ParseDigits(s[..i], radix).None?
    ensures ParseDigits(s, radix).None?
    decreases |s| - i
  {
    if i < |s| {
      ParseDigitsPrefix(s, radix, i);
      ParseDigitsNone(s, radix, i + 1);
    } else {
      assert s[..i] == s;
    }
  }

  /** The digits of a radix, letters in either case. */
  predicate IsDigit(b: byte, radix: Radix) {
    if radix == 8 then 48 <= b <= 55 else 48 <= b <= 57 || 65 <= b <= 70 || 97 <= b <= 102
  }

  /** A field reads as a number exactly when every byte is a digit. */
  lemma {:induction false} ReadsExactly(s: seq<byte>, radix: Radix)
    ensures ParseDigits(s, radix).Some? <==> forall i :: 0 <= i < |s| ==> IsDigit(s[i], radix)
  {
    if s != [] {
      var n := |s| - 1;
      ReadsExactly(s[..n], radix);
      assert forall i :: 0 <= i < n ==> s[..n][i] == s[i];
    }
  }

  /** The same bytes but for the case of letters. */
  predicate SameLetters(s: seq<byte>, t: seq<byte>) {
    |s| == |t| && forall i :: 0 <= i < |s| ==> SameLetter(s[i], t[i])
  }

  predicate SameLetter(b: byte, c: byte) {
    b == c || (65 <= b <= 90 && c == b + 32) || (97 <= b <= 122 && c == b - 32)
  }

  /** The case of letters makes no difference. */
  lemma {:induction false} AnyCase(s: seq<byte>, t: seq<byte>, radix: Radix)
    requires SameLetters(s, t)
    ensures ParseDigits(s, radix) == ParseDigits(t, radix)
  {
    if s != [] {
      var n := |s| - 1;
      AnyCase(s[..n], t[..n], radix);
      assert SameLetter(s[n], t[n]);
    }
  }

  // "0123456789ABCDEF"
  const DIGIT_BYTES: seq<byte> := [48, 49, 50, 51, 52, 53, 54, 55, 56, 57, 65, 66, 67, 68, 69, 70]

  /** The digits written are those of the number in its radix, the last its remainder, letters in upper case. */
  lemma {:induction false} WrittenDigits(v: nat, radix: Radix, n: nat, i: nat)
    requires i < n
    ensures Digits(v, radix, n)[n - 1 - i] == DIGIT_BYTES[v / Pow(radix, i) % radix]
    decreases i
  {
    hide Pow, Digits, DigitByte;
    DigitsLast(v, radix, n);
    if i == 0 {
      PowNone(radix);
      ShownDigit(v % radix);
    } else {
      WrittenDigits(v / radix, radix, n - 1, i - 1);
      PowMore(v, radix, i);
    }
  }

  lemma ShownDigit(d: nat)
    requires d < 16
    ensures DigitByte(d) == DIGIT_BYTES[d]
  {
  }

  lemma PowNone(radix: Radix)
    ensures Pow(radix, 0) == 1
  {
  }

  lemma PowMore(v: nat, radix: Radix, i: nat)
    requires i > 0
    ensures v / radix / Pow(radix, i - 1) == v / Pow(radix, i)
  {
    var p := Pow(radix, i - 1);
    assert Pow(radix, i) == radix * p;
    hide Pow;
    Nested(v, radix, p);
  }

  lemma Nested(v: nat, a: nat, p: nat)
    requires a > 0 && p > 0
    ensures a * p > 0 && v / a / p == v / (a * p)
  {
    var x := v / a;
    var q := x / p;
    Parted(v, a);
    Parted(x, p);
    MulMono(q * p, x, a);
    MulMono(x + 1, q * p + p, a);
    Regrouped(x, q, p, a);
    Quotient(v, a * p, q, v - q * (a * p));
  }

  lemma Regrouped(x: nat, q: nat, p: nat, a: nat)
    requires a > 0 && p > 0
    ensures a * p > 0 && q * p * a == q * (a * p) && (q * p + p) * a == q * (a * p) + a * p && (x + 1) * a == x * a + a
  {
  }

  lemma Parted(x: nat, d: nat)
    requires d > 0
    ensures x / d * d <= x < x / d * d + d
  {
  }

  lemma Quotient(v: nat, d: nat, q: nat, r: nat)
    requires r < d && v == q * d + r
    ensures v / d == q
  {
    var k := v / d;
    Parted(v, d);
    if k < q {
      MulMono(k + 1, q, d);
    } else if k > q {
      MulMono(q + 1, k, d);
    }
  }

  /** Reads a field of digits, or fails at the first byte that is none. */
  method ParseNumber(bytes: seq<byte>, radix: Radix) returns (value: Option<nat>)
    ensures value == ParseDigits(bytes, radix)
    ensures value == None <==> exists i :: 0 <= i < |bytes| && !IsDigit(bytes[i], radix)
  {
    var sum: nat := 0;
    ReadsExactly(bytes, radix);
    for i := 0 to |bytes|
      invariant ParseDigits(bytes[..i], radix) == Some(sum)
    {
      ParseDigitsPrefix(bytes, radix, i);
      var digit := ToDigit(bytes[i], radix);
      if digit.None? {
        ParseDigitsNone(bytes, radix, i + 1);
        return None;
      }
      sum := sum * radix + digit.value;
    }
    assert bytes[..|bytes|] == bytes;
    value := Some(sum);
  }

  lemma {:induction false} FieldsAnyCase(s: seq<byte>, t: seq<byte>, widths: seq<nat>, radix: Radix)
    requires SameLetters(s, t) && |s| == Total(widths)
    ensures ParseFields(s, widths, radix) == ParseFields(t, widths, radix)
    decreases |widths|
  {
    hide ParseDigits, SameLetter;
    if widths != [] {
      AnyCase(s[..widths[0]], t[..widths[0]], radix);
      FieldsAnyCase(s[widths[0]..], t[widths[0]..], widths[1..], radix);
    }
  }

  predicate AllDigits(s: seq<byte>, radix: Radix) {
    forall i :: 0 <= i < |s| ==> IsDigit(s[i], radix)
  }

  /** Fields read exactly when every byte of them is a digit. */
  lemma {:induction false} FieldsExactly(s: seq<byte>, widths: seq<nat>, radix: Radix)
    requires |s| == Total(widths)
    ensures ParseFields(s, widths, radix).Some? <==> AllDigits(s, radix)
    decreases |widths|
  {
    hide ParseDigits, IsDigit;
    if widths != [] {
      var front, rest := s[..widths[0]], s[widths[0]..];
      ReadsExactly(front, radix);
      FieldsExactly(rest, widths[1..], radix);
      assert s == front + rest;
      assert AllDigits(s, radix) <==> AllDigits(front, radix) && AllDigits(rest, radix) by {
        forall i | 0 <= i < |rest|
          ensures rest[i] == s[widths[0] + i]
        {
        }
      }
    }
  }

  /**
   * Fills `out[at..at + width]` with the digits of `value` from the last place
   * to the first, and says whether the number fitted.
   */
  method WriteNumber(value: nat, radix: Radix, out: array<byte>, at: nat, width: nat) returns (fits: bool)
    requires at + width <= out.Length
    modifies out
    ensures out[at..at + width] == Digits(value, radix, width)
    ensures forall i :: 0 <= i < out.Length && !(at <= i < at + width) ==> out[i] == old(out[i])
    ensures fits <==> value < Pow(radix, width)
  {
    hide Digits, Pow, DigitByte;
    var rest: nat := value;
    var k := width;
    NoPlace(rest, radix);
    while k > 0
      invariant 0 <= k <= width
      invariant Digits(value, radix, width) == Digits(rest, radix, k) + out[at + k..at + width]
      invariant forall i :: 0 <= i < out.Length && !(at + k <= i < at + width) ==> out[i] == old(out[i])
      invariant value < Pow(radix, width) <==> rest < Pow(radix, k)
    {
      ghost var tail := out[at + k..at + width];
      out[at + k - 1] := DigitByte(rest % radix);
      assert out[at + k - 1..at + width] == [DigitByte(rest % radix)] + tail;
      NextPlace(rest, radix, k, tail);
      rest := rest / radix;
      k := k - 1;
    }
    NoPlace(rest, radix);
    fits := rest == 0;
  }

  lemma NoPlace(v: nat, radix: Radix)
    ensures Digits(v, radix, 0) == [] && (v < Pow(radix, 0) <==> v == 0)
  {
  }

  /** One place less: its digit goes before the digits already there. */
  lemma NextPlace(v: nat, radix: Radix, k: nat, tail: seq<byte>)
    requires k > 0
    ensures Digits(v, radix, k) + tail == Digits(v / radix, radix, k - 1) + ([DigitByte(v % radix)] + tail)
    ensures v < Pow(radix, k) <==> v / radix < Pow(radix, k - 1)
  {
    hide Pow, DigitByte;
    PlaceFits(v, radix, k);
    assert Digits(v, radix, k) == Digits(v / radix, radix, k - 1) + [DigitByte(v % radix)];
  }

  lemma PlaceBound(high: nat, low: nat, radix: Radix, limit: nat)
    requires high < limit && low < radix
    ensures high * radix + low < radix * limit
  {
    if radix == 8 {
      assert high * 8 + 8 <= 8 * limit;
    } else {
      assert high * 16 + 16 <= 16 * limit;
    }
  }

  lemma PlaceFits(v: nat, radix: Radix, n: nat)
    requires n > 0
    ensures v < Pow(radix, n) <==> v / radix < Pow(radix, n - 1)
  {
    var p := Pow(radix, n - 1);
    if radix == 8 {
      assert v < 8 * p <==> v / 8 < p;
    } else {
      assert v < 16 * p <==> v / 16 < p;
    }
  }

  /** A run of numbers, each in its own width. */
  function DigitFields(values: seq<nat>, widths: seq<nat>, radix: Radix): (s: seq<byte>)
    requires |values| == |widths|
    ensures |s| == Total(widths)
  {
    if values == [] then []
    else Digits(values[0], radix, widths[0]) + DigitFields(values[1..], widths[1..], radix)
  }

  function Total(widths: seq<nat>): nat {
    if widths == [] then 0 else widths[0] + Total(widths[1..])
  }

  function ParseFields(s: seq<byte>, widths: seq<nat>, radix: Radix): (r: Option<seq<nat>>)
    requires |s| == Total(widths)
    ensures r.Some? ==> |r.value| == |widths|
    ensures r.Some? ==> forall i :: 0 <= i < |widths| ==> r.value[i] < Pow(radix, widths[i])
  {
    if widths == [] then Some([])
    else
      var first := ParseDigits(s[..widths[0]], radix);
      var rest := ParseFields(s[widths[0]..], widths[1..], radix);
      if first.None? || rest.None? then None
      else
        ParseDigitsBound(s[..widths[0]], radix);
        Some([first.value] + rest.value)
  }

  predicate Fit(values: seq<nat>, widths: seq<nat>, radix: Radix)
    requires |values| == |widths|
  {
    forall i :: 0 <= i < |values| ==> values[i] < Pow(radix, widths[i])
  }

  lemma {:induction false} FieldsRoundTrip(values: seq<nat>, widths: seq<nat>, radix: Radix)
    requires |values| == |widths| && Fit(values, widths, radix)
    ensures ParseFields(DigitFields(values, widths, radix), widths, radix) == Some(values)
  {
    if values != [] {
      var s := DigitFields(values, widths, radix);
      assert s[..widths[0]] == Digits(values[0], radix, widths[0]);
      assert s[widths[0]..] == DigitFields(values[1..], widths[1..], radix);
      DigitsRoundTrip(values[0], radix, widths[0]);
      FieldsRoundTrip(values[1..], widths[1..], radix);
      assert [values[0]] + values[1..] == values;
    }
  }

  lemma {:induction false} DigitFieldsSnoc(values: seq<nat>, widths: seq<nat>, radix: Radix, k: nat)
    requires |values| == |widths| && k < |values|
    ensures DigitFields(values[..k + 1], widths[..k + 1], radix)
         == DigitFields(values[..k], widths[..k], radix) + Digits(values[k], radix, widths[k])
  {
    if k > 0 {
      assert values[..k + 1][1..] == values[1..][..k] && widths[..k + 1][1..] == widths[1..][..k];
      assert values[..k][1..] == values[1..][..k - 1] && widths[..k][1..] == widths[1..][..k - 1];
      DigitFieldsSnoc(values[1..], widths[1..], radix, k - 1);
    }
  }

  lemma AppendField(magic: seq<byte>, values: seq<nat>, widths: seq<nat>, radix: Radix, k: nat)
    requires |values| == |widths| && k < |values|
    ensures magic + DigitFields(values[..k + 1], widths[..k + 1], radix)
         == magic + DigitFields(values[..k], widths[..k], radix) + Digits(values[k], radix, widths[k])
  {
    DigitFieldsSnoc(values, widths, radix, k);
  }

  /** Writes `values` after the six magic bytes; false at the first that does not fit. */
  method WriteFields(magic: seq<byte>, values: seq<nat>, widths: seq<nat>, radix: Radix, out: array<byte>)
    returns (fits: bool)
    requires |values| == |widths|
    requires |magic| == 6 && out.Length == 6 + Total(widths)
    modifies out
    ensures fits <==> Fit(values, widths, radix)
    ensures fits ==> out[..] == magic + DigitFields(values, widths, radix)
  {
    hide Fit, Digits;
    FitNone(values, widths, radix);
    forall i | 0 <= i < 6 {
      out[i] := magic[i];
    }
    assert out[..6] == magic + DigitFields(values[..0], widths[..0], radix);
    var start := 6;
    for k := 0 to |values|
      invariant start == 6 + Total(widths[..k]) <= out.Length
      invariant Fit(values[..k], widths[..k], radix)
      invariant out[..start] == magic + DigitFields(values[..k], widths[..k], radix)
    {
      TotalPrefix(widths, k);
      FitStep(values, widths, radix, k);
      ghost var done := out[..start];
      var ok := WriteNumber(values[k], radix, out, start, widths[k]);
      if !ok {
        return false;
      }
      assert out[..start + widths[k]] == out[..start] + out[start..start + widths[k]];
      assert out[..start] == done;
      AppendField(magic, values, widths, radix, k);
      start := start + widths[k];
    }
    assert values[..|values|] == values && widths[..|widths|] == widths;
    assert out[..start] == out[..];
    fits := true;
  }

  lemma FitNone(values: seq<nat>, widths: seq<nat>, radix: Radix)
    ensures Fit(values[..0], widths[..0], radix)
  {
  }

  lemma FitStep(values: seq<nat>, widths: seq<nat>, radix: Radix, k: nat)
    requires |values| == |widths| && k < |values|
    ensures Fit(values[..k + 1], widths[..k + 1], radix) <==>
            Fit(values[..k], widths[..k], radix) && values[k] < Pow(radix, widths[k])
    ensures Fit(values, widths, radix) ==> values[k] < Pow(radix, widths[k])
  {
  }

  lemma {:induction false} TotalPrefix(widths: seq<nat>, k: nat)
    requires k < |widths|
    ensures Total(widths[..k + 1]) == Total(widths[..k]) + widths[k] <= Total(widths)
  {
    if k > 0 {
      assert widths[..k + 1][1..] == widths[1..][..k] && widths[..k][1..] == widths[1..][..k - 1];
      TotalPrefix(widths[1..], k - 1);
    } else {
      assert widths[..1] == [widths[0]];
    }
  }

  // ------------------------------------------------------------------
  // newc
  // ------------------------------------------------------------------

  datatype NewcFields = NewcFields(
    ino: nat, mode: nat, uid: nat, gid: nat, nlink: nat, mtime: nat, filesize: nat,
    devmajor: nat, devminor: nat, rdevmajor: nat, rdevminor: nat, namesize: nat, check: nat)
  {
    function Values(): (v: seq<nat>)
      ensures |v| == 13
    {
      [ino, mode, uid, gid, nlink, mtime, filesize, devmajor, devminor, rdevmajor, rdevminor, namesize, check]
    }

    static function Of(v: seq<nat>): NewcFields
      requires |v| == 13
    {
      NewcFields(v[0], v[1], v[2], v[3], v[4], v[5], v[6], v[7], v[8], v[9], v[10], v[11], v[12])
    }
  }

  const NEWC_WIDTHS: seq<nat> := [8, 8, 8, 8, 8, 8, 8, 8, 8, 8, 8, 8, 8]

  lemma NewcTotal()
    ensures Total(NEWC_WIDTHS) == 104
  {
    assert NEWC_WIDTHS == seq(13, _ => 8);
    EvenTotal(13, 8);
  }

  lemma {:induction false} EvenTotal(count: nat, width: nat)
    ensures Total(seq(count, _ => width)) == count * width
  {
    if count > 0 {
      EvenTotal(count - 1, width);
      assert seq(count, _ => width)[1..] == seq(count - 1, _ => width);
    }
  }

  function NewcMagic(crc: bool): (m: seq<byte>)
    ensures |m| == 6
  {
    if crc then NEWC_CRC_MAGIC else NEWC_MAGIC
  }

  function NewcBytes(crc: bool, fields: NewcFields): (s: seq<byte>)
    ensures |s| == NEWC_HEADER_LEN
  {
    NewcTotal();
    NewcMagic(crc) + DigitFields(fields.Values(), NEWC_WIDTHS, 16)
  }

  /** The fields, or `None` when the magic or a digit is wrong. */
  function ParseNewc(s: seq<byte>): Option<NewcFields>
    requires |s| == NEWC_HEADER_LEN
  {
    NewcTotal();
    if s[..6] != NEWC_MAGIC && s[..6] != NEWC_CRC_MAGIC then None
    else
      match ParseFields(s[6..], NEWC_WIDTHS, 16)
      case None => None
      case Some(v) => Some(NewcFields.Of(v))
  }

  method BuildNewc(crc: bool, fields: NewcFields) returns (data: array<byte>)
    requires forall i :: 0 <= i < 13 ==> fields.Values()[i] < U32
    ensures fresh(data) && data[..] == NewcBytes(crc, fields)
  {
    hide DigitFields, Fit, Total, Pow;
    NewcTotal();
    data := new byte[NEWC_HEADER_LEN];
    NewcFit(fields);
    var fits := WriteFields(NewcMagic(crc), fields.Values(), NEWC_WIDTHS, 16, data);
  }

  lemma NewcFit(fields: NewcFields)
    requires forall i :: 0 <= i < 13 ==> fields.Values()[i] < U32
    ensures Fit(fields.Values(), NEWC_WIDTHS, 16)
  {
    hide Pow;
    Pow16();
  }

  lemma Pow16()
    ensures Pow(16, 8) == U32
  {
    assert Pow(16, 4) == 65536;
  }

  lemma Pow8()
    ensures Pow(8, 6) == 262144 && Pow(8, 11) == 8589934592
  {
    assert Pow(8, 3) == 512;
    assert Pow(8, 7) == 2097152;
  }

  /** Every newc header made of 32-bit fields parses back, in both variants. */
  lemma NewcRoundTrip(crc: bool, fields: NewcFields)
    requires forall i :: 0 <= i < 13 ==> fields.Values()[i] < U32
    ensures ParseNewc(NewcBytes(crc, fields)) == Some(fields)
  {
    hide DigitFields, ParseFields, Fit, Total, Pow;
    NewcTotal();
    NewcFit(fields);
    FieldsRoundTrip(fields.Values(), NEWC_WIDTHS, 16);
    assert NewcBytes(crc, fields)[6..] == DigitFields(fields.Values(), NEWC_WIDTHS, 16);
  }

  /** Whatever the case of its digits, such a header parses to those fields. */
  lemma NewcAnyCase(crc: bool, fields: NewcFields, raw: seq<byte>)
    requires forall i :: 0 <= i < 13 ==> fields.Values()[i] < U32
    requires SameLetters(NewcBytes(crc, fields), raw)
    ensures ParseNewc(raw) == Some(fields) && raw[..6] == NewcMagic(crc)
  {
    hide DigitFields, ParseFields, Total, NewcFields.Values;
    var written := NewcBytes(crc, fields);
    NewcTotal();
    NewcRoundTrip(crc, fields);
    forall i | 0 <= i < 6
      ensures raw[i] == written[i]
    {
      assert SameLetter(written[i], raw[i]);
      assert written[i] == NewcMagic(crc)[i];
    }
    assert raw[..6] == written[..6] == NewcMagic(crc);
    FieldsAnyCase(written[6..], raw[6..], NEWC_WIDTHS, 16);
  }

  // ------------------------------------------------------------------
  // odc
  // ------------------------------------------------------------------

  datatype OdcFields = OdcFields(
    dev: nat, ino: nat, mode: nat, uid: nat, gid: nat, nlink: nat, rdev: nat,
    mtime: nat, namesize: nat, filesize: nat)
  {
    function Values(): (v: seq<nat>)
      ensures |v| == 10
    {
      [dev, ino, mode, uid, gid, nlink, rdev, mtime, namesize, filesize]
    }

    static function Of(v: seq<nat>): OdcFields
      requires |v| == 10
    {
      OdcFields(v[0], v[1], v[2], v[3], v[4], v[5], v[6], v[7], v[8], v[9])
    }
  }

  const ODC_WIDTHS: seq<nat> := [6, 6, 6, 6, 6, 6, 6, 11, 6, 11]

  // The largest eleven-digit octal number.
  const ODC_MAX_11: nat := 8589934591

  lemma OdcTotal()
    ensures Total(ODC_WIDTHS) == 70
  {
    assert ODC_WIDTHS[1..][1..][1..][1..] == [6, 6, 6, 11, 6, 11];
    assert Total([6, 6, 6, 11, 6, 11]) == 46 by {
      assert [6, 6, 6, 11, 6, 11][1..][1..][1..] == [11, 6, 11];
      assert Total([11, 6, 11]) == 28 by {
        assert [11, 6, 11][1..][1..] == [11];
      }
    }
  }

  function OdcBytes(fields: OdcFields): (s: seq<byte>)
    ensures |s| == ODC_HEADER_LEN
  {
    OdcTotal();
    ODC_MAGIC + DigitFields(fields.Values(), ODC_WIDTHS, 8)
  }

  function ParseOdc(s: seq<byte>): Option<OdcFields>
    requires |s| == ODC_HEADER_LEN
  {
    OdcTotal();
    if s[..6] != ODC_MAGIC then None
    else
      match ParseFields(s[6..], ODC_WIDTHS, 8)
      case None => None
      case Some(v) => Some(OdcFields.Of(v))
  }

  /** Builds an odc header; `None` exactly when a value exceeds its octal field. */
  method BuildOdc(fields: OdcFields) returns (data: Option<seq<byte>>)
    ensures data == if Fit(fields.Values(), ODC_WIDTHS, 8) then Some(OdcBytes(fields)) else None
  {
    OdcTotal();
    var out := new byte[ODC_HEADER_LEN];
    var fits := WriteFields(ODC_MAGIC, fields.Values(), ODC_WIDTHS, 8, out);
    data := if fits then Some(out[..]) else None;
  }

  /** Every odc header whose fields fit parses back. */
  lemma OdcRoundTrip(fields: OdcFields)
    requires Fit(fields.Values(), ODC_WIDTHS, 8)
    ensures ParseOdc(OdcBytes(fields)) == Some(fields)
  {
    OdcTotal();
    FieldsRoundTrip(fields.Values(), ODC_WIDTHS, 8);
    assert OdcBytes(fields)[6..] == DigitFields(fields.Values(), ODC_WIDTHS, 8);
  }

  /** Headers are refused exactly for another magic or a byte that is no digit. */
  lemma HeaderExactly(newc: seq<byte>, odc: seq<byte>)
    requires |newc| == NEWC_HEADER_LEN && |odc| == ODC_HEADER_LEN
    ensures ParseNewc(newc).Some? <==> newc[..5] == [48, 55, 48, 55, 48] && newc[5] in [49, 50] && AllDigits(newc[6..], 16)
    ensures ParseOdc(odc).Some? <==> odc[..6] == [48, 55, 48, 55, 48, 55] && AllDigits(odc[6..], 8)
  {
    hide ParseFields, Total, AllDigits;
    NewcTotal();
    OdcTotal();
    FieldsExactly(newc[6..], NEWC_WIDTHS, 16);
    FieldsExactly(odc[6..], ODC_WIDTHS, 8);
    assert newc[..6] == newc[..5] + [newc[5]];
    assert NEWC_MAGIC == [48, 55, 48, 55, 48] + [49] && NEWC_CRC_MAGIC == [48, 55, 48, 55, 48] + [50];
    assert newc[..6][..5] == newc[..5];
  }

  // ------------------------------------------------------------------
  // old binary
  // ------------------------------------------------------------------

  datatype BinaryFields = BinaryFields(
    dev: nat, ino: nat, mode: nat, uid: nat, gid: nat, nlink: nat, rdev: nat,
    mtime: nat, namesize: nat, filesize: nat)
  {
    /** Fields that fit their words. */
    predicate Typed() {
      && dev < U16 && ino < U16 && mode < U16 && uid < U16 && gid < U16 && nlink < U16 && rdev < U16
      && namesize < U16 && mtime < U32 && filesize < U32
    }
  }

  /** The 16-bit word at `index`, in the given byte order. */
  function Word(s: seq<byte>, index: nat, little: bool): (w: nat)
    requires 2 * index + 1 < |s|
    ensures w < 65536
  {
    var a: nat, b: nat := s[2 * index], s[2 * index + 1];
    if little then a + 256 * b else 256 * a + b
  }

  /** The octal number 070707 as a 16-bit word, least or most significant byte first. */
  predicate IsBinaryMagic(s: seq<byte>)
    requires |s| >= 2
  {
    Word(s, 0, true) == BINARY_MAGIC || Word(s, 0, false) == BINARY_MAGIC
  }

  function ParseBinary(s: seq<byte>): Option<BinaryFields>
    requires |s| == BINARY_HEADER_LEN
  {
    if !IsBinaryMagic(s) then None
    else
      var little := Word(s, 0, true) == BINARY_MAGIC;
      var long := (i: nat) requires 2 * i + 3 < |s| => Word(s, i, little) * 65536 + Word(s, i + 1, little);
      Some(BinaryFields(
             Word(s, 1, little), Word(s, 2, little), Word(s, 3, little), Word(s, 4, little),
             Word(s, 5, little), Word(s, 6, little), Word(s, 7, little),
             long(8), Word(s, 10, little), long(11)))
  }

  type u16 = w: int | 0 <= w < 0x1_0000

  /** Words in either byte order. */
  function WordsBytes(words: seq<u16>, little: bool): (s: seq<byte>)
    ensures |s| == 2 * |words|
  {
    if words == [] then []
    else
      var w := words[|words| - 1];
      WordsBytes(words[..|words| - 1], little) + if little then [w % 256, w / 256] else [w / 256, w % 256]
  }

  lemma {:induction false} WordAt(words: seq<u16>, little: bool, i: nat)
    requires i < |words|
    ensures Word(WordsBytes(words, little), i, little) == words[i]
  {
    if i < |words| - 1 {
      WordAt(words[..|words| - 1], little, i);
    }
  }

  /** An old binary header as its words; the long fields have their high word first. */
  function BinaryWords(f: BinaryFields): (words: seq<u16>)
    requires f.Typed()
    ensures |words| == 13
  {
    [0x71C7, f.dev, f.ino, f.mode, f.uid, f.gid, f.nlink, f.rdev, f.mtime / 0x1_0000, f.mtime % 0x1_0000,
     f.namesize, f.filesize / 0x1_0000, f.filesize % 0x1_0000]
  }

  /** Every such header decodes to its fields, in either byte order. */
  lemma BinaryRoundTrip(f: BinaryFields, little: bool)
    requires f.Typed()
    ensures ParseBinary(WordsBytes(BinaryWords(f), little)) == Some(f)
  {
    hide WordsBytes, Word;
    var words := BinaryWords(f);
    var s := WordsBytes(words, little);
    forall i | 0 <= i < 13
      ensures Word(s, i, little) == words[i]
    {
      WordAt(words, little, i);
    }
    OtherOrder(s, little);
  }

  /** The magic in the other byte order is another number. */
  lemma OtherOrder(s: seq<byte>, little: bool)
    requires |s| >= 2 && Word(s, 0, little) == 0x71C7
    ensures IsBinaryMagic(s) && (Word(s, 0, true) == BINARY_MAGIC <==> little)
  {
  }
}

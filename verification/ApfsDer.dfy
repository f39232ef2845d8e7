/** A cursor over canonical DER: definite lengths, shortest forms only. */
module ApfsDer {
  import opened Wrappers
  import opened Bytes

  datatype DerError = InputTooSmall | InvalidValue(what: string) | AddressOverflow

  // ------------------------------------------------------------------
  // Big-endian numbers
  // ------------------------------------------------------------------

  function BeValue(s: seq<byte>): nat {
    if s == [] then 0 else BeValue(s[..|s| - 1]) * 256 + s[|s| - 1]
  }

  /** The shortest big-endian digits; none for 0. */
  function Digits(n: nat): (s: seq<byte>)
    ensures s == [] <==> n == 0
    ensures s != [] ==> s[0] != 0
  {
    if n == 0 then [] else Digits(n / 256) + [n % 256]
  }

  lemma {:induction false} DigitsValue(n: nat)
    ensures BeValue(Digits(n)) == n
  {
    if n > 0 {
      DigitsValue(n / 256);
      assert Digits(n)[..|Digits(n)| - 1] == Digits(n / 256);
    }
  }

  lemma {:induction false} ValueDigits(s: seq<byte>)
    requires s != [] ==> s[0] != 0
    ensures Digits(BeValue(s)) == s
  {
    hide BeValue, Digits;
    if s == [] {
      NoValue();
    } else {
      var front := s[..|s| - 1];
      if front != [] {
        assert front[0] == s[0];
      }
      ValueDigits(front);
      LastDigit(s, front);
    }
  }

  /** When all octets but the last are the digits of their value, so are all of them. */
  lemma LastDigit(s: seq<byte>, front: seq<byte>)
    requires s != [] && s[0] != 0 && front == s[..|s| - 1] && Digits(BeValue(front)) == front
    ensures Digits(BeValue(s)) == s
  {
    hide BeValue, Digits;
    var low := s[|s| - 1];
    ValueLast(s);
    DigitsSnoc(BeValue(front), low);
    assert front + [low] == s;
  }

  lemma NoValue()
    ensures Digits(BeValue([])) == []
  {
  }

  lemma ValueLast(s: seq<byte>)
    requires s != []
    ensures BeValue(s) == BeValue(s[..|s| - 1]) * 256 + s[|s| - 1]
  {
  }

  /** Appending a digit to a number, not both zero, appends it to its digits. */
  lemma DigitsSnoc(high: nat, low: byte)
    requires high > 0 || low > 0
    ensures Digits(high * 256 + low) == Digits(high) + [low]
  {
    var n := high * 256 + low;
    assert n / 256 == high && n % 256 == low;
  }

  /** A number needs no more than `w` digits exactly when it is below 256 to the `w`. */
  lemma {:induction false} DigitsFit(n: nat, w: nat)
    ensures |Digits(n)| <= w <==> n < Pow(256, w)
    decreases w
  {
    if w > 0 && n > 0 {
      DigitsFit(n / 256, w - 1);
      assert n / 256 < Pow(256, w - 1) <==> n < 256 * Pow(256, w - 1);
    }
  }

  lemma Powers()
    ensures Pow(256, 1) == 256 && Pow(256, 4) == U32 && Pow(256, 8) == U64 && Pow(256, 9) == 256 * U64
  {
    assert Pow(256, 2) == 0x1_0000;
    assert Pow(256, 4) == U32;
    assert Pow(256, 6) == 0x1_0000 * U32;
    assert Pow(256, 8) == U64;
  }

  // ------------------------------------------------------------------
  // What the encodings are
  // ------------------------------------------------------------------

  /** The length octets of DER. */
  function LengthBytes(n: nat): seq<byte>
    requires n < U32
  {
    LengthWidth(n);
    if n < 128 then [n] else [128 + |Digits(n)|] + Digits(n)
  }

  lemma LengthWidth(n: nat)
    requires n < U32
    ensures |Digits(n)| <= 4
  {
    Powers();
    DigitsFit(n, 4);
  }

  /** The one DER encoding of a tag and a value. */
  function Encoding(tag: byte, value: seq<byte>): (s: seq<byte>)
    requires |value| < U32
    ensures |s| >= 2
  {
    [tag] + LengthBytes(|value|) + value
  }

  /** The content octets of an unsigned integer: shortest two's complement form. */
  function IntegerBytes(v: nat): (s: seq<byte>)
    ensures s != []
  {
    if v == 0 then [0] else if Digits(v)[0] >= 128 then [0] + Digits(v) else Digits(v)
  }

  // ------------------------------------------------------------------
  // Reading a field
  // ------------------------------------------------------------------

  /** The header length and the value length that a field starts with. */
  function Header(s: seq<byte>, tag: byte): (r: Result<(nat, nat), DerError>)
    ensures r.Ok? ==> 2 <= r.value.0 <= |s|
  {
    if |s| < 2 then Err(InputTooSmall)
    else if s[0] != tag then Err(InvalidValue("tag"))
    else if s[1] < 128 then Ok((2, s[1]))
    else
      var width := s[1] % 128;
      if width == 0 || width > 4 || |s| < 2 + width then Err(InvalidValue("length"))
      else if s[2] == 0 || BeValue(s[2..2 + width]) < 128 then Err(InvalidValue("noncanonical length"))
      else Ok((2 + width, BeValue(s[2..2 + width])))
  }

  /** The value of the field at the front, and what follows it. */
  function Split(s: seq<byte>, tag: byte): Result<(seq<byte>, seq<byte>), DerError> {
    match Header(s, tag)
    case Err(error) => Err(error)
    case Ok((header, length)) =>
      if header + length > |s| then Err(InputTooSmall)
      else Ok((s[header..header + length], s[header + length..]))
  }

  /** An accepted header is the tag and the length octets of its length. */
  lemma HeaderEncoding(s: seq<byte>, tag: byte)
    requires Header(s, tag).Ok?
    ensures var (header, length) := Header(s, tag).value;
            length < U32 && s[..header] == [tag] + LengthBytes(length)
  {
    hide BeValue, Digits, LengthBytes;
    var (header, length) := Header(s, tag).value;
    if s[1] < 128 {
      ShortLength(length);
      assert s[..2] == [s[0]] + [s[1]];
    } else {
      var digits := s[2..header];
      LongLength(digits);
      assert s[1] == 128 + |digits|;
      assert s[..header] == [s[0]] + ([s[1]] + digits);
    }
  }

  lemma ShortLength(n: nat)
    requires n < 128
    ensures LengthBytes(n) == [n]
  {
  }

  /** The length octets of a number of one to four octets that is not short. */
  lemma LongLength(digits: seq<byte>)
    requires 0 < |digits| <= 4 && digits[0] != 0 && BeValue(digits) >= 128
    ensures BeValue(digits) < U32 && LengthBytes(BeValue(digits)) == [128 + |digits|] + digits
  {
    hide BeValue, Digits;
    ValueDigits(digits);
    Powers();
    DigitsFit(BeValue(digits), 4);
  }

  /** What is read is the one encoding of its value. */
  lemma SplitEncoding(s: seq<byte>, tag: byte)
    requires Split(s, tag).Ok?
    ensures var (value, rest) := Split(s, tag).value;
            |value| < U32 && s == Encoding(tag, value) + rest
  {
    hide Header, LengthBytes;
    HeaderEncoding(s, tag);
    var (header, length) := Header(s, tag).value;
    assert s == s[..header] + s[header..header + length] + s[header + length..];
  }

  /** Every encoding is read back, whatever follows it. */
  lemma EncodingSplits(tag: byte, value: seq<byte>, rest: seq<byte>)
    requires |value| < U32
    ensures Split(Encoding(tag, value) + rest, tag) == Ok((value, rest))
  {
    hide BeValue, Digits;
    var n := |value|;
    var s := Encoding(tag, value) + rest;
    LengthWidth(n);
    if n >= 128 {
      DigitsValue(n);
      assert s[2..2 + |Digits(n)|] == Digits(n);
      assert s[2] == Digits(n)[0];
    }
    var header := 1 + |LengthBytes(n)|;
    assert s[header..header + n] == value && s[header + n..] == rest;
  }

  /** A string is accepted exactly when it starts with an encoding for the tag. */
  lemma AcceptedExactly(s: seq<byte>, tag: byte)
    ensures Split(s, tag).Ok? <==>
            exists value: seq<byte>, rest :: |value| < U32 && s == Encoding(tag, value) + rest
  {
    if Split(s, tag).Ok? {
      SplitEncoding(s, tag);
    }
    if value: seq<byte>, rest: seq<byte> :| |value| < U32 && s == Encoding(tag, value) + rest {
      EncodingSplits(tag, value, rest);
    }
  }

  // ------------------------------------------------------------------
  // Integers
  // ------------------------------------------------------------------

  /** The 64-bit value of content octets, if they are a canonical unsigned integer. */
  function IntegerValue(data: seq<byte>): Option<nat> {
    if data == [] || |data| > 9 || data[0] >= 128 || (|data| > 1 && data[0] == 0 && data[1] < 128) then None
    else if BeValue(data) >= U64 then None
    else Some(BeValue(data))
  }

  lemma ZeroFirst(s: seq<byte>)
    ensures BeValue([0] + s) == BeValue(s)
  {
    if s != [] {
      assert ([0] + s)[..|s|] == [0] + s[..|s| - 1];
      ZeroFirst(s[..|s| - 1]);
    } else {
      assert ([0] + s)[..0] == [];
    }
  }

  /** Accepted content octets and 64-bit values correspond one to one. */
  lemma IntegerBijection(data: seq<byte>, v: nat)
    requires v < U64
    ensures IntegerValue(data) == Some(v) <==> data == IntegerBytes(v)
  {
    if IntegerValue(data) == Some(v) {
      CanonicalBytes(data);
    }
    ReadsBack(v);
  }

  lemma CanonicalBytes(data: seq<byte>)
    requires IntegerValue(data).Some?
    ensures data == IntegerBytes(IntegerValue(data).value)
  {
    if data[0] != 0 {
      ValueDigits(data);
    } else {
      assert data == [0] + data[1..];
      ZeroFirst(data[1..]);
      ValueDigits(data[1..]);
    }
  }

  lemma ReadsBack(v: nat)
    requires v < U64
    ensures IntegerValue(IntegerBytes(v)) == Some(v)
  {
    Powers();
    DigitsFit(v, 8);
    DigitsValue(v);
    ZeroFirst(Digits(v));
    assert BeValue([0]) == 0 by { assert [0] == [0] + []; ZeroFirst([]); }
  }

  class Der {
    var rest: seq<byte>

    constructor (data: seq<byte>)
      ensures rest == data
    {
      rest := data;
    }

    /** Reads one field with this tag and moves past it. */
    method Field(tag: byte) returns (r: Result<seq<byte>, DerError>)
      modifies this
      ensures match Split(old(rest), tag)
              case Ok((value, after)) => r == Ok(value) && rest == after
              case Err(error) => r == Err(error) && rest == old(rest)
      ensures r.Ok? ==> |r.value| < U32 && old(rest) == Encoding(tag, r.value) + rest
    {
      if |rest| < 2 {
        return Err(InputTooSmall);
      }
      if rest[0] != tag {
        return Err(InvalidValue("tag"));
      }
      var header, length: nat := 2, rest[1];
      if rest[1] >= 128 {
        var width := rest[1] % 128;
        if width == 0 || width > 4 || |rest| < 2 + width {
          return Err(InvalidValue("length"));
        }
        if rest[2] == 0 {
          return Err(InvalidValue("noncanonical length"));
        }
        length := 0;
        for k := 0 to width
          modifies {}
          invariant length == BeValue(rest[2..2 + k])
        {
          assert rest[2..2 + k + 1][..k] == rest[2..2 + k];
          length := length * 256 + rest[2 + k];
        }
        if length < 128 {
          return Err(InvalidValue("noncanonical length"));
        }
        header := 2 + width;
      }
      if header + length > |rest| {
        return Err(InputTooSmall);
      }
      SplitEncoding(rest, tag);
      r := Ok(rest[header..header + length]);
      rest := rest[header + length..];
    }

    /** Reads an unsigned integer of at most 64 bits. */
    method Integer(tag: byte) returns (r: Result<nat, DerError>)
      modifies this
      ensures Split(old(rest), tag).Err? ==> r.Err? && rest == old(rest)
      ensures Split(old(rest), tag).Ok? ==>
                var (data, after) := Split(old(rest), tag).value;
                rest == after && (if IntegerValue(data).Some? then r == Ok(IntegerValue(data).value) else r.Err?)
      ensures r.Ok? ==> r.value < U64 && |IntegerBytes(r.value)| < U32
                        && old(rest) == Encoding(tag, IntegerBytes(r.value)) + rest
    {
      var data :- Field(tag);
      if data == [] || |data| > 9 || data[0] >= 128 || (|data| > 1 && data[0] == 0 && data[1] < 128) {
        return Err(InvalidValue("integer"));
      }
      var value := 0;
      for k := 0 to |data|
        modifies {}
        invariant value == BeValue(data[..k]) && value < U64
      {
        assert data[..k + 1][..k] == data[..k];
        value := value * 256 + data[k];
        if value >= U64 {
          ValueGrows(data, k + 1);
          return Err(AddressOverflow);
        }
      }
      assert data[..|data|] == data;
      CanonicalBytes(data);
      r := Ok(value);
    }

    /** Whether everything was read. */
    method End() returns (r: Result<(), DerError>)
      ensures r.Ok? <==> rest == []
    {
      r := if rest == [] then Ok(()) else Err(InvalidValue("trailing data"));
    }
  }

  lemma {:induction false} ValueGrows(data: seq<byte>, k: nat)
    requires k <= |data|
    ensures BeValue(data[..k]) <= BeValue(data)
    decreases |data| - k
  {
    if k < |data| {
      assert data[..k + 1][..k] == data[..k];
      ValueGrows(data, k + 1);
    } else {
      assert data[..k] == data;
    }
  }
}

/**
 * The byte encodings `Buffer.from(str).toString("base64")` performs: UTF-8 (RFC 3629) and
 * the Base64 alphabet with padding of section 4 of RFC 4648. Each encoder has a decoder
 * beside it, and the round trips show that the encoders lose nothing.
 */
module Encoding {
  import opened Wrappers

  type Byte = b: int | 0 <= b < 0x100

  /** Whether `n` is a Unicode scalar value, the code points a `char` holds. */
  predicate IsScalar(n: int) {
    (0 <= n < 0xD800) || (0xE000 <= n < 0x11_0000)
  }

  /** The UTF-8 bytes of one scalar value: one to four bytes, by magnitude. */
  function Utf8Char(c: char): (r: seq<Byte>)
    ensures 1 <= |r| <= 4
  {
    var n := c as int;
    if n < 0x80 then [n]
    else if n < 0x800 then [0xC0 + n / 0x40, 0x80 + n % 0x40]
    else if n < 0x1_0000 then [0xE0 + n / 0x1000, 0x80 + n / 0x40 % 0x40, 0x80 + n % 0x40]
    else [0xF0 + n / 0x4_0000, 0x80 + n / 0x1000 % 0x40, 0x80 + n / 0x40 % 0x40, 0x80 + n % 0x40]
  }

  /** `Buffer.from(s)`: the UTF-8 bytes of a string. */
  function Utf8(s: string): seq<Byte> {
    if s == [] then [] else Utf8Char(s[0]) + Utf8(s[1..])
  }

  predicate IsContinuation(b: int) {
    0x80 <= b < 0xC0
  }

  /** The byte at `i` as a number, 0 past the end. */
  function At(b: seq<Byte>, i: nat): int {
    if i < |b| then b[i] as int else 0
  }

  /** The scalar value at the front of `b` and the number of bytes it takes, if well formed. */
  function Utf8DecodeChar(b: seq<Byte>): (r: Option<(char, nat)>)
    requires |b| > 0
    ensures r.Some? ==> 1 <= r.value.1 <= |b| && r.value.1 <= 4
  {
    var b0, b1, b2, b3 := b[0] as int, At(b, 1), At(b, 2), At(b, 3);
    if b0 < 0x80 then Some((b0 as char, 1))
    else if 0xC0 <= b0 < 0xE0 && |b| >= 2 && IsContinuation(b1) then
      var n := (b0 - 0xC0) * 0x40 + (b1 - 0x80);
      if 0x80 <= n then Some((n as char, 2)) else None
    else if 0xE0 <= b0 < 0xF0 && |b| >= 3 && IsContinuation(b1) && IsContinuation(b2) then
      var n := (b0 - 0xE0) * 0x1000 + (b1 - 0x80) * 0x40 + (b2 - 0x80);
      if 0x800 <= n && IsScalar(n) then Some((n as char, 3)) else None
    else if 0xF0 <= b0 < 0xF8 && |b| >= 4 && IsContinuation(b1) && IsContinuation(b2) && IsContinuation(b3) then
      var n := (b0 - 0xF0) * 0x4_0000 + (b1 - 0x80) * 0x1000 + (b2 - 0x80) * 0x40 + (b3 - 0x80);
      if 0x1_0000 <= n && IsScalar(n) then Some((n as char, 4)) else None
    else None
  }

  /** Strict UTF-8 decoding: None on a malformed, overlong or surrogate sequence. */
  function Utf8Decode(b: seq<Byte>): Option<string>
    decreases |b|
  {
    if b == [] then Some([])
    else match Utf8DecodeChar(b)
      case None => None
      case Some((c, k)) =>
        match Utf8Decode(b[k..])
        case None => None
        case Some(s) => Some([c] + s)
  }

  /** Decoding the bytes of one character gives it back and consumes exactly those bytes. */
  lemma {:induction false} Utf8CharRoundTrip(c: char, rest: seq<Byte>)
    ensures Utf8DecodeChar(Utf8Char(c) + rest) == Some((c, |Utf8Char(c)|))
  {
    var n := c as int;
    if n < 0x80 {
    } else if n < 0x800 {
      TwoByteChar(c, rest);
    } else if n < 0x1_0000 {
      ThreeByteChar(c, rest);
    } else {
      FourByteChar(c, rest);
    }
  }

  lemma {:induction false} TwoByteChar(c: char, rest: seq<Byte>)
    requires 0x80 <= c as int < 0x800
    ensures Utf8DecodeChar(Utf8Char(c) + rest) == Some((c, 2))
  {
    var n := c as int;
    var b := Utf8Char(c) + rest;
    assert b[0] == 0xC0 + n / 0x40 && b[1] == 0x80 + n % 0x40;
  }

  lemma {:induction false} ThreeByteChar(c: char, rest: seq<Byte>)
    requires 0x800 <= c as int < 0x1_0000
    ensures Utf8DecodeChar(Utf8Char(c) + rest) == Some((c, 3))
  {
    var n := c as int;
    var b := Utf8Char(c) + rest;
    assert b[0] == 0xE0 + n / 0x1000 && b[1] == 0x80 + n / 0x40 % 0x40 && b[2] == 0x80 + n % 0x40;
    ThreeDigits(n);
  }

  lemma {:induction false} FourByteChar(c: char, rest: seq<Byte>)
    requires 0x1_0000 <= c as int
    ensures Utf8DecodeChar(Utf8Char(c) + rest) == Some((c, 4))
  {
    var n := c as int;
    var b := Utf8Char(c) + rest;
    assert b[0] == 0xF0 + n / 0x4_0000 && b[1] == 0x80 + n / 0x1000 % 0x40;
    assert b[2] == 0x80 + n / 0x40 % 0x40 && b[3] == 0x80 + n % 0x40;
    FourDigits(n);
  }

  /** `n` in base 64 with three digits. */
  lemma {:induction false} ThreeDigits(n: int)
    requires 0 <= n < 0x1_0000
    ensures n / 0x1000 * 0x1000 + n / 0x40 % 0x40 * 0x40 + n % 0x40 == n
  {
    var m := n / 0x40;
    assert n == m * 0x40 + n % 0x40;
    assert m == m / 0x40 * 0x40 + m % 0x40;
    assert m / 0x40 == n / 0x1000;
  }

  /** `n` in base 64 with four digits. */
  lemma {:induction false} FourDigits(n: int)
    requires 0 <= n < 0x11_0000
    ensures n / 0x4_0000 * 0x4_0000 + n / 0x1000 % 0x40 * 0x1000 + n / 0x40 % 0x40 * 0x40 + n % 0x40 == n
  {
    var m := n / 0x40;
    var k := m / 0x40;
    assert n == m * 0x40 + n % 0x40;
    assert m == k * 0x40 + m % 0x40;
    assert k == k / 0x40 * 0x40 + k % 0x40;
    assert k == n / 0x1000;
    assert k / 0x40 == n / 0x4_0000;
  }

  /** UTF-8 decoding undoes UTF-8 encoding. */
  lemma {:induction false} Utf8RoundTrip(s: string)
    ensures Utf8Decode(Utf8(s)) == Some(s)
  {
    if s != [] {
      var head := Utf8Char(s[0]);
      var b := Utf8(s);
      assert b == head + Utf8(s[1..]);
      Utf8CharRoundTrip(s[0], Utf8(s[1..]));
      assert b[|head|..] == Utf8(s[1..]);
      Utf8RoundTrip(s[1..]);
      assert s == [s[0]] + s[1..];
    }
  }

  /** Different strings have different UTF-8 bytes. */
  lemma {:induction false} Utf8Injective(s: string, t: string)
    requires Utf8(s) == Utf8(t)
    ensures s == t
  {
    Utf8RoundTrip(s);
    Utf8RoundTrip(t);
  }

  /** The digit for a six-bit value: `A`-`Z`, `a`-`z`, `0`-`9`, `+`, `/` (Table 1 of RFC 4648). */
  function Base64Digit(n: int): (c: char)
    requires 0 <= n < 64
  {
    if n < 26 then ('A' as int + n) as char
    else if n < 52 then ('a' as int + (n - 26)) as char
    else if n < 62 then ('0' as int + (n - 52)) as char
    else if n == 62 then '+'
    else '/'
  }

  /** The six-bit value of an alphabet character; None for any other character, `=` included. */
  function Base64Value(c: char): (r: Option<int>)
    ensures r.Some? ==> 0 <= r.value < 64
  {
    if 'A' <= c <= 'Z' then Some(c as int - 'A' as int)
    else if 'a' <= c <= 'z' then Some(c as int - 'a' as int + 26)
    else if '0' <= c <= '9' then Some(c as int - '0' as int + 52)
    else if c == '+' then Some(62)
    else if c == '/' then Some(63)
    else None
  }

  /** The alphabet is a bijection between six-bit values and its 64 characters. */
  lemma {:induction false} DigitValue(n: int)
    requires 0 <= n < 64
    ensures Base64Value(Base64Digit(n)) == Some(n)
    ensures Base64Digit(n) != '='
  {
  }

  /**
   * Base64 with padding (section 4 of RFC 4648): each group of three bytes becomes four
   * digits; a final group of one or two bytes is filled with zero bits and `=`.
   */
  function Base64Encode(b: seq<Byte>): string
    decreases |b|
  {
    if b == [] then []
    else if |b| == 1 then OneByte(b[0])
    else if |b| == 2 then TwoBytes(b[0], b[1])
    else ThreeBytes(b[0], b[1], b[2]) + Base64Encode(b[3..])
  }

  /** The 24 bits of three bytes as four digits. */
  function ThreeBytes(x: Byte, y: Byte, z: Byte): (r: string)
    ensures |r| == 4 && '=' !in r
  {
    DigitValue(x / 4);
    DigitValue(x % 4 * 16 + y / 16);
    DigitValue(y % 16 * 4 + z / 64);
    DigitValue(z % 64);
    [Base64Digit(x / 4), Base64Digit(x % 4 * 16 + y / 16), Base64Digit(y % 16 * 4 + z / 64), Base64Digit(z % 64)]
  }

  /** Two final bytes: three digits, the last with two zero bits, and one `=`. */
  function TwoBytes(x: Byte, y: Byte): (r: string)
    ensures |r| == 4
  {
    [Base64Digit(x / 4), Base64Digit(x % 4 * 16 + y / 16), Base64Digit(y % 16 * 4), '=']
  }

  /** One final byte: two digits, the last with four zero bits, and two `=`. */
  function OneByte(x: Byte): (r: string)
    ensures |r| == 4
  {
    [Base64Digit(x / 4), Base64Digit(x % 4 * 16), '=', '=']
  }

  /** The bytes of one four-character group, or None; `last` says whether padding may occur. */
  function DecodeGroup(g: string, last: bool): (r: Option<seq<Byte>>)
    requires |g| == 4
  {
    match (Base64Value(g[0]), Base64Value(g[1]), Base64Value(g[2]), Base64Value(g[3]))
    case (Some(a), Some(b), Some(c), Some(d)) =>
      Some([a * 4 + b / 16, b % 16 * 16 + c / 4, c % 4 * 64 + d])
    case (Some(a), Some(b), Some(c), None) =>
      if last && g[3] == '=' then Some([a * 4 + b / 16, b % 16 * 16 + c / 4]) else None
    case (Some(a), Some(b), None, None) =>
      if last && g[2] == '=' && g[3] == '=' then Some([a * 4 + b / 16]) else None
    case _ => None
  }

  /** Decoding of padded Base64; None when the length is not a multiple of four or a digit is bad. */
  function Base64Decode(s: string): Option<seq<Byte>>
    decreases |s|
  {
    if s == [] then Some([])
    else if |s| < 4 then None
    else match DecodeGroup(s[..4], |s| == 4)
      case None => None
      case Some(g) =>
        match Base64Decode(s[4..])
        case None => None
        case Some(rest) => Some(g + rest)
  }

  /** Decoding a text that starts with a good group. */
  lemma {:induction false} DecodeFront(g: string, rest: string, x: seq<Byte>, y: seq<Byte>)
    requires |g| == 4 && DecodeGroup(g, rest == []) == Some(x) && Base64Decode(rest) == Some(y)
    ensures Base64Decode(g + rest) == Some(x + y)
  {
    var s := g + rest;
    assert s[..4] == g && s[4..] == rest;
  }

  lemma {:induction false} OneByteGroup(x: Byte)
    ensures DecodeGroup(OneByte(x), true) == Some([x])
  {
    DigitValue(x / 4);
    DigitValue(x % 4 * 16);
    assert x / 4 * 4 + x % 4 * 16 / 16 == x;
  }

  lemma {:induction false} TwoByteGroup(x: Byte, y: Byte)
    ensures DecodeGroup(TwoBytes(x, y), true) == Some([x, y])
  {
    var m := x % 4 * 16 + y / 16;
    assert m / 16 == x % 4 && m % 16 == y / 16;
    DigitValue(x / 4);
    DigitValue(m);
    DigitValue(y % 16 * 4);
  }

  lemma {:induction false} ThreeByteGroup(x: Byte, y: Byte, z: Byte, last: bool)
    ensures DecodeGroup(ThreeBytes(x, y, z), last) == Some([x, y, z])
  {
    var m := x % 4 * 16 + y / 16;
    var k := y % 16 * 4 + z / 64;
    assert m / 16 == x % 4 && m % 16 == y / 16;
    assert k / 4 == y % 16 && k % 4 == z / 64;
    DigitValue(x / 4);
    DigitValue(m);
    DigitValue(k);
    DigitValue(z % 64);
  }

  /** Base64 decoding undoes Base64 encoding. */
  lemma {:induction false} Base64RoundTrip(b: seq<Byte>)
    ensures Base64Decode(Base64Encode(b)) == Some(b)
    decreases |b|
  {
    if |b| >= 3 {
      Base64RoundTrip(b[3..]);
      RoundTripFront(b);
    } else if b != [] {
      RoundTripShort(b);
    }
  }

  lemma {:induction false} RoundTripFront(b: seq<Byte>)
    requires |b| >= 3 && Base64Decode(Base64Encode(b[3..])) == Some(b[3..])
    ensures Base64Decode(Base64Encode(b)) == Some(b)
  {
    var rest := Base64Encode(b[3..]);
    assert Base64Encode(b) == ThreeBytes(b[0], b[1], b[2]) + rest;
    ThreeByteGroup(b[0], b[1], b[2], rest == []);
    DecodeFront(ThreeBytes(b[0], b[1], b[2]), rest, [b[0], b[1], b[2]], b[3..]);
    assert b == [b[0], b[1], b[2]] + b[3..];
  }

  lemma {:induction false} RoundTripShort(b: seq<Byte>)
    requires 1 <= |b| <= 2
    ensures Base64Decode(Base64Encode(b)) == Some(b)
  {
    if |b| == 1 {
      OneByteGroup(b[0]);
      DecodeFront(OneByte(b[0]), [], [b[0]], []);
      assert OneByte(b[0]) + [] == OneByte(b[0]) && b == [b[0]] + [];
    } else {
      TwoByteGroup(b[0], b[1]);
      DecodeFront(TwoBytes(b[0], b[1]), [], [b[0], b[1]], []);
      assert TwoBytes(b[0], b[1]) + [] == TwoBytes(b[0], b[1]) && b == [b[0], b[1]] + [];
    }
  }

  /** Four digits for every started group of three bytes. */
  lemma {:induction false} Base64Length(b: seq<Byte>)
    ensures |Base64Encode(b)| == (|b| + 2) / 3 * 4
    decreases |b|
  {
    if |b| >= 3 {
      Base64Length(b[3..]);
    }
  }

  /** Base64 text comes in whole groups of four characters. */
  lemma {:induction false} Base64Quads(b: seq<Byte>)
    ensures |Base64Encode(b)| % 4 == 0
    decreases |b|
  {
    if |b| >= 3 {
      Base64Quads(b[3..]);
      var n := |Base64Encode(b[3..])|;
      assert |Base64Encode(b)| == 4 + n;
    }
  }

  /** Different byte strings have different Base64 texts. */
  lemma {:induction false} Base64Injective(a: seq<Byte>, b: seq<Byte>)
    requires Base64Encode(a) == Base64Encode(b)
    ensures a == b
  {
    Base64RoundTrip(a);
    Base64RoundTrip(b);
  }

  /** A Base64 text never holds `:`: the alphabet and the padding exclude it. */
  lemma {:induction false} Base64HasNoColon(b: seq<Byte>)
    ensures ':' !in Base64Encode(b)
    decreases |b|
  {
    if |b| > 3 {
      Base64HasNoColon(b[3..]);
    }
  }
}

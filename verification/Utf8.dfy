/** UTF-8 as section 3 of RFC 3629 defines it, on whole characters (no lone surrogates). */
module Utf8 {
  import opened Text

  type Byte = b: int | 0 <= b < 256

  function EncodeChar(c: char): (r: seq<Byte>)
    ensures 1 <= |r| <= 4
  {
    var n := c as int;
    if n < 0x80 then [n]
    else if n < 0x800 then [0xC0 + n / 64, 0x80 + n % 64]
    else if n < 0x10000 then [0xE0 + n / 4096, 0x80 + n / 64 % 64, 0x80 + n % 64]
    else [0xF0 + n / 262144, 0x80 + n / 4096 % 64, 0x80 + n / 64 % 64, 0x80 + n % 64]
  }

  function Encode(s: string): seq<Byte> {
    if s == "" then [] else EncodeChar(s[0]) + Encode(s[1..])
  }

  predicate IsTail(b: Byte) {
    0x80 <= b < 0xC0
  }

  function CharOf(n: int, least: int): Option<char> {
    if least <= n && (0 <= n < 0xD800 || 0xE000 <= n < 0x110000) then Some(n as char) else None
  }

  /** The code that a sequence of bytes starts with and the number of bytes it takes; None when malformed. */
  function DecodeOne(b: seq<Byte>): (r: Option<(char, nat)>)
    ensures r.Some? ==> 1 <= r.value.1 <= |b|
  {
    if b == [] then None
    else if b[0] < 0x80 then Some((b[0] as char, 1))
    else if 0xC0 <= b[0] < 0xE0 then
      if |b| >= 2 && IsTail(b[1]) then Sized(CharOf((b[0] as int - 0xC0) * 64 + (b[1] as int - 0x80), 0x80), 2) else None
    else if 0xE0 <= b[0] < 0xF0 then
      if |b| >= 3 && IsTail(b[1]) && IsTail(b[2]) then
        Sized(CharOf((b[0] as int - 0xE0) * 4096 + (b[1] as int - 0x80) * 64 + (b[2] as int - 0x80), 0x800), 3)
      else None
    else if 0xF0 <= b[0] < 0xF8 then
      if |b| >= 4 && IsTail(b[1]) && IsTail(b[2]) && IsTail(b[3]) then
        Sized(CharOf((b[0] as int - 0xF0) * 262144 + (b[1] as int - 0x80) * 4096 + (b[2] as int - 0x80) * 64 + (b[3] as int - 0x80), 0x10000), 4)
      else None
    else None
  }

  function Sized(c: Option<char>, n: nat): Option<(char, nat)> {
    if c.None? then None else Some((c.value, n))
  }

  function Decode(b: seq<Byte>): Option<string>
    decreases |b|
  {
    if b == [] then Some("")
    else
      match DecodeOne(b)
      case None => None
      case Some((c, n)) =>
        match Decode(b[n..])
        case None => None
        case Some(tail) => Some([c] + tail)
  }

  lemma DecodeTwo(n: int, rest: seq<Byte>)
    requires 0x80 <= n < 0x800
    ensures DecodeOne([0xC0 + n / 64, 0x80 + n % 64] + rest) == Some((n as char, 2))
  {
  }

  lemma DecodeThree(n: int, rest: seq<Byte>)
    requires 0x800 <= n < 0x10000 && !(0xD800 <= n < 0xE000)
    ensures DecodeOne([0xE0 + n / 4096, 0x80 + n / 64 % 64, 0x80 + n % 64] + rest) == Some((n as char, 3))
  {
    assert n == n / 4096 * 4096 + n / 64 % 64 * 64 + n % 64;
  }

  lemma DecodeFour(n: int, rest: seq<Byte>)
    requires 0x10000 <= n < 0x110000
    ensures DecodeOne([0xF0 + n / 262144, 0x80 + n / 4096 % 64, 0x80 + n / 64 % 64, 0x80 + n % 64] + rest) == Some((n as char, 4))
  {
    assert n == n / 262144 * 262144 + n / 4096 % 64 * 4096 + n / 64 % 64 * 64 + n % 64;
  }

  lemma DecodeEncodedChar(c: char, rest: seq<Byte>)
    ensures DecodeOne(EncodeChar(c) + rest) == Some((c, |EncodeChar(c)|))
  {
    hide DecodeOne;
    var n := c as int;
    if n < 0x80 {
      DecodeSingle(n, rest);
    } else if n < 0x800 {
      DecodeTwo(n, rest);
    } else if n < 0x10000 {
      DecodeThree(n, rest);
    } else {
      DecodeFour(n, rest);
    }
  }

  lemma DecodeSingle(n: int, rest: seq<Byte>)
    requires 0 <= n < 0x80
    ensures DecodeOne([n] + rest) == Some((n as char, 1))
  {
  }

  lemma {:induction false} RoundTrip(s: string)
    ensures Decode(Encode(s)) == Some(s)
  {
    hide EncodeChar, DecodeOne;
    if s != "" {
      var head := EncodeChar(s[0]);
      DecodeEncodedChar(s[0], Encode(s[1..]));
      assert (head + Encode(s[1..]))[|head|..] == Encode(s[1..]);
      RoundTrip(s[1..]);
      assert [s[0]] + s[1..] == s;
    }
  }

  // ---------------------------------------------------------------- against the standard

  /** The table of section 3: the leading byte by range, then bytes of six bits each, highest first. */
  lemma EncodeCharIs(c: char)
    ensures var n, b := c as int, EncodeChar(c);
            && (n < 0x80 ==> b == [n])
            && (0x80 <= n < 0x800 ==>
                  |b| == 2 && 0xC0 <= b[0] < 0xE0 && 0x80 <= b[1] < 0xC0 && n == (b[0] as int - 0xC0) * 64 + (b[1] as int - 0x80))
            && (0x800 <= n < 0x10000 ==>
                  |b| == 3 && 0xE0 <= b[0] < 0xF0 && 0x80 <= b[1] < 0xC0 && 0x80 <= b[2] < 0xC0
                  && n == (b[0] as int - 0xE0) * 4096 + (b[1] as int - 0x80) * 64 + (b[2] as int - 0x80))
            && (0x10000 <= n ==>
                  |b| == 4 && 0xF0 <= b[0] < 0xF8 && 0x80 <= b[1] < 0xC0 && 0x80 <= b[2] < 0xC0 && 0x80 <= b[3] < 0xC0
                  && n == (b[0] as int - 0xF0) * 262144 + (b[1] as int - 0x80) * 4096 + (b[2] as int - 0x80) * 64 + (b[3] as int - 0x80))
  {
    var n := c as int;
    assert n == n / 262144 * 262144 + n / 4096 % 64 * 4096 + n / 64 % 64 * 64 + n % 64;
    assert n < 0x10000 ==> n / 262144 == 0 && n / 4096 % 64 == n / 4096;
  }

  /** What is read as a character is its only encoding: no overlong form, no half of a pair. */
  lemma DecodeOneIsCanonical(b: seq<Byte>)
    requires DecodeOne(b).Some?
    ensures var (c, n) := DecodeOne(b).value; b[..n] == EncodeChar(c)
  {
    if b[0] < 0x80 {
    } else if b[0] < 0xE0 {
      TwoBack(b[0], b[1]);
    } else if b[0] < 0xF0 {
      ThreeBack(b[0], b[1], b[2]);
    } else {
      FourBack(b[0], b[1], b[2], b[3]);
    }
  }

  lemma TwoBack(a: int, b: int)
    requires 0xC0 <= a < 0xE0 && 0x80 <= b < 0xC0
    ensures var n := (a - 0xC0) * 64 + (b - 0x80); a == 0xC0 + n / 64 && b == 0x80 + n % 64
  {
  }

  lemma ThreeBack(a: int, b: int, c: int)
    requires 0xE0 <= a < 0xF0 && 0x80 <= b < 0xC0 && 0x80 <= c < 0xC0
    ensures var n := (a - 0xE0) * 4096 + (b - 0x80) * 64 + (c - 0x80);
            a == 0xE0 + n / 4096 && b == 0x80 + n / 64 % 64 && c == 0x80 + n % 64
  {
    var n := (a - 0xE0) * 4096 + (b - 0x80) * 64 + (c - 0x80);
    assert n / 64 == (a - 0xE0) * 64 + (b - 0x80);
  }

  lemma FourBack(a: int, b: int, c: int, d: int)
    requires 0xF0 <= a < 0xF8 && 0x80 <= b < 0xC0 && 0x80 <= c < 0xC0 && 0x80 <= d < 0xC0
    ensures var n := (a - 0xF0) * 262144 + (b - 0x80) * 4096 + (c - 0x80) * 64 + (d - 0x80);
            a == 0xF0 + n / 262144 && b == 0x80 + n / 4096 % 64 && c == 0x80 + n / 64 % 64 && d == 0x80 + n % 64
  {
    var n := (a - 0xF0) * 262144 + (b - 0x80) * 4096 + (c - 0x80) * 64 + (d - 0x80);
    assert n / 4096 == (a - 0xF0) * 64 + (b - 0x80);
    assert n / 64 == (a - 0xF0) * 4096 + (b - 0x80) * 64 + (c - 0x80);
  }

  /** Exactly the encodings of texts are read, each as its text. */
  lemma {:induction false} DecodeExactly(b: seq<Byte>, s: string)
    ensures Decode(b) == Some(s) <==> b == Encode(s)
    decreases |b|
  {
    hide EncodeChar, DecodeOne;
    RoundTrip(s);
    if b != [] && Decode(b) == Some(s) {
      var (c, n) := DecodeOne(b).value;
      DecodeOneIsCanonical(b);
      var tail := Decode(b[n..]).value;
      DecodeExactly(b[n..], tail);
      assert s[0] == c && s[1..] == tail;
      assert b == b[..n] + b[n..];
    }
  }
}

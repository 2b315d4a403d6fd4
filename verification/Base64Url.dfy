/** Base64 without padding over the URL alphabet: sections 4 and 5 of RFC 4648. */
module Base64Url {
  import opened Text
  import opened Utf8

  // ---------------------------------------------------------------- base64 with padding

  function Digit(n: int): char
    requires 0 <= n < 64
  {
    if n < 26 then (n + 'A' as int) as char
    else if n < 52 then (n - 26 + 'a' as int) as char
    else if n < 62 then (n - 52 + '0' as int) as char
    else if n == 62 then '+' else '/'
  }

  function DigitValue(c: char): (r: Option<int>)
    ensures r.Some? ==> 0 <= r.value < 64
  {
    if 'A' <= c <= 'Z' then Some(c as int - 'A' as int)
    else if 'a' <= c <= 'z' then Some(c as int - 'a' as int + 26)
    else if '0' <= c <= '9' then Some(c as int - '0' as int + 52)
    else if c == '+' then Some(62)
    else if c == '/' then Some(63)
    else None
  }

  /** The digits of the last one, two or three bytes, before any padding. */
  function Group(b: seq<Byte>): (r: string)
    requires 1 <= |b| <= 3
    ensures |r| == |b| + 1
  {
    if |b| == 1 then [Digit(b[0] / 4), Digit(b[0] % 4 * 16)]
    else if |b| == 2 then [Digit(b[0] / 4), Digit(b[0] % 4 * 16 + b[1] / 16), Digit(b[1] % 16 * 4)]
    else [Digit(b[0] / 4), Digit(b[0] % 4 * 16 + b[1] / 16), Digit(b[1] % 16 * 4 + b[2] / 64), Digit(b[2] % 64)]
  }

  function Padding(n: nat): string {
    seq(n, _ => '=')
  }

  /** `buf.toString('base64')`. */
  function Encode64(b: seq<Byte>): string {
    if b == [] then ""
    else if |b| <= 3 then Group(b) + Padding(3 - |b|)
    else Group(b[..3]) + Encode64(b[3..])
  }

  /** The bytes of one group of digits. */
  function Ungroup(s: string): Option<seq<Byte>>
    requires 2 <= |s| <= 4
  {
    var a, b := DigitValue(s[0]), DigitValue(s[1]);
    var c, d := if |s| > 2 then DigitValue(s[2]) else Some(0), if |s| > 3 then DigitValue(s[3]) else Some(0);
    if a.None? || b.None? || c.None? || d.None? then None
    else
      var x, y, z := a.value * 4 + b.value / 16, b.value % 16 * 16 + c.value / 4, c.value % 4 * 64 + d.value;
      Some(if |s| == 2 then [x] else if |s| == 3 then [x, y] else [x, y, z])
  }

  /** How many digits of a group of four are not padding. */
  function Digits(s: string): nat
    requires |s| == 4
  {
    if s[3] != '=' then 4 else if s[2] != '=' then 3 else 2
  }

  /** `Buffer.from(s, 'base64')` on a padded text; None for a text that no encoder produces. */
  function Decode64(s: string): Option<seq<Byte>> {
    if s == "" then Some([])
    else if |s| < 4 then None
    else
      var head := s[..4];
      var bytes := Ungroup(head[..Digits(head)]);
      if bytes.None? || (Digits(head) < 4 && |s| > 4) then None
      else
        var rest := Decode64(s[4..]);
        if rest.None? then None else Some(bytes.value + rest.value)
  }

  // ---------------------------------------------------------------- the URL form

  function RemoveChar(s: string, c: char): string {
    if s == "" then "" else (if s[0] == c then "" else [s[0]]) + RemoveChar(s[1..], c)
  }

  function Swap(s: string, c: char, d: char): string {
    seq(|s|, i requires 0 <= i < |s| => if s[i] == c then d else s[i])
  }

  function EncodeUrl(b: seq<Byte>): string {
    Swap(Swap(RemoveChar(Encode64(b), '='), '+', '-'), '/', '_')
  }

  function DecodeUrl(s: string): Option<seq<Byte>> {
    var normalized := Swap(Swap(s, '-', '+'), '_', '/');
    Decode64(normalized + Padding((4 - |normalized| % 4) % 4))
  }

  predicate IsUrlChar(c: char) {
    'A' <= c <= 'Z' || 'a' <= c <= 'z' || '0' <= c <= '9' || c == '-' || c == '_'
  }

  predicate AllDigits(s: string) {
    forall i :: 0 <= i < |s| ==> DigitValue(s[i]).Some?
  }

  // ---------------------------------------------------------------- base64 round trip

  lemma DigitRoundTrip(n: int)
    requires 0 <= n < 64
    ensures DigitValue(Digit(n)) == Some(n)
  {
  }

  lemma OneByte(b: Byte)
    ensures Ungroup(Group([b])) == Some([b]) && AllDigits(Group([b]))
  {
    hide Digit, DigitValue;
    DigitRoundTrip(b / 4);
    DigitRoundTrip(b % 4 * 16);
  }

  lemma TwoBytes(a: Byte, b: Byte)
    ensures Ungroup(Group([a, b])) == Some([a, b]) && AllDigits(Group([a, b]))
  {
    hide Digit, DigitValue;
    DigitRoundTrip(a / 4);
    DigitRoundTrip(a % 4 * 16 + b / 16);
    DigitRoundTrip(b % 16 * 4);
  }

  lemma HighBits(a: Byte, b: Byte)
    ensures a / 4 * 4 + (a % 4 * 16 + b / 16) / 16 == a
  {
  }

  lemma MiddleBits(a: Byte, b: Byte, c: Byte)
    ensures (a % 4 * 16 + b / 16) % 16 * 16 + (b % 16 * 4 + c / 64) / 4 == b
  {
    assert (a % 4 * 16 + b / 16) % 16 == b / 16;
    assert (b % 16 * 4 + c / 64) / 4 == b % 16;
  }

  lemma LowBits(b: Byte, c: Byte)
    ensures (b % 16 * 4 + c / 64) % 4 * 64 + c % 64 == c
  {
  }

  lemma UngroupFour(s: string, a: int, b: int, c: int, d: int)
    requires |s| == 4 && DigitValue(s[0]) == Some(a) && DigitValue(s[1]) == Some(b)
    requires DigitValue(s[2]) == Some(c) && DigitValue(s[3]) == Some(d)
    ensures Ungroup(s) == Some([a * 4 + b / 16, b % 16 * 16 + c / 4, c % 4 * 64 + d])
  {
    hide DigitValue;
  }

  lemma ThreeBytes(a: Byte, b: Byte, c: Byte)
    ensures Ungroup(Group([a, b, c])) == Some([a, b, c]) && AllDigits(Group([a, b, c]))
  {
    hide Digit, DigitValue, Ungroup;
    var w, x, y, z := a / 4, a % 4 * 16 + b / 16, b % 16 * 4 + c / 64, c % 64;
    DigitRoundTrip(w);
    DigitRoundTrip(x);
    DigitRoundTrip(y);
    DigitRoundTrip(z);
    UngroupFour(Group([a, b, c]), w, x, y, z);
    HighBits(a, b);
    MiddleBits(a, b, c);
    LowBits(b, c);
  }

  lemma UngroupGroup(b: seq<Byte>)
    requires 1 <= |b| <= 3
    ensures Ungroup(Group(b)) == Some(b) && AllDigits(Group(b))
  {
    hide Ungroup, Group;
    if |b| == 1 {
      OneByte(b[0]);
      assert b == [b[0]];
    } else if |b| == 2 {
      TwoBytes(b[0], b[1]);
      assert b == [b[0], b[1]];
    } else {
      ThreeBytes(b[0], b[1], b[2]);
      assert b == [b[0], b[1], b[2]];
    }
  }

  lemma DigitIsNotPadding(c: char)
    ensures DigitValue(c).Some? ==> c != '=' && c != '-' && c != '_'
  {
  }

  /** A padded group: where its padding starts is where its digits end. */
  lemma DigitsOfPadded(g: string)
    requires 2 <= |g| <= 4 && AllDigits(g)
    ensures Digits(g + Padding(4 - |g|)) == |g| && (g + Padding(4 - |g|))[..|g|] == g
  {
    hide DigitValue;
    DigitIsNotPadding(g[|g| - 1]);
  }

  lemma {:induction false} Decode64Encode64(b: seq<Byte>)
    ensures Decode64(Encode64(b)) == Some(b)
  {
    hide Ungroup, Group, Digits, DigitValue;
    if b != [] {
      var n := if |b| <= 3 then |b| else 3;
      var g := Group(b[..n]);
      UngroupGroup(b[..n]);
      DigitsOfPadded(g);
      Decode64Encode64(b[n..]);
      var head := g + Padding(3 - n);
      assert b[..n] + b[n..] == b;
      if |b| <= 3 {
        assert b[..n] == b && b[n..] == [] && Encode64(b) == head;
      } else {
        assert head == g;
      }
      assert Encode64(b) == head + Encode64(b[n..]);
      assert Encode64(b)[..4] == head && Encode64(b)[4..] == Encode64(b[n..]);
    }
  }

  // ---------------------------------------------------------------- padding removed and put back

  lemma {:induction false} RemoveFromDigits(s: string, t: string)
    requires AllDigits(s)
    ensures RemoveChar(s + t, '=') == s + RemoveChar(t, '=')
  {
    hide DigitValue;
    if s == "" {
      assert s + t == t;
    } else {
      DigitIsNotPadding(s[0]);
      assert (s + t)[1..] == s[1..] + t;
      RemoveFromDigits(s[1..], t);
    }
  }

  lemma {:induction false} RemovePadding(n: nat)
    ensures RemoveChar(Padding(n), '=') == ""
  {
    if n > 0 {
      assert Padding(n)[1..] == Padding(n - 1);
      RemovePadding(n - 1);
    }
  }

  lemma {:induction false} PaddingComesBack(b: seq<Byte>)
    ensures var s := RemoveChar(Encode64(b), '=');
            AllDigits(s) && Encode64(b) == s + Padding((4 - |s| % 4) % 4)
  {
    hide Group, DigitValue, RemoveChar;
    if b == [] {
      RemovePadding(0);
      assert Padding(0) == "";
    } else if |b| <= 3 {
      UngroupGroup(b);
      RemoveFromDigits(Group(b), Padding(3 - |b|));
      RemovePadding(3 - |b|);
      assert Group(b) + "" == Group(b);
    } else {
      var g, rest := Group(b[..3]), RemoveChar(Encode64(b[3..]), '=');
      UngroupGroup(b[..3]);
      RemoveFromDigits(g, Encode64(b[3..]));
      PaddingComesBack(b[3..]);
      OneGroupMore(g, rest);
    }
  }

  lemma OneGroupMore(g: string, rest: string)
    requires |g| == 4 && AllDigits(g) && AllDigits(rest)
    ensures AllDigits(g + rest)
    ensures g + (rest + Padding((4 - |rest| % 4) % 4)) == g + rest + Padding((4 - |g + rest| % 4) % 4)
  {
    hide DigitValue, Padding;
    assert |g + rest| % 4 == |rest| % 4;
  }

  // ---------------------------------------------------------------- the URL alphabet

  lemma SwapBack(s: string)
    requires AllDigits(s)
    ensures var u := Swap(Swap(s, '+', '-'), '/', '_');
            && Swap(Swap(u, '-', '+'), '_', '/') == s
            && forall i :: 0 <= i < |u| ==> IsUrlChar(u[i])
  {
    var u := Swap(Swap(s, '+', '-'), '/', '_');
    forall i | 0 <= i < |s| ensures Swap(Swap(u, '-', '+'), '_', '/')[i] == s[i] && IsUrlChar(u[i]) {
      assert DigitValue(s[i]).Some?;
    }
  }

  /** Decoding undoes encoding, for every byte string. */
  lemma DecodeUrlEncodeUrl(b: seq<Byte>)
    ensures DecodeUrl(EncodeUrl(b)) == Some(b)
  {
    hide Encode64, Decode64, Swap, RemoveChar;
    var s := RemoveChar(Encode64(b), '=');
    PaddingComesBack(b);
    SwapBack(s);
    Decode64Encode64(b);
  }

  /** An encoded text needs no escaping in a URL and holds none of the token's separators. */
  lemma EncodeUrlAlphabet(b: seq<Byte>)
    ensures forall c :: c in EncodeUrl(b) ==> IsUrlChar(c) && c != '.' && c != '+' && c != '/' && c != '='
  {
    hide Encode64, Swap, RemoveChar;
    PaddingComesBack(b);
    SwapBack(RemoveChar(Encode64(b), '='));
  }

  // ---------------------------------------------------------------- against the standard

  /** The byte at k, followed by zero bits. */
  function ByteAt(b: seq<Byte>, k: nat): Byte {
    if k < |b| then b[k] else 0
  }

  /** Six bits of the byte string, from bit 6 * i on, the highest bit of a byte first. */
  function SixBits(b: seq<Byte>, i: nat): int {
    var two := ByteAt(b, 6 * i / 8) * 256 + ByteAt(b, 6 * i / 8 + 1);
    match 6 * i % 8 case 0 => two / 1024 % 64 case 6 => two / 16 % 64 case 4 => two / 64 % 64 case _ => two / 256 % 64
  }

  lemma SixBitsFit(b: seq<Byte>, i: nat)
    ensures 0 <= SixBits(b, i) < 64
  {
    hide ByteAt;
  }

  const UPPER := "ABCDEFGHIJKLMNOPQRSTUVWXYZ"
  const LOWER := "abcdefghijklmnopqrstuvwxyz"
  const ALPHABET := UPPER + LOWER + "0123456789+/"
  const URL_ALPHABET := UPPER + LOWER + "0123456789-_"

  lemma UpperCase(n: nat)
    requires n < 26
    ensures |UPPER| == 26 && UPPER[n] as int == 'A' as int + n
  {
  }

  lemma LowerCase(n: nat)
    requires n < 26
    ensures |LOWER| == 26 && LOWER[n] as int == 'a' as int + n
  {
  }

  lemma Figure(n: nat)
    requires n < 12
    ensures n < 10 ==> "0123456789+/"[n] as int == '0' as int + n && "0123456789-_"[n] as int == '0' as int + n
    ensures "0123456789+/"[10..] == "+/" && "0123456789-_"[10..] == "-_"
  {
  }

  lemma AlphabetAt(n: nat)
    requires n < 64 && |UPPER| == 26 && |LOWER| == 26
    ensures |ALPHABET| == 64 && |URL_ALPHABET| == 64
    ensures n < 26 ==> ALPHABET[n] == UPPER[n] && URL_ALPHABET[n] == UPPER[n]
    ensures 26 <= n < 52 ==> ALPHABET[n] == LOWER[n - 26] && URL_ALPHABET[n] == LOWER[n - 26]
    ensures 52 <= n ==> ALPHABET[n] == "0123456789+/"[n - 52] && URL_ALPHABET[n] == "0123456789-_"[n - 52]
  {
    hide UPPER, LOWER;
  }

  lemma DigitIs(n: nat)
    requires n < 64
    ensures |ALPHABET| == 64 && |URL_ALPHABET| == 64
    ensures Digit(n) == ALPHABET[n]
    ensures URL_ALPHABET[n] == if Digit(n) == '+' then '-' else if Digit(n) == '/' then '_' else Digit(n)
  {
    hide ALPHABET, URL_ALPHABET, UPPER, LOWER;
    UpperCase(n % 26);
    LowerCase(n % 26);
    AlphabetAt(n);
    if n >= 52 { Figure(n - 52); }
  }

  lemma GroupBits(b: seq<Byte>, i: nat)
    requires 1 <= |b| <= 3 && i <= |b|
    ensures 0 <= SixBits(b, i) < 64 && Group(b)[i] == Digit(SixBits(b, i))
  {
    hide Digit;
    match i
    case 0 => FirstBits(b);
    case 1 => SecondBits(b);
    case 2 => ThirdBits(b);
    case _ => FourthBits(b);
  }

  lemma FirstBits(b: seq<Byte>)
    requires b != []
    ensures SixBits(b, 0) == b[0] / 4
  {
    assert 6 * 0 / 8 == 0;
  }

  lemma SecondBits(b: seq<Byte>)
    requires b != []
    ensures SixBits(b, 1) == b[0] % 4 * 16 + ByteAt(b, 1) / 16
  {
    assert 6 * 1 / 8 == 0;
    SecondWindow(ByteAt(b, 0), ByteAt(b, 1));
  }

  lemma SecondWindow(x: int, y: int)
    requires 0 <= x && 0 <= y < 256
    ensures (x * 256 + y) / 16 % 64 == x % 4 * 16 + y / 16
  {
    assert (x * 256 + y) / 16 == x * 16 + y / 16;
    assert x * 16 + y / 16 == x / 4 * 64 + (x % 4 * 16 + y / 16);
  }

  lemma ThirdWindow(x: int, y: int)
    requires 0 <= x && 0 <= y < 256
    ensures (x * 256 + y) / 64 % 64 == x % 16 * 4 + y / 64
  {
    assert (x * 256 + y) / 64 == x * 4 + y / 64;
    assert x * 4 + y / 64 == x / 16 * 64 + (x % 16 * 4 + y / 64);
  }

  lemma ThirdBits(b: seq<Byte>)
    requires |b| >= 2
    ensures SixBits(b, 2) == b[1] % 16 * 4 + ByteAt(b, 2) / 64
  {
    assert 6 * 2 / 8 == 1;
    ThirdWindow(ByteAt(b, 1), ByteAt(b, 2));
  }

  lemma FourthBits(b: seq<Byte>)
    requires |b| >= 3
    ensures SixBits(b, 3) == b[2] % 64
  {
    assert 6 * 3 / 8 == 2;
  }

  /** The first four digits read the first three bytes only; the others the bytes after them. */
  lemma SixBitsSplit(b: seq<Byte>, i: nat)
    requires |b| > 3
    ensures i < 4 ==> SixBits(b, i) == SixBits(b[..3], i)
    ensures i >= 4 ==> SixBits(b, i) == SixBits(b[3..], i - 4)
  {
    if i < 4 {
      SixBitsOfHead(b, b[..3], i);
    } else {
      assert 6 * i / 8 == 6 * (i - 4) / 8 + 3 && 6 * i % 8 == 6 * (i - 4) % 8;
    }
  }

  lemma SixBitsOfHead(b: seq<Byte>, h: seq<Byte>, i: nat)
    requires |b| > 3 && |h| == 3 && h[0] == b[0] && h[1] == b[1] && h[2] == b[2] && i < 4
    ensures SixBits(b, i) == SixBits(h, i)
  {
    hide SixBits;
    FirstBits(b);
    FirstBits(h);
    SecondBits(b);
    SecondBits(h);
    ThirdBits(b);
    ThirdBits(h);
    FourthBits(b);
    FourthBits(h);
  }

  lemma PlainLast(b: seq<Byte>)
    requires 1 <= |b| <= 3
    ensures RemoveChar(Encode64(b), '=') == Group(b)
  {
    hide Group, DigitValue, RemoveChar, Ungroup, Padding;
    UngroupGroup(b);
    RemoveFromDigits(Group(b), Padding(3 - |b|));
    RemovePadding(3 - |b|);
    assert Group(b) + "" == Group(b);
  }

  lemma PlainMore(b: seq<Byte>)
    requires |b| > 3
    ensures RemoveChar(Encode64(b), '=') == Group(b[..3]) + RemoveChar(Encode64(b[3..]), '=')
  {
    hide Group, DigitValue, RemoveChar, Ungroup, Padding;
    UngroupGroup(b[..3]);
    RemoveFromDigits(Group(b[..3]), Encode64(b[3..]));
  }

  lemma {:induction false} PlainIs(b: seq<Byte>, i: nat)
    requires i < (8 * |b| + 5) / 6
    ensures var s := RemoveChar(Encode64(b), '=');
            |s| == (8 * |b| + 5) / 6 && 0 <= SixBits(b, i) < 64 && s[i] == Digit(SixBits(b, i))
    decreases |b|
  {
    hide Group, Digit, SixBits, RemoveChar, Encode64;
    if |b| <= 3 {
      PlainLast(b);
      GroupBits(b, i);
    } else {
      PlainMore(b);
      SixBitsSplit(b, i);
      PlainIs(b[3..], if i < 4 then 0 else i - 4);
      if i < 4 { GroupBits(b[..3], i); }
    }
  }

  /** Every digit of the URL form is the letter that stands for six bits of the bytes, and none is missing. */
  lemma EncodeUrlIs(b: seq<Byte>, i: nat)
    requires i < (8 * |b| + 5) / 6
    ensures |EncodeUrl(b)| == (8 * |b| + 5) / 6
    ensures |URL_ALPHABET| == 64 && 0 <= SixBits(b, i) < 64 && EncodeUrl(b)[i] == URL_ALPHABET[SixBits(b, i)]
  {
    hide Encode64, RemoveChar, Digit, SixBits, URL_ALPHABET, ALPHABET, UPPER, LOWER;
    PlainIs(b, i);
    DigitIs(SixBits(b, i));
  }
}

/**
 * Percent-encoding over UTF-8 (sections 2.1 and 2.3 of RFC 3986, section 3 of RFC 3629), with the
 * lenient decoding of Python's `urllib.parse`: stray percent signs stay, and each maximal ill-formed
 * piece of UTF-8 becomes one replacement character.
 */
module PercentEncoding {
  type Byte = b: int | 0 <= b < 256

  const REPLACEMENT: char := '\U{FFFD}'

  predicate AsciiChar(c: char) { c as int < 128 }

  predicate Ascii(s: string) { forall i :: 0 <= i < |s| ==> AsciiChar(s[i]) }

  // ---- UTF-8 ------------------------------------------------------------------------------------------

  function EncodeChar(c: char): seq<Byte>
  {
    var n := c as int;
    if n < 0x80 then [n]
    else if n < 0x800 then [0xC0 + n / 64, 0x80 + n % 64]
    else if n < 0x10000 then [0xE0 + n / 4096, 0x80 + n / 64 % 64, 0x80 + n % 64]
    else [0xF0 + n / 262144, 0x80 + n / 4096 % 64, 0x80 + n / 64 % 64, 0x80 + n % 64]
  }

  function Utf8(s: string): seq<Byte> { if s == "" then [] else EncodeChar(s[0]) + Utf8(s[1..]) }

  /** How many bytes follow a leading byte. */
  function Followers(lead: Byte): nat
  {
    if 0xC2 <= lead <= 0xDF then 1 else if 0xE0 <= lead <= 0xEF then 2 else if 0xF0 <= lead <= 0xF4 then 3 else 0
  }

  predicate Continues(b: Byte) { 0x80 <= b <= 0xBF }

  /** The second byte also excludes overlong forms, surrogates and what lies beyond the last code point. */
  predicate Seconds(lead: Byte, b: Byte)
  {
    (if lead == 0xE0 then 0xA0 else if lead == 0xF0 then 0x90 else 0x80) <= b
    <= (if lead == 0xED then 0x9F else if lead == 0xF4 then 0x8F else 0xBF)
  }

  /** How many of the expected followers are there and well-formed. */
  function Followed(bs: seq<Byte>): (n: nat)
    requires bs != []
    ensures n <= Followers(bs[0]) && n < |bs|
  {
    var need := Followers(bs[0]);
    if need == 0 || |bs| < 2 || !Seconds(bs[0], bs[1]) then 0
    else if need == 1 || |bs| < 3 || !Continues(bs[2]) then 1
    else if need == 2 || |bs| < 4 || !Continues(bs[3]) then 2
    else 3
  }

  /** Six more bits of a code point, carried by a byte above its marker. */
  function Join(high: int, b: int, marker: int): int { high * 64 + (b - marker) }

  /** The first character of a byte string and how many bytes it takes. */
  function DecodeOne(bs: seq<Byte>): (r: (char, nat))
    requires bs != []
    ensures 1 <= r.1 <= |bs|
  {
    var need, got := Followers(bs[0]), Followed(bs);
    if bs[0] < 0x80 then (bs[0] as char, 1)
    else if need == 0 || got < need then (REPLACEMENT, 1 + got)
    else if need == 1 then (Join(Join(0, bs[0], 0xC0), bs[1], 0x80) as char, 2)
    else if need == 2 then (Join(Join(Join(0, bs[0], 0xE0), bs[1], 0x80), bs[2], 0x80) as char, 3)
    else (Join(Join(Join(Join(0, bs[0], 0xF0), bs[1], 0x80), bs[2], 0x80), bs[3], 0x80) as char, 4)
  }

  function Decode(bs: seq<Byte>): string
  {
    if bs == [] then "" else
    var (c, n) := DecodeOne(bs);
    [c] + Decode(bs[n..])
  }

  lemma TwoBytesDecode(c: char, rest: seq<Byte>)
    requires 0x80 <= c as int < 0x800
    ensures DecodeOne(EncodeChar(c) + rest) == (c, 2)
  {
    var n := c as int;
    var bs := EncodeChar(c) + rest;
    assert bs[0] == 0xC0 + n / 64 && bs[1] == 0x80 + n % 64;
  }

  lemma ThreeBytesDecode(c: char, rest: seq<Byte>)
    requires 0x800 <= c as int < 0x10000
    ensures DecodeOne(EncodeChar(c) + rest) == (c, 3)
  {
    var n := c as int;
    var bs := EncodeChar(c) + rest;
    var low, middle, high := n % 64, n / 64 % 64, n / 4096;
    assert n / 64 == high * 64 + middle;
    assert bs[0] == 0xE0 + high && bs[1] == 0x80 + middle && bs[2] == 0x80 + low;
    assert n == high * 4096 + middle * 64 + low;
  }

  lemma FourBytesDecode(c: char, rest: seq<Byte>)
    requires 0x10000 <= c as int
    ensures DecodeOne(EncodeChar(c) + rest) == (c, 4)
  {
    var n := c as int;
    var bs := EncodeChar(c) + rest;
    var a, b, d, e := n / 262144, n / 4096 % 64, n / 64 % 64, n % 64;
    assert n / 4096 == a * 64 + b && n / 64 == (n / 4096) * 64 + d;
    assert bs[0] == 0xF0 + a && bs[1] == 0x80 + b && bs[2] == 0x80 + d && bs[3] == 0x80 + e;
    assert n == ((a * 64 + b) * 64 + d) * 64 + e;
  }

  lemma EncodedCharDecodes(c: char, rest: seq<Byte>)
    ensures DecodeOne(EncodeChar(c) + rest) == (c, |EncodeChar(c)|)
  {
    var n := c as int;
    if n < 0x80 {
    } else if n < 0x800 {
      TwoBytesDecode(c, rest);
    } else if n < 0x10000 {
      ThreeBytesDecode(c, rest);
    } else {
      FourBytesDecode(c, rest);
    }
  }

  lemma {:induction false} Utf8Decodes(s: string)
    ensures Decode(Utf8(s)) == s
  {
    if s != "" {
      var first, rest := EncodeChar(s[0]), Utf8(s[1..]);
      EncodedCharDecodes(s[0], rest);
      assert (first + rest)[|first|..] == rest;
      Utf8Decodes(s[1..]);
    }
  }

  // ---- percent-encoding ------------------------------------------------------------------------------------

  predicate Unreserved(b: Byte)
  {
    || 'A' as int <= b <= 'Z' as int || 'a' as int <= b <= 'z' as int || '0' as int <= b <= '9' as int
    || b == '-' as int || b == '.' as int || b == '_' as int || b == '~' as int
  }

  function HexDigit(n: int): char
    requires 0 <= n < 16
  {
    if n < 10 then (n + '0' as int) as char else (n - 10 + 'A' as int) as char
  }

  predicate IsHex(c: char) { '0' <= c <= '9' || 'A' <= c <= 'F' || 'a' <= c <= 'f' }

  function HexValue(c: char): (n: int)
    requires IsHex(c)
    ensures 0 <= n < 16
  {
    if c <= '9' then c as int - '0' as int
    else if c <= 'F' then c as int - 'A' as int + 10
    else c as int - 'a' as int + 10
  }

  function Escape(b: Byte): string
  {
    if Unreserved(b) then [b as char] else ['%', HexDigit(b / 16), HexDigit(b % 16)]
  }

  function QuoteBytes(bs: seq<Byte>): string { if bs == [] then "" else Escape(bs[0]) + QuoteBytes(bs[1..]) }

  /** `quote(s, safe="")`. */
  function Quote(s: string): string { QuoteBytes(Utf8(s)) }

  function UnquoteBytes(s: string): seq<Byte>
    requires Ascii(s)
  {
    if s == "" then []
    else if s[0] == '%' && |s| >= 3 && IsHex(s[1]) && IsHex(s[2]) then
      [HexValue(s[1]) * 16 + HexValue(s[2])] + UnquoteBytes(s[3..])
    else [s[0] as int] + UnquoteBytes(s[1..])
  }

  /** The length of the longest prefix of ASCII characters. */
  function AsciiRun(s: string): (n: nat)
    ensures n <= |s| && Ascii(s[..n])
    ensures s != "" && AsciiChar(s[0]) ==> n > 0
    ensures n < |s| ==> !AsciiChar(s[n])
  {
    if s == "" || !AsciiChar(s[0]) then 0
    else
      assert forall i :: 1 <= i < |s| ==> s[i] == s[1..][i - 1];
      1 + AsciiRun(s[1..])
  }

  /** `unquote(s)`: runs of ASCII characters are decoded, other characters stay. */
  function Unquote(s: string): string
    decreases |s|
  {
    if s == "" then ""
    else if !AsciiChar(s[0]) then [s[0]] + Unquote(s[1..])
    else
      var n := AsciiRun(s);
      Decode(UnquoteBytes(s[..n])) + Unquote(s[n..])
  }

  /** What quoting can produce: nothing that delimits parts of a URL. */
  predicate QuotedChar(c: char) { AsciiChar(c) && (Unreserved(c as int) || c == '%') }

  lemma {:induction false} QuotedChars(bs: seq<Byte>)
    ensures forall i :: 0 <= i < |QuoteBytes(bs)| ==> QuotedChar(QuoteBytes(bs)[i])
    ensures |QuoteBytes(bs)| >= |bs|
  {
    if bs != [] {
      QuotedChars(bs[1..]);
      assert forall i :: 0 <= i < |Escape(bs[0])| ==> QuotedChar(Escape(bs[0])[i]);
    }
  }

  lemma EscapeUnquotes(b: Byte, rest: string)
    requires Ascii(rest)
    ensures Ascii(Escape(b) + rest)
    ensures UnquoteBytes(Escape(b) + rest) == [b] + UnquoteBytes(rest)
  {
    var s := Escape(b) + rest;
    if Unreserved(b) {
      assert s[1..] == rest && s[0] == b as char;
    } else {
      assert s[0] == '%' && s[1] == HexDigit(b / 16) && s[2] == HexDigit(b % 16) && s[3..] == rest;
      assert HexValue(HexDigit(b / 16)) == b / 16 && HexValue(HexDigit(b % 16)) == b % 16;
    }
  }

  lemma {:induction false} QuotedBytesUnquote(bs: seq<Byte>)
    ensures Ascii(QuoteBytes(bs)) && UnquoteBytes(QuoteBytes(bs)) == bs
  {
    if bs != [] {
      QuotedBytesUnquote(bs[1..]);
      EscapeUnquotes(bs[0], QuoteBytes(bs[1..]));
    }
  }

  lemma AsciiUnquotes(s: string)
    requires Ascii(s)
    ensures Unquote(s) == Decode(UnquoteBytes(s))
  {
    if s != "" {
      var n := AsciiRun(s);
      assert n == |s|;
      assert s[..n] == s && s[n..] == "";
    }
  }

  /** Decoding undoes encoding, for every string of Unicode scalar values. */
  lemma UnquoteQuote(s: string)
    ensures Unquote(Quote(s)) == s
  {
    QuotedBytesUnquote(Utf8(s));
    AsciiUnquotes(Quote(s));
    Utf8Decodes(s);
  }

  /** Different strings have different encodings. */
  lemma QuoteIsInjective(a: string, b: string)
    requires Quote(a) == Quote(b)
    ensures a == b
  {
    UnquoteQuote(a);
    UnquoteQuote(b);
  }

  lemma {:induction false} PlainAsciiDecodes(s: string)
    requires Ascii(s) && '%' !in s
    ensures Decode(UnquoteBytes(s)) == s
  {
    if s != "" {
      PlainAsciiDecodes(s[1..]);
      var bs := UnquoteBytes(s);
      assert bs[0] == s[0] as int && bs[1..] == UnquoteBytes(s[1..]);
      assert DecodeOne(bs) == (s[0], 1);
    }
  }

  /** A string without a percent sign is its own decoding. */
  lemma {:induction false} UnquoteWithoutPercent(s: string)
    requires '%' !in s
    ensures Unquote(s) == s
    decreases |s|
  {
    if s != "" && AsciiChar(s[0]) {
      var n := AsciiRun(s);
      assert forall c :: c in s[..n] ==> c in s;
      PlainAsciiDecodes(s[..n]);
      UnquoteWithoutPercent(s[n..]);
      assert s == s[..n] + s[n..];
    } else if s != "" {
      UnquoteWithoutPercent(s[1..]);
    }
  }
}

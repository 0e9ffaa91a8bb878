/**
 * `urllib.parse.quote(s)` with its default arguments: s is encoded as UTF-8,
 * every byte outside the unreserved set (letters, digits and "_.-~") and the
 * default safe character '/' becomes "%XX" with two upper-case hexadecimal
 * digits, and every other byte stands for itself.
 */
module Encoding {
  import opened Wrappers

  type byte = b: int | 0 <= b < 256

  // ---------------------------------------------------------------- UTF-8

  /** The UTF-8 encoding of one Unicode scalar value. */
  function Utf8Char(c: char): (bs: seq<byte>)
    ensures 1 <= |bs| <= 4
  {
    var cp := c as int;
    if cp < 0x80 then [cp]
    else if cp < 0x800 then [0xC0 + cp / 64, 0x80 + cp % 64]
    else if cp < 0x10000 then [0xE0 + cp / 4096, 0x80 + cp / 64 % 64, 0x80 + cp % 64]
    else [0xF0 + cp / 262144, 0x80 + cp / 4096 % 64, 0x80 + cp / 64 % 64, 0x80 + cp % 64]
  }

  /** `s.encode('utf-8')`. */
  function Utf8(s: string): seq<byte> {
    if |s| == 0 then [] else Utf8Char(s[0]) + Utf8(s[1..])
  }

  predicate IsContinuation(b: byte) {
    0x80 <= b < 0xC0
  }

  /** A code point that is a Unicode scalar value, as a char. */
  function ScalarChar(cp: int): Option<char> {
    if 0 <= cp < 0xD800 || 0xE000 <= cp < 0x110000 then Some(cp as char) else None
  }

  /** The code point of a two-, three- or four-byte sequence, from its bytes. */
  function Utf8Value2(b0: int, b1: int): int { (b0 - 0xC0) * 64 + (b1 - 0x80) }
  function Utf8Value3(b0: int, b1: int, b2: int): int { (b0 - 0xE0) * 4096 + (b1 - 0x80) * 64 + (b2 - 0x80) }
  function Utf8Value4(b0: int, b1: int, b2: int, b3: int): int {
    (b0 - 0xF0) * 262144 + (b1 - 0x80) * 4096 + (b2 - 0x80) * 64 + (b3 - 0x80)
  }

  /**
   * Decoding the first UTF-8 sequence of bs: the character and the number of
   * bytes it takes. Overlong forms, surrogates and values past U+10FFFF are
   * refused.
   */
  function Utf8DecodeChar(bs: seq<byte>): (r: Option<(char, nat)>)
    ensures r.Some? ==> 1 <= r.value.1 <= |bs|
  {
    if |bs| == 0 then None
    else if bs[0] < 0x80 then Some((bs[0] as char, 1))
    else if bs[0] < 0xC0 then None
    else if bs[0] < 0xE0 then
      if |bs| < 2 || !IsContinuation(bs[1]) then None
      else
        var cp := Utf8Value2(bs[0], bs[1]);
        if cp < 0x80 then None
        else match ScalarChar(cp) case Some(c) => Some((c, 2)) case None => None
    else if bs[0] < 0xF0 then
      if |bs| < 3 || !IsContinuation(bs[1]) || !IsContinuation(bs[2]) then None
      else
        var cp := Utf8Value3(bs[0], bs[1], bs[2]);
        if cp < 0x800 then None
        else match ScalarChar(cp) case Some(c) => Some((c, 3)) case None => None
    else
      if |bs| < 4 || !IsContinuation(bs[1]) || !IsContinuation(bs[2]) || !IsContinuation(bs[3]) then None
      else
        var cp := Utf8Value4(bs[0], bs[1], bs[2], bs[3]);
        if cp < 0x10000 then None
        else match ScalarChar(cp) case Some(c) => Some((c, 4)) case None => None
  }

  /** `bs.decode('utf-8')`, None where bs is not valid UTF-8. */
  function Utf8Decode(bs: seq<byte>): Option<string>
    decreases |bs|
  {
    if |bs| == 0 then Some("")
    else match Utf8DecodeChar(bs)
      case None => None
      case Some((c, n)) =>
        match Utf8Decode(bs[n..])
          case None => None
          case Some(rest) => Some([c] + rest)
  }

  lemma {:induction false} Utf8Split2(cp: int)
    requires 0x80 <= cp < 0x800
    ensures 0xC0 <= 0xC0 + cp / 64 < 0xE0 && 0x80 <= 0x80 + cp % 64 < 0xC0
    ensures Utf8Value2(0xC0 + cp / 64, 0x80 + cp % 64) == cp
  {
  }

  lemma {:induction false} Utf8Split3(cp: int)
    requires 0x800 <= cp < 0x10000
    ensures 0xE0 <= 0xE0 + cp / 4096 < 0xF0
    ensures 0x80 <= 0x80 + cp / 64 % 64 < 0xC0 && 0x80 <= 0x80 + cp % 64 < 0xC0
    ensures Utf8Value3(0xE0 + cp / 4096, 0x80 + cp / 64 % 64, 0x80 + cp % 64) == cp
  {
    assert cp / 64 == (cp / 4096) * 64 + cp / 64 % 64;
    assert cp == (cp / 64) * 64 + cp % 64;
  }

  lemma {:induction false} Utf8Split4(cp: int)
    requires 0x10000 <= cp < 0x110000
    ensures 0xF0 <= 0xF0 + cp / 262144 < 0xF8
    ensures 0x80 <= 0x80 + cp / 4096 % 64 < 0xC0
    ensures 0x80 <= 0x80 + cp / 64 % 64 < 0xC0 && 0x80 <= 0x80 + cp % 64 < 0xC0
    ensures Utf8Value4(0xF0 + cp / 262144, 0x80 + cp / 4096 % 64, 0x80 + cp / 64 % 64, 0x80 + cp % 64) == cp
  {
    assert cp / 4096 == (cp / 262144) * 64 + cp / 4096 % 64;
    assert cp / 64 == (cp / 4096) * 64 + cp / 64 % 64;
    assert cp == (cp / 64) * 64 + cp % 64;
  }

  /** The encoding of one character decodes back to it, whatever follows. */
  lemma {:induction false} Utf8CharRoundTrip(c: char, rest: seq<byte>)
    ensures Utf8DecodeChar(Utf8Char(c) + rest) == Some((c, |Utf8Char(c)|))
  {
    var cp := c as int;
    var e := Utf8Char(c);
    var bs := e + rest;
    assert bs[..|e|] == e;
    if cp < 0x80 {
    } else if cp < 0x800 {
      Utf8Split2(cp);
      assert bs[0] == e[0] && bs[1] == e[1];
      assert ScalarChar(cp) == Some(c);
    } else if cp < 0x10000 {
      Utf8Split3(cp);
      assert bs[0] == e[0] && bs[1] == e[1] && bs[2] == e[2];
      assert ScalarChar(cp) == Some(c);
    } else {
      Utf8Split4(cp);
      assert bs[0] == e[0] && bs[1] == e[1] && bs[2] == e[2] && bs[3] == e[3];
      assert ScalarChar(cp) == Some(c);
    }
  }

  /** Encoding to UTF-8 loses nothing: decoding gives the text back. */
  lemma {:induction false} Utf8RoundTrip(s: string)
    ensures Utf8Decode(Utf8(s)) == Some(s)
  {
    if |s| > 0 {
      var e := Utf8Char(s[0]);
      Utf8CharRoundTrip(s[0], Utf8(s[1..]));
      assert (e + Utf8(s[1..]))[|e|..] == Utf8(s[1..]);
      Utf8RoundTrip(s[1..]);
      assert [s[0]] + s[1..] == s;
    }
  }

  /** ASCII characters are their own single byte. */
  lemma {:induction false} Utf8Ascii(s: string)
    requires forall k :: 0 <= k < |s| ==> s[k] as int < 0x80
    ensures |Utf8(s)| == |s|
    ensures forall k :: 0 <= k < |s| ==> Utf8(s)[k] == s[k] as int
  {
    if |s| > 0 {
      Utf8Ascii(s[1..]);
      assert Utf8(s) == [s[0] as int] + Utf8(s[1..]);
    }
  }

  // ---------------------------------------------------------------- percent-encoding

  /** Bytes `quote` never escapes: ASCII letters and digits, "_.-~", and the safe '/'. */
  predicate IsSafe(b: byte) {
    || 'A' as int <= b <= 'Z' as int
    || 'a' as int <= b <= 'z' as int
    || '0' as int <= b <= '9' as int
    || b == '_' as int || b == '.' as int || b == '-' as int || b == '~' as int
    || b == '/' as int
  }

  predicate IsUpperHex(c: char) {
    '0' <= c <= '9' || 'A' <= c <= 'F'
  }

  predicate IsHex(c: char) {
    IsUpperHex(c) || 'a' <= c <= 'f'
  }

  function HexDigit(d: int): (c: char)
    requires 0 <= d < 16
    ensures IsUpperHex(c)
  {
    if d < 10 then ('0' as int + d) as char else ('A' as int + d - 10) as char
  }

  /** The value of a hexadecimal digit of either case. */
  function HexValue(c: char): (d: int)
    requires IsHex(c)
    ensures 0 <= d < 16
  {
    if '0' <= c <= '9' then c as int - '0' as int
    else if 'A' <= c <= 'F' then c as int - 'A' as int + 10
    else c as int - 'a' as int + 10
  }

  /** One byte as `quote` writes it. */
  function QuoteByte(b: byte): string {
    if IsSafe(b) then [b as char] else ['%', HexDigit(b / 16), HexDigit(b % 16)]
  }

  /** `urllib.parse.quote_from_bytes(bs, safe='/')`. */
  function QuoteBytes(bs: seq<byte>): string {
    if |bs| == 0 then "" else QuoteByte(bs[0]) + QuoteBytes(bs[1..])
  }

  /** `urllib.parse.quote(s)`. */
  function Quote(s: string): string {
    QuoteBytes(Utf8(s))
  }

  /**
   * A strict percent-decoder: "%XX" with hexadecimal digits of either case
   * gives one byte, an ASCII character other than '%' gives itself, and
   * anything else makes the text malformed.
   */
  function Unquote(r: string): Option<seq<byte>> {
    if |r| == 0 then Some([])
    else if r[0] == '%' then
      if |r| < 3 || !IsHex(r[1]) || !IsHex(r[2]) then None
      else match Unquote(r[3..])
        case None => None
        case Some(rest) => Some([HexValue(r[1]) * 16 + HexValue(r[2])] + rest)
    else if r[0] as int < 0x80 then
      match Unquote(r[1..])
        case None => None
        case Some(rest) => Some([r[0] as int] + rest)
    else None
  }

  /** What `quote` writes for a byte decodes back to that byte. */
  lemma {:induction false} QuoteByteRoundTrip(b: byte, rest: string)
    ensures Unquote(QuoteByte(b) + rest) == match Unquote(rest) case None => None case Some(t) => Some([b] + t)
  {
    var r := QuoteByte(b) + rest;
    if IsSafe(b) {
      assert r[0] == b as char && r[1..] == rest;
    } else {
      assert r[0] == '%' && r[1] == HexDigit(b / 16) && r[2] == HexDigit(b % 16) && r[3..] == rest;
      assert HexValue(HexDigit(b / 16)) == b / 16;
      assert HexValue(HexDigit(b % 16)) == b % 16;
    }
  }

  /** Percent-encoding loses nothing: decoding gives the bytes back. */
  lemma {:induction false} QuoteRoundTrip(bs: seq<byte>)
    ensures Unquote(QuoteBytes(bs)) == Some(bs)
  {
    if |bs| > 0 {
      QuoteByteRoundTrip(bs[0], QuoteBytes(bs[1..]));
      QuoteRoundTrip(bs[1..]);
      assert [bs[0]] + bs[1..] == bs;
    }
  }

  /** Different texts are quoted differently. */
  lemma {:induction false} QuoteInjective(s: string, t: string)
    requires Quote(s) == Quote(t)
    ensures s == t
  {
    QuoteRoundTrip(Utf8(s));
    QuoteRoundTrip(Utf8(t));
    Utf8RoundTrip(s);
    Utf8RoundTrip(t);
  }

  /** A character `quote` can write: a safe ASCII character or '%'. */
  predicate IsQuotedChar(c: char) {
    c == '%' || (c as int < 0x80 && IsSafe(c as int))
  }

  /**
   * Everything `quote` writes is a safe character or '%', and every '%' is
   * followed by two upper-case hexadecimal digits.
   */
  lemma {:induction false} QuoteAlphabet(bs: seq<byte>)
    ensures forall k :: 0 <= k < |QuoteBytes(bs)| ==> IsQuotedChar(QuoteBytes(bs)[k])
    ensures forall k :: 0 <= k < |QuoteBytes(bs)| && QuoteBytes(bs)[k] == '%' ==>
      k + 2 < |QuoteBytes(bs)| && IsUpperHex(QuoteBytes(bs)[k + 1]) && IsUpperHex(QuoteBytes(bs)[k + 2])
  {
    if |bs| > 0 {
      var q := QuoteByte(bs[0]);
      var rest := QuoteBytes(bs[1..]);
      var r := q + rest;
      QuoteAlphabet(bs[1..]);
      forall k | 0 <= k < |r|
        ensures IsQuotedChar(r[k])
        ensures r[k] == '%' ==> k + 2 < |r| && IsUpperHex(r[k + 1]) && IsUpperHex(r[k + 2])
      {
        if k >= |q| {
          assert r[k] == rest[k - |q|];
          if r[k] == '%' {
            assert r[k + 1] == rest[k - |q| + 1] && r[k + 2] == rest[k - |q| + 2];
          }
        } else if IsSafe(bs[0]) {
          assert r[k] == bs[0] as char;
        } else if k == 0 {
          assert r[1] == q[1] && r[2] == q[2];
        } else {
          assert r[k] == q[k];
        }
      }
    }
  }

  /**
   * `quote` escapes the characters that delimit a URL's query and fragment
   * ('?', '&', '=', '#') and the space.
   */
  lemma {:induction false} QuoteNoDelimiters(s: string)
    ensures '?' !in Quote(s) && '&' !in Quote(s) && '=' !in Quote(s) && '#' !in Quote(s) && ' ' !in Quote(s)
  {
    QuoteAlphabet(Utf8(s));
  }

  /** A text made only of safe ASCII characters is quoted as itself. */
  lemma {:induction false} QuoteSafeText(s: string)
    requires forall k :: 0 <= k < |s| ==> s[k] as int < 0x80 && IsSafe(s[k] as int)
    ensures Quote(s) == s
  {
    if |s| > 0 {
      assert Utf8(s) == [s[0] as int] + Utf8(s[1..]);
      assert Utf8(s)[1..] == Utf8(s[1..]);
      QuoteSafeText(s[1..]);
      assert QuoteByte(s[0] as int) == [s[0]];
      assert [s[0]] + s[1..] == s;
    }
  }

  /** A space is written "%20", a comma "%2C", and 'é' (two UTF-8 bytes) "%C3%A9". */
  lemma {:induction false} QuoteExamples()
    ensures Quote(" ") == "%20"
    ensures Quote(",") == "%2C"
    ensures Quote("é") == "%C3%A9"
    ensures Quote("a/b") == "a/b"
  {
  }
}

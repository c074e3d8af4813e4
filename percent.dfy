/**
 * `urllib.parse.quote(s)` with its defaults (`safe='/'`, UTF-8): percent-encoding
 * as in section 2.1 of RFC 3986.  The unreserved characters of section 2.3 and
 * `/` are kept; every other character is encoded in UTF-8 (RFC 3629) and each
 * byte written as `%` and two upper-case hex digits.  `PercentDecode` undoes it
 * for ASCII input.
 */
module Percent {
  import opened Wrappers

  newtype byte = x: int | 0 <= x < 256

  /** Section 2.3 of RFC 3986: ALPHA / DIGIT / "-" / "." / "_" / "~". */
  predicate IsUnreserved(c: char) {
    ('A' <= c <= 'Z') || ('a' <= c <= 'z') || ('0' <= c <= '9') || c == '-' || c == '.' || c == '_' || c == '~'
  }

  /** What `quote` leaves alone: the unreserved characters and the default `safe='/'`. */
  predicate IsSafe(c: char) {
    IsUnreserved(c) || c == '/'
  }

  predicate IsAscii(s: string) {
    forall i :: 0 <= i < |s| ==> s[i] as int < 0x80
  }

  function HexDigit(n: nat): (c: char)
    requires n < 16
    ensures '0' <= c <= '9' || 'A' <= c <= 'F'
    ensures IsUnreserved(c)
  {
    "0123456789ABCDEF"[n]
  }

  /** The value of a hex digit of either case. */
  function HexValue(c: char): (v: Option<nat>)
    ensures v.Some? <==> ('0' <= c <= '9' || 'A' <= c <= 'F' || 'a' <= c <= 'f')
    ensures v.Some? ==> v.value < 16
  {
    if '0' <= c <= '9' then Some(c as int - '0' as int)
    else if 'A' <= c <= 'F' then Some(c as int - 'A' as int + 10)
    else if 'a' <= c <= 'f' then Some(c as int - 'a' as int + 10)
    else None
  }

  lemma HexValueOfDigit(n: nat)
    requires n < 16
    ensures HexValue(HexDigit(n)) == Some(n)
  {
  }

  /** The UTF-8 encoding of one scalar value. */
  function Utf8(c: char): (bs: seq<byte>)
    ensures 1 <= |bs| <= 4
    ensures c as int < 0x80 ==> bs == [c as int as byte]
    ensures c as int >= 0x80 ==> forall i :: 0 <= i < |bs| ==> bs[i] >= 0x80
  {
    var cp := c as int;
    if cp < 0x80 then [cp as byte]
    else if cp < 0x800 then [(0xC0 + cp / 0x40) as byte, (0x80 + cp % 0x40) as byte]
    else if cp < 0x1_0000 then
      [(0xE0 + cp / 0x1000) as byte, (0x80 + cp / 0x40 % 0x40) as byte, (0x80 + cp % 0x40) as byte]
    else
      [(0xF0 + cp / 0x4_0000) as byte, (0x80 + cp / 0x1000 % 0x40) as byte,
       (0x80 + cp / 0x40 % 0x40) as byte, (0x80 + cp % 0x40) as byte]
  }

  /** `%XX` for every byte. */
  function PercentEncode(bs: seq<byte>): (s: string)
    ensures |s| == 3 * |bs|
    ensures forall i :: 0 <= i < |s| ==> IsUnreserved(s[i]) || s[i] == '%'
  {
    if bs == [] then []
    else ['%', HexDigit(bs[0] as nat / 16), HexDigit(bs[0] as nat % 16)] + PercentEncode(bs[1..])
  }

  function QuoteChar(c: char): string {
    if IsSafe(c) then [c] else PercentEncode(Utf8(c))
  }

  /** `urllib.parse.quote(s)` */
  function Quote(s: string): (q: string)
    ensures forall i :: 0 <= i < |q| ==> IsSafe(q[i]) || q[i] == '%'
    ensures (forall i :: 0 <= i < |s| ==> IsSafe(s[i])) ==> q == s
    ensures |q| >= |s|
  {
    if s == [] then [] else QuoteChar(s[0]) + Quote(s[1..])
  }

  /** The output of `quote` holds none of the characters a form body gives meaning to. */
  lemma {:induction false} QuoteHasNoDelimiters(s: string)
    ensures '&' !in Quote(s) && '=' !in Quote(s) && ' ' !in Quote(s) && '+' !in Quote(s)
  {
    var q := Quote(s);
    forall i | 0 <= i < |q| ensures q[i] != '&' && q[i] != '=' && q[i] != ' ' && q[i] != '+' {
      assert IsSafe(q[i]) || q[i] == '%';
    }
  }

  /** Decoding `%XX` into the character with code XX; every other character stands for itself. */
  function PercentDecode(s: string): (d: string)
    ensures |d| <= |s|
  {
    if s == [] then []
    else if |s| >= 3 && s[0] == '%' && HexValue(s[1]).Some? && HexValue(s[2]).Some? then
      [(16 * HexValue(s[1]).value + HexValue(s[2]).value) as char] + PercentDecode(s[3..])
    else [s[0]] + PercentDecode(s[1..])
  }

  /** A string without `%` decodes to itself. */
  lemma {:induction false} PercentDecodeNoEscapes(s: string)
    requires '%' !in s
    ensures PercentDecode(s) == s
  {
    if s != [] {
      assert '%' !in s[1..] by { assert forall c :: c in s[1..] ==> c in s; }
      PercentDecodeNoEscapes(s[1..]);
    }
  }

  /** One character of `quote`'s output decodes back to the character, whatever follows it. */
  lemma QuoteCharDecodes(c: char, rest: string)
    requires c as int < 0x80
    ensures PercentDecode(QuoteChar(c) + rest) == [c] + PercentDecode(rest)
  {
    var q := QuoteChar(c) + rest;
    if IsSafe(c) {
      assert q[0] == c && q[1..] == rest;
    } else {
      var b := c as int;
      var hi, lo := b / 16, b % 16;
      assert Utf8(c) == [b as byte];
      assert QuoteChar(c) == ['%', HexDigit(hi), HexDigit(lo)];
      assert q[0] == '%' && q[1] == HexDigit(hi) && q[2] == HexDigit(lo) && q[3..] == rest;
      HexValueOfDigit(hi);
      HexValueOfDigit(lo);
      assert 16 * hi + lo == b;
    }
  }

  /** `unquote(quote(s)) == s` for ASCII `s`. */
  lemma {:induction false} QuoteRoundTrip(s: string)
    requires IsAscii(s)
    ensures PercentDecode(Quote(s)) == s
  {
    if s != [] {
      assert IsAscii(s[1..]) by {
        forall i | 0 <= i < |s[1..]| ensures s[1..][i] as int < 0x80 { assert s[1..][i] == s[i + 1]; }
      }
      QuoteRoundTrip(s[1..]);
      QuoteCharDecodes(s[0], Quote(s[1..]));
    }
  }
}

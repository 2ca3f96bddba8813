/**
 UTF-8 (section 3 of RFC 3629) as Python's codec applies it, and percent-encoding
 (section 2.1 of RFC 3986) as `urllib.parse.quote(key, safe="")` and `unquote` do it.
 */
module Utf8 {
  import opened Common

  const REPLACEMENT: char := '\U{FFFD}'

  function EncodeChar(c: char): (r: bytes)
    ensures 1 <= |r| <= 4
  {
    var n := c as int;
    if n < 0x80 then [n]
    else if n < 0x800 then [0xC0 + n / 0x40, 0x80 + n % 0x40]
    else if n < 0x1_0000 then [0xE0 + n / 0x1000, 0x80 + n / 0x40 % 0x40, 0x80 + n % 0x40]
    else [0xF0 + n / 0x4_0000, 0x80 + n / 0x1000 % 0x40, 0x80 + n / 0x40 % 0x40, 0x80 + n % 0x40]
  }

  function Encode(s: string): bytes {
    if s == [] then [] else EncodeChar(s[0]) + Encode(s[1..])
  }

  predicate Continuation(x: byte) {
    0x80 <= x < 0xC0
  }

  /** The six payload bits of a continuation byte. */
  function Six(x: byte): (r: int)
    requires Continuation(x)
    ensures 0 <= r < 0x40
  {
    var n: int := x;
    n - 0x80
  }

  /** A lead byte with its length marker removed. */
  function Lead(x: byte, marker: int): int {
    var n: int := x;
    n - marker
  }

  /** Length announced by a lead byte; 0 for a byte that cannot lead. */
  function Width(lead: byte): nat {
    if lead < 0x80 then 1
    else if 0xC2 <= lead < 0xE0 then 2
    else if 0xE0 <= lead < 0xF0 then 3
    else if 0xF0 <= lead < 0xF5 then 4
    else 0
  }

  /** The second byte carries the range limits: no overlong forms, no surrogates, at most U+10FFFF. */
  predicate SecondOk(lead: byte, x: byte) {
    && Continuation(x)
    && (lead == 0xE0 ==> x >= 0xA0)
    && (lead == 0xED ==> x < 0xA0)
    && (lead == 0xF0 ==> x >= 0x90)
    && (lead == 0xF4 ==> x < 0x90)
  }

  /** One decoding step: a character or a malformed prefix, and how many bytes it takes. */
  function Next(b: bytes): (r: (Option<char>, nat))
    requires |b| > 0
    ensures 1 <= r.1 <= |b|
  {
    var w := Width(b[0]);
    if w == 0 then (None, 1)
    else if w == 1 then (Some(b[0] as char), 1)
    else if |b| < 2 || !SecondOk(b[0], b[1]) then (None, 1)
    else if w == 2 then (Some((Lead(b[0], 0xC0) * 0x40 + Six(b[1])) as char), 2)
    else if |b| < 3 || !Continuation(b[2]) then (None, 2)
    else if w == 3 then
      (Some((Lead(b[0], 0xE0) * 0x1000 + Six(b[1]) * 0x40 + Six(b[2])) as char), 3)
    else if |b| < 4 || !Continuation(b[3]) then (None, 3)
    else
      (Some((Lead(b[0], 0xF0) * 0x4_0000 + Six(b[1]) * 0x1000 + Six(b[2]) * 0x40 + Six(b[3])) as char), 4)
  }

  /** `bytes.decode("utf-8", errors="strict")`. */
  function Decode(b: bytes): Option<string>
    decreases |b|
  {
    if b == [] then Some([])
    else
      var (c, n) := Next(b);
      var rest := Decode(b[n..]);
      if c.Some? && rest.Some? then Some([c.value] + rest.value) else None
  }

  /** `bytes.decode("utf-8", errors="replace")`: each malformed prefix becomes U+FFFD. */
  function DecodeReplace(b: bytes): string
    decreases |b|
  {
    if b == [] then []
    else
      var (c, n) := Next(b);
      [if c.Some? then c.value else REPLACEMENT] + DecodeReplace(b[n..])
  }

  lemma NextOfPair(c: char, rest: bytes)
    requires 0x80 <= c as int < 0x800
    ensures Next(EncodeChar(c) + rest) == (Some(c), 2)
  {
    var n := c as int;
    var b := EncodeChar(c) + rest;
    assert b[0] == 0xC0 + n / 0x40 && b[1] == 0x80 + n % 0x40;
  }

  lemma NextOfTriple(c: char, rest: bytes)
    requires 0x800 <= c as int < 0x1_0000
    ensures Next(EncodeChar(c) + rest) == (Some(c), 3)
  {
    var n := c as int;
    var b := EncodeChar(c) + rest;
    var high, mid, low := n / 0x1000, n / 0x40 % 0x40, n % 0x40;
    assert b[0] == 0xE0 + high && b[1] == 0x80 + mid && b[2] == 0x80 + low;
    assert n == high * 0x1000 + mid * 0x40 + low;
  }

  lemma NextOfQuad(c: char, rest: bytes)
    requires 0x1_0000 <= c as int
    ensures Next(EncodeChar(c) + rest) == (Some(c), 4)
  {
    var n := c as int;
    var b := EncodeChar(c) + rest;
    var top, high, mid, low := n / 0x4_0000, n / 0x1000 % 0x40, n / 0x40 % 0x40, n % 0x40;
    assert b[0] == 0xF0 + top && b[1] == 0x80 + high && b[2] == 0x80 + mid && b[3] == 0x80 + low;
    QuadDigits(n);
  }

  /** The four groups of bits of a code point above the basic plane, and their ranges. */
  lemma QuadDigits(n: nat)
    requires 0x1_0000 <= n < 0x11_0000
    ensures n == n / 0x4_0000 * 0x4_0000 + n / 0x1000 % 0x40 * 0x1000 + n / 0x40 % 0x40 * 0x40 + n % 0x40
    ensures n / 0x4_0000 <= 4 && (n / 0x4_0000 == 0 ==> n / 0x1000 % 0x40 >= 0x10) && (n / 0x4_0000 == 4 ==> n / 0x1000 % 0x40 < 0x10)
  {
  }

  lemma NextOfEncoded(c: char, rest: bytes)
    ensures Next(EncodeChar(c) + rest) == (Some(c), |EncodeChar(c)|)
  {
    if 0x1_0000 <= c as int {
      NextOfQuad(c, rest);
    } else if 0x800 <= c as int {
      NextOfTriple(c, rest);
    } else if 0x80 <= c as int {
      NextOfPair(c, rest);
    }
  }

  /** decode(encode(s)) = s, strictly and with replacement. */
  lemma {:induction false} DecodeEncoded(s: string)
    ensures Decode(Encode(s)) == Some(s)
    ensures DecodeReplace(Encode(s)) == s
  {
    if s != [] {
      DecodeEncoded(s[1..]);
      NextOfEncoded(s[0], Encode(s[1..]));
      var b := Encode(s);
      assert b[|EncodeChar(s[0])|..] == Encode(s[1..]);
      assert s == [s[0]] + s[1..];
    }
  }

  lemma EncodeInjective(a: string, b: string)
    requires Encode(a) == Encode(b)
    ensures a == b
  {
    DecodeEncoded(a);
    DecodeEncoded(b);
  }

  lemma {:induction false} EncodeConcat(a: string, b: string)
    ensures Encode(a + b) == Encode(a) + Encode(b)
  {
    if a == [] {
      assert a + b == b;
    } else {
      EncodeConcat(a[1..], b);
      assert (a + b)[1..] == a[1..] + b;
    }
  }

  // -------------------------------------------------------- percent-encoding

  /** RFC 3986 unreserved characters, the only ones `quote(..., safe="")` keeps. */
  predicate Unreserved(x: byte) {
    || 'a' as int <= x <= 'z' as int || 'A' as int <= x <= 'Z' as int || '0' as int <= x <= '9' as int
    || x == '_' as int || x == '.' as int || x == '-' as int || x == '~' as int
  }

  function UpperHex(n: int): char
    requires 0 <= n < 16
  {
    if n < 10 then ('0' as int + n) as char else ('A' as int + n - 10) as char
  }

  function QuoteByte(x: byte): string {
    if Unreserved(x) then [x as char] else ['%', UpperHex(x / 16), UpperHex(x % 16)]
  }

  function QuoteBytes(b: bytes): string {
    if b == [] then [] else QuoteByte(b[0]) + QuoteBytes(b[1..])
  }

  function Quote(s: string): string {
    QuoteBytes(Encode(s))
  }

  function HexValue(c: char): Option<byte> {
    if '0' <= c <= '9' then Some(c as int - '0' as int)
    else if 'A' <= c <= 'F' then Some(c as int - 'A' as int + 10)
    else if 'a' <= c <= 'f' then Some(c as int - 'a' as int + 10)
    else None
  }

  predicate Ascii(c: char) {
    c as int < 0x80
  }

  predicate AllAscii(s: string) {
    forall i :: 0 <= i < |s| ==> Ascii(s[i])
  }

  /** `unquote_to_bytes` on an ASCII run: a `%` without two hex digits stays literal. */
  function UnquoteToBytes(s: string): bytes
    requires AllAscii(s)
  {
    if s == [] then []
    else if s[0] == '%' && |s| >= 3 && HexValue(s[1]).Some? && HexValue(s[2]).Some? then
      [HexValue(s[1]).value * 16 % 256 + HexValue(s[2]).value % 16] + UnquoteToBytes(s[3..])
    else [s[0] as int] + UnquoteToBytes(s[1..])
  }

  function AsciiRun(s: string): (n: nat)
    ensures n <= |s| && AllAscii(s[..n]) && (n < |s| ==> !Ascii(s[n]))
  {
    if s == [] || !Ascii(s[0]) then 0
    else
      var n := 1 + AsciiRun(s[1..]);
      assert s[..n] == [s[0]] + s[1..][..n - 1];
      n
  }

  /** `unquote`: every maximal ASCII run is unescaped and decoded with replacement. */
  function Unquote(s: string): string
    decreases |s|
  {
    if s == [] then []
    else if !Ascii(s[0]) then [s[0]] + Unquote(s[1..])
    else
      var n := AsciiRun(s);
      DecodeReplace(UnquoteToBytes(s[..n])) + Unquote(s[n..])
  }

  lemma {:induction false} QuoteIsAscii(b: bytes)
    ensures AllAscii(QuoteBytes(b))
  {
    if b != [] { QuoteIsAscii(b[1..]); }
  }

  lemma UnquoteOne(x: byte, rest: string)
    requires AllAscii(rest)
    ensures AllAscii(QuoteByte(x) + rest) && UnquoteToBytes(QuoteByte(x) + rest) == [x] + UnquoteToBytes(rest)
  {
    var q := QuoteByte(x) + rest;
    assert q[|QuoteByte(x)|..] == rest;
    assert forall i :: 0 <= i < |QuoteByte(x)| ==> q[i] == QuoteByte(x)[i];
  }

  lemma {:induction false} UnquoteQuotedBytes(b: bytes)
    ensures AllAscii(QuoteBytes(b)) && UnquoteToBytes(QuoteBytes(b)) == b
  {
    QuoteIsAscii(b);
    if b != [] {
      UnquoteQuotedBytes(b[1..]);
      UnquoteOne(b[0], QuoteBytes(b[1..]));
      assert b == [b[0]] + b[1..];
    }
  }

  /** decode(encode(key)) = key for every text. */
  lemma UnquoteQuoted(s: string)
    ensures Unquote(Quote(s)) == s
  {
    var q := Quote(s);
    UnquoteQuotedBytes(Encode(s));
    DecodeEncoded(s);
    if q != [] {
      var n := AsciiRun(q);
      assert n == |q| && q[..n] == q && q[n..] == [];
      assert Unquote(q) == DecodeReplace(UnquoteToBytes(q)) + Unquote([]);
    }
  }

  lemma QuoteInjective(a: string, b: string)
    requires Quote(a) == Quote(b)
    ensures a == b
  {
    UnquoteQuoted(a);
    UnquoteQuoted(b);
  }
}

/** Percent-decoding as Python's `urllib.parse.unquote` does it with its
    defaults: runs of ASCII text are turned into bytes (`%` and two hex
    digits become that byte), the bytes are decoded as UTF-8 with every
    ill-formed part replaced by U+FFFD, and characters outside ASCII are kept
    as they are. */
module UrlDecode {
  type byte = x: int | 0 <= x < 256

  const Replacement: char := '\U{FFFD}'

  predicate IsAscii(c: char) {
    c as int < 0x80
  }

  predicate AllAscii(s: string) {
    forall i :: 0 <= i < |s| ==> IsAscii(s[i])
  }

  predicate IsHexDigit(c: char) {
    '0' <= c <= '9' || 'a' <= c <= 'f' || 'A' <= c <= 'F'
  }

  function HexVal(c: char): (v: nat)
    requires IsHexDigit(c)
    ensures v < 16
  {
    if '0' <= c <= '9' then c as int - '0' as int
    else if 'a' <= c <= 'f' then c as int - 'a' as int + 10
    else c as int - 'A' as int + 10
  }

  /** `unquote_to_bytes` of ASCII text: `%` followed by two hex digits (of
      either case) is the byte they spell; any other character, a `%` without
      two hex digits after it included, stands for its own code. */
  function PercentBytes(s: string): (r: seq<byte>)
    requires AllAscii(s)
    ensures |r| <= |s|
  {
    if s == [] then []
    else if s[0] == '%' && |s| >= 3 && IsHexDigit(s[1]) && IsHexDigit(s[2]) then
      [HexVal(s[1]) * 16 + HexVal(s[2])] + PercentBytes(s[3..])
    else
      [s[0] as int] + PercentBytes(s[1..])
  }

  // ---------------------------------------------------------------------------
  // UTF-8 decoding with `errors="replace"`: a maximal prefix of a well-formed
  // sequence that cannot be completed becomes one U+FFFD.

  predicate IsCont(b: byte) {
    0x80 <= b <= 0xBF
  }

  /** The length of the sequence a lead byte starts: 1 for ASCII, 2 to 4 for
      the lead bytes of well-formed sequences, 0 for a byte that cannot start
      one (a continuation byte, 0xC0, 0xC1 or 0xF5 and above). */
  function SeqLen(b: byte): nat {
    if b < 0x80 then 1
    else if 0xC2 <= b <= 0xDF then 2
    else if 0xE0 <= b <= 0xEF then 3
    else if 0xF0 <= b <= 0xF4 then 4
    else 0
  }

  /** The range allowed for the byte after a lead byte: narrower after 0xE0
      (no overlong form), 0xED (no surrogate), 0xF0 (no overlong form) and
      0xF4 (nothing above U+10FFFF). */
  function SecondLo(lead: byte): byte {
    if lead == 0xE0 then 0xA0 else if lead == 0xF0 then 0x90 else 0x80
  }

  function SecondHi(lead: byte): byte {
    if lead == 0xED then 0x9F else if lead == 0xF4 then 0x8F else 0xBF
  }

  /** How many bytes at the start of `b`, whose lead byte starts a
      multi-byte sequence, can begin that sequence. */
  function ValidPrefix(b: seq<byte>): (k: nat)
    requires b != [] && SeqLen(b[0]) >= 2
    ensures 1 <= k <= SeqLen(b[0]) && k <= |b|
  {
    var n := SeqLen(b[0]);
    if |b| < 2 || !(SecondLo(b[0]) <= b[1] <= SecondHi(b[0])) then 1
    else if n == 2 || |b| < 3 || !IsCont(b[2]) then 2
    else if n == 3 || |b| < 4 || !IsCont(b[3]) then 3
    else 4
  }

  /** The character a complete multi-byte sequence encodes. */
  function CodePoint(b: seq<byte>): char
    requires |b| >= 2 && SeqLen(b[0]) == |b| && ValidPrefix(b) == |b|
  {
    var b0, b1: int := b[0], b[1];
    if |b| == 2 then
      ((b0 - 0xC0) * 64 + (b1 - 0x80)) as char
    else if |b| == 3 then
      ((b0 - 0xE0) * 4096 + (b1 - 0x80) * 64 + (b[2] as int - 0x80)) as char
    else
      ((b0 - 0xF0) * 262144 + (b1 - 0x80) * 4096 + (b[2] as int - 0x80) * 64 + (b[3] as int - 0x80)) as char
  }

  /** `bytes.decode("utf-8", "replace")`. */
  function Utf8Decode(b: seq<byte>): (s: string)
    decreases |b|
    ensures |s| <= |b|
  {
    if b == [] then []
    else
      var n := SeqLen(b[0]);
      if n == 1 then [b[0] as char] + Utf8Decode(b[1..])
      else if n == 0 then [Replacement] + Utf8Decode(b[1..])
      else
        var k := ValidPrefix(b);
        if k == n then [CodePoint(b[..n])] + Utf8Decode(b[n..])
        else [Replacement] + Utf8Decode(b[k..])
  }

  // ---------------------------------------------------------------------------
  // `unquote`.

  /** The length of the run of ASCII characters `s` starts with. */
  function AsciiRun(s: string): (n: nat)
    ensures n <= |s|
    ensures forall i :: 0 <= i < n ==> IsAscii(s[i])
    ensures n < |s| ==> !IsAscii(s[n])
  {
    if s != [] && IsAscii(s[0]) then 1 + AsciiRun(s[1..]) else 0
  }

  /** The general path of `unquote`: each maximal ASCII run is decoded on its
      own, every other character is copied. */
  function UnquoteRuns(s: string): string
    decreases |s|
  {
    if s == [] then []
    else if !IsAscii(s[0]) then [s[0]] + UnquoteRuns(s[1..])
    else
      var n := AsciiRun(s);
      Utf8Decode(PercentBytes(s[..n])) + UnquoteRuns(s[n..])
  }

  /** `urllib.parse.unquote(s)`: text without `%` is returned unchanged. */
  function Unquote(s: string): string {
    if '%' !in s then s else UnquoteRuns(s)
  }

  // ---------------------------------------------------------------------------
  // The inverse direction, as a reference: UTF-8 encoding and percent-encoding
  // every byte.

  function EncodeChar(c: char): (r: seq<byte>)
    ensures 1 <= |r| <= 4
  {
    var v := c as int;
    if v < 0x80 then [v]
    else if v < 0x800 then [0xC0 + v / 64, 0x80 + v % 64]
    else if v < 0x10000 then [0xE0 + v / 4096, 0x80 + (v / 64) % 64, 0x80 + v % 64]
    else [0xF0 + v / 262144, 0x80 + (v / 4096) % 64, 0x80 + (v / 64) % 64, 0x80 + v % 64]
  }

  /** `s.encode("utf-8")`. */
  function Utf8Encode(s: string): seq<byte> {
    if s == [] then [] else EncodeChar(s[0]) + Utf8Encode(s[1..])
  }

  function HexChar(d: nat): (c: char)
    requires d < 16
    ensures IsHexDigit(c) && HexVal(c) == d
  {
    if d < 10 then ('0' as int + d) as char else ('A' as int + d - 10) as char
  }

  /** Every byte written as `%XX` with upper-case hex digits. */
  function PercentEncode(b: seq<byte>): (s: string)
    ensures AllAscii(s) && |s| == 3 * |b|
    ensures '"' !in s && ';' !in s && '*' !in s && '\'' !in s
  {
    if b == [] then [] else ['%', HexChar(b[0] / 16), HexChar(b[0] % 16)] + PercentEncode(b[1..])
  }

  /** `urllib.parse.quote(s, safe="")` without its unreserved characters:
      every character percent-encoded. */
  function Quote(s: string): string {
    PercentEncode(Utf8Encode(s))
  }

  // ---------------------------------------------------------------------------
  // Round trips.

  /** Decoding the encoding of one character gives that character back and
      leaves what follows to be decoded on its own. */
  lemma DecodeChar(c: char, rest: seq<byte>)
    ensures Utf8Decode(EncodeChar(c) + rest) == [c] + Utf8Decode(rest)
  {
    var e := EncodeChar(c);
    var b := e + rest;
    var v := c as int;
    if v < 0x80 {
      assert b[1..] == rest;
    } else if v < 0x800 {
      DecodeTwo(c);
      assert b[..2] == e && b[2..] == rest;
    } else if v < 0x10000 {
      DecodeThree(c);
      assert b[..3] == e && b[3..] == rest;
    } else {
      DecodeFour(c);
      assert b[..4] == e && b[4..] == rest;
    }
  }

  lemma DecodeTwo(c: char)
    requires 0x80 <= c as int < 0x800
    ensures |EncodeChar(c)| == 2 && SeqLen(EncodeChar(c)[0]) == 2
    ensures ValidPrefix(EncodeChar(c)) == 2 && CodePoint(EncodeChar(c)) == c
  {
  }

  lemma DecodeThree(c: char)
    requires 0x800 <= c as int < 0x10000
    ensures |EncodeChar(c)| == 3 && SeqLen(EncodeChar(c)[0]) == 3
    ensures ValidPrefix(EncodeChar(c)) == 3 && CodePoint(EncodeChar(c)) == c
  {
    var v := c as int;
    assert v < 0xD800 || 0xE000 <= v;
  }

  lemma DecodeFour(c: char)
    requires 0x10000 <= c as int
    ensures |EncodeChar(c)| == 4 && SeqLen(EncodeChar(c)[0]) == 4
    ensures ValidPrefix(EncodeChar(c)) == 4 && CodePoint(EncodeChar(c)) == c
  {
    var v := c as int;
    SixBitDigits(v);
  }

  /** `v` in base 64, the digits `EncodeChar` writes. */
  lemma SixBitDigits(v: nat)
    ensures v == (v / 262144) * 262144 + ((v / 4096) % 64) * 4096 + ((v / 64) % 64) * 64 + v % 64
    ensures v < 0x110000 ==> v / 262144 <= 4 && (v / 262144 == 4 ==> (v / 4096) % 64 < 16)
    ensures v >= 0x10000 ==> v / 262144 >= 1 || (v / 4096) % 64 >= 16
  {
    var a, b := v / 64, v % 64;
    var c, d := a / 64, a % 64;
    var e, f := c / 64, c % 64;
    assert v == a * 64 + b && a == c * 64 + d && c == e * 64 + f;
    assert c == v / 4096;
    assert e == v / 262144;
  }

  /** `s.encode("utf-8").decode("utf-8", "replace") == s`. */
  lemma {:induction false} Utf8RoundTrip(s: string)
    ensures Utf8Decode(Utf8Encode(s)) == s
  {
    if s != [] {
      DecodeChar(s[0], Utf8Encode(s[1..]));
      Utf8RoundTrip(s[1..]);
    }
  }

  /** Percent-decoding undoes percent-encoding, byte for byte. */
  lemma {:induction false} PercentBytesRoundTrip(b: seq<byte>)
    ensures PercentBytes(PercentEncode(b)) == b
  {
    if b != [] {
      var e := PercentEncode(b);
      assert e[3..] == PercentEncode(b[1..]);
      PercentBytesRoundTrip(b[1..]);
    }
  }

  /** Text made only of ASCII is one run. */
  lemma UnquoteRunsAscii(s: string)
    requires AllAscii(s) && s != []
    ensures UnquoteRuns(s) == Utf8Decode(PercentBytes(s))
  {
    assert AsciiRun(s) == |s|;
    assert s[..|s|] == s;
  }

  /** `unquote(quote(s)) == s`. */
  lemma UnquoteQuote(s: string)
    ensures Unquote(Quote(s)) == s
  {
    var q := Quote(s);
    Utf8RoundTrip(s);
    PercentBytesRoundTrip(Utf8Encode(s));
    if q != [] {
      assert q[0] == '%';
      UnquoteRunsAscii(q);
    }
  }

  /** ASCII text without `%` stands for its own codes, and they decode to it. */
  lemma {:induction false} PlainAsciiDecodes(s: string)
    requires AllAscii(s) && '%' !in s
    ensures Utf8Decode(PercentBytes(s)) == s
  {
    if s != [] {
      assert s[0] != '%';
      assert [s[0] as int] + PercentBytes(s[1..]) == PercentBytes(s);
      PlainAsciiDecodes(s[1..]);
      assert (PercentBytes(s))[1..] == PercentBytes(s[1..]);
    }
  }

  /** The shortcut of `unquote` for text without `%` agrees with its general
      path: such text decodes to itself. */
  lemma {:induction false} UnquoteRunsPlain(s: string)
    requires '%' !in s
    ensures UnquoteRuns(s) == s
    decreases |s|
  {
    if s != [] {
      if IsAscii(s[0]) {
        var n := AsciiRun(s);
        assert '%' !in s[..n] && '%' !in s[n..];
        PlainAsciiDecodes(s[..n]);
        UnquoteRunsPlain(s[n..]);
        assert s[..n] + s[n..] == s;
      } else {
        UnquoteRunsPlain(s[1..]);
        assert [s[0]] + s[1..] == s;
      }
    }
  }
}

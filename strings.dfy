/** The operations on Python `str` values that the bot relies on. A Python
    string is a sequence of code points, and so is a Dafny `string`. */
module Strings {
  import opened Wrappers

  /** The characters for which Python's `str.isspace()` holds. They are also
      what `\s` matches in a `str` regular expression and what `strip()` and
      `split()` remove. */
  const Whitespace: set<char> := set c: char | '\t' <= c <= '\U{3000}' && IsSpace(c)

  predicate IsSpace(c: char) {
    || ('\t' <= c <= '\r') || ('\U{1C}' <= c <= ' ') || c == '\U{85}' || c == '\U{A0}'
    || c == '\U{1680}' || ('\U{2000}' <= c <= '\U{200A}') || c == '\U{2028}' || c == '\U{2029}'
    || c == '\U{202F}' || c == '\U{205F}' || c == '\U{3000}'
  }

  lemma WhitespaceIsSpace(c: char)
    ensures c in Whitespace <==> IsSpace(c)
  {
  }

  predicate NoSpace(s: string) {
    forall i :: 0 <= i < |s| ==> !IsSpace(s[i])
  }

  /** `c.lower()` restricted to ASCII letters; every other character is kept. */
  function Lower(c: char): char {
    if 'A' <= c <= 'Z' then (c as int + 32) as char else c
  }

  function LowerStr(s: string): string {
    seq(|s|, i requires 0 <= i < |s| => Lower(s[i]))
  }

  /** Lower-casing twice is lower-casing once. */
  lemma LowerStrIdem(s: string)
    ensures LowerStr(LowerStr(s)) == LowerStr(s)
  {
  }

  /** Text without upper-case ASCII letters is its own lower case. */
  lemma LowerStrNoUpper(s: string)
    requires forall i :: 0 <= i < |s| ==> !('A' <= s[i] <= 'Z')
    ensures LowerStr(s) == s
  {
  }

  predicate StartsWith(s: string, p: string) {
    |p| <= |s| && s[..|p|] == p
  }

  predicate EndsWith(s: string, p: string) {
    |p| <= |s| && s[|s| - |p|..] == p
  }

  /** `s` begins with the lower-case ASCII text `p`, ignoring ASCII case. */
  predicate StartsWithCI(s: string, p: string) {
    |p| <= |s| && LowerStr(s[..|p|]) == p
  }

  /** Text without upper-case ASCII letters begins, ignoring case, every
      text that begins with it. */
  lemma StartsWithCIOwn(p: string, x: string)
    requires forall i :: 0 <= i < |p| ==> !('A' <= p[i] <= 'Z')
    ensures StartsWithCI(p + x, p)
  {
    assert (p + x)[..|p|] == p;
  }

  /** Python's `p in s`. */
  predicate Contains(s: string, p: string)
    decreases |s|
  {
    StartsWith(s, p) || (s != [] && Contains(s[1..], p))
  }

  /** How many characters at the start of `s` belong to `cs`. */
  function LeadCount(s: string, cs: set<char>): (n: nat)
    ensures n <= |s|
    ensures forall i :: 0 <= i < n ==> s[i] in cs
    ensures n < |s| ==> s[n] !in cs
  {
    if s != [] && s[0] in cs then 1 + LeadCount(s[1..], cs) else 0
  }

  /** How many characters at the end of `s` belong to `cs`. */
  function TrailCount(s: string, cs: set<char>): (n: nat)
    ensures n <= |s|
    ensures forall i :: |s| - n <= i < |s| ==> s[i] in cs
    ensures n < |s| ==> s[|s| - n - 1] !in cs
  {
    if s != [] && s[|s| - 1] in cs then 1 + TrailCount(s[..|s| - 1], cs) else 0
  }

  /** How many characters at the start of `s` lie outside `cs`. */
  function LeadOutside(s: string, cs: set<char>): (n: nat)
    ensures n <= |s|
    ensures forall i :: 0 <= i < n ==> s[i] !in cs
    ensures n < |s| ==> s[n] in cs
  {
    if s != [] && s[0] !in cs then 1 + LeadOutside(s[1..], cs) else 0
  }

  /** How many characters at the end of `s` differ from `c`. */
  function TrailOther(s: string, c: char): (n: nat)
    ensures n <= |s|
    ensures forall i :: |s| - n <= i < |s| ==> s[i] != c
    ensures n < |s| ==> s[|s| - n - 1] == c
  {
    if s != [] && s[|s| - 1] != c then 1 + TrailOther(s[..|s| - 1], c) else 0
  }

  /** The three facts about `TrailOther` determine it. */
  lemma TrailOtherIs(s: string, c: char, k: nat)
    requires k <= |s|
    requires forall i :: |s| - k <= i < |s| ==> s[i] != c
    requires k < |s| ==> s[|s| - k - 1] == c
    ensures TrailOther(s, c) == k
  {
  }

  lemma LeadCountIs(s: string, cs: set<char>, k: nat)
    requires k <= |s|
    requires forall i :: 0 <= i < k ==> s[i] in cs
    requires k < |s| ==> s[k] !in cs
    ensures LeadCount(s, cs) == k
  {
  }

  lemma TrailCountIs(s: string, cs: set<char>, k: nat)
    requires k <= |s|
    requires forall i :: |s| - k <= i < |s| ==> s[i] in cs
    requires k < |s| ==> s[|s| - k - 1] !in cs
    ensures TrailCount(s, cs) == k
  {
  }

  lemma LeadOutsideIs(s: string, cs: set<char>, k: nat)
    requires k <= |s|
    requires forall i :: 0 <= i < k ==> s[i] !in cs
    requires k < |s| ==> s[k] in cs
    ensures LeadOutside(s, cs) == k
  {
  }

  /** Text that neither begins nor ends with a character of `cs` is its own
      `strip(cs)`. */
  lemma StripCharsNone(s: string, cs: set<char>)
    requires s == [] || (s[0] !in cs && s[|s| - 1] !in cs)
    ensures StripChars(s, cs) == s
  {
    LeadCountIs(s, cs, 0);
    assert TrimStart(s, cs) == s;
  }

  /** `s.lstrip(cs)`. */
  function TrimStart(s: string, cs: set<char>): string {
    s[LeadCount(s, cs)..]
  }

  /** `s.rstrip(cs)`. */
  function TrimEnd(s: string, cs: set<char>): string {
    s[..|s| - TrailCount(s, cs)]
  }

  /** `s.strip(cs)`. */
  function StripChars(s: string, cs: set<char>): string {
    TrimEnd(TrimStart(s, cs), cs)
  }

  /** Stripping only removes characters. */
  lemma StripCharsKeeps(s: string, cs: set<char>, c: char)
    requires c !in s
    ensures c !in StripChars(s, cs)
  {
    var t := TrimStart(s, cs);
    assert forall i :: 0 <= i < |t| ==> t[i] == s[LeadCount(s, cs) + i];
    var u := TrimEnd(t, cs);
    assert forall i :: 0 <= i < |u| ==> u[i] == t[i];
  }

  /** `s.strip()`. */
  function Strip(s: string): string {
    StripChars(s, Whitespace)
  }

  /** The text of `s` before its first character from `cs` (all of `s` when
      there is none). */
  function BeforeFirstOf(s: string, cs: set<char>): string {
    s[..LeadOutside(s, cs)]
  }

  /** `s.split(c, 1)[0]`. */
  function BeforeFirst(s: string, c: char): string {
    BeforeFirstOf(s, {c})
  }

  /** `s.rsplit(c, 1)[-1]`. */
  function AfterLast(s: string, c: char): string {
    s[|s| - TrailOther(s, c)..]
  }

  /** Python's `s.replace(a, b)`: every non-overlapping occurrence of `a`,
      scanning from the left, becomes `b`; an empty `a` puts `b` between all
      characters and at both ends. */
  function Replace(s: string, a: string, b: string): string
    decreases |s|, |a|
  {
    if a == [] then
      (if s == [] then b else b + [s[0]] + Replace(s[1..], a, b))
    else if |a| <= |s| && s[..|a|] == a then
      b + Replace(s[|a|..], a, b)
    else if s == [] then
      []
    else
      [s[0]] + Replace(s[1..], a, b)
  }

  /** Python's `s.split()`: the maximal runs of non-whitespace, in order. */
  function Words(s: string): (ws: seq<string>)
    decreases |s|
    ensures forall i :: 0 <= i < |ws| ==> ws[i] != [] && NoSpace(ws[i])
  {
    var t := TrimStart(s, Whitespace);
    if t == [] then []
    else
      var w := BeforeFirstOf(t, Whitespace);
      assert NoSpace(w) by {
        forall i | 0 <= i < |w| ensures !IsSpace(w[i]) { WhitespaceIsSpace(w[i]); }
      }
      [w] + Words(t[|w|..])
  }

  /** A word followed by a blank is split off first. */
  lemma WordsCons(a: string, b: string)
    requires a != [] && NoSpace(a)
    ensures Words(a + " " + b) == [a] + Words(b)
  {
    var s := a + " " + b;
    forall i | 0 <= i < |a| ensures s[i] !in Whitespace {
      WhitespaceIsSpace(s[i]);
    }
    WhitespaceIsSpace(' ');
    LeadCountIs(s, Whitespace, 0);
    LeadOutsideIs(s, Whitespace, |a|);
    assert s[..|a|] == a;
    var r := s[|a|..];
    assert r == " " + b;
    assert r[1..] == b;
    assert TrimStart(r, Whitespace) == TrimStart(b, Whitespace);
  }

  lemma WordsOne(a: string)
    requires a != [] && NoSpace(a)
    ensures Words(a) == [a]
  {
    forall i | 0 <= i < |a| ensures a[i] !in Whitespace {
      WhitespaceIsSpace(a[i]);
    }
    LeadCountIs(a, Whitespace, 0);
    LeadOutsideIs(a, Whitespace, |a|);
    assert a[..|a|] == a;
  }

  /** Two words joined by a blank split back into the two. */
  lemma WordsTwo(a: string, b: string)
    requires a != [] && NoSpace(a) && b != [] && NoSpace(b)
    ensures Words(a + " " + b) == [a, b]
  {
    WordsCons(a, b);
    WordsOne(b);
  }

  /** Three words joined by blanks split back into the three. */
  lemma WordsThree(a: string, b: string, c: string)
    requires a != [] && NoSpace(a) && b != [] && NoSpace(b) && c != [] && NoSpace(c)
    ensures Words(a + " " + (b + " " + c)) == [a, b, c]
  {
    WordsCons(a, b + " " + c);
    WordsTwo(b, c);
  }

  // ---------------------------------------------------------------------------
  // Decimal numbers: `str(n)`, `f"{n:03d}"` and `int(s)`.

  predicate IsDigit(c: char) {
    '0' <= c <= '9'
  }

  predicate AllDigits(s: string) {
    forall i :: 0 <= i < |s| ==> IsDigit(s[i])
  }

  function DigitChar(d: nat): char
    requires d < 10
  {
    ('0' as int + d) as char
  }

  /** `str(n)` for a non-negative `n`. */
  function NatToString(n: nat): (r: string)
    decreases n
    ensures r != [] && AllDigits(r)
  {
    if n < 10 then [DigitChar(n)] else NatToString(n / 10) + [DigitChar(n % 10)]
  }

  /** `str(i)`. */
  function IntToString(i: int): string {
    if i < 0 then "-" + NatToString(-i) else NatToString(i)
  }

  /** The value of a string of decimal digits, leading zeros allowed. */
  function DigitsValue(s: string): nat
    requires AllDigits(s)
  {
    if s == [] then 0 else DigitsValue(s[..|s| - 1]) * 10 + (s[|s| - 1] as int - '0' as int)
  }

  function Zeros(k: nat): (r: string)
    ensures |r| == k && AllDigits(r)
  {
    seq(k, _ => '0')
  }

  /** `f"{n:03d}"`: at least three digits, zero-padded on the left. */
  function Pad3(n: nat): string {
    var d := NatToString(n);
    if |d| >= 3 then d else Zeros(3 - |d|) + d
  }

  /** The digit part accepted by Python's `int()`: digits, where single
      underscores may separate two digits. */
  predicate IntBody(b: string) {
    && b != []
    && IsDigit(b[0])
    && b[|b| - 1] != '_'
    && (forall i :: 0 <= i < |b| ==> IsDigit(b[i]) || b[i] == '_')
    && (forall i :: 0 <= i < |b| - 1 && b[i] == '_' ==> IsDigit(b[i + 1]))
  }

  function DropUnderscores(b: string): (r: string)
    ensures |r| <= |b|
  {
    if b == [] then [] else (if b[0] == '_' then [] else [b[0]]) + DropUnderscores(b[1..])
  }

  lemma {:induction false} DropUnderscoresDigits(b: string)
    requires forall i :: 0 <= i < |b| ==> IsDigit(b[i]) || b[i] == '_'
    ensures AllDigits(DropUnderscores(b))
  {
    if b != [] {
      DropUnderscoresDigits(b[1..]);
    }
  }

  /** Python's `int(s)` in base 10 over ASCII digits: surrounding whitespace,
      an optional sign and underscores between digits are accepted; anything
      else is the `ValueError` case, `None`. */
  function ParseInt(s: string): Option<int> {
    var t := Strip(s);
    var body := if t != [] && (t[0] == '+' || t[0] == '-') then t[1..] else t;
    if IntBody(body) then
      DropUnderscoresDigits(body);
      var v: int := DigitsValue(DropUnderscores(body));
      Some(if t[0] == '-' then -v else v)
    else
      None
  }

  lemma {:induction false} NatToStringValue(n: nat)
    ensures DigitsValue(NatToString(n)) == n
    decreases n
  {
    if n >= 10 {
      NatToStringValue(n / 10);
      var s := NatToString(n);
      assert s[..|s| - 1] == NatToString(n / 10);
    }
  }

  lemma {:induction false} DropUnderscoresNone(b: string)
    requires AllDigits(b)
    ensures DropUnderscores(b) == b
  {
    if b != [] {
      DropUnderscoresNone(b[1..]);
    }
  }

  lemma {:induction false} LeadingZerosValue(k: nat, d: string)
    requires AllDigits(d)
    ensures AllDigits(Zeros(k) + d)
    ensures DigitsValue(Zeros(k) + d) == DigitsValue(d)
    decreases k, |d|
  {
    if d == [] {
      if k > 0 {
        assert (Zeros(k) + d)[..k - 1] == Zeros(k - 1) + d;
        LeadingZerosValue(k - 1, d);
      }
    } else {
      var s := Zeros(k) + d;
      assert s[..|s| - 1] == Zeros(k) + d[..|d| - 1];
      LeadingZerosValue(k, d[..|d| - 1]);
    }
  }

  /** Text that neither begins nor ends with whitespace is its own `strip()`. */
  lemma StripNoSpaceEnds(s: string)
    requires s == [] || (!IsSpace(s[0]) && !IsSpace(s[|s| - 1]))
    ensures Strip(s) == s
  {
    if s != [] {
      WhitespaceIsSpace(s[0]);
      WhitespaceIsSpace(s[|s| - 1]);
      assert TrimStart(s, Whitespace) == s;
    }
  }

  /** `int(str(i)) == i`: the decimal rendering parses back to the number. */
  lemma IntToStringRoundTrip(i: int)
    ensures ParseInt(IntToString(i)) == Some(i)
  {
    if i < 0 {
      var n: nat := -i;
      NatToStringValue(n);
      ParseNegative(NatToString(n));
      assert IntToString(i) == "-" + NatToString(n);
    } else {
      NatToStringValue(i);
      ParseDigits(NatToString(i));
      assert IntToString(i) == NatToString(i);
    }
  }

  /** A minus sign before digits negates their value. */
  lemma ParseNegative(d: string)
    requires d != [] && AllDigits(d)
    ensures ParseInt("-" + d) == Some(-(DigitsValue(d) as int))
  {
    var s := "-" + d;
    DropUnderscoresNone(d);
    StripNoSpaceEnds(s);
    assert s[1..] == d;
    assert IntBody(d);
  }

  /** `int(f"{n:03d}") == n`, and the padded form has at least three digits. */
  lemma Pad3RoundTrip(n: nat)
    ensures |Pad3(n)| >= 3 && AllDigits(Pad3(n))
    ensures ParseInt(Pad3(n)) == Some(n)
  {
    var d := NatToString(n);
    NatToStringValue(n);
    var p := Pad3(n);
    if |d| < 3 {
      LeadingZerosValue(3 - |d|, d);
    }
    assert AllDigits(p) && DigitsValue(p) == n;
    ParseDigits(p);
  }

  /** A non-empty run of digits parses to its value. */
  lemma ParseDigits(p: string)
    requires p != [] && AllDigits(p)
    ensures ParseInt(p) == Some(DigitsValue(p))
  {
    DropUnderscoresNone(p);
    StripNoSpaceEnds(p);
    assert IntBody(p);
  }
}

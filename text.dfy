/**
 * String helpers shared by the browser scripts and the Java back end: the length both
 * languages report, decimal rendering of numbers and its inverse, and the two `trim`
 * operations (JavaScript's and Java's, which strip different characters).
 */
module Text {

  /** Number of UTF-16 code units `c` takes: what JavaScript's `length` and Java's `length()` count. */
  function CodeUnits(c: char): nat
  {
    if c as int <= 0xFFFF then 1 else 2
  }

  /** Length of `s` in UTF-16 code units. */
  function Utf16Length(s: string): (n: nat)
    ensures |s| <= n <= 2 * |s|
    ensures (forall i :: 0 <= i < |s| ==> s[i] as int <= 0xFFFF) ==> n == |s|
  {
    if s == [] then 0 else CodeUnits(s[0]) + Utf16Length(s[1..])
  }

  // ---------------------------------------------------------------------------
  // Decimal numbers: `Number.prototype.toString()` on integers

  predicate IsDigit(c: char)
  {
    '0' <= c <= '9'
  }

  predicate AllDigits(s: string)
  {
    forall i :: 0 <= i < |s| ==> IsDigit(s[i])
  }

  function DigitChar(d: nat): (c: char)
    requires d < 10
    ensures IsDigit(c)
  {
    ('0' as int + d) as char
  }

  function DigitValue(c: char): (d: nat)
    requires IsDigit(c)
    ensures d < 10
  {
    c as int - '0' as int
  }

  /** Decimal rendering of `n` without leading zeros. */
  function NatToString(n: nat): (s: string)
    ensures |s| >= 1 && AllDigits(s)
    ensures |s| == 1 <==> n < 10
    ensures |s| == 2 <==> 10 <= n < 100
    ensures s[0] == '0' ==> n == 0
  {
    if n < 10 then [DigitChar(n)] else NatToString(n / 10) + [DigitChar(n % 10)]
  }

  /** Reads a string of decimal digits back as a number (leading zeros allowed). */
  function ParseNat(s: string): nat
    requires AllDigits(s)
  {
    if s == [] then 0 else 10 * ParseNat(s[..|s| - 1]) + DigitValue(s[|s| - 1])
  }

  lemma {:induction false} ParseNatToString(n: nat)
    ensures ParseNat(NatToString(n)) == n
  {
    if n >= 10 {
      var s := NatToString(n);
      assert s[..|s| - 1] == NatToString(n / 10);
      ParseNatToString(n / 10);
    }
  }

  /** Decimal rendering of an integer, with a leading `-` when it is negative. */
  function IntToString(i: int): string
  {
    if i < 0 then "-" + NatToString(-i) else NatToString(i)
  }

  /** The strings `IntToString` produces: optional `-`, then at least one digit. */
  predicate IsIntText(s: string)
  {
    if |s| > 0 && s[0] == '-' then |s| > 1 && AllDigits(s[1..]) else |s| > 0 && AllDigits(s)
  }

  function ParseInt(s: string): int
    requires IsIntText(s)
  {
    if |s| > 0 && s[0] == '-' then -(ParseNat(s[1..]) as int) else ParseNat(s)
  }

  lemma ParseIntToString(i: int)
    ensures IsIntText(IntToString(i)) && ParseInt(IntToString(i)) == i
  {
    var s := IntToString(i);
    if i < 0 {
      assert s[1..] == NatToString(-i);
      ParseNatToString(-i);
    } else {
      assert IsDigit(s[0]);
      ParseNatToString(i);
    }
  }

  // ---------------------------------------------------------------------------
  // Trimming

  /** Drops the leading characters that satisfy `strip`. */
  function TrimStart(s: string, strip: char -> bool): (r: string)
    ensures |r| <= |s| && r == s[|s| - |r|..]
    ensures r != [] ==> !strip(r[0])
    ensures forall i :: 0 <= i < |s| - |r| ==> strip(s[i])
  {
    if s != [] && strip(s[0]) then TrimStart(s[1..], strip) else s
  }

  /** Drops the trailing characters that satisfy `strip`. */
  function TrimEnd(s: string, strip: char -> bool): (r: string)
    ensures |r| <= |s| && r == s[..|r|]
    ensures r != [] ==> !strip(r[|r| - 1])
    ensures forall i :: |r| <= i < |s| ==> strip(s[i])
  {
    if s != [] && strip(s[|s| - 1]) then TrimEnd(s[..|s| - 1], strip) else s
  }

  function Trim(s: string, strip: char -> bool): string
  {
    TrimEnd(TrimStart(s, strip), strip)
  }

  /**
   * The trimmed string is the middle slice `s[lo..hi]` of `s`: everything before `lo`
   * and from `hi` on is stripped, and the slice neither starts nor ends with a character
   * that would be stripped.
   */
  lemma TrimIsMiddleSlice(s: string, strip: char -> bool) returns (lo: nat, hi: nat)
    ensures lo <= hi <= |s| && Trim(s, strip) == s[lo..hi]
    ensures forall i :: 0 <= i < lo ==> strip(s[i])
    ensures forall i :: hi <= i < |s| ==> strip(s[i])
    ensures lo < hi ==> !strip(s[lo]) && !strip(s[hi - 1])
  {
    var t := TrimStart(s, strip);
    var r := TrimEnd(t, strip);
    lo := |s| - |t|;
    hi := lo + |r|;
    assert r == t[..|r|];
    forall i | hi <= i < |s| ensures strip(s[i]) {
      assert s[i] == t[i - lo];
    }
  }

  /** Trimming yields the empty string exactly when every character would be stripped. */
  lemma TrimEmptyIff(s: string, strip: char -> bool)
    ensures Trim(s, strip) == [] <==> forall i :: 0 <= i < |s| ==> strip(s[i])
  {
    var lo, hi := TrimIsMiddleSlice(s, strip);
    if Trim(s, strip) != [] {
      assert !strip(s[lo]);
    }
  }

  lemma TrimIdempotent(s: string, strip: char -> bool)
    ensures Trim(Trim(s, strip), strip) == Trim(s, strip)
  {
    var t := Trim(s, strip);
    var lo, hi := TrimIsMiddleSlice(s, strip);
    if t != [] {
      assert t[0] == s[lo] && t[|t| - 1] == s[hi - 1];
      assert TrimStart(t, strip) == t;
    }
  }

  /** A one-character string trims to nothing when the character is stripped, and to itself otherwise. */
  lemma TrimSingle(c: char, strip: char -> bool)
    ensures Trim([c], strip) == if strip(c) then [] else [c]
  {
    if strip(c) {
      assert TrimStart([c], strip) == TrimStart([], strip);
    }
  }

  /** Characters Java's `String.trim()` removes: every code point up to U+0020. */
  predicate IsJavaTrimmed(c: char)
  {
    c <= ' '
  }

  /** ECMAScript's WhiteSpace and LineTerminator characters, removed by `String.prototype.trim()`. */
  predicate IsJsWhitespace(c: char)
  {
    || c == '\t' || c == '\n' || c == '\U{000B}' || c == '\U{000C}' || c == '\r' || c == ' '
    || c == '\U{00A0}' || c == '\U{1680}' || ('\U{2000}' <= c <= '\U{200A}')
    || c == '\U{2028}' || c == '\U{2029}' || c == '\U{202F}' || c == '\U{205F}'
    || c == '\U{3000}' || c == '\U{FEFF}'
  }

  function JavaTrim(s: string): string
  {
    Trim(s, IsJavaTrimmed)
  }

  function JsTrim(s: string): string
  {
    Trim(s, IsJsWhitespace)
  }
}

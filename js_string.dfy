/**
 * The JavaScript string built-ins the email assistant relies on:
 * `toLowerCase`, `trim`/`trimStart`, `includes`, `substring(0, n)`,
 * `parseInt` and the decimal rendering of a natural number.
 */
module JsString {
  import opened Wrappers

  // ---------------------------------------------------------------- case

  /** `toLowerCase` on one character (ASCII letters only). */
  function LowerChar(c: char): char {
    if 'A' <= c <= 'Z' then (c as int + 32) as char else c
  }

  /** `String.prototype.toLowerCase`, character by character. */
  function Lower(s: string): (r: string)
    ensures |r| == |s|
    ensures forall i :: 0 <= i < |s| ==> r[i] == LowerChar(s[i])
  {
    if s == [] then [] else [LowerChar(s[0])] + Lower(s[1..])
  }

  /** Lower-casing twice is lower-casing once. */
  lemma LowerIdempotent(s: string)
    ensures Lower(Lower(s)) == Lower(s)
  {
    assert forall i :: 0 <= i < |s| ==> LowerChar(LowerChar(s[i])) == LowerChar(s[i]);
  }

  // ---------------------------------------------------------- whitespace

  /** The characters `trim` removes: ECMAScript WhiteSpace and LineTerminator. */
  predicate IsWhitespace(c: char) {
    c == '\t' || c == '\n' || c == '\U{B}' || c == '\U{C}' || c == '\r' || c == ' '
    || c == '\U{A0}' || c == '\U{1680}' || ('\U{2000}' <= c <= '\U{200A}')
    || c == '\U{2028}' || c == '\U{2029}' || c == '\U{202F}' || c == '\U{205F}'
    || c == '\U{3000}' || c == '\U{FEFF}'
  }

  predicate AllWhitespace(s: string) {
    forall i :: 0 <= i < |s| ==> IsWhitespace(s[i])
  }

  /** Neither end of `s` is a whitespace character. */
  predicate IsTrimmed(s: string) {
    s == [] || (!IsWhitespace(s[0]) && !IsWhitespace(s[|s| - 1]))
  }

  /** `String.prototype.trimStart`: `s` is the dropped whitespace followed by the result. */
  function TrimStart(s: string): (r: string)
    ensures |r| <= |s| && r == s[|s| - |r|..]
    ensures AllWhitespace(s[..|s| - |r|])
    ensures r == [] || !IsWhitespace(r[0])
  {
    if s != [] && IsWhitespace(s[0]) then TrimStart(s[1..]) else s
  }

  /** Removes trailing whitespace: `s` is the result followed by the dropped whitespace. */
  function TrimEnd(s: string): (r: string)
    ensures |r| <= |s| && r == s[..|r|]
    ensures AllWhitespace(s[|r|..])
    ensures r == [] || !IsWhitespace(r[|r| - 1])
  {
    if s != [] && IsWhitespace(s[|s| - 1]) then TrimEnd(s[..|s| - 1]) else s
  }

  /** `String.prototype.trim`. */
  function Trim(s: string): (r: string)
    ensures IsTrimmed(r)
    ensures |r| <= |s|
  {
    TrimEnd(TrimStart(s))
  }

  /** Trimming keeps exactly the part of `s` between its leading and trailing whitespace. */
  lemma TrimSplits(s: string)
    ensures exists i :: 0 <= i <= |s| - |Trim(s)| && s[i..i + |Trim(s)|] == Trim(s)
              && AllWhitespace(s[..i]) && AllWhitespace(s[i + |Trim(s)|..])
  {
    var t := TrimStart(s);
    var i := |s| - |t|;
    var r := TrimEnd(t);
    assert r == Trim(s);
    SliceOfSuffix(s, i, r);
    assert 0 <= i <= |s| - |Trim(s)| && s[i..i + |Trim(s)|] == Trim(s)
           && AllWhitespace(s[..i]) && AllWhitespace(s[i + |Trim(s)|..]);
  }

  /** The pieces of `s` around the trimmed part of its suffix `s[i..]`. */
  lemma SliceOfSuffix(s: string, i: nat, r: string)
    requires i <= |s| && AllWhitespace(s[..i])
    requires |r| <= |s| - i && r == s[i..][..|r|] && AllWhitespace(s[i..][|r|..])
    ensures s[i..i + |r|] == r && AllWhitespace(s[i + |r|..])
  {
    var tail, dropped := s[i + |r|..], s[i..][|r|..];
    assert tail == dropped;
  }


  /** A string that is already trimmed is left unchanged. */
  lemma TrimOfTrimmed(s: string)
    requires IsTrimmed(s)
    ensures Trim(s) == s
  {
  }

  /** `trim` is idempotent. */
  lemma TrimIdempotent(s: string)
    ensures Trim(Trim(s)) == Trim(s)
  {
    TrimOfTrimmed(Trim(s));
  }

  /** Lower-casing maps whitespace to whitespace and nothing else to whitespace. */
  lemma LowerCharWhitespace(c: char)
    ensures IsWhitespace(LowerChar(c)) == IsWhitespace(c)
  {
  }

  /** A trimmed string stays trimmed once lower-cased. */
  lemma LowerKeepsTrimmed(s: string)
    requires IsTrimmed(s)
    ensures IsTrimmed(Lower(s))
  {
    if s != [] {
      LowerCharWhitespace(s[0]);
      LowerCharWhitespace(s[|s| - 1]);
    }
  }

  // ----------------------------------------------------------- substrings

  /** `k` occurs in `s` starting at index `i`. */
  predicate OccursAt(s: string, k: string, i: int) {
    0 <= i && i + |k| <= |s| && s[i..i + |k|] == k
  }

  /** A lower-case word found in `s` is still found, at the same place, once `s` is lower-cased. */
  lemma LowerKeepsOccurrence(s: string, k: string, i: int)
    requires OccursAt(s, k, i)
    requires forall j :: 0 <= j < |k| ==> !('A' <= k[j] <= 'Z')
    ensures OccursAt(Lower(s), k, i)
  {
    assert forall j :: 0 <= j < |k| ==> Lower(s)[i + j] == LowerChar(s[i + j]) == k[j];
  }

  lemma Associative(a: string, b: string, c: string)
    ensures (a + b) + c == a + (b + c)
  {
  }

  /** An occurrence in `s[1..]` is an occurrence in `s` one place further on, and conversely. */
  lemma OccursShift(s: string, k: string)
    requires |s| > 0
    ensures forall i :: OccursAt(s[1..], k, i) ==> OccursAt(s, k, i + 1)
    ensures forall i :: 0 < i && OccursAt(s, k, i) ==> OccursAt(s[1..], k, i - 1)
  {
    forall i | OccursAt(s[1..], k, i)
      ensures OccursAt(s, k, i + 1)
    {
      assert s[1..][i..i + |k|] == s[i + 1..i + 1 + |k|];
    }
    forall i | 0 < i && OccursAt(s, k, i)
      ensures OccursAt(s[1..], k, i - 1)
    {
      assert s[1..][i - 1..i - 1 + |k|] == s[i..i + |k|];
    }
  }

  /** `String.prototype.includes`: a left-to-right search for `k` in `s`. */
  function Includes(s: string, k: string): (r: bool)
    ensures r <==> exists i :: OccursAt(s, k, i)
  {
    if |k| > |s| then
      false
    else if s[..|k|] == k then
      assert OccursAt(s, k, 0);
      true
    else
      OccursShift(s, k);
      assert !OccursAt(s, k, 0);
      Includes(s[1..], k)
  }

  /** `s.substring(0, n)` for a non-negative `n`: the first `n` characters, or all of `s`. */
  function Take(s: string, n: nat): (r: string)
    ensures r <= s
    ensures |r| == if n < |s| then n else |s|
  {
    if n < |s| then s[..n] else s
  }

  // -------------------------------------------------------------- numbers

  function DigitChar(d: nat): char
    requires d < 10
  {
    "0123456789"[d]
  }

  predicate IsDecimalDigit(c: char) {
    '0' <= c <= '9'
  }

  /** A natural number as JavaScript prints it, in decimal without leading zeros. */
  function NatToString(n: nat): (r: string)
    ensures |r| > 0
    ensures r[0] != '0' || n == 0
  {
    if n < 10 then [DigitChar(n)] else NatToString(n / 10) + [DigitChar(n % 10)]
  }

  /** The decimal rendering consists of decimal digits only. */
  lemma {:induction false} NatToStringDigits(n: nat)
    ensures forall i :: 0 <= i < |NatToString(n)| ==> IsDecimalDigit(NatToString(n)[i])
  {
    if n >= 10 {
      NatToStringDigits(n / 10);
    }
  }

  /** The value of a digit character in the given radix, or -1 when it is not a digit there. */
  function DigitValue(c: char, radix: nat): (v: int)
    requires radix == 10 || radix == 16
    ensures -1 <= v < radix
  {
    if '0' <= c <= '9' then c as int - '0' as int
    else if radix == 16 && 'a' <= c <= 'f' then c as int - 'a' as int + 10
    else if radix == 16 && 'A' <= c <= 'F' then c as int - 'A' as int + 10
    else -1
  }

  /** The length of the longest prefix of `s` made of digits of the radix. */
  function DigitPrefixLength(s: string, radix: nat): (n: nat)
    requires radix == 10 || radix == 16
    ensures n <= |s|
    ensures forall i :: 0 <= i < n ==> DigitValue(s[i], radix) >= 0
    ensures n < |s| ==> DigitValue(s[n], radix) < 0
  {
    if s == [] || DigitValue(s[0], radix) < 0 then 0 else 1 + DigitPrefixLength(s[1..], radix)
  }

  /** The number a string of digits denotes in the radix, most significant digit first. */
  function DigitsValue(s: string, radix: nat): (v: nat)
    requires radix == 10 || radix == 16
    requires forall i :: 0 <= i < |s| ==> DigitValue(s[i], radix) >= 0
  {
    if s == [] then 0
    else DigitsValue(s[..|s| - 1], radix) * radix + DigitValue(s[|s| - 1], radix)
  }

  /** The number `parseInt` produces: NaN or an integer. */
  datatype ParsedInt = NaN | Int(value: int)

  /** The text after one leading sign character, if there is one. */
  function AfterSign(t: string): (u: string)
    ensures |u| <= |t|
  {
    if |t| > 0 && (t[0] == '-' || t[0] == '+') then t[1..] else t
  }

  /**
   * The magnitude `parseInt` reads after the sign: a `0x`/`0X` prefix selects
   * radix 16, otherwise radix 10, and the longest run of digits that follows
   * is read; nothing when that run is empty.
   */
  function ParseMagnitude(u: string): (m: Option<nat>)
    ensures m.None? <==>
      u == [] || !IsDecimalDigit(u[0])
      || (|u| >= 2 && u[0] == '0' && (u[1] == 'x' || u[1] == 'X') && (|u| == 2 || DigitValue(u[2], 16) < 0))
  {
    var hex := |u| >= 2 && u[0] == '0' && (u[1] == 'x' || u[1] == 'X');
    var radix := if hex then 16 else 10;
    var w := if hex then u[2..] else u;
    var n := DigitPrefixLength(w, radix);
    if n == 0 then None else Some(DigitsValue(w[..n], radix))
  }

  /**
   * `parseInt(s)` with no radix: leading whitespace is skipped, one sign is
   * taken, then the magnitude is read; NaN when there is none.
   */
  function ParseInt(s: string): (r: ParsedInt)
    ensures var u := AfterSign(TrimStart(s));
      r.NaN? <==>
        u == [] || !IsDecimalDigit(u[0])
        || (|u| >= 2 && u[0] == '0' && (u[1] == 'x' || u[1] == 'X') && (|u| == 2 || DigitValue(u[2], 16) < 0))
    ensures r.Int? && r.value < 0 ==> |TrimStart(s)| > 0 && TrimStart(s)[0] == '-'
  {
    var t := TrimStart(s);
    var negative := |t| > 0 && t[0] == '-';
    match ParseMagnitude(AfterSign(t))
    case None => NaN
    case Some(v) => Int(if negative then -(v as int) else v)
  }

  /** Reading back the decimal rendering of `n` gives `n`. */
  lemma {:induction false} DigitsValueOfNatToString(n: nat)
    ensures forall i :: 0 <= i < |NatToString(n)| ==> DigitValue(NatToString(n)[i], 10) >= 0
    ensures DigitsValue(NatToString(n), 10) == n
  {
    var s := NatToString(n);
    NatToStringDigits(n);
    if n >= 10 {
      DigitsValueOfNatToString(n / 10);
      assert s[..|s| - 1] == NatToString(n / 10);
    }
  }

  /** The magnitude read from a decimal rendering is the number rendered. */
  lemma MagnitudeOfNatToString(n: nat)
    ensures ParseMagnitude(NatToString(n)) == Some(n)
  {
    var s := NatToString(n);
    DigitsValueOfNatToString(n);
    NatToStringDigits(n);
    assert !(|s| >= 2 && s[1] == 'x') && !(|s| >= 2 && s[1] == 'X') by {
      if |s| >= 2 { assert IsDecimalDigit(s[1]); }
    }
    var k := DigitPrefixLength(s, 10);
    assert k == |s|;
    assert s[..k] == s;
  }

  /** `parseInt` inverts the decimal rendering of a natural number. */
  lemma ParseIntOfNatToString(n: nat)
    ensures ParseInt(NatToString(n)) == Int(n)
  {
    assert NatToString(n) + [] == NatToString(n);
    ParseIntIgnoresTrailingText(n, []);
  }


  /** `parseInt` reads a minus sign in front of a decimal rendering as a negative number. */
  lemma ParseIntOfNegative(n: nat)
    ensures ParseInt("-" + NatToString(n)) == Int(-(n as int))
  {
    var t := "-" + NatToString(n);
    NatToStringDigits(n);
    assert t[0] == '-' && !IsWhitespace(t[0]);
    assert TrimStart(t) == t;
    assert AfterSign(t) == NatToString(n);
    MagnitudeOfNatToString(n);
  }

  /** Leading whitespace does not change what `parseInt` reads. */
  lemma {:induction false} TrimStartSkipsWhitespace(ws: string, s: string)
    requires AllWhitespace(ws)
    ensures TrimStart(ws + s) == TrimStart(s)
    decreases |ws|
  {
    if ws != [] {
      assert (ws + s)[0] == ws[0];
      assert (ws + s)[1..] == ws[1..] + s;
      TrimStartSkipsWhitespace(ws[1..], s);
    } else {
      assert ws + s == s;
    }
  }

  lemma ParseIntSkipsWhitespace(ws: string, s: string)
    requires AllWhitespace(ws)
    ensures ParseInt(ws + s) == ParseInt(s)
  {
    TrimStartSkipsWhitespace(ws, s);
  }

  /** The digit run of `d + rest` is `d` when `rest` does not go on with a digit. */
  lemma {:induction false} DigitPrefixOfAppend(d: string, rest: string, radix: nat)
    requires radix == 10 || radix == 16
    requires forall i :: 0 <= i < |d| ==> DigitValue(d[i], radix) >= 0
    requires rest == [] || DigitValue(rest[0], radix) < 0
    ensures DigitPrefixLength(d + rest, radix) == |d|
    decreases |d|
  {
    if d == [] {
      assert d + rest == rest;
    } else {
      assert (d + rest)[0] == d[0];
      assert (d + rest)[1..] == d[1..] + rest;
      DigitPrefixOfAppend(d[1..], rest, radix);
    }
  }

  /** Text that starts with a digit is read from its first character, without whitespace or sign. */
  lemma ParseIntOfDigitStart(s: string)
    requires |s| > 0 && IsDecimalDigit(s[0])
    ensures ParseMagnitude(s).Some? ==> ParseInt(s) == Int(ParseMagnitude(s).value)
  {
    assert !IsWhitespace(s[0]);
    assert TrimStart(s) == s;
    assert AfterSign(s) == s;
  }

  /** The magnitude read from a decimal rendering followed by non-digit text is the number rendered. */
  lemma MagnitudeOfNatToStringThen(n: nat, rest: string)
    requires rest == [] || !IsDecimalDigit(rest[0])
    requires n == 0 ==> rest == [] || (rest[0] != 'x' && rest[0] != 'X')
    ensures ParseMagnitude(NatToString(n) + rest) == Some(n)
  {
    var d := NatToString(n);
    var s := d + rest;
    NatToStringDigits(n);
    DigitsValueOfNatToString(n);
    assert s[0] == d[0];
    if |s| >= 2 && s[0] == '0' {
      assert n == 0 && |d| == 1 && s[1] == rest[0];
    }
    DigitPrefixOfAppend(d, rest, 10);
    assert s[..|d|] == d;
  }

  /**
   * `parseInt` stops at the first character that is not a digit, so text
   * after a typed number is ignored ("5 emails" reads as 5). After a single
   * "0" an `x` would select hexadecimal instead, so that case is excluded.
   */
  lemma ParseIntIgnoresTrailingText(n: nat, rest: string)
    requires rest == [] || !IsDecimalDigit(rest[0])
    requires n == 0 ==> rest == [] || (rest[0] != 'x' && rest[0] != 'X')
    ensures ParseInt(NatToString(n) + rest) == Int(n)
  {
    var d := NatToString(n);
    NatToStringDigits(n);
    assert (d + rest)[0] == d[0];
    MagnitudeOfNatToStringThen(n, rest);
    ParseIntOfDigitStart(d + rest);
  }

}

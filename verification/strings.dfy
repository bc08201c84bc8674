/** Character-level string operations the client (JavaScript) and the server
    (Java) rely on, stated over `seq<char>`: ASCII digits and case, substring
    search, the two languages' notions of `trim`, decimal rendering of
    integers, and the two languages' integer parsers. */
module Strings {
  import opened Wrappers

  // ---------------------------------------------------------------------
  // Digits and case

  predicate IsDigit(c: char) {
    '0' <= c <= '9'
  }

  predicate AllDigits(s: string) {
    forall i | 0 <= i < |s| :: IsDigit(s[i])
  }

  function DigitChar(d: nat): (c: char)
    requires d < 10
    ensures IsDigit(c)
  {
    ('0' as int + d) as char
  }

  function DigitValue(c: char): (d: nat)
    requires IsDigit(c)
    ensures d < 10 && DigitChar(d) == c
  {
    c as int - '0' as int
  }

  /** `toLowerCase` restricted to ASCII: 'A'..'Z' map to 'a'..'z', every other
      character is kept. */
  function LowerChar(c: char): char {
    if 'A' <= c <= 'Z' then (c as int + 32) as char else c
  }

  function ToLower(s: string): (r: string)
    ensures |r| == |s|
    ensures forall i | 0 <= i < |s| :: r[i] == LowerChar(s[i])
  {
    seq(|s|, i requires 0 <= i < |s| => LowerChar(s[i]))
  }

  // ---------------------------------------------------------------------
  // Prefixes and substrings

  predicate StartsWith(s: string, prefix: string) {
    |prefix| <= |s| && s[..|prefix|] == prefix
  }

  /** JavaScript `s.includes(sub)` / Java `s.contains(sub)`. */
  predicate Contains(s: string, sub: string) {
    exists i | 0 <= i <= |s| :: StartsWith(s[i..], sub)
  }

  lemma ContainsEmpty(s: string)
    ensures Contains(s, "")
  {
    assert StartsWith(s[0..], "");
  }

  lemma ContainsItself(s: string)
    ensures Contains(s, s)
  {
    assert s[0..] == s;
    assert StartsWith(s[0..], s);
  }

  /** Index of the first occurrence of `c` in `s`, if any. */
  function IndexOf(s: string, c: char): (r: Option<nat>)
    ensures r.None? <==> c !in s
    ensures r.Some? ==> r.value < |s| && s[r.value] == c && c !in s[..r.value]
  {
    if s == [] then None
    else if s[0] == c then Some(0)
    else
      match IndexOf(s[1..], c)
      case None => None
      case Some(k) =>
        assert s[..k + 1] == [s[0]] + s[1..][..k];
        Some(k + 1)
  }

  /** JavaScript `s.replace(from, to)` with a one-character string pattern:
      only the first occurrence is replaced. */
  function ReplaceFirst(s: string, from: char, to: char): (r: string)
    ensures |r| == |s|
    ensures from !in s ==> r == s
    ensures forall k | 0 <= k < |s| :: r[k] == if s[k] == from && from !in s[..k] then to else s[k]
  {
    match IndexOf(s, from)
    case None => s
    case Some(i) =>
      assert forall k | i < k < |s| :: s[..k][i] == from;
      assert forall k | 0 <= k < i :: s[k] == s[..i][k];
      s[..i] + [to] + s[i + 1..]
  }

  // ---------------------------------------------------------------------
  // Trimming

  /** The characters JavaScript's `String.prototype.trim` removes: white space
      and line terminators. */
  predicate IsJsSpace(c: char) {
    || c == ' ' || c == '\t' || c == '\n' || c == '\r'
    || c == '\U{000B}' || c == '\U{000C}' || c == '\U{00A0}' || c == '\U{1680}'
    || ('\U{2000}' <= c <= '\U{200A}')
    || c == '\U{2028}' || c == '\U{2029}' || c == '\U{202F}' || c == '\U{205F}'
    || c == '\U{3000}' || c == '\U{FEFF}'
  }

  /** The characters Java's `String.trim` removes: every code unit up to U+0020. */
  predicate IsJavaSpace(c: char) {
    c <= ' '
  }

  function TrimStart(s: string, space: char -> bool): (r: string)
    ensures |r| <= |s| && r == s[|s| - |r|..]
    ensures forall j | 0 <= j < |s| - |r| :: space(s[j])
    ensures r != [] ==> !space(r[0])
  {
    if s == [] || !space(s[0]) then s else TrimStart(s[1..], space)
  }

  function TrimEnd(s: string, space: char -> bool): (r: string)
    ensures |r| <= |s| && r == s[..|r|]
    ensures forall j | |r| <= j < |s| :: space(s[j])
    ensures r != [] ==> !space(r[|r| - 1])
  {
    if s == [] || !space(s[|s| - 1]) then s else TrimEnd(s[..|s| - 1], space)
  }

  function Trim(s: string, space: char -> bool): (r: string)
    ensures |r| <= |s|
    ensures r == [] <==> forall j | 0 <= j < |s| :: space(s[j])
    ensures r != [] ==> !space(r[0]) && !space(r[|r| - 1])
  {
    var t := TrimStart(s, space);
    var r := TrimEnd(t, space);
    assert r == s[|s| - |t|..][..|r|] == s[|s| - |t|..|s| - |t| + |r|];
    assert t != [] ==> !space(t[0]);
    r
  }

  function JsTrim(s: string): string {
    Trim(s, IsJsSpace)
  }

  function JavaTrim(s: string): string {
    Trim(s, IsJavaSpace)
  }

  /** JavaScript `!s.trim()` / `s.trim() === ''`. */
  predicate JsBlank(s: string) {
    JsTrim(s) == []
  }

  /** Java `s.trim().isEmpty()`. */
  predicate JavaBlank(s: string) {
    JavaTrim(s) == []
  }

  // ---------------------------------------------------------------------
  // Decimal rendering

  /** Decimal rendering without leading zeros (template literals, `+` on a Java int). */
  function NatToString(n: nat): (r: string)
    ensures |r| > 0 && AllDigits(r)
    ensures |r| > 1 ==> r[0] != '0'
  {
    if n < 10 then [DigitChar(n)] else NatToString(n / 10) + [DigitChar(n % 10)]
  }

  function IntToString(i: int): (r: string)
    ensures |r| > 0
    ensures i < 0 <==> r[0] == '-'
  {
    if i < 0 then "-" + NatToString(-i) else NatToString(i)
  }

  /** The value of a string of decimal digits, most significant first. */
  function DigitsValue(s: string): nat
    requires AllDigits(s)
  {
    if s == [] then 0 else DigitsValue(s[..|s| - 1]) * 10 + DigitValue(s[|s| - 1])
  }

  lemma {:induction false} DigitsValueOfNatToString(n: nat)
    ensures DigitsValue(NatToString(n)) == n
  {
    if n >= 10 {
      var p := NatToString(n / 10);
      var r := p + [DigitChar(n % 10)];
      assert r[..|r| - 1] == p;
      DigitsValueOfNatToString(n / 10);
    }
  }

  /** Different integers render differently. */
  lemma IntToStringInjective(a: int, b: int)
    ensures IntToString(a) == IntToString(b) ==> a == b
  {
    if IntToString(a) == IntToString(b) {
      if a < 0 && b < 0 {
        assert IntToString(a)[1..] == NatToString(-a) && IntToString(b)[1..] == NatToString(-b);
        DigitsValueOfNatToString(-a);
        DigitsValueOfNatToString(-b);
      } else if a >= 0 && b >= 0 {
        DigitsValueOfNatToString(a);
        DigitsValueOfNatToString(b);
      }
    }
  }

  /** A leading zero adds nothing to a digit string's value. */
  lemma {:induction false} ZeroPrefixValue(s: string)
    requires AllDigits(s)
    ensures AllDigits("0" + s) && DigitsValue("0" + s) == DigitsValue(s)
    decreases |s|
  {
    var t := "0" + s;
    assert forall i | 0 <= i < |t| :: IsDigit(t[i]) by {
      forall i | 0 <= i < |t| ensures IsDigit(t[i]) { if i > 0 { assert t[i] == s[i - 1]; } }
    }
    if s == [] {
      assert t[..0] == [];
    } else {
      var init := s[..|s| - 1];
      assert AllDigits(init) by {
        forall i | 0 <= i < |init| ensures IsDigit(init[i]) { assert init[i] == s[i]; }
      }
      ZeroPrefixValue(init);
      assert t[..|t| - 1] == "0" + init;
      assert t[|t| - 1] == s[|s| - 1];
    }
  }

  // ---------------------------------------------------------------------
  // Integer parsing

  const IntMin: int := -0x8000_0000
  const IntMax: int := 0x7FFF_FFFF

  predicate InInt32(x: int) {
    IntMin <= x <= IntMax
  }

  /** The digits after an optional leading sign. */
  function Unsigned(s: string): string {
    if s != [] && (s[0] == '-' || s[0] == '+') then s[1..] else s
  }

  /** The magnitude `m`, negated when `s` starts with '-'. */
  function Signed(s: string, m: nat): int {
    if s != [] && s[0] == '-' then -(m as int) else m
  }

  /** Java `Integer.parseInt(s)`: an optional '+' or '-', then one or more
      digits, the value within the 32-bit range; anything else is a
      `NumberFormatException` (None). */
  function JavaParseInt(s: string): (r: Option<int>)
    ensures r.Some? <==> Unsigned(s) != [] && AllDigits(Unsigned(s))
                         && InInt32(Signed(s, DigitsValue(Unsigned(s))))
    ensures r.Some? ==> InInt32(r.value)
  {
    var digits := Unsigned(s);
    if digits == [] || !AllDigits(digits) then None
    else
      var v := Signed(s, DigitsValue(digits));
      if InInt32(v) then Some(v) else None
  }

  /** Rendering an int and parsing it back with Java's parser is the identity. */
  lemma JavaParseIntOfIntToString(n: int)
    requires InInt32(n)
    ensures JavaParseInt(IntToString(n)) == Some(n)
  {
    var s := IntToString(n);
    if n < 0 {
      assert Unsigned(s) == NatToString(-n);
      DigitsValueOfNatToString(-n);
    } else {
      assert Unsigned(s) == NatToString(n);
      DigitsValueOfNatToString(n);
    }
  }

  /** Length of the longest all-digit prefix. */
  function DigitPrefixLength(s: string): (k: nat)
    ensures k <= |s| && AllDigits(s[..k])
    ensures k < |s| ==> !IsDigit(s[k])
  {
    if s == [] || !IsDigit(s[0]) then 0
    else
      var k := 1 + DigitPrefixLength(s[1..]);
      assert s[..k] == [s[0]] + s[1..][..k - 1];
      k
  }

  /** JavaScript `parseInt(s, 10)`: leading white space skipped, an optional
      sign, then the longest run of digits; no digits gives NaN (None).
      Trailing garbage is ignored. */
  function JsParseInt(s: string): (r: Option<int>)
    ensures r.None? <==> DigitPrefixLength(Unsigned(TrimStart(s, IsJsSpace))) == 0
  {
    var t := TrimStart(s, IsJsSpace);
    var body := Unsigned(t);
    var k := DigitPrefixLength(body);
    if k == 0 then None
    else
      Some(Signed(t, DigitsValue(body[..k])))
  }

  /** Parsing a rendered natural number with `parseInt` gives it back. */
  /** `Number.MAX_SAFE_INTEGER`: above it a JavaScript number no longer holds
      every integer, so `parseInt` rounds. */
  const MaxSafeInteger: nat := 0x1F_FFFF_FFFF_FFFF

  /** A decimal rendering reads back exactly while the value is a safe
      integer. */
  lemma JsParseIntOfNatToString(n: nat)
    requires n <= MaxSafeInteger
    ensures JsParseInt(NatToString(n)) == Some(n)
  {
    var s := NatToString(n);
    assert !IsJsSpace(s[0]);
    assert TrimStart(s, IsJsSpace) == s;
    assert Unsigned(s) == s;
    assert DigitPrefixLength(s) == |s|;
    assert s[..|s|] == s;
    DigitsValueOfNatToString(n);
  }
}

/** Positional numerals: rendering a non-negative integer in base 2..16 the
    way `Number.prototype.toString(base)` and `String(bigint)` do, reading
    digits back, and the radix-16 case of the global `parseInt` (section
    19.2.5 of ECMAScript 2024) used for wallet chain ids. */
module Numerals {

  /** A JavaScript number, as far as the model needs one: an integer or the
      `NaN` that `parseInt` returns when no digit is found. */
  datatype Num = Int(value: int) | NaN

  const DigitChars: string := "0123456789abcdef"

  function DigitChar(d: nat): char
    requires d < 16
  {
    DigitChars[d]
  }

  /** The value of `c` as a digit of base 16 or below (either letter case),
      or -1 when it is not such a digit. */
  function DigitValue(c: char): (v: int)
    ensures -1 <= v < 16
  {
    if '0' <= c <= '9' then c as int - '0' as int
    else if 'a' <= c <= 'f' then c as int - 'a' as int + 10
    else if 'A' <= c <= 'F' then c as int - 'A' as int + 10
    else -1
  }

  predicate IsDigit(c: char, base: nat) {
    0 <= DigitValue(c) < base
  }

  predicate AllDigits(s: string, base: nat) {
    forall i :: 0 <= i < |s| ==> IsDigit(s[i], base)
  }

  lemma DigitCharValue(d: nat)
    requires d < 16
    ensures DigitValue(DigitChar(d)) == d
  {
  }

  /** `n` written in `base` with lower-case letters and no leading zero. */
  function Render(n: nat, base: nat): (r: string)
    requires 2 <= base <= 16
    ensures |r| >= 1
    ensures AllDigits(r, base)
    ensures n > 0 ==> r[0] != '0'
    ensures r[0] == '0' ==> |r| == 1
    decreases n
  {
    if n < base then
      DigitCharValue(n);
      [DigitChar(n)]
    else
      DivMod(n, base);
      DigitCharValue(n % base);
      var prefix := Render(n / base, base);
      AppendDigit(prefix, DigitChar(n % base), base);
      prefix + [DigitChar(n % base)]
  }

  /** Appending a digit keeps a numeral made of digits and its first digit. */
  lemma AppendDigit(s: string, c: char, base: nat)
    requires |s| >= 1 && AllDigits(s, base) && IsDigit(c, base)
    ensures AllDigits(s + [c], base) && (s + [c])[0] == s[0]
  {
  }

  /** The number a string of digits denotes, most significant digit first. */
  function ValueOf(s: string, base: nat): nat
    requires 2 <= base <= 16
    requires AllDigits(s, base)
  {
    if |s| == 0 then 0
    else ValueOf(s[..|s| - 1], base) * base + DigitValue(s[|s| - 1])
  }

  lemma DivMod(n: nat, base: nat)
    requires base >= 2
    ensures (n / base) * base + n % base == n
    ensures 0 <= n % base < base
    ensures n > 0 ==> n / base < n
    ensures n >= base ==> n / base > 0
  {
  }

  /** Appending a digit multiplies by the base and adds the digit. */
  lemma ValueOfSnoc(s: string, c: char, base: nat)
    requires 2 <= base <= 16
    requires AllDigits(s, base) && IsDigit(c, base)
    ensures AllDigits(s + [c], base)
    ensures ValueOf(s + [c], base) == ValueOf(s, base) * base + DigitValue(c)
  {
    assert (s + [c])[..|s|] == s;
  }

  /** Reading a rendered numeral gives the number back. */
  lemma {:induction false} RenderRoundTrip(n: nat, base: nat)
    requires 2 <= base <= 16
    ensures ValueOf(Render(n, base), base) == n
    decreases n
  {
    if n < base {
      DigitCharValue(n);
      assert Render(n, base)[..0] == [];
    } else {
      DivMod(n, base);
      RenderRoundTrip(n / base, base);
      RenderRoundTripStep(n, base);
    }
  }

  /** The inductive step: a numeral of two or more digits reads back to `n`
      once its prefix reads back to `n / base`. */
  lemma RenderRoundTripStep(n: nat, base: nat)
    requires 2 <= base <= 16 && n >= base
    requires ValueOf(Render(n / base, base), base) == n / base
    ensures ValueOf(Render(n, base), base) == n
  {
    var q, d := n / base, n % base;
    DigitCharValue(d);
    DivMod(n, base);
    assert Render(n, base) == Render(q, base) + [DigitChar(d)];
    ValueOfSnoc(Render(q, base), DigitChar(d), base);
  }

  /** Rendering is injective: distinct numbers give distinct numerals. */
  lemma RenderInjective(m: nat, n: nat, base: nat)
    requires 2 <= base <= 16
    requires Render(m, base) == Render(n, base)
    ensures m == n
  {
    RenderRoundTrip(m, base);
    RenderRoundTrip(n, base);
  }

  /** The white-space and line-terminator characters that `parseInt` skips
      (sections 12.2 and 12.3 of ECMAScript 2024). */
  predicate IsJsWhiteSpace(c: char) {
    c == '\t' || c == '\U{000B}' || c == '\U{000C}' || c == ' ' || c == '\U{00A0}'
    || c == '\U{FEFF}' || c == '\U{1680}' || ('\U{2000}' <= c <= '\U{200A}')
    || c == '\U{202F}' || c == '\U{205F}' || c == '\U{3000}'
    || c == '\n' || c == '\r' || c == '\U{2028}' || c == '\U{2029}'
  }

  /** Drops the leading white space. */
  function TrimStart(s: string): (r: string)
    ensures |r| <= |s| && r == s[|s| - |r|..]
    ensures |r| == 0 || !IsJsWhiteSpace(r[0])
    ensures forall i :: 0 <= i < |s| - |r| ==> IsJsWhiteSpace(s[i])
  {
    if |s| > 0 && IsJsWhiteSpace(s[0]) then TrimStart(s[1..]) else s
  }

  /** The longest prefix of `s` made of digits of `base`. */
  function TakeDigits(s: string, base: nat): (r: string)
    ensures r <= s
    ensures AllDigits(r, base)
    ensures |r| == |s| || !IsDigit(s[|r|], base)
  {
    if |s| > 0 && IsDigit(s[0], base) then [s[0]] + TakeDigits(s[1..], base) else []
  }

  lemma {:induction false} TakeDigitsOfDigits(s: string, base: nat)
    requires AllDigits(s, base)
    ensures TakeDigits(s, base) == s
  {
    if |s| > 0 {
      TakeDigitsOfDigits(s[1..], base);
    }
  }

  /** `parseInt(s, 16)`: leading white space, one optional sign, an optional
      `0x`/`0X` prefix, then the longest run of hexadecimal digits; `NaN`
      when that run is empty. A negative zero is reported as 0. */
  function ParseIntHex(s: string): (r: Num)
    ensures (forall i :: 0 <= i < |s| ==> !IsDigit(s[i], 16)) ==> r == NaN
  {
    var t := TrimStart(s);
    var v := AfterPrefix(AfterSign(t));
    var d := TakeDigits(v, 16);
    assert |d| > 0 ==> d[0] == s[|s| - |v|];
    if |d| == 0 then NaN
    else if |t| > 0 && t[0] == '-' then Int(-(ValueOf(d, 16) as int))
    else Int(ValueOf(d, 16))
  }

  /** `t` without its one optional leading sign. */
  function AfterSign(t: string): (u: string)
    ensures |u| <= |t| && u == t[|t| - |u|..]
  {
    if |t| > 0 && (t[0] == '-' || t[0] == '+') then t[1..] else t
  }

  /** `u` without its optional `0x` or `0X` prefix. */
  function AfterPrefix(u: string): (v: string)
    ensures |v| <= |u| && v == u[|u| - |v|..]
  {
    if |u| >= 2 && u[0] == '0' && (u[1] == 'x' || u[1] == 'X') then u[2..] else u
  }

  /** The `"0x" + n.toString(16)` form the wallet uses for chain ids parses
      back to `n`. */
  lemma HexRoundTrip(n: nat)
    ensures ParseIntHex("0x" + Render(n, 16)) == Int(n)
  {
    var s := "0x" + Render(n, 16);
    assert !IsJsWhiteSpace(s[0]);
    assert TrimStart(s) == s;
    assert AfterSign(s) == s;
    assert s[2..] == Render(n, 16);
    assert AfterPrefix(s) == Render(n, 16);
    TakeDigitsOfDigits(Render(n, 16), 16);
    RenderRoundTrip(n, 16);
  }

  /** A non-empty string of hexadecimal digits is read whole, as its value. */
  lemma ParseIntHexOfDigits(s: string)
    requires |s| > 0 && AllDigits(s, 16)
    ensures ParseIntHex(s) == Int(ValueOf(s, 16))
  {
    DigitIsPlain(s[0]);
    assert TrimStart(s) == s;
    assert AfterSign(s) == s;
    if |s| >= 2 {
      DigitIsPlain(s[1]);
    }
    assert AfterPrefix(s) == s;
    TakeDigitsOfDigits(s, 16);
  }

  /** A hexadecimal digit is neither white space, a sign nor an `x`. */
  lemma DigitIsPlain(c: char)
    requires IsDigit(c, 16)
    ensures !IsJsWhiteSpace(c) && c != '-' && c != '+' && c != 'x' && c != 'X'
  {
  }

  /** An empty string is `NaN`. */
  lemma ParseIntHexEmpty()
    ensures ParseIntHex("") == NaN
  {
    assert TrimStart("") == "";
  }

  /** A bare `0x` prefix with no digit after it is `NaN`. */
  lemma ParseIntHexPrefixOnly()
    ensures ParseIntHex("0x") == NaN
  {
    assert !IsJsWhiteSpace('0');
    assert TrimStart("0x") == "0x";
    assert AfterSign("0x") == "0x";
    assert AfterPrefix("0x") == "";
    assert TakeDigits("", 16) == "";
  }
}

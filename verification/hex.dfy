/**
 * Base-16 numbers as the console reads and prints them: `Integer.parseInt(s, 16)`
 * and `String.format("%0<width>x", v).toUpperCase()` over Java's 32-bit `int`.
 */
module Hex {
  import opened Options
  import Text

  const IntMin: int := -0x8000_0000
  const IntMax: int := 0x7FFF_FFFF

  /** The range of a Java `int`. */
  predicate IsInt(v: int) { IntMin <= v <= IntMax }

  predicate IsHexDigit(c: char) { '0' <= c <= '9' || 'a' <= c <= 'f' || 'A' <= c <= 'F' }

  predicate IsUpperHexDigit(c: char) { '0' <= c <= '9' || 'A' <= c <= 'F' }

  predicate AllHex(s: string) { forall i :: 0 <= i < |s| ==> IsHexDigit(s[i]) }

  function DigitValue(c: char): (d: nat)
    requires IsHexDigit(c)
    ensures d < 16
  {
    if '0' <= c <= '9' then c as int - '0' as int
    else if 'a' <= c <= 'f' then c as int - 'a' as int + 10
    else c as int - 'A' as int + 10
  }

  /** The digit `%x` prints for `d`: lower-case, as Java's formatter does. */
  function LowerDigit(d: nat): (c: char)
    requires d < 16
    ensures IsHexDigit(c) && DigitValue(c) == d
    ensures !Text.IsUpperLetter(c)
    ensures c == '0' <==> d == 0
  {
    if d < 10 then ('0' as int + d) as char else ('a' as int + d - 10) as char
  }

  /** The value of a string of hex digits, most significant first. */
  function ValueOf(s: string): (v: nat)
    requires AllHex(s)
    decreases |s|
  {
    if |s| == 0 then 0 else ValueOf(s[..|s| - 1]) * 16 + DigitValue(s[|s| - 1])
  }

  lemma ValueOfSnoc(s: string, c: char)
    requires AllHex(s) && IsHexDigit(c)
    ensures AllHex(s + [c])
    ensures ValueOf(s + [c]) == ValueOf(s) * 16 + DigitValue(c)
  {
    assert (s + [c])[..|s + [c]| - 1] == s;
  }

  /** The digits `%x` prints for a non-negative value: lower-case, no leading zero. */
  function ToHex(v: nat): (s: string)
    ensures 1 <= |s| && AllHex(s)
    ensures ValueOf(s) == v
    ensures |s| > 1 ==> s[0] != '0'
    ensures forall i :: 0 <= i < |s| ==> !Text.IsUpperLetter(s[i])
    decreases v
  {
    if v < 16 then
      [LowerDigit(v)]
    else
      var high := ToHex(v / 16);
      ValueOfSnoc(high, LowerDigit(v % 16));
      high + [LowerDigit(v % 16)]
  }

  /** A run of `n` zero characters. */
  function Zeros(n: nat): (z: string)
    ensures |z| == n
    ensures forall i :: 0 <= i < n ==> z[i] == '0'
  {
    seq(n, _ => '0')
  }

  lemma {:induction false} ValueOfZeros(z: string)
    requires forall i :: 0 <= i < |z| ==> z[i] == '0'
    ensures AllHex(z) && ValueOf(z) == 0
    decreases |z|
  {
    if |z| > 0 {
      ValueOfZeros(z[..|z| - 1]);
    }
  }

  /** Leading zeros do not change the value of a hex string. */
  lemma {:induction false} ValueOfZeroPadded(z: string, s: string)
    requires forall i :: 0 <= i < |z| ==> z[i] == '0'
    requires AllHex(s)
    ensures AllHex(z + s)
    ensures ValueOf(z + s) == ValueOf(s)
    decreases |s|
  {
    if |s| == 0 {
      assert z + s == z;
      ValueOfZeros(z);
    } else {
      var init := s[..|s| - 1];
      ValueOfZeroPadded(z, init);
      assert (z + s)[..|z + s| - 1] == z + init;
    }
  }

  /** `toUpperCase` does not change the value of a hex string. */
  lemma {:induction false} ValueOfUpperCase(s: string)
    requires AllHex(s)
    ensures AllHex(Text.UpperCase(s))
    ensures ValueOf(Text.UpperCase(s)) == ValueOf(s)
    decreases |s|
  {
    var u := Text.UpperCase(s);
    assert AllHex(u);
    if |s| > 0 {
      var init := s[..|s| - 1];
      ValueOfUpperCase(init);
      assert u[..|u| - 1] == Text.UpperCase(init);
    }
  }

  /** The bit pattern `%x` prints for a Java `int`: negatives in two's complement. */
  function Unsigned(v: int): (u: nat)
    requires IsInt(v)
    ensures u < 0x1_0000_0000
    ensures v >= 0 ==> u == v
    ensures v < 0 ==> u > IntMax && u - v == 0x1_0000_0000
  {
    if v < 0 then v + 0x1_0000_0000 else v
  }

  /** `digits` left-padded with zeros to at least `width` characters. */
  function ZeroPad(digits: string, width: nat): (s: string)
    requires AllHex(digits)
    ensures |s| == if width > |digits| then width else |digits|
    ensures AllHex(s) && ValueOf(s) == ValueOf(digits)
    ensures forall i :: 0 <= i < |s| - |digits| ==> s[i] == '0'
    ensures s[|s| - |digits|..] == digits
  {
    var z := Zeros(if width > |digits| then width - |digits| else 0);
    ValueOfZeroPadded(z, digits);
    z + digits
  }

  /** Upper-casing a hex string yields upper-case digits of the same value. */
  lemma UpperCasedHex(s: string)
    requires AllHex(s)
    ensures forall i :: 0 <= i < |s| ==> IsUpperHexDigit(Text.UpperCase(s)[i])
    ensures AllHex(Text.UpperCase(s)) && ValueOf(Text.UpperCase(s)) == ValueOf(s)
  {
    ValueOfUpperCase(s);
  }

  /** Upper-casing works position by position: it keeps zeros and commutes with taking a suffix. */
  lemma UpperCasedParts(s: string, k: nat)
    requires k <= |s|
    requires forall i :: 0 <= i < k ==> s[i] == '0'
    ensures forall i :: 0 <= i < k ==> Text.UpperCase(s)[i] == '0'
    ensures Text.UpperCase(s)[k..] == Text.UpperCase(s[k..])
  {
    var u, t := Text.UpperCase(s), Text.UpperCase(s[k..]);
    assert |u[k..]| == |t|;
    forall i | 0 <= i < |t|
      ensures u[k..][i] == t[i]
    {
      assert s[k..][i] == s[k + i];
    }
  }

  /** `String.format("%0" + width + "x", v).toUpperCase()`. */
  function Formatted(v: int, width: nat): (s: string)
    requires IsInt(v)
    requires 0 < width
  {
    Text.UpperCase(ZeroPad(ToHex(Unsigned(v)), width))
  }

  /**
   * What the console prints: upper-case hex of the 32-bit pattern of `v`,
   * left-padded with zeros to `width` and never cut short.
   */
  lemma FormattedShape(v: int, width: nat)
    requires IsInt(v)
    requires 0 < width
    ensures var s, digits := Formatted(v, width), ToHex(Unsigned(v));
            && |s| == (if width > |digits| then width else |digits|)
            && (forall i :: 0 <= i < |s| ==> IsUpperHexDigit(s[i]))
            && AllHex(s) && ValueOf(s) == Unsigned(v)
            && (forall i :: 0 <= i < |s| - |digits| ==> s[i] == '0')
            && s[|s| - |digits|..] == Text.UpperCase(digits)
  {
    var digits := ToHex(Unsigned(v));
    var padded := ZeroPad(digits, width);
    UpperCasedHex(padded);
    UpperCasedParts(padded, |padded| - |digits|);
  }

  /**
   * `Integer.parseInt(s, 16)`: an optional sign followed by at least one hex
   * digit, whose value fits a Java `int`; anything else is a number-format error.
   */
  function ParseInt(s: string): (r: Option<int>)
    ensures r.Some? ==> IsInt(r.value)
  {
    if |s| == 0 then None
    else if s[0] == '-' || s[0] == '+' then
      if |s| == 1 || !AllHex(s[1..]) then None
      else
        var magnitude: int := ValueOf(s[1..]);
        var v := if s[0] == '-' then -magnitude else magnitude;
        if IsInt(v) then Some(v) else None
    else if AllHex(s) && IsInt(ValueOf(s)) then Some(ValueOf(s))
    else None
  }

  /** An unsigned digit string parses exactly when its value fits an `int`. */
  lemma ParseDigits(s: string)
    requires |s| > 0 && AllHex(s)
    ensures ParseInt(s).Some? <==> ValueOf(s) <= IntMax
    ensures ParseInt(s).Some? ==> ParseInt(s).value == ValueOf(s)
  {
  }

  /**
   * A minus sign followed by hex digits: the magnitude may reach 0x80000000,
   * one further than a plus sign allows. A lone sign, or a sign followed by
   * anything but digits, is rejected.
   */
  lemma ParseNegative(d: string)
    ensures ParseInt("-" + d).Some? <==> |d| > 0 && AllHex(d) && ValueOf(d) <= 0x8000_0000
    ensures ParseInt("-" + d).Some? ==> ParseInt("-" + d).value == -(ValueOf(d) as int)
  {
    assert ("-" + d)[0] == '-' && ("-" + d)[1..] == d;
  }

  /** A plus sign followed by hex digits reads like the digits alone. */
  lemma ParsePositive(d: string)
    ensures ParseInt("+" + d).Some? <==> |d| > 0 && AllHex(d) && ValueOf(d) <= IntMax
    ensures ParseInt("+" + d).Some? ==> ParseInt("+" + d).value == ValueOf(d)
  {
    assert ("+" + d)[0] == '+' && ("+" + d)[1..] == d;
  }

  /** Any string containing a character that is neither a sign nor a hex digit is rejected. */
  lemma ParseRejectsForeign(s: string, i: nat)
    requires i < |s| && !IsHexDigit(s[i]) && s[i] != '-' && s[i] != '+'
    ensures ParseInt(s) == None
  {
    if 0 < i && (s[0] == '-' || s[0] == '+') && |s| > 1 {
      assert s[1..][i - 1] == s[i];
    }
  }

  /** What the console prints for a non-negative value reads back as that value. */
  lemma FormattedRoundTrip(v: int, width: nat)
    requires 0 <= v <= IntMax && 0 < width
    ensures ParseInt(Formatted(v, width)) == Some(v)
  {
    var s := Formatted(v, width);
    FormattedShape(v, width);
    assert s[0] != '-' && s[0] != '+';
    ParseDigits(s);
  }

  /**
   * A negative value is printed as its 32-bit pattern, which is too large for
   * `parseInt`: the printed text cannot be read back.
   */
  lemma FormattedNegativeUnreadable(v: int, width: nat)
    requires IntMin <= v < 0 && 0 < width
    ensures ParseInt(Formatted(v, width)) == None
  {
    var s := Formatted(v, width);
    FormattedShape(v, width);
    assert s[0] != '-' && s[0] != '+';
    ParseDigits(s);
  }

  function Pow16(n: nat): (p: nat)
    ensures p >= 1
  {
    if n == 0 then 1 else 16 * Pow16(n - 1)
  }

  /** A value below `16^n` needs at most `n` digits. */
  lemma {:induction false} ToHexLength(v: nat, n: nat)
    requires 1 <= n && v < Pow16(n)
    ensures |ToHex(v)| <= n
    decreases n
  {
    if v >= 16 {
      assert n >= 2;
      ToHexLength(v / 16, n - 1);
    }
  }
}

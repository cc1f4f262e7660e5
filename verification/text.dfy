/**
 * Character and string helpers with the meaning Java's `String` gives them,
 * restricted to ASCII: `toUpperCase` and `equalsIgnoreCase` as the console uses them.
 */
module Text {

  predicate IsLowerLetter(c: char) { 'a' <= c <= 'z' }

  predicate IsUpperLetter(c: char) { 'A' <= c <= 'Z' }

  /** `Character.toUpperCase` on ASCII: lower-case letters move up, everything else stays. */
  function ToUpper(c: char): (u: char)
    ensures IsLowerLetter(c) ==> IsUpperLetter(u) && u as int == c as int - 32
    ensures !IsLowerLetter(c) ==> u == c
  {
    if IsLowerLetter(c) then (c as int - 32) as char else c
  }

  /** `Character.toLowerCase` on ASCII. */
  function ToLower(c: char): (l: char)
    ensures IsUpperLetter(c) ==> IsLowerLetter(l) && l as int == c as int + 32
    ensures !IsUpperLetter(c) ==> l == c
  {
    if IsUpperLetter(c) then (c as int + 32) as char else c
  }

  /** `String.toUpperCase`: every character mapped, length kept. */
  function UpperCase(s: string): (u: string)
    ensures |u| == |s|
    ensures forall i :: 0 <= i < |s| ==> u[i] == ToUpper(s[i])
  {
    seq(|s|, i requires 0 <= i < |s| => ToUpper(s[i]))
  }

  /** The per-character test of `String.regionMatches(true, ...)`. */
  predicate SameIgnoringCase(a: char, b: char)
  {
    a == b || ToUpper(a) == ToUpper(b) || ToLower(ToUpper(a)) == ToLower(ToUpper(b))
  }

  /** On ASCII the three-way test collapses to equality of the upper-case forms. */
  lemma SameIgnoringCaseIsUpperEquality(a: char, b: char)
    ensures SameIgnoringCase(a, b) <==> ToUpper(a) == ToUpper(b)
  {
    if ToLower(ToUpper(a)) == ToLower(ToUpper(b)) {
      var ua, ub := ToUpper(a), ToUpper(b);
      assert !IsLowerLetter(ua) && !IsLowerLetter(ub);
    }
  }

  /** `String.equalsIgnoreCase`: equal lengths and a character-by-character match. */
  function EqualsIgnoreCase(a: string, b: string): (e: bool)
    ensures e ==> |a| == |b|
    ensures a == b ==> e
    decreases |a|
  {
    |a| == |b| && (|a| == 0 || (SameIgnoringCase(a[0], b[0]) && EqualsIgnoreCase(a[1..], b[1..])))
  }

  /** The recursive definition agrees with the position-wise reading. */
  lemma {:induction false} EqualsIgnoreCaseCharwise(a: string, b: string)
    ensures EqualsIgnoreCase(a, b) <==>
              |a| == |b| && forall i :: 0 <= i < |a| ==> SameIgnoringCase(a[i], b[i])
    decreases |a|
  {
    if |a| == |b| && |a| > 0 {
      EqualsIgnoreCaseCharwise(a[1..], b[1..]);
      if forall i :: 0 <= i < |a| ==> SameIgnoringCase(a[i], b[i]) {
        forall i | 0 <= i < |a| - 1
          ensures SameIgnoringCase(a[1..][i], b[1..][i])
        {
          assert a[1..][i] == a[i + 1] && b[1..][i] == b[i + 1];
        }
      }
      if EqualsIgnoreCase(a, b) {
        forall i | 0 <= i < |a|
          ensures SameIgnoringCase(a[i], b[i])
        {
          if i > 0 {
            assert a[i] == a[1..][i - 1] && b[i] == b[1..][i - 1];
          }
        }
      }
    }
  }
}

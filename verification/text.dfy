/** Case-insensitive comparison of answers, restricted to ASCII letters. */
module Text {

  predicate IsUpper(c: char) { 'A' <= c <= 'Z' }

  predicate IsLower(c: char) { 'a' <= c <= 'z' }

  function LowerChar(c: char): char {
    if IsUpper(c) then (c as int + 32) as char else c
  }

  function UpperChar(c: char): char {
    if IsLower(c) then (c as int - 32) as char else c
  }

  /** Lower-case every ASCII letter of `s`, keeping everything else. */
  function Lower(s: string): (r: string)
    ensures |r| == |s|
    ensures forall i :: 0 <= i < |s| ==> r[i] == LowerChar(s[i])
    ensures forall i :: 0 <= i < |s| && !IsUpper(s[i]) ==> r[i] == s[i]
    ensures forall i :: 0 <= i < |s| && IsUpper(s[i]) ==> IsLower(r[i]) && r[i] as int == s[i] as int + 32
    ensures forall i :: 0 <= i < |r| ==> !IsUpper(r[i])
  {
    seq(|s|, i requires 0 <= i < |s| => LowerChar(s[i]))
  }

  /** Upper-case every ASCII letter of `s`, keeping everything else. */
  function Upper(s: string): (r: string)
    ensures |r| == |s|
    ensures forall i :: 0 <= i < |s| ==> r[i] == UpperChar(s[i])
  {
    seq(|s|, i requires 0 <= i < |s| => UpperChar(s[i]))
  }

  /** `a.toLowerCase().equals(b.toLowerCase())`. */
  predicate EqualsIgnoreCase(a: string, b: string) {
    Lower(a) == Lower(b)
  }

  /** Two characters that are the same letter, possibly in the other case. */
  predicate SameLetter(a: char, b: char) {
    || a == b
    || (IsUpper(a) && b as int == a as int + 32)
    || (IsLower(a) && b as int == a as int - 32)
  }

  /** `s` is `t` with the case of some of its letters changed. */
  predicate Recased(s: string, t: string) {
    |s| == |t| && forall i :: 0 <= i < |s| ==> SameLetter(s[i], t[i])
  }

  lemma LowerCharSameLetter(a: char, b: char)
    ensures LowerChar(a) == LowerChar(b) <==> SameLetter(a, b)
  {
  }

  /** Case-insensitive equality is exactly "the same text up to the case of its letters". */
  lemma EqualsIgnoreCaseIffRecased(s: string, t: string)
    ensures EqualsIgnoreCase(s, t) <==> Recased(s, t)
  {
    if EqualsIgnoreCase(s, t) {
      forall i | 0 <= i < |s|
        ensures SameLetter(s[i], t[i])
      {
        assert Lower(s)[i] == Lower(t)[i];
        LowerCharSameLetter(s[i], t[i]);
      }
    }
    if Recased(s, t) {
      forall i | 0 <= i < |s|
        ensures Lower(s)[i] == Lower(t)[i]
      {
        LowerCharSameLetter(s[i], t[i]);
      }
    }
  }

  /** Upper-casing and lower-casing a text both keep it case-insensitively equal to itself. */
  lemma CasingPreservesEquality(s: string)
    ensures EqualsIgnoreCase(Upper(s), s)
    ensures EqualsIgnoreCase(Lower(s), s)
  {
    assert Lower(Upper(s)) == Lower(s);
    assert Lower(Lower(s)) == Lower(s);
  }
}

/**
 * Identifier normalisation. The repository's single-record operations and the
 * controller's `Update` call `string.ToUpper()` on the customer id before using
 * it; this module models that call as ASCII upper-casing (culture-specific
 * case mappings are not modelled).
 */
module Text {

  /** An ASCII lower-case letter. */
  predicate IsLower(c: char) {
    'a' <= c <= 'z'
  }

  /** A string without ASCII lower-case letters: the canonical form of an id. */
  predicate IsUpper(s: string) {
    forall i :: 0 <= i < |s| ==> !IsLower(s[i])
  }

  /** Upper-cases one character: only the 26 ASCII lower-case letters change. */
  function UpperChar(c: char): (u: char)
    ensures !IsLower(u)
    ensures u != c ==> IsLower(c) && 'A' <= u <= 'Z'
  {
    if IsLower(c) then (c as int - 32) as char else c
  }

  /** `s.ToUpper()`: the same string with every ASCII lower-case letter upper-cased. */
  function ToUpper(s: string): (r: string)
    ensures |r| == |s|
    ensures forall i :: 0 <= i < |s| ==> r[i] == UpperChar(s[i])
    ensures IsUpper(r)
  {
    if s == [] then [] else [UpperChar(s[0])] + ToUpper(s[1..])
  }

  /**
   * Two characters that denote the same letter when case is ignored: equal,
   * or an ASCII letter and its other-case partner (which is 32 code points away).
   */
  predicate SameIgnoringCase(a: char, b: char) {
    || a == b
    || (IsLower(a) && b as int == a as int - 32)
    || (IsLower(b) && a as int == b as int - 32)
  }

  /** Two ids that address the same customer: position by position the same letter up to case. */
  predicate EqualIgnoringCase(s: string, t: string) {
    |s| == |t| && forall i :: 0 <= i < |s| ==> SameIgnoringCase(s[i], t[i])
  }

  /** Two characters upper-case to the same character exactly when they are the same letter up to case. */
  lemma UpperCharMatches(a: char, b: char)
    ensures UpperChar(a) == UpperChar(b) <==> SameIgnoringCase(a, b)
  {
  }

  /** Upper-casing is idempotent: an already normalised id is normalised again to itself. */
  lemma ToUpperIdempotent(s: string)
    ensures ToUpper(ToUpper(s)) == ToUpper(s)
  {
  }

  /** A string without lower-case letters is left as it is. */
  lemma UpperIsFixedPoint(s: string)
    requires IsUpper(s)
    ensures ToUpper(s) == s
  {
  }

  /**
   * Two ids normalise to the same key exactly when they are equal up to ASCII
   * case, so `"alfki"` and `"ALFKI"` address the same record and nothing else does.
   */
  lemma ToUpperSameKey(s: string, t: string)
    ensures ToUpper(s) == ToUpper(t) <==> EqualIgnoringCase(s, t)
  {
    if ToUpper(s) == ToUpper(t) {
      forall i | 0 <= i < |s|
        ensures SameIgnoringCase(s[i], t[i])
      {
        assert ToUpper(s)[i] == ToUpper(t)[i];
        UpperCharMatches(s[i], t[i]);
      }
    }
    if EqualIgnoringCase(s, t) {
      forall i | 0 <= i < |s|
        ensures ToUpper(s)[i] == ToUpper(t)[i]
      {
        UpperCharMatches(s[i], t[i]);
      }
    }
  }
}

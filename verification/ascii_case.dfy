/**
 * ASCII case folding over strings, standing in for JavaScript's
 * `String.prototype.toLowerCase` on the tags this site uses.
 */
module AsciiCase {
  import opened Wrappers

  predicate IsUpperChar(c: char) {
    'A' <= c <= 'Z'
  }

  /** Lower-cases one character; every character outside `A`..`Z` is kept. */
  function LowerChar(c: char): (r: char)
    ensures !IsUpperChar(r)
    ensures IsUpperChar(c) ==> r as int == c as int + 32
    ensures !IsUpperChar(c) ==> r == c
  {
    if IsUpperChar(c) then (c as int + 32) as char else c
  }

  /** No character of `s` is an upper-case ASCII letter. */
  predicate IsLower(s: string) {
    forall i :: 0 <= i < |s| ==> !IsUpperChar(s[i])
  }

  /** `s` with every upper-case ASCII letter replaced by its lower-case form. */
  function Lower(s: string): (r: string)
    ensures |r| == |s|
    ensures forall i :: 0 <= i < |s| ==> r[i] == LowerChar(s[i])
    ensures IsLower(r)
  {
    seq(|s|, i requires 0 <= i < |s| => LowerChar(s[i]))
  }

  /**
   * Two characters are the same letter ignoring case: equal, or one is an
   * upper-case ASCII letter and the other is its lower-case partner.
   */
  predicate SameCharIgnoringCase(x: char, y: char) {
    || x == y
    || (IsUpperChar(x) && y as int == x as int + 32)
    || (IsUpperChar(y) && x as int == y as int + 32)
  }

  /**
   * Case-insensitive equality stated character by character, without
   * lower-casing either string.
   */
  predicate EqualIgnoringCase(a: string, b: string) {
    |a| == |b| && forall i :: 0 <= i < |a| ==> SameCharIgnoringCase(a[i], b[i])
  }

  /** Folding two characters to the same one is being the same letter ignoring case. */
  lemma SameLowerCharIff(x: char, y: char)
    ensures LowerChar(x) == LowerChar(y) <==> SameCharIgnoringCase(x, y)
  {
  }

  /** Lower-casing a string twice is the same as lower-casing it once. */
  lemma LowerIdempotent(s: string)
    ensures Lower(Lower(s)) == Lower(s)
  {
    LowerFixesExactlyLowerStrings(Lower(s));
  }

  /** `Lower` leaves a string alone exactly when it is already lower-case. */
  lemma LowerFixesExactlyLowerStrings(s: string)
    ensures Lower(s) == s <==> IsLower(s)
  {
    if IsLower(s) {
      assert forall i :: 0 <= i < |s| ==> Lower(s)[i] == s[i];
    }
  }

  /**
   * Case-insensitive equality holds exactly when the lower-cased forms are
   * equal, so looking up `Lower(t)` is the same as matching `t` ignoring case.
   */
  lemma EqualIgnoringCaseIffSameLower(a: string, b: string)
    ensures EqualIgnoringCase(a, b) <==> Lower(a) == Lower(b)
  {
    forall i | 0 <= i < |a| && i < |b|
      ensures LowerChar(a[i]) == LowerChar(b[i]) <==> SameCharIgnoringCase(a[i], b[i])
    {
      SameLowerCharIff(a[i], b[i]);
    }
    if Lower(a) == Lower(b) {
      assert forall i :: 0 <= i < |a| ==> LowerChar(a[i]) == Lower(a)[i] == Lower(b)[i] == LowerChar(b[i]);
    }
    if EqualIgnoringCase(a, b) {
      assert forall i :: 0 <= i < |a| ==> Lower(a)[i] == Lower(b)[i];
    }
  }

  /** The position of the first `c` in `s`, or `None` when `c` does not occur. */
  function IndexOf(s: string, c: char): (r: Option<nat>)
    ensures r.Some? ==> r.value < |s| && s[r.value] == c
    ensures r.Some? ==> forall j :: 0 <= j < r.value ==> s[j] != c
    ensures r.None? <==> c !in s
  {
    if |s| == 0 then None
    else if s[0] == c then Some(0)
    else
      match IndexOf(s[1..], c)
      case None => None
      case Some(i) => Some(i + 1)
  }
}

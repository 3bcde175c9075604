/**
 * The filename sanitizer: a regular-expression substitution that deletes the nine
 * characters a Windows file name may not contain and keeps everything else.
 */
module Sanitize {

  /** The character class `\ / * ? : " < > |` that the sanitizer deletes. */
  predicate IsIllegal(c: char) {
    c == '\\' || c == '/' || c == '*' || c == '?' || c == ':' ||
    c == '"' || c == '<' || c == '>' || c == '|'
  }

  /** No character of `s` is in the deleted class. */
  predicate IsClean(s: string) {
    forall i :: 0 <= i < |s| ==> !IsIllegal(s[i])
  }

  /** Removes every occurrence of an illegal character, in one left-to-right pass. */
  function SanitizeFilename(s: string): (r: string)
    ensures IsClean(r)
    ensures |r| <= |s|
  {
    if s == [] then []
    else if IsIllegal(s[0]) then SanitizeFilename(s[1..])
    else [s[0]] + SanitizeFilename(s[1..])
  }

  /** Sanitizing distributes over concatenation: together with the single-character
      case it says the result is the input with the illegal characters dropped and
      the others kept in their order. */
  lemma {:induction false} SanitizeAppend(a: string, b: string)
    ensures SanitizeFilename(a + b) == SanitizeFilename(a) + SanitizeFilename(b)
  {
    if a == [] {
      assert a + b == b;
    } else {
      assert (a + b)[0] == a[0];
      assert (a + b)[1..] == a[1..] + b;
      SanitizeAppend(a[1..], b);
    }
  }

  /** A one-character string survives exactly when its character is legal. */
  lemma SanitizeSingle(c: char)
    ensures SanitizeFilename([c]) == if IsIllegal(c) then [] else [c]
  {
    assert [c][1..] == [];
  }

  /** Every legal character occurs in the result exactly as often as in the input,
      and no illegal character occurs at all. */
  lemma {:induction false} SanitizeKeepsCounts(s: string)
    ensures forall c :: multiset(SanitizeFilename(s))[c] == if IsIllegal(c) then 0 else multiset(s)[c]
  {
    if s != [] {
      SanitizeKeepsCounts(s[1..]);
      assert s == [s[0]] + s[1..];
      assert multiset(s) == multiset([s[0]]) + multiset(s[1..]);
    }
  }

  /** The sanitizer leaves a string unchanged if and only if it is already clean. */
  lemma {:induction false} SanitizeFixedIffClean(s: string)
    ensures SanitizeFilename(s) == s <==> IsClean(s)
  {
    if s != [] {
      SanitizeFixedIffClean(s[1..]);
      if IsIllegal(s[0]) {
        assert |SanitizeFilename(s)| < |s|;
      } else if IsClean(s) {
        assert IsClean(s[1..]) by {
          forall i | 0 <= i < |s[1..]| ensures !IsIllegal(s[1..][i]) { assert s[1..][i] == s[i + 1]; }
        }
      }
    }
  }

  /** Sanitizing twice is the same as sanitizing once. */
  lemma {:induction false} SanitizeIdempotent(s: string)
    ensures SanitizeFilename(SanitizeFilename(s)) == SanitizeFilename(s)
  {
    SanitizeFixedIffClean(SanitizeFilename(s));
  }
}

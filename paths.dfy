/**
 * The part of `pathlib.PurePath` that the downloader relies on: `with_suffix`
 * replaces the final suffix of a file name, where a suffix starts at the last
 * dot, provided that dot is neither the first nor the last character of the name
 * (a name such as `.jpg` has no suffix at all).
 */
module Paths {

  /** Index of the last `.` in `s`, or -1 when there is none. */
  function LastDot(s: string): (r: int)
    ensures -1 <= r < |s|
    ensures r >= 0 ==> s[r] == '.'
    ensures forall j :: r < j < |s| ==> s[j] != '.'
  {
    if s == [] then -1
    else if s[|s| - 1] == '.' then |s| - 1
    else LastDot(s[..|s| - 1])
  }

  /** The name with its suffix replaced by `suffix`, or with `suffix` appended when it has none. */
  function WithSuffix(name: string, suffix: string): string {
    var i := LastDot(name);
    if 0 < i < |name| - 1 then name[..i] + suffix else name + suffix
  }

  /** The renamed name ends with the new suffix, and what comes before it is a prefix of
      the old name: `with_suffix` only ever cuts off a final suffix and appends. */
  lemma WithSuffixShape(name: string, suffix: string)
    ensures var r := WithSuffix(name, suffix);
            |r| >= |suffix| && r[|r| - |suffix|..] == suffix && r[..|r| - |suffix|] <= name
  {
    var r := WithSuffix(name, suffix);
    var i := LastDot(name);
    var stem := if 0 < i < |name| - 1 then name[..i] else name;
    assert r == stem + suffix;
    assert r[..|r| - |suffix|] == stem;
  }

  /** A dot followed by at least one character none of which is a dot: `.png`, `.jpg`. */
  predicate IsExtension(ext: string) {
    |ext| >= 2 && ext[0] == '.' && forall j :: 1 <= j < |ext| ==> ext[j] != '.'
  }

  /** On a name made of a non-empty stem and an extension, `with_suffix` swaps the extension. */
  lemma WithSuffixSwapsExtension(stem: string, ext: string, suffix: string)
    requires stem != [] && IsExtension(ext)
    ensures WithSuffix(stem + ext, suffix) == stem + suffix
  {
    var name := stem + ext;
    assert name[|stem|] == '.';
    assert forall j :: |stem| < j < |name| ==> name[j] == ext[j - |stem|];
    assert LastDot(name) == |stem|;
    assert name[..|stem|] == stem;
  }

  /** On a bare extension such as `.jpg` (an empty stem) `with_suffix` appends instead. */
  lemma WithSuffixOnBareExtension(ext: string, suffix: string)
    requires IsExtension(ext)
    ensures WithSuffix(ext, suffix) == ext + suffix
  {
    assert LastDot(ext) == 0;
  }
}

/**
 * Collision-avoiding names. A name is probed as `base + ext`, then as
 * `base_1 + ext`, `base_2 + ext`, ... until one is not among the existing names
 * of the directory. The directory is modelled by the finite set of names it holds.
 */
module Naming {

  /** The decimal digit character for `d`. */
  function DigitChar(d: nat): (c: char)
    requires d < 10
    ensures c as int == d + '0' as int
  {
    (d + '0' as int) as char
  }

  /** The decimal rendering of `n`, as an f-string renders an int: no sign, no leading zeros. */
  function DecimalString(n: nat): (r: string)
    ensures |r| >= 1
    ensures n >= 10 ==> |r| >= 2
    ensures forall i :: 0 <= i < |r| ==> '0' <= r[i] <= '9'
    ensures n > 0 ==> r[0] != '0'
  {
    if n < 10 then [DigitChar(n)] else DecimalString(n / 10) + [DigitChar(n % 10)]
  }

  /** The number a string of decimal digits denotes, read left to right. */
  function DigitsValue(s: string): nat
    requires forall i :: 0 <= i < |s| ==> '0' <= s[i] <= '9'
  {
    if s == [] then 0
    else DigitsValue(s[..|s| - 1]) * 10 + (s[|s| - 1] as int - '0' as int)
  }

  /** The rendering reads back as the counter it renders. */
  lemma {:induction false} DecimalStringValue(n: nat)
    ensures DigitsValue(DecimalString(n)) == n
  {
    var s := DecimalString(n);
    if n >= 10 {
      DecimalStringValue(n / 10);
      assert s[..|s| - 1] == DecimalString(n / 10);
    }
  }

  /** Distinct counters render as distinct strings. */
  lemma DecimalStringInjective(m: nat, n: nat)
    requires DecimalString(m) == DecimalString(n)
    ensures m == n
  {
    DecimalStringValue(m);
    DecimalStringValue(n);
  }

  /** The `k`-th name tried: `base + ext` for k = 0, `base_k + ext` otherwise. */
  function Candidate(base: string, k: nat, ext: string): string {
    if k == 0 then base + ext else base + "_" + DecimalString(k) + ext
  }

  /** A candidate is the base, then `_` and the counter's digits unless the counter is 0,
      then the extension. */
  lemma CandidateShape(base: string, k: nat, ext: string)
    ensures var name := Candidate(base, k, ext);
            && |name| >= |base| + |ext|
            && name[..|base|] == base && name[|name| - |ext|..] == ext
            && (|name| == |base| + |ext| <==> k == 0)
            && (k > 0 ==> name[|base|] == '_' && name[|base| + 1..|name| - |ext|] == DecimalString(k))
  {
    var name := Candidate(base, k, ext);
    if k > 0 {
      assert name == base + ("_" + DecimalString(k)) + ext;
      assert name[|base| + 1..|name| - |ext|] == DecimalString(k);
    }
  }

  /** Different counters give different candidates, whatever the base and extension. */
  lemma CandidateInjective(base: string, ext: string, j: nat, k: nat)
    requires Candidate(base, j, ext) == Candidate(base, k, ext)
    ensures j == k
  {
    if j != 0 && k != 0 {
      var c := Candidate(base, j, ext);
      var lo := |base| + 1;
      assert |DecimalString(j)| == |DecimalString(k)|;
      var hi := lo + |DecimalString(j)|;
      assert c[lo..hi] == DecimalString(j);
      assert Candidate(base, k, ext)[lo..hi] == DecimalString(k);
      DecimalStringInjective(j, k);
    }
  }

  /** The candidates with counters in [lo, hi). */
  ghost function CandidatesIn(base: string, ext: string, lo: nat, hi: nat): set<string>
    decreases hi
  {
    if hi <= lo then {} else CandidatesIn(base, ext, lo, hi - 1) + {Candidate(base, hi - 1, ext)}
  }

  lemma {:induction false} CandidateAboveNotIn(base: string, ext: string, lo: nat, hi: nat, k: nat)
    requires hi <= k
    ensures Candidate(base, k, ext) !in CandidatesIn(base, ext, lo, hi)
    decreases hi
  {
    if lo < hi {
      if Candidate(base, k, ext) == Candidate(base, hi - 1, ext) {
        CandidateInjective(base, ext, k, hi - 1);
      }
      CandidateAboveNotIn(base, ext, lo, hi - 1, k);
    }
  }

  lemma {:induction false} CandidatesInSize(base: string, ext: string, lo: nat, hi: nat)
    requires lo <= hi
    ensures |CandidatesIn(base, ext, lo, hi)| == hi - lo
    decreases hi
  {
    if lo < hi {
      CandidatesInSize(base, ext, lo, hi - 1);
      CandidateAboveNotIn(base, ext, lo, hi - 1, hi - 1);
    }
  }

  lemma {:induction false} CandidatesInSubset(existing: set<string>, base: string, ext: string, lo: nat, hi: nat)
    requires forall j :: lo <= j < hi ==> Candidate(base, j, ext) in existing
    ensures CandidatesIn(base, ext, lo, hi) <= existing
    decreases hi
  {
    if lo < hi {
      CandidatesInSubset(existing, base, ext, lo, hi - 1);
    }
  }

  lemma {:induction false} SubsetSize<T>(a: set<T>, b: set<T>)
    requires a <= b
    ensures |a| <= |b|
  {
    if a != {} {
      var x :| x in a;
      SubsetSize(a - {x}, b - {x});
    }
  }

  /** The least counter from `k` on whose candidate is not an existing name. It exists
      for every finite set: each step past a taken candidate leaves one fewer existing
      name that a later candidate could collide with. */
  function FirstFreeIndex(existing: set<string>, base: string, ext: string, k: nat): (r: nat)
    ensures k <= r
    ensures Candidate(base, r, ext) !in existing
    ensures forall j :: k <= j < r ==> Candidate(base, j, ext) in existing
    decreases |existing - CandidatesIn(base, ext, 0, k)|
  {
    if Candidate(base, k, ext) !in existing then k
    else
      CandidateAboveNotIn(base, ext, 0, k, k);
      assert existing - CandidatesIn(base, ext, 0, k + 1)
          == (existing - CandidatesIn(base, ext, 0, k)) - {Candidate(base, k, ext)};
      FirstFreeIndex(existing, base, ext, k + 1)
  }

  /** The probe stops within |existing| steps of its first counter. */
  lemma FirstFreeIndexBound(existing: set<string>, base: string, ext: string, k: nat)
    ensures FirstFreeIndex(existing, base, ext, k) <= k + |existing|
  {
    var r := FirstFreeIndex(existing, base, ext, k);
    CandidatesInSubset(existing, base, ext, k, r);
    CandidatesInSize(base, ext, k, r);
    SubsetSize(CandidatesIn(base, ext, k, r), existing);
  }

  /** The file-name probe of the card loop: `base + ext` first, then `base_1 + ext`, ... */
  method ProbeFileName(existing: set<string>, base: string, ext: string) returns (filename: string)
    ensures filename !in existing
    ensures filename == Candidate(base, FirstFreeIndex(existing, base, ext, 0), ext)
  {
    filename := Candidate(base, 0, ext);
    var counter: nat := 1;
    while filename in existing
      invariant filename == Candidate(base, counter - 1, ext)
      invariant FirstFreeIndex(existing, base, ext, counter - 1) == FirstFreeIndex(existing, base, ext, 0)
      decreases |existing - CandidatesIn(base, ext, 0, counter - 1)|
    {
      CandidateAboveNotIn(base, ext, 0, counter - 1, counter - 1);
      assert existing - CandidatesIn(base, ext, 0, counter)
          == (existing - CandidatesIn(base, ext, 0, counter - 1)) - {filename};
      filename := Candidate(base, counter, ext);
      counter := counter + 1;
    }
  }

  /** The folder-name probe: `folder_1`, `folder_2`, ... (the bare name is known to be taken). */
  method ProbeFolderName(existing: set<string>, folder: string) returns (newDir: string)
    ensures newDir !in existing
    ensures newDir == Candidate(folder, FirstFreeIndex(existing, folder, "", 1), "")
  {
    var counter: nat := 1;
    while true
      invariant 1 <= counter
      invariant FirstFreeIndex(existing, folder, "", counter) == FirstFreeIndex(existing, folder, "", 1)
      decreases |existing - CandidatesIn(folder, "", 0, counter)|
    {
      newDir := Candidate(folder, counter, "");
      if newDir !in existing {
        return;
      }
      CandidateAboveNotIn(folder, "", 0, counter, counter);
      assert existing - CandidatesIn(folder, "", 0, counter + 1)
          == (existing - CandidatesIn(folder, "", 0, counter)) - {newDir};
      counter := counter + 1;
    }
  }
}

/**
 * The suffix decisions around a download. The card loop probes a name with a
 * suffix chosen from the size key; the downloader then re-derives the suffix
 * from the decoded image's colour mode and renames the file with `with_suffix`
 * before saving. The two decisions are independent, so the written name need not
 * be the probed one.
 */
module Download {
  import opened Paths
  import opened Naming

  /** The colour mode PIL reports for a decoded image (`RGBA`, `RGB`, `L`, `P`, ...). */
  datatype Mode = Mode(name: string)

  /** The suffix the card loop probes with: `.png` for the `png` size key, `.jpg` for any other. */
  function ProbeExtension(sizeKey: string): (ext: string)
    ensures ext == ".png" <==> sizeKey == "png"
    ensures ext == ".jpg" <==> sizeKey != "png"
  {
    if sizeKey == "png" then ".png" else ".jpg"
  }

  /** The suffix the downloader saves with: PNG for an image in mode RGBA, JPEG for every other mode. */
  function OutputSuffix(mode: Mode): (suffix: string)
    ensures suffix == ".png" <==> mode.name == "RGBA"
    ensures suffix == ".jpg" <==> mode.name != "RGBA"
  {
    if mode.name == "RGBA" then ".png" else ".jpg"
  }

  /** The name the downloader actually writes when handed `probed`. */
  function WrittenName(probed: string, mode: Mode): string {
    WithSuffix(probed, OutputSuffix(mode))
  }

  /** Whatever name was probed, the written name ends in `.png` exactly for an RGBA image
      and in `.jpg` for every other mode. */
  lemma WrittenNameSuffix(probed: string, mode: Mode)
    ensures var written := WrittenName(probed, mode);
            |written| >= 4
            && (written[|written| - 4..] == ".png" <==> mode.name == "RGBA")
            && (written[|written| - 4..] == ".jpg" <==> mode.name != "RGBA")
  {
    WithSuffixShape(probed, OutputSuffix(mode));
  }

  /** Both suffix decisions yield a dot-led extension with no further dot. */
  lemma SuffixesAreExtensions(sizeKey: string, mode: Mode)
    ensures IsExtension(ProbeExtension(sizeKey)) && IsExtension(OutputSuffix(mode))
  {
  }

  /** When the probed name has a non-empty stem, the written name is the same
      candidate with the mode's suffix, whatever suffix was probed. */
  lemma WrittenNameKeepsCounter(base: string, k: nat, sizeKey: string, mode: Mode)
    requires base != [] || k > 0
    ensures WrittenName(Candidate(base, k, ProbeExtension(sizeKey)), mode)
         == Candidate(base, k, OutputSuffix(mode))
  {
    var ext := ProbeExtension(sizeKey);
    SuffixesAreExtensions(sizeKey, mode);
    var stem := if k == 0 then base else base + "_" + DecimalString(k);
    assert Candidate(base, k, ext) == stem + ext;
    WithSuffixSwapsExtension(stem, ext, OutputSuffix(mode));
  }

  /** The written name is the probed one exactly when the probed name has a
      non-empty stem and the mode's suffix agrees with the probed suffix. */
  lemma WrittenIsProbedIff(base: string, k: nat, sizeKey: string, mode: Mode)
    ensures WrittenName(Candidate(base, k, ProbeExtension(sizeKey)), mode) == Candidate(base, k, ProbeExtension(sizeKey))
        <==> (base != [] || k > 0) && OutputSuffix(mode) == ProbeExtension(sizeKey)
  {
    var ext := ProbeExtension(sizeKey);
    var probed := Candidate(base, k, ext);
    SuffixesAreExtensions(sizeKey, mode);
    if base == [] && k == 0 {
      WithSuffixOnBareExtension(ext, OutputSuffix(mode));
      assert |WrittenName(probed, mode)| > |probed|;
    } else {
      WrittenNameKeepsCounter(base, k, sizeKey, mode);
      var stem := if k == 0 then base else base + "_" + DecimalString(k);
      assert probed == stem + ext;
      var written := stem + OutputSuffix(mode);
      assert WrittenName(probed, mode) == written;
      assert written[|stem|..] == OutputSuffix(mode);
      assert probed[|stem|..] == ext;
    }
  }
}

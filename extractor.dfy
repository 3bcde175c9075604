/**
 * The card loop of `main`: for every card record, in order, decide whether it has
 * an image of the chosen size, probe a free file name, download, and keep the
 * `downloaded` and `skipped` counters. The output directory is the set of names it
 * holds; the network and the image library are an oracle that gives, for the card
 * at each position, the outcome of the download.
 */
module Extractor {
  import opened Wrappers
  import opened Sanitize
  import opened Naming
  import opened Download
  import opened Paths

  /** The `name` field of a card record: missing, JSON null, or a string. */
  datatype NameField = Absent | Null | Text(value: string)

  /** A card record: its name and its `image_uris` object (size key to URL), if any.
      A JSON null for `image_uris` is falsy like a missing one, so both are `None`. */
  datatype Card = Card(name: NameField, imageUris: Option<map<string, string>>)

  /** The name used for the file: `unnamed` when the field is missing, and the text of
      `str(None)` when it is null. */
  function CardName(card: Card): (name: string)
    ensures card.name.Text? ==> name == card.name.value
    ensures card.name.Absent? ==> name == "unnamed"
    ensures card.name.Null? ==> name == "None"
  {
    match card.name
    case Absent => "unnamed"
    case Null => "None"
    case Text(s) => s
  }

  /** Where a card goes: skipped without images, skipped without an image of the chosen
      size, or downloaded from a URL. */
  datatype Plan = NoImages | NoSize | Fetch(url: string)

  /** The skip-or-fetch decision for one card: first the `image_uris` test, then the URL test. */
  function PlanFor(card: Card, sizeKey: string): (p: Plan)
    ensures p.NoImages? <==> card.imageUris.None? || card.imageUris.value == map[]
    ensures p.Fetch? <==> card.imageUris.Some? && sizeKey in card.imageUris.value && card.imageUris.value[sizeKey] != ""
    ensures p.Fetch? ==> p.url == card.imageUris.value[sizeKey]
  {
    match card.imageUris
    case None => NoImages
    case Some(uris) =>
      if uris == map[] then NoImages
      else if sizeKey !in uris || uris[sizeKey] == "" then NoSize
      else Fetch(uris[sizeKey])
  }

  /** What the oracle reports for one download: the image was fetched, decoded and saved
      in the given colour mode; `download_image` caught an error and returned False; or an
      exception escaped to the loop's own handler before the download returned. The oracle
      is not restricted to modes the JPEG encoder accepts: for a mode such as `P` or `LA` the
      program's save raises and the true outcome is `Failed`, so `Saved` with such a mode
      over-approximates what can happen. */
  datatype Outcome = Saved(mode: Mode) | Failed | Raised

  /** The two counters and the names present in the output directory. */
  datatype RunState = RunState(downloaded: nat, skipped: nat, files: set<string>)

  /** The name the loop probes for `card` in a directory holding `files`. */
  function ProbedName(files: set<string>, card: Card, sizeKey: string): (name: string)
    ensures name !in files
  {
    var base := SanitizeFilename(CardName(card));
    var ext := ProbeExtension(sizeKey);
    Candidate(base, FirstFreeIndex(files, base, ext, 0), ext)
  }

  /** The probed name is the sanitized card name, possibly followed by `_` and a counter,
      followed by the suffix the size key selects. */
  lemma ProbedNameShape(files: set<string>, card: Card, sizeKey: string)
    ensures var base := SanitizeFilename(CardName(card));
            var name := ProbedName(files, card, sizeKey);
            |name| >= |base| + 4 && name[..|base|] == base && name[|name| - 4..] == ProbeExtension(sizeKey)
  {
    var base := SanitizeFilename(CardName(card));
    var ext := ProbeExtension(sizeKey);
    CandidateShape(base, FirstFreeIndex(files, base, ext, 0), ext);
  }

  /** One pass of the loop body. */
  function ProcessCard(s: RunState, card: Card, sizeKey: string, outcome: Outcome): (r: RunState)
    ensures s.downloaded <= r.downloaded && s.skipped <= r.skipped && s.files <= r.files
    ensures r.downloaded + r.skipped <= s.downloaded + s.skipped + 1
    ensures |r.files| <= |s.files| + 1
    ensures r.files != s.files ==> r.downloaded == s.downloaded + 1
  {
    match PlanFor(card, sizeKey)
    case NoImages => s.(skipped := s.skipped + 1)
    case NoSize => s.(skipped := s.skipped + 1)
    case Fetch(_) =>
      match outcome
      case Saved(mode) =>
        s.(downloaded := s.downloaded + 1,
           files := s.files + {WrittenName(ProbedName(s.files, card, sizeKey), mode)})
      case Failed => s
      case Raised => s
  }

  /** The state after the loop has run over `cards`, starting from zero counters in a
      directory holding `existing`; `outcome(i)` is the download outcome of card `i`. */
  function RunCards(cards: seq<Card>, sizeKey: string, existing: set<string>, outcome: nat -> Outcome): (r: RunState)
    ensures r.downloaded + r.skipped <= |cards|
    ensures existing <= r.files
    ensures |r.files| <= |existing| + r.downloaded
    decreases |cards|
  {
    if cards == [] then RunState(0, 0, existing)
    else
      var n := |cards| - 1;
      ProcessCard(RunCards(cards[..n], sizeKey, existing, outcome), cards[n], sizeKey, outcome(n))
  }

  /** Each card moves exactly one of three ways: a card without a usable URL adds one to
      `skipped` and nothing else, whatever the oracle would have said; a saved download adds
      one to `downloaded` and its written name to the directory; a failed download or a
      caught exception changes nothing. */
  lemma CardAccounting(s: RunState, card: Card, sizeKey: string, outcome: Outcome)
    ensures var r := ProcessCard(s, card, sizeKey, outcome);
      && (!PlanFor(card, sizeKey).Fetch? ==> r == RunState(s.downloaded, s.skipped + 1, s.files))
      && (PlanFor(card, sizeKey).Fetch? && outcome.Saved? ==>
            r == RunState(s.downloaded + 1, s.skipped,
                          s.files + {WrittenName(ProbedName(s.files, card, sizeKey), outcome.mode)}))
      && (PlanFor(card, sizeKey).Fetch? && !outcome.Saved? ==> r == s)
  {
  }

  /** The counters never decrease and names are never removed as the loop advances. */
  lemma {:induction false} RunMonotone(cards: seq<Card>, sizeKey: string, existing: set<string>, outcome: nat -> Outcome, n: nat)
    requires n <= |cards|
    ensures var before := RunCards(cards[..n], sizeKey, existing, outcome);
            var after := RunCards(cards, sizeKey, existing, outcome);
            before.downloaded <= after.downloaded && before.skipped <= after.skipped && before.files <= after.files
    decreases |cards| - n
  {
    if n < |cards| {
      var m := |cards| - 1;
      assert cards[..m][..n] == cards[..n];
      RunMonotone(cards[..m], sizeKey, existing, outcome, n);
    } else {
      assert cards[..n] == cards;
    }
  }

  /** Running over one more card is one more pass of the loop body. */
  lemma RunCardsSnoc(cards: seq<Card>, card: Card, sizeKey: string, existing: set<string>, outcome: nat -> Outcome)
    ensures RunCards(cards + [card], sizeKey, existing, outcome)
         == ProcessCard(RunCards(cards, sizeKey, existing, outcome), card, sizeKey, outcome(|cards|))
  {
    assert (cards + [card])[..|cards|] == cards;
  }

  /** A saved card whose written name is its probed name adds one new file. */
  lemma SavedCardAddsNewFile(s: RunState, card: Card, sizeKey: string, mode: Mode)
    requires PlanFor(card, sizeKey).Fetch?
    requires SanitizeFilename(CardName(card)) != [] && OutputSuffix(mode) == ProbeExtension(sizeKey)
    ensures var r := ProcessCard(s, card, sizeKey, Saved(mode));
            r.downloaded == s.downloaded + 1 && r.skipped == s.skipped && |r.files| == |s.files| + 1
  {
    var base := SanitizeFilename(CardName(card));
    var ext := ProbeExtension(sizeKey);
    var k := FirstFreeIndex(s.files, base, ext, 0);
    WrittenIsProbedIff(base, k, sizeKey, mode);
    var written := WrittenName(ProbedName(s.files, card, sizeKey), mode);
    assert written == ProbedName(s.files, card, sizeKey);
    assert written !in s.files;
    assert ProcessCard(s, card, sizeKey, Saved(mode)).files == s.files + {written};
  }

  /** The number of cards that have no usable URL for the size key. */
  function CountWithoutUrl(cards: seq<Card>, sizeKey: string): nat
    decreases |cards|
  {
    if cards == [] then 0
    else CountWithoutUrl(cards[..|cards| - 1], sizeKey) + if PlanFor(cards[|cards| - 1], sizeKey).Fetch? then 0 else 1
  }

  /** The number of cards that have a usable URL and whose download the oracle reports as saved. */
  function CountSaved(cards: seq<Card>, sizeKey: string, outcome: nat -> Outcome): nat
    decreases |cards|
  {
    if cards == [] then 0
    else
      var n := |cards| - 1;
      CountSaved(cards[..n], sizeKey, outcome) + if PlanFor(cards[n], sizeKey).Fetch? && outcome(n).Saved? then 1 else 0
  }

  /** After the loop, `skipped` is exactly the number of cards without a usable URL and
      `downloaded` exactly the number of saved downloads; failed downloads and caught
      exceptions are counted nowhere. */
  lemma {:induction false} RunCountsOutcomes(cards: seq<Card>, sizeKey: string, existing: set<string>, outcome: nat -> Outcome)
    ensures RunCards(cards, sizeKey, existing, outcome).skipped == CountWithoutUrl(cards, sizeKey)
    ensures RunCards(cards, sizeKey, existing, outcome).downloaded == CountSaved(cards, sizeKey, outcome)
    decreases |cards|
  {
    if cards != [] {
      var n := |cards| - 1;
      RunCountsOutcomes(cards[..n], sizeKey, existing, outcome);
      CardAccounting(RunCards(cards[..n], sizeKey, existing, outcome), cards[n], sizeKey, outcome(n));
    }
  }

  /** When every card has a URL for the size key, every download is saved in a mode whose
      suffix matches the probed one, and no card name sanitizes to the empty string, the run
      downloads every card, skips none, and leaves one new file per card. */
  lemma {:induction false} AllSavedWritesDistinctFiles(cards: seq<Card>, sizeKey: string, existing: set<string>, outcome: nat -> Outcome)
    requires forall i :: 0 <= i < |cards| ==> PlanFor(cards[i], sizeKey).Fetch?
    requires forall i :: 0 <= i < |cards| ==> SanitizeFilename(CardName(cards[i])) != []
    requires forall i :: 0 <= i < |cards| ==> outcome(i).Saved? && OutputSuffix(outcome(i).mode) == ProbeExtension(sizeKey)
    ensures var r := RunCards(cards, sizeKey, existing, outcome);
            r.downloaded == |cards| && r.skipped == 0 && |r.files| == |existing| + |cards|
    decreases |cards|
  {
    if cards != [] {
      var n := |cards| - 1;
      var prefix := cards[..n];
      var card := cards[n];
      assert forall i :: 0 <= i < |prefix| ==> prefix[i] == cards[i];
      AllSavedWritesDistinctFiles(prefix, sizeKey, existing, outcome);
      var s := RunCards(prefix, sizeKey, existing, outcome);
      var mode := outcome(n).mode;
      assert outcome(n) == Saved(mode);
      assert RunCards(cards, sizeKey, existing, outcome) == ProcessCard(s, card, sizeKey, Saved(mode));
      SavedCardAddsNewFile(s, card, sizeKey, mode);
    }
  }

  /** The loop of `main` over the card list, with the name probe as a loop of its own. */
  method DownloadAll(cards: seq<Card>, sizeKey: string, existing: set<string>, outcome: nat -> Outcome)
    returns (downloaded: nat, skipped: nat, files: set<string>)
    ensures RunState(downloaded, skipped, files) == RunCards(cards, sizeKey, existing, outcome)
  {
    downloaded, skipped, files := 0, 0, existing;
    for i := 0 to |cards|
      invariant RunState(downloaded, skipped, files) == RunCards(cards[..i], sizeKey, existing, outcome)
    {
      assert cards[..i + 1][..i] == cards[..i];
      var card := cards[i];
      var cardName := CardName(card);
      match PlanFor(card, sizeKey) {
        case NoImages =>
          skipped := skipped + 1;
        case NoSize =>
          skipped := skipped + 1;
        case Fetch(_) =>
          var baseName := SanitizeFilename(cardName);
          var extension := ProbeExtension(sizeKey);
          var filename := ProbeFileName(files, baseName, extension);
          match outcome(i) {
            case Saved(mode) =>
              downloaded := downloaded + 1;
              files := files + {WrittenName(filename, mode)};
            case Failed =>
            case Raised =>
          }
      }
    }
    assert cards[..|cards|] == cards;
  }

  /** Two copies of a card, both saved in `mode`, into an empty directory: the run writes
      the first card's name, then the name probed once that one exists. */
  lemma TwoSavedCards(card: Card, sizeKey: string, mode: Mode, outcome: nat -> Outcome, first: string, second: string)
    requires PlanFor(card, sizeKey).Fetch?
    requires outcome(0) == Saved(mode) && outcome(1) == Saved(mode)
    requires WrittenName(ProbedName({}, card, sizeKey), mode) == first
    requires WrittenName(ProbedName({first}, card, sizeKey), mode) == second
    ensures RunCards([card, card], sizeKey, {}, outcome) == RunState(2, 0, {first, second})
  {
    var s0 := RunState(0, 0, {});
    CardAccounting(s0, card, sizeKey, Saved(mode));
    var s1 := ProcessCard(s0, card, sizeKey, Saved(mode));
    RunCardsSnoc([], card, sizeKey, {}, outcome);
    assert [] + [card] == [card];
    assert RunCards([card], sizeKey, {}, outcome) == s1 == RunState(1, 0, {first});
    CardAccounting(s1, card, sizeKey, Saved(mode));
    RunCardsSnoc([card], card, sizeKey, {}, outcome);
    assert [card] + [card] == [card, card];
  }

  /** The names probed and written for the two "Bolt" cards. */
  lemma BoltNames(bolt: Card)
    requires bolt.name == Text("Bolt")
    ensures WrittenName(ProbedName({}, bolt, "normal"), Mode("RGB")) == "Bolt.jpg"
    ensures WrittenName(ProbedName({"Bolt.jpg"}, bolt, "normal"), Mode("RGB")) == "Bolt_1.jpg"
  {
    assert SanitizeFilename("Bolt") == "Bolt" by { SanitizeFixedIffClean("Bolt"); }
    assert ProbeExtension("normal") == ".jpg" && OutputSuffix(Mode("RGB")) == ".jpg";
    assert DecimalString(1) == "1";
    assert Candidate("Bolt", 0, ".jpg") == "Bolt.jpg" && Candidate("Bolt", 1, ".jpg") == "Bolt_1.jpg";
    assert FirstFreeIndex({}, "Bolt", ".jpg", 0) == 0;
    assert "Bolt_1.jpg" !in {"Bolt.jpg"};
    assert FirstFreeIndex({"Bolt.jpg"}, "Bolt", ".jpg", 1) == 1;
    WrittenNameKeepsCounter("Bolt", 0, "normal", Mode("RGB"));
    WrittenNameKeepsCounter("Bolt", 1, "normal", Mode("RGB"));
  }

  /** Two cards named "Bolt" with a `normal` image, both saved as RGB into an empty
      directory: the second is written as `Bolt_1.jpg`, next to `Bolt.jpg`. */
  lemma TwoBoltsExample(outcome: nat -> Outcome)
    requires outcome(0) == Saved(Mode("RGB")) && outcome(1) == Saved(Mode("RGB"))
    ensures var bolt := Card(Text("Bolt"), Some(map["normal" := "https://img/bolt"]));
            RunCards([bolt, bolt], "normal", {}, outcome) == RunState(2, 0, {"Bolt.jpg", "Bolt_1.jpg"})
  {
    var bolt := Card(Text("Bolt"), Some(map["normal" := "https://img/bolt"]));
    assert PlanFor(bolt, "normal").Fetch?;
    BoltNames(bolt);
    TwoSavedCards(bolt, "normal", Mode("RGB"), outcome, "Bolt.jpg", "Bolt_1.jpg");
  }

  /** Under the `png` key an RGB card named "X" probes `X.png` and writes `X.jpg`. */
  lemma PngKeyNames(x: Card, files: set<string>)
    requires x.name == Text("X") && "X.png" !in files
    ensures WrittenName(ProbedName(files, x, "png"), Mode("RGB")) == "X.jpg"
  {
    assert SanitizeFilename("X") == "X" by { SanitizeFixedIffClean("X"); }
    assert ProbeExtension("png") == ".png" && OutputSuffix(Mode("RGB")) == ".jpg";
    assert Candidate("X", 0, ".png") == "X.png" && Candidate("X", 0, ".jpg") == "X.jpg";
    assert FirstFreeIndex(files, "X", ".png", 0) == 0;
    WrittenNameKeepsCounter("X", 0, "png", Mode("RGB"));
  }

  /** With the `png` size key and an image that decodes as RGB, two cards named "X" both
      probe `X.png`, which never exists, and both write `X.jpg`: two downloads, one file. */
  lemma PngKeyOverwriteExample(outcome: nat -> Outcome)
    requires outcome(0) == Saved(Mode("RGB")) && outcome(1) == Saved(Mode("RGB"))
    ensures var x := Card(Text("X"), Some(map["png" := "https://img/x"]));
            RunCards([x, x], "png", {}, outcome) == RunState(2, 0, {"X.jpg"})
  {
    var x := Card(Text("X"), Some(map["png" := "https://img/x"]));
    assert PlanFor(x, "png").Fetch?;
    PngKeyNames(x, {});
    assert "X.png" !in {"X.jpg"};
    PngKeyNames(x, {"X.jpg"});
    TwoSavedCards(x, "png", Mode("RGB"), outcome, "X.jpg", "X.jpg");
    assert {"X.jpg", "X.jpg"} == {"X.jpg"};
  }

  /** A card named "???" probes `.jpg` and writes `.jpg.jpg` while `.jpg` is free. */
  lemma EmptyNameNames(q: Card, files: set<string>)
    requires q.name == Text("???") && ".jpg" !in files
    ensures WrittenName(ProbedName(files, q, "normal"), Mode("RGB")) == ".jpg.jpg"
  {
    assert SanitizeFilename("???") == "";
    assert ProbeExtension("normal") == ".jpg" && OutputSuffix(Mode("RGB")) == ".jpg";
    assert Candidate("", 0, ".jpg") == ".jpg";
    assert FirstFreeIndex(files, "", ".jpg", 0) == 0;
    assert IsExtension(".jpg");
    WithSuffixOnBareExtension(".jpg", ".jpg");
  }

  /** Two cards whose names sanitize to the empty string probe `.jpg`, a name with no
      suffix for `with_suffix`, and both write `.jpg.jpg`: two downloads, one file. */
  lemma EmptyNameOverwriteExample(outcome: nat -> Outcome)
    requires outcome(0) == Saved(Mode("RGB")) && outcome(1) == Saved(Mode("RGB"))
    ensures var q := Card(Text("???"), Some(map["normal" := "https://img/q"]));
            RunCards([q, q], "normal", {}, outcome) == RunState(2, 0, {".jpg.jpg"})
  {
    var q := Card(Text("???"), Some(map["normal" := "https://img/q"]));
    assert PlanFor(q, "normal").Fetch?;
    EmptyNameNames(q, {});
    assert ".jpg" !in {".jpg.jpg"};
    EmptyNameNames(q, {".jpg.jpg"});
    TwoSavedCards(q, "normal", Mode("RGB"), outcome, ".jpg.jpg", ".jpg.jpg");
    assert {".jpg.jpg", ".jpg.jpg"} == {".jpg.jpg"};
  }
}

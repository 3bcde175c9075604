# Scryfall image extractor: the download decision core

`scryfall-image-extractor.py` reads a JSON export of card records and downloads one image per
card into an output directory. This project models the decisions that script makes:

- `Sanitize`: the filename sanitizer. It deletes the nine characters `\ / * ? : " < > |`.
- `Naming`: the collision-avoiding name probe. It tries `base.ext`, then `base_1.ext`,
  `base_2.ext`, ... and takes the first name the directory does not hold. The folder probe
  has the same shape but starts at `_1`. Both are `while` loops over a finite set of names,
  proved against the function `FirstFreeIndex`.
- `Paths`: the `with_suffix` rule of `pathlib`. The suffix starts at the last dot, unless that
  dot is the first or the last character of the name.
- `Download`: the two suffix decisions. The loop probes with `.png` for the `png` size key and
  `.jpg` otherwise. The downloader then saves with `.png` for an RGBA image and `.jpg` for any
  other colour mode, renaming the probed path with `with_suffix`.
- `Prompts`: the size menu, the check on resize dimensions and the check on a new folder name.
- `Extractor`: the card loop of `main`, with its `downloaded` and `skipped` counters. The
  specification is the function `RunCards`; the loop method `DownloadAll` is proved equal to it.

The output directory is modelled as the set of names it holds. The network and the imaging
library are an oracle: a function from a card's position to `Saved(mode)`, `Failed`, or `Raised`.

The written suffix can differ from the probed one, so the model does not claim that files are
never overwritten. It proves when they are not (`WrittenIsProbedIff`,
`AllSavedWritesDistinctFiles`). It also proves two concrete runs where a second card overwrites
the first:
- the `png` size key with an RGB image (`PngKeyOverwriteExample`);
- a card name that sanitizes to the empty string. That card probes `.jpg`, which has no suffix
  for `with_suffix`, and writes `.jpg.jpg` (`EmptyNameOverwriteExample`).

The model follows the script as written:
- This script has no `card_faces` fallback and no `id` field. A missing name becomes `unnamed`.
- A failed download and a caught exception are counted neither as downloaded nor as skipped.
- Output names are not guaranteed unique.

## Model

| member | source | states |
|---|---|---|
| Sanitize.SanitizeFilename | scryfall-image-extractor.py:10-11 | the result contains none of the nine deleted characters and is never longer than the input |
| Sanitize.SanitizeAppend | scryfall-image-extractor.py:11 | sanitizing a concatenation is the concatenation of the sanitized parts, so the kept characters keep their order |
| Sanitize.SanitizeSingle | scryfall-image-extractor.py:11 | a single character is dropped exactly when it is one of the nine, and kept otherwise |
| Sanitize.SanitizeKeepsCounts | scryfall-image-extractor.py:11 | every legal character occurs as often in the result as in the input; no illegal character occurs |
| Sanitize.SanitizeFixedIffClean | scryfall-image-extractor.py:11 | a string is left unchanged if and only if it holds none of the nine characters |
| Sanitize.SanitizeIdempotent | scryfall-image-extractor.py:11 | sanitizing twice equals sanitizing once |
| Paths.LastDot | scryfall-image-extractor.py:165-170 | the index found holds a dot and no later character is a dot; -1 means the name has no dot |
| Paths.WithSuffixShape | scryfall-image-extractor.py:165-170 | `with_suffix` always yields a name ending in the new suffix, preceded by a prefix of the old name |
| Paths.WithSuffixSwapsExtension | scryfall-image-extractor.py:165-170 | renaming a non-empty stem followed by an extension such as `.jpg` replaces just that extension |
| Paths.WithSuffixOnBareExtension | scryfall-image-extractor.py:165-170 | renaming a name that is only an extension, such as `.jpg`, appends the new suffix |
| Naming.DecimalString | scryfall-image-extractor.py:234 | the counter is rendered as one or more decimal digits, with at least two digits from 10 on and no leading zero for a positive counter |
| Naming.DecimalStringValue | scryfall-image-extractor.py:234 | the rendering read left to right as a decimal numeral is the counter itself; with no leading zero, it is the string an f-string gives |
| Naming.DecimalStringInjective | scryfall-image-extractor.py:234 | different counters render differently |
| Naming.CandidateShape | scryfall-image-extractor.py:230-234 | a probed name is the base, then for a counter k > 0 an underscore and k's digits, then the extension; only counter 0 has no number |
| Naming.CandidateInjective | scryfall-image-extractor.py:230-234 | for a fixed base and extension, the names probed for different counters are all different |
| Naming.FirstFreeIndex | scryfall-image-extractor.py:230-235 | the chosen counter is the least one from the start whose name is free: its name is not in the set and every earlier name is |
| Naming.FirstFreeIndexBound | scryfall-image-extractor.py:232-235 | the probe stops within as many steps as the directory has names, so it ends for every finite directory |
| Naming.ProbeFileName | scryfall-image-extractor.py:228-235 | the loop returns a name not in the directory: `base+ext` if free, otherwise `base_k+ext` for the least free k ≥ 1 |
| Naming.ProbeFolderName | scryfall-image-extractor.py:109-120 | the loop returns `folder_k` for the least k ≥ 1 not in the parent directory |
| Download.ProbeExtension | scryfall-image-extractor.py:229 | the probe suffix is `.png` exactly for the `png` size key and `.jpg` for every other key |
| Download.OutputSuffix | scryfall-image-extractor.py:165-170 | the saved suffix is `.png` if and only if the colour mode is RGBA, otherwise `.jpg` |
| Download.WrittenNameSuffix | scryfall-image-extractor.py:165-170 | whatever name was probed, the written name ends in `.png` exactly for an RGBA image and in `.jpg` otherwise |
| Download.WrittenNameKeepsCounter | scryfall-image-extractor.py:165-170 | with a non-empty stem, the written name is the probed candidate with the mode's suffix, whatever suffix was probed |
| Download.WrittenIsProbedIff | scryfall-image-extractor.py:165-170 | the written name equals the probed name (so it is fresh) exactly when the stem is non-empty and the mode's suffix equals the probed suffix |
| Prompts.SizeChoice | scryfall-image-extractor.py:36-48 | an answer is accepted exactly when it is "1" to "6", and then gives one of the six size keys |
| Prompts.MenuChoice | scryfall-image-extractor.py:36-43 | every size key has a menu answer that maps to it |
| Prompts.SizeMenuBijective | scryfall-image-extractor.py:36-43 | the menu maps the six answers one-to-one onto the six size keys |
| Prompts.CheckDimensions | scryfall-image-extractor.py:145-148 | dimensions are accepted exactly when both are positive, and the accepted resize target is valid |
| Prompts.FolderNameAccepted | scryfall-image-extractor.py:74-83 | an accepted folder name is one the sanitizer would leave unchanged |
| Prompts.FolderNameAcceptedIffSanitized | scryfall-image-extractor.py:74-83 | a new folder name is accepted exactly when it is non-empty and the sanitizer would leave it unchanged |
| Extractor.CardName | scryfall-image-extractor.py:212 | the name is the card's string when it has one, `unnamed` when the field is missing, and `None` (what `str` gives) when it is null |
| Extractor.PlanFor | scryfall-image-extractor.py:212-224 | a download is attempted exactly when its `image_uris` is present and non-empty and holds a non-empty URL for the size key; that URL is used |
| Extractor.ProbedName | scryfall-image-extractor.py:228-235 | the name probed for a card is never one the directory already holds |
| Extractor.ProbedNameShape | scryfall-image-extractor.py:228-230 | the probed name starts with the sanitized card name and ends with the suffix the size key selects |
| Extractor.ProcessCard | scryfall-image-extractor.py:211-247 | one card never lowers a counter or removes a file, raises the two counters by at most one in total, adds at most one file, and adds a file only when it counts a download |
| Extractor.RunCards | scryfall-image-extractor.py:210-247 | after the loop, downloaded + skipped is at most the number of cards; files are only added, at most one per download |
| Extractor.CardAccounting | scryfall-image-extractor.py:213-247 | a card without a usable URL adds one to `skipped` and changes nothing else, whatever the oracle says; a saved download adds one to `downloaded` and one written name; a failure or a caught exception changes nothing |
| Extractor.RunMonotone | scryfall-image-extractor.py:210-247 | both counters and the set of files never decrease as the loop advances |
| Extractor.RunCountsOutcomes | scryfall-image-extractor.py:215-247 | `skipped` equals the number of cards without a usable URL and `downloaded` the number of saved downloads |
| Extractor.SavedCardAddsNewFile | scryfall-image-extractor.py:228-241 | a saved card with a non-empty stem whose mode suffix matches the probe suffix adds a name that was not there before |
| Extractor.AllSavedWritesDistinctFiles | scryfall-image-extractor.py:210-247 | if every card has a URL, a non-empty sanitized name and a saved download whose suffix matches the probe, then downloaded = N, skipped = 0 and N new files exist |
| Extractor.DownloadAll | scryfall-image-extractor.py:210-247 | the imperative loop, with the probe loop inside it, ends with the counters and files that `RunCards` specifies |
| Extractor.TwoBoltsExample | scryfall-image-extractor.py:228-241 | for any oracle that saves both downloads as RGB, two cards named "Bolt" with a `normal` URL produce `Bolt.jpg` and `Bolt_1.jpg` in an empty directory |
| Extractor.PngKeyOverwriteExample | scryfall-image-extractor.py:229-241 | for any oracle that saves both as RGB, with the `png` key two cards named "X" both write `X.jpg`: two downloads, one file |
| Extractor.EmptyNameOverwriteExample | scryfall-image-extractor.py:226-241 | for any oracle that saves both as RGB, two cards named "???" both write `.jpg.jpg`: two downloads, one file |

## Left out

- HTTP (`requests.get`, `raise_for_status`) and PIL (`Image.open`, `resize`, `save`) are foreign libraries. They are the `Outcome` oracle, which gives a colour mode on success. Pixels, resampling and encoding are not modelled.
- The resize target is not threaded through the card loop. It never changes a name. Its only effect on the loop goes through the oracle: a resize that raises, for example on dimensions too large to allocate, makes the outcome `Failed`.
- Outcome: the oracle is not restricted to colour modes the JPEG encoder accepts. For a mode such as `P` or `LA`, the JPEG save raises and the real outcome is `Failed`. A `Saved` outcome with such a mode over-approximates the program, and every lemma stays true for it.
- The file system (`Path.exists`, `mkdir`, `shutil.rmtree`) is a set of names. Case-insensitive name matching, failing `mkdir` and partially written files are not modelled.
- Console prompting (`input`, `print`, the ask-again loops, `.strip()`, `.upper()`, `int()` parsing with its `ValueError`) and `load_json_data` are I/O. Only the pure accept/reject decisions of the size menu, the dimensions and the folder name are modelled.
- `get_target_directory` is modelled only by its unique-folder probe and its folder-name check. The menu, overwrite and cancel paths are filesystem and prompt handling.
- `time.sleep(0.1)`, the `KeyboardInterrupt`/`finally` summary and the outer `except Exception` are timing and signal handling.
- The JSON document is taken to be a list of card records. A `name` that is not a string or null, and a URL that is null rather than missing, are not modelled separately. A null URL behaves like a missing one in the script.
- Exceptions raised while printing progress are not modelled. This includes the print inside `download_image`, which would turn a saved file into a `False` result. `Raised` stands for an exception escaping before the download returns.

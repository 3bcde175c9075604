/**
 * The pure decisions inside the three set-up prompts: the size menu, the check on
 * resize dimensions and the check on a new folder name. The prompting itself,
 * which asks again until an answer is accepted, is not modelled; a `None` result
 * below is the point where the program would ask again.
 */
module Prompts {
  import opened Wrappers
  import opened Sanitize

  /** The six size keys the menu offers. */
  const SizeKeys: set<string> := {"small", "normal", "large", "png", "art_crop", "border_crop"}

  /** The menu: choice "1" to "6" to its size key. */
  const SizeMapping: map<string, string> :=
    map["1" := "small", "2" := "normal", "3" := "large", "4" := "png", "5" := "art_crop", "6" := "border_crop"]

  /** The size key for one (already stripped) menu answer, or `None` for an invalid choice. */
  function SizeChoice(choice: string): (r: Option<string>)
    ensures r.Some? <==> choice in {"1", "2", "3", "4", "5", "6"}
    ensures r.Some? ==> r.value in SizeKeys
  {
    if choice in SizeMapping then Some(SizeMapping[choice]) else None
  }

  /** The menu answer that selects `key`. */
  function MenuChoice(key: string): (choice: string)
    requires key in SizeKeys
    ensures choice in SizeMapping && SizeMapping[choice] == key
  {
    if key == "small" then "1"
    else if key == "normal" then "2"
    else if key == "large" then "3"
    else if key == "png" then "4"
    else if key == "art_crop" then "5"
    else "6"
  }

  /** The menu is a bijection between the six answers and the six size keys. */
  lemma SizeMenuBijective()
    ensures forall choice :: choice in SizeMapping ==> MenuChoice(SizeMapping[choice]) == choice
    ensures forall key :: key in SizeKeys ==> SizeChoice(MenuChoice(key)) == Some(key)
  {
  }

  /** What the program resizes to: nothing, or a width and a height in pixels. */
  datatype Resize = NoResize | ResizeTo(width: int, height: int)

  /** The resize preference holds positive dimensions whenever it asks for a resize. */
  predicate ValidResize(r: Resize) {
    r.ResizeTo? ==> r.width > 0 && r.height > 0
  }

  /** The check on one width/height answer: accepted as a resize target only when both are
      positive; `None` asks for the dimensions again. */
  function CheckDimensions(width: int, height: int): (r: Option<Resize>)
    ensures r.Some? <==> width > 0 && height > 0
    ensures r.Some? ==> r.value == ResizeTo(width, height) && ValidResize(r.value)
  {
    if width <= 0 || height <= 0 then None else Some(ResizeTo(width, height))
  }

  /** The check on a new folder name (after stripping): refused when empty or when it holds
      any character of the sanitizer's class. */
  predicate FolderNameAccepted(name: string)
    ensures FolderNameAccepted(name) ==> SanitizeFilename(name) == name
  {
    SanitizeFixedIffClean(name);
    name != [] && IsClean(name)
  }

  /** A folder name is accepted exactly when it is non-empty and the sanitizer leaves it alone. */
  lemma {:induction false} FolderNameAcceptedIffSanitized(name: string)
    ensures FolderNameAccepted(name) <==> name != [] && SanitizeFilename(name) == name
  {
    SanitizeFixedIffClean(name);
  }
}

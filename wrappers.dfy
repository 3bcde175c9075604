/** The optional value used for JSON fields that may be absent and for prompts that ask again. */
module Wrappers {
  datatype Option<+T> = None | Some(value: T)
}

/** The optional result used for the lexer's "lexical error" signal (Python's `None`). */
module Wrappers {
  datatype Option<+T> = None | Some(value: T)
}

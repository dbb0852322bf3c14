/** Option and Result values used in place of Rust's `Option`, `unwrap` and panics. */
module Wrappers {

  datatype Option<+T> = None | Some(value: T)

  /** The fatal conditions of the tree operations of the search engine (expansion and child
      selection), each of which aborts the program in the source. A rollout can abort too; that
      is not among them, because the rollout's outcome is a parameter here. */
  datatype Error =
    | TerminalExpansion   // expanding a terminal node
    | ReExpansion         // expanding a node that already has children
    | NoChildren          // picking a best child (or best action) of a node with no children

  datatype Result<+T> = Ok(value: T) | Err(error: Error)
}

/** Option and Result, the two failure-carrying wrappers the rest of the model uses,
    and the errors the store's code throws. */
module Wrappers {

  datatype Option<+T> = None | Some(value: T)

  datatype Result<+T, +E> = Success(value: T) | Failure(error: E)

  /** The exceptions the store raises: a match condition of a type other than
      `prefix` or `suffix`, and calling `split` on a metadata field that holds a
      value other than a string, `null` or nothing. */
  datatype StoreError =
    | UnsupportedMatchType(matchType: string)
    | SplitOfNonString(field: string)
}

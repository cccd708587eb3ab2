/** Shared vocabulary: the stock optional value, for every result the source may not have, and substrings. */
module Wrappers {
  datatype Option<+T> = None | Some(value: T)

  ghost predicate Occurs(s: string, t: string) {
    exists at :: 0 <= at <= |t| && s <= t[at..]
  }
}

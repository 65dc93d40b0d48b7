/** What several modules share. */
module Basics {

  datatype Option<+T> = None | Some(value: T)

  ghost predicate NoDuplicates<T(!new)>(s: seq<T>) {
    forall i, j | 0 <= i < j < |s| :: s[i] != s[j]
  }

  /** Keys that begin with `$` belong to the framework. */
  predicate Dollar(key: string) { |key| > 0 && key[0] == '$' }
}

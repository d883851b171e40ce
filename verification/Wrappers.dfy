/** The usual optional value, and lists of names that stand for the keys of a map. */
module Wrappers {
  datatype Option<+T> = None | Some(value: T)

  ghost predicate DistinctNames(names: seq<string>) {
    forall i, j :: 0 <= i < j < |names| ==> names[i] != names[j]
  }
}

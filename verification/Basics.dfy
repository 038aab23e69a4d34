/** Definitions that several parts of the model share. */
module Basics {

  datatype Option<+T> = None | Some(value: T)

  /** common.Address. */
  type Address = nat

  ghost predicate Distinct(s: seq<Address>) { forall i, j | 0 <= i < j < |s| :: s[i] != s[j] }
}

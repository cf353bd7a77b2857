/** A value that may be missing, and the lesser of two numbers. */
module Wrappers {

  datatype Option<+T> = None | Some(value: T)

  function Least(a: nat, b: nat): nat { if a <= b then a else b }
}

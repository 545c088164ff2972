/** The kernel's `Option` and `Result`, and a few operations that several of its parts use. */
module Wrappers {
  datatype Option<+T> = None | Some(value: T)
  datatype Result<+T, +E> = Ok(value: T) | Err(error: E)

  function Least(a: nat, b: nat): nat { if a < b then a else b }

  /** Subtraction that stops at zero. */
  function SatSub(a: nat, b: nat): nat { if a < b then 0 else a - b }

  ghost predicate NoDup<T>(q: seq<T>)
  {
    forall i, j {:trigger q[i], q[j]} :: 0 <= i < j < |q| ==> q[i] != q[j]
  }
}

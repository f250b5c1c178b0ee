/** Optional values, results and a few facts, shared by every component. */
module Wrappers {

  datatype Option<+T> = None | Some(value: T)

  datatype Result<+T, +E> = Ok(value: T) | Err(error: E)

  /** How a write fares: one whose reply is lost may have been applied or not. */
  datatype Fault = Fine | Lost(applied: bool)

  function Min(a: nat, b: nat): nat {
    if a < b then a else b
  }

  lemma {:induction false} SubsetSize<T>(a: set<T>, b: set<T>)
    requires a <= b
    ensures |a| <= |b|
  {
    if a != {} {
      var x :| x in a;
      SubsetSize(a - {x}, b - {x});
    }
  }
}

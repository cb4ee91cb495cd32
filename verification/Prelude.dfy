/** Types that several modules share. */
module Prelude {

  datatype Option<+T> = None | Some(value: T)

  newtype byte = x: int | 0 <= x < 256

  type Bytes = seq<byte>

  /** A failure from outside, which occurs only if it may. */
  method Fails(mayFail: bool) returns (failed: bool)
    ensures failed ==> mayFail
  {
    failed := *;
    failed := failed && mayFail;
  }
}

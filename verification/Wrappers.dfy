/** Result types and byte vocabulary shared by the model. */
module Wrappers {

  datatype Option<+T> = None | Some(value: T)

  /** A Rust `Result`. */
  datatype Result<+T, +E> = Ok(value: T) | Err(error: E) {
    /** The same error, as the result of another operation. */
    function PropagateFailure<U>(): (r: Result<U, E>)
      requires Err?
    {
      Err(error)
    }
  }

  /** A u8. */
  type byte = x: int | 0 <= x < 256

  /** UTF-8 text, one character below 256 for each byte. */
  type Text = s: string | forall i :: 0 <= i < |s| ==> s[i] as int < 256

  const U16_MAX: nat := 0xFFFF
  const U64_MAX: nat := 0xFFFF_FFFF_FFFF_FFFF
  const U128_MAX: nat := 0xFFFF_FFFF_FFFF_FFFF_FFFF_FFFF_FFFF_FFFF

  /** 2^53 - 1, the bound of JavaScript's `Number.isSafeInteger`. */
  const MAX_SAFE_INTEGER: nat := 9_007_199_254_740_991
}

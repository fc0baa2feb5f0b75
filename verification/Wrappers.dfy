/** Values for the source's optional results and error returns, and arithmetic shared by the limiters. */
module Wrappers {
  datatype Option<+T> = None | Some(value: T)

  datatype Result<+T, +E> = Ok(value: T) | Err(error: E)

  function Max(a: int, b: int): int { if a < b then b else a }

  /** A product that proofs handle by name. */
  function Times(a: nat, b: nat): nat { a * b }

  /** `Instant::duration_since`, which saturates at zero. */
  function Elapsed(now: int, since: int): int { if now < since then 0 else now - since }
}

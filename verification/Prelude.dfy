/** Small vocabulary shared by every module. */
module Prelude {

  datatype Option<+T> = None | Some(value: T)

  datatype Result<+T, +E> = Ok(value: T) | Err(error: E)

  // A point in time, in microseconds: the resolution of Python's datetime.
  type Instant = int

  const SECOND: int := 1_000_000
  const MINUTE: int := 60 * SECOND

  function Min(a: int, b: int): int {
    if a <= b then a else b
  }

  function Max(a: int, b: int): int {
    if a <= b then b else a
  }

  function MinReal(a: real, b: real): real {
    if a <= b then a else b
  }

  function MaxReal(a: real, b: real): real {
    if a <= b then b else a
  }

  /** A column after an assignment through a session that loaded it as `loaded`: only what
      differs from the loaded value is written. */
  function Assigned<T(==)>(committed: T, loaded: T, value: T): T {
    if value == loaded then committed else value
  }

  function Pow2(k: nat): nat {
    if k == 0 then 1 else 2 * Pow2(k - 1)
  }
}

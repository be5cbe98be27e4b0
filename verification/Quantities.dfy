/** The lesser and the greater of two numbers, and a minute. */
module Quantities {

  /** Nanoseconds in a minute; instants are nanosecond counts. */
  const MINUTE := 60_000_000_000

  function Min(a: int, b: int): int {
    if a <= b then a else b
  }

  function Max(a: int, b: int): int {
    if a >= b then a else b
  }
}

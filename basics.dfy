/** Small value types shared by every module: Java's nullable references
    become `Option`, thrown exceptions become the `Err` or `Fail` side of a
    result, and a Java `byte[]` is a sequence of `byte`. */
module Basics {

  datatype Option<+T> = None | Some(value: T)

  /** The outcome of a Java method that returns a value or throws. */
  datatype Result<+T, +E> = Ok(value: T) | Err(error: E)

  /** The outcome of a Java `void` method that may throw. */
  datatype Outcome<+E> = Pass | Fail(error: E)

  /** Java's signed 8-bit `byte`. */
  newtype byte = x: int | -128 <= x < 128

  /** An instant, in milliseconds since the epoch (instants before the
      epoch do not occur in this application). */
  type Instant = nat

  /** A `LocalDateTime`, as a count of some fixed unit: the model only
      copies and compares these values. */
  type LocalDateTime = int

  /** Java's `String.startsWith`. */
  predicate StartsWith(s: string, prefix: string) {
    |prefix| <= |s| && s[..|prefix|] == prefix
  }
}

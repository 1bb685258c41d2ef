/** Values shared by every module. */
module Common {

  /** A value that may be absent: nil in the program, NULL in a column. */
  datatype Option<+T> = None | Some(value: T)

  /** An INTEGER column. Windows are held in seconds in one of these, so a window in
      nanoseconds always fits Go's 64-bit time.Duration and its products never wrap. */
  type Int32 = x: int | -0x8000_0000 <= x < 0x8000_0000

  /** Nanoseconds since the Unix epoch, UTC. */
  type Instant = int

  const SECOND: int := 1_000_000_000
  const MINUTE: int := 60 * SECOND
  const DAY: int := 86_400 * SECOND

  /** The Go zero time, 1 January of year 1. */
  const ZERO_TIME: Instant := -62_135_596_800 * SECOND

  /** The range of an unsigned 64-bit counter. */
  const TWO_TO_64: nat := 0x1_0000_0000_0000_0000

  function Front<T>(s: seq<T>): seq<T>
    requires s != []
  {
    s[..|s| - 1]
  }

  function Last<T>(s: seq<T>): T
    requires s != []
  {
    s[|s| - 1]
  }
}

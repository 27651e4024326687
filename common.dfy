/** Types shared by the handlers and services of the wishlist backend. */
module Common {

  /** An optional value; `None` stands for Go's zero value or a missing record. */
  datatype Option<+T> = None | Some(value: T)

  /** A `uuid.UUID`: sixteen bytes, read here as one 128-bit number. */
  newtype Uuid = x: int | 0 <= x < 0x1_0000_0000_0000_0000_0000_0000_0000_0000

  /** The all-zero UUID (`uuid.Nil`), which is also the Go zero value of the type. */
  const NilUuid: Uuid := 0

  /** A wall-clock instant (`time.Time`), as nanoseconds since the Unix epoch. */
  type Instant = int

  /** The zero `time.Time`: midnight UTC on 1 January of year 1. */
  const ZeroTime: Instant := -62135596800 * 1_000_000_000
}

/** Constants and small types shared by the components (internal/protocol). */
module Protocol {
  /** One byte on the wire. */
  type Byte = x: int | 0 <= x < 256

  /** The largest stream offset and the largest varint, 2^62 - 1. */
  const MAX_BYTE_COUNT: int := 4611686018427387903

  /** No packet number. */
  const INVALID_PACKET_NUMBER: int := -1

  datatype Option<+T> = None | Some(value: T)

  function Min(a: int, b: int): int {
    if a <= b then a else b
  }

  function Max(a: int, b: int): int {
    if a <= b then b else a
  }
}

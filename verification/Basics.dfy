/** Types shared by every module: optional values, results, bytes and identifiers. */
module Basics {

  datatype Option<+T> = None | Some(value: T)

  datatype Result<+T, +E> = Ok(value: T) | Err(error: E)

  type byte = x: int | 0 <= x < 256

  type Bytes = seq<byte>

  /** A `[u8; 32]`: invite secrets and pairing nonces. */
  type Bytes32 = b: Bytes | |b| == 32 witness seq(32, i => 0)

  const UUID_LIMIT: int := 0x1_0000_0000_0000_0000_0000_0000_0000_0000

  /** A UUID as the 128-bit number its sixteen big-endian bytes spell. */
  type Uuid = x: int | 0 <= x < UUID_LIMIT

  function Max(a: int, b: int): int {
    if a >= b then a else b
  }

  /** The number that decimal digits spell. */
  function Numeral(digits: string): int {
    if digits == "" then 0 else 10 * Numeral(digits[..|digits| - 1]) + (digits[|digits| - 1] as int - '0' as int)
  }
}

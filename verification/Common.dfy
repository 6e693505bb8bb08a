/** Shared vocabulary: optional values, results and the machine integers of the wire formats. */
module Common {

  datatype Option<+T> = None | Some(value: T)

  datatype Result<+T, +E> = Ok(value: T) | Err(error: E)

  type i64 = x: int | -0x8000_0000_0000_0000 <= x < 0x8000_0000_0000_0000

  type u64 = x: int | 0 <= x < 0x1_0000_0000_0000_0000

  /** The two's-complement reading of a signed 64-bit value. */
  function AsU64(x: i64): (r: u64)
    ensures (r - x) % 0x1_0000_0000_0000_0000 == 0 && (x >= 0 ==> r == x)
  {
    if x < 0 then x + 0x1_0000_0000_0000_0000 else x
  }
}

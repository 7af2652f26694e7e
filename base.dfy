/** Machine-width integer types and the Option/Result wrappers shared by every module. */
module Base {
  const U8_MAX: int := 0xFF
  const U16_MAX: int := 0xFFFF
  const U32_MAX: int := 0xFFFF_FFFF

  type u8 = x: int | 0 <= x <= 0xFF
  type u16 = x: int | 0 <= x <= 0xFFFF
  type i16 = x: int | -0x8000 <= x <= 0x7FFF
  type u32 = x: int | 0 <= x <= 0xFFFF_FFFF

  datatype Option<+T> = None | Some(value: T)

  datatype Result<+T, +E> = Ok(value: T) | Err(error: E)

  /** Rust's `Ordering`. */
  datatype Ordering = Less | Equal | Greater
}

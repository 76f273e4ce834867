/** Small vocabulary shared by the component models. */
module Common {

  datatype Option<+T> = None | Some(value: T)

  /** An unsigned 8-bit value. */
  type byte = x: int | 0 <= x < 256

  function Min(a: int, b: int): int { if a < b then a else b }
}

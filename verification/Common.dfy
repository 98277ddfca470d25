/** Types shared by every module of the model. */
module Common {

  /** A UUID, as the number its 32 hexadecimal digits denote. The canonical text form has a
      fixed width and lower-case digits, so its string order is the order of these numbers. */
  type UUID = nat

  /** uuid.Nil */
  const NIL_UUID: UUID := 0

  const MAX_INT64 := 0x7FFF_FFFF_FFFF_FFFF

  datatype Option<+T> = None | Some(value: T)

  datatype Result<+T> = Ok(value: T) | Err(message: string)

  function Max(a: int, b: int): int {
    if a < b then b else a
  }

  function Min(a: int, b: int): int {
    if a < b then a else b
  }
}

/** What several modules share. */
module Common {

  datatype Option<T> = None | Some(value: T)

  /** One more than the largest 32-bit unsigned integer. */
  const U32: nat := 0x1_0000_0000
}

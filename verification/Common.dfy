/** What the other modules share. */
module Common {
  datatype Option<+T> = None | Some(value: T)

  type Byte = b: nat | b < 256

  /** Largest message on a channel, in bytes (`panda-abi`). */
  const MAX_MESSAGE_SIZE: nat := 4096
}

/** What several modules share. */
module Basics {

  datatype Option<+T> = None | Some(value: T)

  type Byte = n: int | 0 <= n < 256

  const MEGABYTE := 0x10_0000
}

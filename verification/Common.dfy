/** What several components share: an optional value, and a byte. */
module Common {

  datatype Option<T> = None | Some(value: T)

  type Byte = b: int | 0 <= b < 256 witness 0
}

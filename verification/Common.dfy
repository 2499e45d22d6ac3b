/** What several of the smaller models need. */
module Common {

  type Byte = x: int | 0 <= x < 256

  datatype Option<T> = None | Some(value: T)
}

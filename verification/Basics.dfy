/** What every other module uses. */
module Basics {

  type Byte = x: int | 0 <= x < 256

  datatype Maybe<T> = None | Some(value: T)
}

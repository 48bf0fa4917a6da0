/** Kotlin's nullable values (`T?`) are modelled as options. */
module Wrappers {

  datatype Option<+T> = None | Some(value: T)
}

/** An optional value, for the places where the source uses `std::optional`
    or a value that may be absent (a file that does not exist, a parse that fails). */
module Wrappers {

  datatype Option<+T> = None | Some(value: T)
}

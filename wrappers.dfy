/** The optional value used for the calls that may come back empty: a library
    lookup that finds nothing, an `int()` that raises `ValueError`, a file-size
    probe that raises `OSError`. */
module Wrappers {

  datatype Option<+T> = None | Some(value: T)
}

/** The "value or nothing" result used for Python's `None` returns and for
    the exceptions that the analyzer catches and turns into a decision. */
module Wrappers {

  datatype Option<+T> = None | Some(value: T)
}

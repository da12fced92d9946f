/** The optional-value type shared by the model: a missing XML text, a failed
    integer parse and an out-of-range list index are all `None`. */
module Wrappers {

  datatype Option<+T> = None | Some(value: T)

}

/** The optional value used across the model: a JavaScript `undefined`/`null`
    or a Python `None` on one side, a present value on the other. */
module Wrappers {

  datatype Option<+T> = None | Some(value: T)

}

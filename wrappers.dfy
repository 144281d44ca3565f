/** The optional value used wherever the modelled code returns `None`/`null`
    or aborts with an exception that the caller does not catch. */
module Wrappers {

  datatype Option<+T> = None | Some(value: T)

}

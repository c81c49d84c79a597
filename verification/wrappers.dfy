/** Option for values that may be absent, and Outcome for a remote call that either
    returned a value or threw (the caller catches every such throw). */
module Wrappers {

  datatype Option<+T> = None | Some(value: T)

  datatype Outcome<+T> = Ok(value: T) | Err
}

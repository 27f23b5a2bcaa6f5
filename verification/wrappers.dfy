/** The optional value used wherever the system may hold "nothing": an image
    that has not been chosen, a stored document that is not a post. */
module Wrappers {

  datatype Option<+T> = None | Some(value: T)
}

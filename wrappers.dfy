/** The optional value used wherever the bot stores `None` or gets no regex match. */
module Wrappers {

  datatype Option<+T> = None | Some(value: T)
}

/** The optional value that the bot's parser returns in place of Python's `None`. */
module Wrappers {

  datatype Option<+T> = None | Some(value: T)
}

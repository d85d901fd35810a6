/** The optional value used wherever bot.py returns either a value or None. */
module Wrappers {

  datatype Option<+T> = None | Some(value: T)

}

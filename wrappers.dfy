/** The optional value used wherever the bot's Python code has "nothing found"
    (an empty query result, str.find returning -1, a missing dictionary key). */
module Wrappers {

  datatype Option<+T> = None | Some(value: T)

}

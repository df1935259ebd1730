/** The optional value used for the scanner's last match, which starts out as
    JavaScript's `null` and is a string after the first match. */
module Wrappers {

  datatype Option<+T> = None | Some(value: T)
}

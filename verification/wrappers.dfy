/** The optional value used wherever the page's script may find nothing (a missing link,
    an absent attribute, an empty storage slot). */
module Wrappers {
  datatype Option<+T> = None | Some(value: T)
}

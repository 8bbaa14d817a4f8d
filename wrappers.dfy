/** The optional value used wherever the source reads something that may be absent
    (a DOM element that is not mounted, a player command that is not issued). */
module Wrappers {

  datatype Option<+T> = None | Some(value: T)

}

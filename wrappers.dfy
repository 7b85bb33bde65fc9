/** The optional value used where the game keeps `null`: an unassigned role,
    a line with nothing to complete, a score not yet computed. */
module Wrappers {
  datatype Option<+T> = None | Some(value: T)
}

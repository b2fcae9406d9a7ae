/** Small definitions that several modules share. */
module Wrappers {

  datatype Option<T> = None | Some(value: T)

  /**
   A marker for arguments: a quantifier triggered by it makes a definition available only where the marker is put, and
   keeps it out of every other proof.
   */
  ghost predicate Asked<T>(x: T) {
    true
  }
}

/** The optional value used where the cluster's code returns or stores `None`. */
module Wrappers {
  datatype Option<+T> = None | Some(value: T)
}

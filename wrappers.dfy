/** The optional value used where the modelled Ruby code returns `nil`. */
module Wrappers {

  datatype Option<+T> = None | Some(value: T)
}

/** Optional values, for the arguments the source may leave as `None`. */
module Wrap {

  datatype Option<+T> = None | Some(value: T)

}

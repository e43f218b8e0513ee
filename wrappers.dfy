/** Optional values, used for the outcome of decoding and for optional step inputs. */
module Wrappers {
  datatype Option<+T> = None | Some(value: T)
}

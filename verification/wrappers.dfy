/** Optional values, used for a key that local storage may not hold and for a
    gift pack that may not have been chosen yet. */
module Wrappers {

  datatype Option<T> = None | Some(value: T)
}

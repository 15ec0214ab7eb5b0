/** Optional values, used for the source's "no match" and "could not parse" outcomes. */
module Wrappers {

  datatype Option<+T> = None | Some(value: T)

}

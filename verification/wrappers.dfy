/** Optional values, used wherever the program's Go code returns a value
    together with an error, or a search that may find nothing. */
module Wrappers {

  datatype Option<+T> = None | Some(value: T)
}

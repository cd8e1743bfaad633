/** Optional values, standing for std::optional and nullable results. */
module Wrappers {

  datatype Option<+T> = None | Some(value: T)

}

/** Optional values, used where the source throws std::out_of_range from map::at. */
module Wrappers {

  datatype Option<+T> = None | Some(value: T)
}

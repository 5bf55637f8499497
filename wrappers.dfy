/** Optional values, used for results that may be absent (a rejected sensor frame,
    a local time that could not be obtained). */
module Wrappers {

  datatype Option<+T> = None | Some(value: T)
}

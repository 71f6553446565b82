/** Optional values, standing for the nullable references of the simulator
    (a route element that may be missing, a hold point without a route). */
module Wrappers {

  datatype Option<+T> = None | Some(value: T)
}

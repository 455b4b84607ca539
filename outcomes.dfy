/** Optional values, standing for Python's `None` and for operations that may raise. */
module Outcomes {

  datatype Option<T> = None | Some(value: T)

}

/** Optional values: `None` stands for a program the C++ compiler refuses. */
module Wrappers {

  datatype Option<+T> = None | Some(value: T)
}
